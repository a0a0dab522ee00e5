/** The linear congruential generator that fills the inputs of several programs. */
module Recipes {
  import opened Bytes

  function Next(s: Word): Word { Wrap((s as int) * 1664525 + 1013904223) }

  /** The state after n steps. */
  function Nth(s: Word, n: nat): Word {
    if n == 0 then s else Next(Nth(s, n - 1))
  }
}
