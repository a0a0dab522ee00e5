/** The eight-voice synthesizer: a machine of positions and envelopes, and the stateless formula it follows. */
module AudioDsp {
  import opened Bytes
  import opened Modular
  import opened Recipes

  type Int16 = n: int | -0x8000 <= n < 0x8000
  type Int32 = n: int | -0x8000_0000 <= n < 0x8000_0000

  const VOICES := 8
  const SAMPLE_MEM := 4096
  const FRAMES := 1000
  const PER_FRAME := 512
  const WRAP_POS := 0x100_0000

  datatype Envelope = Envelope(level: Int32, phase: Byte)

  datatype Voice = Voice(pos: Int32, inc: Int32, env: Envelope, off: Half)

  // ---------------------------------------------------------------- the formula

  /** The upper half of a word, signed. */
  function UpperHalf(s: Word): Int16 {
    var h := s / 0x1_0000;
    if h >= 0x8000 then h - 0x1_0000 else h
  }

  function SampleAt(seed: Word, i: nat): Int16 { UpperHalf(Nth(seed, i + 1)) }

  function Samples(seed: Word): (s: seq<Int16>)
    ensures |s| == SAMPLE_MEM
  {
    seq(SAMPLE_MEM, i requires 0 <= i < SAMPLE_MEM => SampleAt(seed, i))
  }

  /**
    * The envelope of every voice after t samples: up to the top, down to a sustained level, and, from the
    * end of frame 750, down to silence.
    */
  function EnvelopeAt(t: nat): (e: Envelope)
    ensures 0 <= e.level <= 0x7FF
  {
    if t < 128 then Envelope(16 * t, 0)
    else if t < 320 then Envelope(0x7FF - 4 * (t - 128), 1)
    else if t == 251 * PER_FRAME then Envelope(0x500, 1)
    else if t < 751 * PER_FRAME then Envelope(0x500, 2)
    else if t < 751 * PER_FRAME + 640 then Envelope(0x500 - 2 * (t - 751 * PER_FRAME), 3)
    else Envelope(0, 3)
  }

  function Increment(v: nat): nat { 0x800 + v * 0x80 }

  function PositionAt(v: nat, t: nat): (pos: nat)
    ensures pos < WRAP_POS
  {
    Scaled(t, Increment(v)) % WRAP_POS
  }

  function Scaled(t: nat, inc: nat): nat { t * inc }

  /** Rust's division, which truncates. */
  function Sixth(n: int): int { if n >= 0 then n / 6 else -(-n / 6) }

  /** The quotient never leaves a remainder of the other sign, or of six or more. */
  lemma SixthTruncates(n: int)
    ensures if n >= 0 then 0 <= n - 6 * Sixth(n) < 6 else -6 < n - 6 * Sixth(n) <= 0
  {
  }

  function Interpolated(s: seq<Int16>, off: nat, at: nat): (r: int)
    requires |s| == SAMPLE_MEM
    ensures -0x8000 <= r < 0x8000
  {
    Sixth(Fetched(s, off, at) + 2 * Fetched(s, off, at + 1) + 2 * Fetched(s, off, at + 2) + Fetched(s, off, at + 3))
  }

  function Fetched(s: seq<Int16>, off: nat, at: nat): (r: int)
    requires |s| == SAMPLE_MEM
    ensures -0x8000 <= r < 0x8000
  {
    s[(off + at) % SAMPLE_MEM]
  }

  /** What voice v adds to sample t. */
  function Contribution(s: seq<Int16>, v: nat, t: nat): int
    requires |s| == SAMPLE_MEM
  {
    Product(Interpolated(s, v * 512, PositionAt(v, t) / 0x1000), EnvelopeAt(t + 1).level) / 0x800
  }

  /** The first n voices of sample t. */
  function Mix(s: seq<Int16>, n: nat, t: nat): int
    requires |s| == SAMPLE_MEM
  {
    if n == 0 then 0 else Mix(s, n - 1, t) + Contribution(s, n - 1, t)
  }

  function LowPass(state: int, input: int): int { state + (input - state) / 4 }

  function Filtered(s: seq<Int16>, t: nat): int
    requires |s| == SAMPLE_MEM
  {
    if t == 0 then 0 else LowPass(Filtered(s, t - 1), Mix(s, VOICES, t - 1))
  }

  function Clamped(n: int): Int16 { if n < -0x8000 then -0x8000 else if n > 0x7FFF then 0x7FFF else n }

  /** The sum of the first t output samples. */
  function OutputSum(s: seq<Int16>, t: nat): int
    requires |s| == SAMPLE_MEM
  {
    if t == 0 then 0 else OutputSum(s, t - 1) + Clamped(Filtered(s, t))
  }

  // ---------------------------------------------------------------- bounds

  lemma ProductBounds(a: int, e: int)
    requires -0x8000 <= a < 0x8000 && 0 <= e <= 0x7FF
    ensures -0x8000 * 0x7FF <= Product(a, e) <= 0x7FFF * 0x7FF
  {
    ProductWithin(a, -0x8000, 0x7FFF, e);
  }

  lemma ContributionBounds(s: seq<Int16>, v: nat, t: nat)
    requires |s| == SAMPLE_MEM
    ensures -0x8000 < Contribution(s, v, t) < 0x8000
  {
    hide Interpolated, EnvelopeAt, Product;
    ProductBounds(Interpolated(s, v * 512, PositionAt(v, t) / 0x1000), EnvelopeAt(t + 1).level);
  }

  lemma {:induction false} MixBounds(s: seq<Int16>, n: nat, t: nat)
    requires |s| == SAMPLE_MEM
    ensures -0x8000 * n <= Mix(s, n, t) <= 0x8000 * n
  {
    hide Contribution;
    if n > 0 {
      MixBounds(s, n - 1, t);
      ContributionBounds(s, n - 1, t);
    }
  }

  /** A low-pass step ends between the old state and the input. */
  lemma LowPassIsBetween(state: int, input: int)
    ensures state <= input ==> state <= LowPass(state, input) <= input
    ensures input <= state ==> input <= LowPass(state, input) <= state
  {
  }

  lemma {:induction false} FilteredBounds(s: seq<Int16>, t: nat)
    requires |s| == SAMPLE_MEM
    ensures -0x4_0000 <= Filtered(s, t) <= 0x4_0000
  {
    hide Mix;
    if t > 0 {
      FilteredBounds(s, t - 1);
      MixBounds(s, VOICES, t - 1);
      LowPassIsBetween(Filtered(s, t - 1), Mix(s, VOICES, t - 1));
    }
  }

  // ---------------------------------------------------------------- the machine

  function EnvelopeStep(e: Envelope): Envelope
    requires 0 <= e.level <= 0x7FF
  {
    match e.phase
    case 0 => if e.level + 0x10 >= 0x7FF then Envelope(0x7FF, 1) else Envelope(e.level + 0x10, 0)
    case 1 => if e.level - 4 < 0x500 then Envelope(0x500, 2) else Envelope(e.level - 4, 1)
    case 2 => e
    case _ => Envelope(if e.level - 2 < 0 then 0 else e.level - 2, e.phase)
  }

  /** The phase that the end of a frame imposes, if any. */
  function Imposed(frame: nat, e: Envelope): Envelope {
    if frame == FRAMES / 4 then e.(phase := 1)
    else if frame == FRAMES / 2 then e.(phase := 2)
    else if frame == 3 * FRAMES / 4 then e.(phase := 3)
    else e
  }

  /** The machine follows the formula from one sample to the next inside a frame. */
  lemma EnvelopeFollows(t: nat)
    requires (t + 1) % PER_FRAME != 0
    ensures EnvelopeStep(EnvelopeAt(t)) == EnvelopeAt(t + 1)
  {
  }

  lemma LevelFollows(t: nat)
    ensures EnvelopeStep(EnvelopeAt(t)).level == EnvelopeAt(t + 1).level
  {
  }

  /** And over the end of a frame. */
  lemma EnvelopeFollowsFrame(frame: nat)
    ensures Imposed(frame, EnvelopeStep(EnvelopeAt(frame * PER_FRAME + PER_FRAME - 1)))
        == EnvelopeAt((frame + 1) * PER_FRAME)
  {
  }

  lemma PositionFollows(v: nat, t: nat)
    requires v < VOICES
    ensures var p := PositionAt(v, t) + Increment(v);
      PositionAt(v, t + 1) == if p >= WRAP_POS then p - WRAP_POS else p
  {
    hide Scaled;
    ScaledStep(t, Increment(v));
  }

  lemma ScaledStep(t: nat, inc: nat)
    ensures Scaled(t + 1, inc) == Scaled(t, inc) + inc
  {
  }

  /** From 640 samples after the release on, no voice is heard. */
  lemma {:induction false} ReleaseEndsInSilence(s: seq<Int16>, n: nat, t: nat)
    requires |s| == SAMPLE_MEM && t >= 751 * PER_FRAME + 640
    ensures Mix(s, n, t) == 0
  {
    hide Interpolated;
    if n > 0 { ReleaseEndsInSilence(s, n - 1, t); }
  }

  function SignedWrap(n: int): Int32 { (n + 0x8000_0000) % 0x1_0000_0000 - 0x8000_0000 }

  /** Voice v before sample t. */
  function VoiceAt(v: nat, t: nat): Voice
    requires v < VOICES
  {
    Voice(PositionAt(v, t), Increment(v), EnvelopeAt(t), v * 512)
  }

  /** Voice v once it has made sample t. */
  function VoiceAfter(v: nat, t: nat): Voice
    requires v < VOICES
  {
    Voice(PositionAt(v, t + 1), Increment(v), EnvelopeStep(EnvelopeAt(t)), v * 512)
  }

  predicate VoicesAt(vs: seq<Voice>, t: nat) {
    |vs| == VOICES && forall v | 0 <= v < VOICES :: vs[v] == VoiceAt(v, t)
  }

  predicate VoicesAfter(vs: seq<Voice>, t: nat) {
    |vs| == VOICES && forall v | 0 <= v < VOICES :: vs[v] == VoiceAfter(v, t)
  }

  /** The first n voices have made sample t, and the others have not. */
  predicate Halfway(vs: seq<Voice>, n: nat, t: nat) {
    |vs| == VOICES && forall v | 0 <= v < VOICES :: vs[v] == if v < n then VoiceAfter(v, t) else VoiceAt(v, t)
  }

  lemma AfterIsNext(vs: seq<Voice>, t: nat)
    requires VoicesAfter(vs, t) && (t + 1) % PER_FRAME != 0
    ensures VoicesAt(vs, t + 1)
  {
    hide EnvelopeAt, EnvelopeStep, PositionAt;
    EnvelopeFollows(t);
  }

  lemma StartingVoices()
    ensures EnvelopeAt(0) == Envelope(0, 0) && forall v: nat :: PositionAt(v, 0) == 0
  {
  }

  // ---------------------------------------------------------------- the module

  class Synth {
    const sample: array<Int16>
    const voices: array<Voice>
    var lpf: Int32

    ghost predicate Valid()
      reads this
    {
      sample.Length == 4096 && voices.Length == 8 && sample as object != voices as object
    }

    constructor ()
      ensures Valid() && fresh(sample) && fresh(voices)
    {
      sample := new Int16[4096](i => 0);
      voices := new Voice[8](i => Voice(0, 0, Envelope(0, 0), 0));
      lpf := 0;
    }

    method Init(seed: Word)
      requires Valid()
      modifies this, sample, voices
      ensures sample[..] == Samples(seed) && VoicesAt(voices[..], 0) && lpf == 0
    {
      hide SampleAt, PositionAt, EnvelopeAt, Nth, Wrap, UpperHalf, Samples;
      var s := seed;
      FirstState(seed);
      for i := 0 to 4096
        invariant s == Nth(seed, i)
        invariant forall k | 0 <= k < i :: sample[k] == SampleAt(seed, k)
      {
        s := Wrap((s as int) * 1664525 + 1013904223);
        NextSampleIs(seed, i);
        UpperHalfIs(s);
        var h: int := s / 0x1_0000;
        sample[i] := if h >= 0x8000 then h - 0x1_0000 else h;
      }
      SamplesAre(sample[..], seed);
      ghost var filled := sample[..];
      StartingVoices();
      for v := 0 to 8
        invariant sample[..] == filled
        invariant forall k | 0 <= k < v :: voices[k] == VoiceAt(k, 0)
      {
        OffsetIs(v);
        voices[v] := Voice(0, 0x800 + v * 0x80, Envelope(0, 0), v * 4096 / 8 % 0x1_0000);
      }
      lpf := 0;
    }

    /** One voice's turn; every value it computes fits 32 bits. */
    method VoiceTurn(v: nat, ghost t: nat) returns (part: Int32)
      requires Valid() && v < VOICES && voices[v] == VoiceAt(v, t)
      modifies voices
      ensures part == Contribution(sample[..], v, t) && -0x8000 < part < 0x8000
      ensures voices[..] == old(voices[..])[v := VoiceAfter(v, t)]
    {
      hide EnvelopeAt, EnvelopeStep, PositionAt, Product, Interpolated, SignedWrap;
      var voice := voices[v];
      var at := voice.pos / 0x1000;
      var s0: Int32 := sample[(voice.off + at) % 4096];
      var s1: Int32 := sample[(voice.off + at + 1) % 4096];
      var s2: Int32 := sample[(voice.off + at + 2) % 4096];
      var s3: Int32 := sample[(voice.off + at + 3) % 4096];
      var weighted: Int32 := s0 + 2 * s1 + 2 * s2 + s3;
      InterpolatedIs(sample[..], voice.off, at);
      var interp: Int32 := if weighted >= 0 then weighted / 6 else -(-weighted / 6);
      voice := voice.(env := EnvelopeStep(voice.env));
      LevelFollows(t);
      ProductBounds(interp, voice.env.level);
      var scaled: Int32 := Product(interp, voice.env.level);
      part := scaled / 0x800;
      ContributionBounds(sample[..], v, t);
      PositionFollows(v, t);
      Unwrapped(voice.pos + voice.inc);
      voice := voice.(pos := SignedWrap(voice.pos + voice.inc));
      if voice.pos >= 0x100_0000 {
        voice := voice.(pos := voice.pos - 0x100_0000);
      }
      voices[v] := voice;
    }

    method NextOutput(ghost t: nat) returns (out: Int16)
      requires Valid() && VoicesAt(voices[..], t) && lpf == Filtered(sample[..], t)
      modifies this`lpf, voices
      ensures VoicesAfter(voices[..], t)
      ensures lpf == Filtered(sample[..], t + 1) && out == Clamped(lpf)
    {
      hide VoiceAt, VoiceAfter, Contribution;
      ghost var s := sample[..];
      var mix: Int32 := 0;
      for v := 0 to 8
        invariant mix == Mix(s, v, t) && -0x8000 * v <= mix <= 0x8000 * v
        invariant Halfway(voices[..], v, t)
        invariant lpf == old(lpf) && sample[..] == s
      {
        assert voices[..][v] == VoiceAt(v, t);
        var part := VoiceTurn(v, t);
        mix := mix + part;
      }
      FilteredBounds(s, t);
      FilteredBounds(s, t + 1);
      var difference: Int32 := mix - lpf;
      lpf := lpf + difference / 4;
      out := if lpf < -32768 then -32768 else if lpf > 32767 then 32767 else lpf;
    }

    /** The end of a frame may move every voice to another phase. */
    method EndFrame(frame: nat)
      requires Valid() && VoicesAfter(voices[..], frame * PER_FRAME + PER_FRAME - 1)
      modifies voices
      ensures VoicesAt(voices[..], (frame + 1) * PER_FRAME)
    {
      hide EnvelopeAt, EnvelopeStep, PositionAt;
      EnvelopeFollowsFrame(frame);
      if frame == 1000 / 4 || frame == 1000 / 2 || frame == 3 * 1000 / 4 {
        var phase := if frame == 1000 / 4 then 1 else if frame == 1000 / 2 then 2 else 3;
        ghost var before := voices[..];
        for v := 0 to 8
          invariant forall k | 0 <= k < VOICES ::
              voices[k] == if k < v then before[k].(env := before[k].env.(phase := phase)) else before[k]
        {
          voices[v] := voices[v].(env := voices[v].env.(phase := phase));
        }
      }
    }

    /** The checksum of a run depends on the seed alone, whatever an earlier run left behind. */
    method Run(seed: Int32) returns (checksum: int)
      requires Valid()
      modifies this, sample, voices
      ensures checksum == OutputSum(Samples(Wrap(seed)), FRAMES * PER_FRAME) % 0x8000_0000
    {
      hide VoicesAt, VoicesAfter, Filtered, Samples, SampleAt, Clamped, OutputSum, SignedWrap;
      Init(Wrap(seed));
      ghost var s := Samples(Wrap(seed));
      NothingYet(s);
      var sum: Int32 := 0;
      for frame := 0 to 1000
        invariant Valid() && sample[..] == s && VoicesAt(voices[..], frame * PER_FRAME)
        invariant lpf == Filtered(s, frame * PER_FRAME) && sum == SignedWrap(OutputSum(s, frame * PER_FRAME))
      {
        for i := 0 to 512
          invariant Valid() && sample[..] == s
          invariant if i < PER_FRAME then VoicesAt(voices[..], frame * PER_FRAME + i)
                    else VoicesAfter(voices[..], frame * PER_FRAME + i - 1)
          invariant lpf == Filtered(s, frame * PER_FRAME + i) && sum == SignedWrap(OutputSum(s, frame * PER_FRAME + i))
        {
          ghost var t := frame * PER_FRAME + i;
          var out := NextOutput(t);
          if i + 1 < 512 { AfterIsNext(voices[..], t); }
          OutputGrows(s, t);
          sum := SignedWrap(sum + out);
        }
        EndFrame(frame);
      }
      WrapKeepsLowBits(OutputSum(s, FRAMES * PER_FRAME));
      checksum := sum % 0x8000_0000;
    }
  }

  lemma SamplesAre(s: seq<Int16>, seed: Word)
    requires |s| == SAMPLE_MEM && forall k | 0 <= k < SAMPLE_MEM :: s[k] == SampleAt(seed, k)
    ensures s == Samples(seed)
  {
    hide SampleAt;
  }

  lemma OffsetIs(v: nat)
    requires v < VOICES
    ensures v * 4096 / 8 % 0x1_0000 == v * 512
  {
  }

  lemma InterpolatedIs(s: seq<Int16>, off: nat, at: nat)
    requires |s| == SAMPLE_MEM
    ensures var (s0: int, s1: int) := (s[(off + at) % 4096], s[(off + at + 1) % 4096]);
            var (s2: int, s3: int) := (s[(off + at + 2) % 4096], s[(off + at + 3) % 4096]);
            Interpolated(s, off, at) == Sixth(s0 + 2 * s1 + 2 * s2 + s3)
  {
  }

  lemma UpperHalfIs(s: Word)
    ensures var h: int := s / 0x1_0000; UpperHalf(s) == if h >= 0x8000 then h - 0x1_0000 else h
  {
  }

  lemma FirstState(seed: Word)
    ensures Nth(seed, 0) == seed
  {
  }

  lemma NextSampleIs(seed: Word, i: nat)
    ensures SampleAt(seed, i) == UpperHalf(Nth(seed, i + 1))
    ensures Nth(seed, i + 1) == Wrap((Nth(seed, i) as int) * 1664525 + 1013904223)
  {
    hide Wrap;
  }

  lemma Unwrapped(n: int)
    requires 0 <= n < 0x8000_0000
    ensures SignedWrap(n) == n
  {
  }

  lemma WrapKeepsLowBits(n: int)
    ensures SignedWrap(n) % 0x8000_0000 == n % 0x8000_0000
  {
  }

  lemma NothingYet(s: seq<Int16>)
    requires |s| == SAMPLE_MEM
    ensures Filtered(s, 0) == 0 && SignedWrap(OutputSum(s, 0)) == 0
  {
  }

  lemma OutputGrows(s: seq<Int16>, t: nat)
    requires |s| == SAMPLE_MEM
    ensures OutputSum(s, t + 1) == OutputSum(s, t) + Clamped(Filtered(s, t + 1))
    ensures SignedWrap(SignedWrap(OutputSum(s, t)) + Clamped(Filtered(s, t + 1))) == SignedWrap(OutputSum(s, t + 1))
  {
    hide Filtered;
  }
}
