/**
 * walkNode calls a lone visitor's leave hook on a node it asked to skip; the merged
 * dispatcher does not. This module says exactly when a visitor can tell the two apart.
 */
module LoneVisitor {
  import opened Options
  import opened Ast
  import opened Traversal

  predicate HasEnter<S>(v: Visitor<S>, kind: Kind) { v.ForKind(kind).enter.Some? }
  predicate HasLeave<S>(v: Visitor<S>, kind: Kind) { v.ForKind(kind).leave.Some? }

  /** The run reaches a SKIP_SUBTREE answer on a node whose kind also has a leave hook. */
  predicate SkipMeetsLeave<S>(c: Config<S>, v: Visitor<S>, node: ASTNode, ti: TypeInfo, s: Solo<S>)
    decreases node
  {
    !s.stopped &&
    var (s1, result) := SoloEnter(v, node, EnterInfo(c.port, c.schema, node, ti), s);
    match result
    case BREAK => false
    case SKIP_SUBTREE => HasLeave(v, node.Kind())
    case CONTINUE => SkipMeetsLeaveAll(c, v, node, Kids(c.keys, node), ChildInfo(c.port, c.schema, node, ti), s1)
  }

  predicate SkipMeetsLeaveAll<S>(
      c: Config<S>, v: Visitor<S>, parent: ASTNode, kids: seq<ASTNode>, ti: TypeInfo, s: Solo<S>)
    requires AllBelow(kids, parent)
    decreases parent, |kids|
  {
    if kids == [] then false else
    var front, last := kids[..|kids|-1], kids[|kids|-1];
    || SkipMeetsLeaveAll(c, v, parent, front, ti, s)
    || SkipMeetsLeave(c, v, last, After(c.port, c.keys, front, ti), SoloAll(c, v, false, parent, front, ti, s))
  }

  // ---------------------------------------------------------------- no such answer: same run

  lemma {:induction false} SameWithout<S>(c: Config<S>, v: Visitor<S>, node: ASTNode, ti: TypeInfo, s: Solo<S>)
    requires !SkipMeetsLeave(c, v, node, ti, s)
    ensures SoloWalk(c, v, true, node, ti, s) == SoloWalk(c, v, false, node, ti, s)
    decreases node
  {
    var (s1, result) := SoloEnter(v, node, EnterInfo(c.port, c.schema, node, ti), s);
    if !s.stopped && result == CONTINUE {
      SameWithoutAll(c, v, node, Kids(c.keys, node), ChildInfo(c.port, c.schema, node, ti), s1);
    }
  }

  lemma {:induction false} SameWithoutAll<S>(
      c: Config<S>, v: Visitor<S>, parent: ASTNode, kids: seq<ASTNode>, ti: TypeInfo, s: Solo<S>)
    requires AllBelow(kids, parent)
    requires !SkipMeetsLeaveAll(c, v, parent, kids, ti, s)
    ensures SoloAll(c, v, true, parent, kids, ti, s) == SoloAll(c, v, false, parent, kids, ti, s)
    decreases parent, |kids|
  {
    if kids != [] {
      var front := kids[..|kids|-1];
      SameWithoutAll(c, v, parent, front, ti, s);
      SameWithout(c, v, kids[|kids|-1], After(c.port, c.keys, front, ti), SoloAll(c, v, false, parent, front, ti, s));
    }
  }

  // ---------------------------------------------------------------- such an answer: the logs part

  /** b extends a, and the first call it adds is not the leave of a node whose kind has an enter hook. */
  ghost predicate OpensWell<S>(v: Visitor<S>, a: seq<Call>, b: seq<Call>) {
    a <= b && (|a| < |b| ==> b[|a|].Enter? || !HasEnter(v, b[|a|].node.Kind()))
  }

  lemma {:induction false} WalkOpensWell<S>(
      c: Config<S>, v: Visitor<S>, lenient: bool, node: ASTNode, ti: TypeInfo, s: Solo<S>)
    ensures OpensWell(v, s.calls, SoloWalk(c, v, lenient, node, ti, s).calls)
    decreases node
  {
    var (s1, result) := SoloEnter(v, node, EnterInfo(c.port, c.schema, node, ti), s);
    if !s.stopped && result == CONTINUE {
      AllOpensWell(c, v, lenient, node, Kids(c.keys, node), ChildInfo(c.port, c.schema, node, ti), s1);
    }
  }

  lemma {:induction false} AllOpensWell<S>(
      c: Config<S>, v: Visitor<S>, lenient: bool, parent: ASTNode, kids: seq<ASTNode>, ti: TypeInfo, s: Solo<S>)
    requires AllBelow(kids, parent)
    ensures OpensWell(v, s.calls, SoloAll(c, v, lenient, parent, kids, ti, s).calls)
    decreases parent, |kids|
  {
    if kids != [] {
      var front := kids[..|kids|-1];
      AllOpensWell(c, v, lenient, parent, front, ti, s);
      var last, s1 := kids[|kids|-1], SoloAll(c, v, lenient, parent, front, ti, s);
      WalkOpensWell(c, v, lenient, last, After(c.port, c.keys, front, ti), s1);
    }
  }

  /** At index k the log a leaves node n, whose kind has an enter hook, and b does not. */
  ghost predicate PartedAt<S>(v: Visitor<S>, n: ASTNode, k: nat, a: seq<Call>, b: seq<Call>) {
    && k < |a| && k <= |b| && a[..k] == b[..k]
    && a[k].Leave? && a[k].node == n && HasEnter(v, n.Kind())
    && (k < |b| ==> !(b[k].Leave? && b[k].node == n))
  }

  lemma EnteredWhereParted<S>(v: Visitor<S>, n: ASTNode, k: nat, a: seq<Call>, b: seq<Call>)
    requires PartedAt(v, n, k, a, b)
    ensures HasEnter(v, n.Kind())
  {
  }

  lemma StayParted<S>(v: Visitor<S>, n: ASTNode, k: nat, a: seq<Call>, b: seq<Call>, a': seq<Call>, b': seq<Call>)
    requires PartedAt(v, n, k, a, b) && a <= a' && b <= b'
    requires |b| < |b'| ==> !(b'[|b|].Leave? && b'[|b|].node == n)
    ensures PartedAt(v, n, k, a', b')
  {
    assert a'[..k] == a[..k] && b'[..k] == b[..k];
  }

  lemma {:induction false} PartedBy<S>(
      c: Config<S>, v: Visitor<S>, node: ASTNode, ti: TypeInfo, s: Solo<S>) returns (n: ASTNode, k: nat)
    requires SkipMeetsLeave(c, v, node, ti, s)
    ensures n == node || n < node
    ensures PartedAt(v, n, k, SoloWalk(c, v, true, node, ti, s).calls, SoloWalk(c, v, false, node, ti, s).calls)
    decreases node
  {
    hide EnterInfo, ChildInfo, LeaveInfo, After, Kids, OpensWell, PartedAt;
    var (kids, inside) := (Kids(c.keys, node), ChildInfo(c.port, c.schema, node, ti));
    var (s1, result) := SoloEnter(v, node, EnterInfo(c.port, c.schema, node, ti), s);
    if result == SKIP_SUBTREE {
      n, k := node, |s1.calls|;
      PartedHere(c, v, node, ti, s);
    } else {
      n, k := PartedByAll(c, v, node, kids, inside, s1);
      var a2, b2 := SoloAll(c, v, true, node, kids, inside, s1), SoloAll(c, v, false, node, kids, inside, s1);
      var leave := LeaveInfo(c.port, ti, After(c.port, c.keys, kids, inside));
      LeavingStaysParted(v, node, leave, n, k, a2, b2);
    }
  }

  /** The skipped node itself is where the logs part. */
  lemma PartedHere<S>(c: Config<S>, v: Visitor<S>, node: ASTNode, ti: TypeInfo, s: Solo<S>)
    requires !s.stopped && HasLeave(v, node.Kind())
    requires SoloEnter(v, node, EnterInfo(c.port, c.schema, node, ti), s).1 == SKIP_SUBTREE
    ensures var s1 := SoloEnter(v, node, EnterInfo(c.port, c.schema, node, ti), s).0;
            var (a, b) := (SoloWalk(c, v, true, node, ti, s), SoloWalk(c, v, false, node, ti, s));
            PartedAt(v, node, |s1.calls|, a.calls, b.calls)
  {
    hide EnterInfo, ChildInfo, LeaveInfo, After, Kids;
    var s1 := SoloEnter(v, node, EnterInfo(c.port, c.schema, node, ti), s).0;
    var out := After(c.port, c.keys, Kids(c.keys, node), ChildInfo(c.port, c.schema, node, ti));
    assert SoloWalk(c, v, true, node, ti, s).calls
        == s1.calls + [Leave(node, LeaveInfo(c.port, ti, out))];
  }

  /** What leaving a node above adds to the logs does not join them again. */
  lemma LeavingStaysParted<S>(
      v: Visitor<S>, node: ASTNode, info: TypeInfo, n: ASTNode, k: nat, a: Solo<S>, b: Solo<S>)
    requires PartedAt(v, n, k, a.calls, b.calls) && n < node
    ensures var (a', b') := (if a.stopped then a else SoloLeave(v, node, info, a),
                             if b.stopped then b else SoloLeave(v, node, info, b));
            PartedAt(v, n, k, a'.calls, b'.calls)
  {
    hide PartedAt;
    var (a', b') := (if a.stopped then a else SoloLeave(v, node, info, a),
                     if b.stopped then b else SoloLeave(v, node, info, b));
    StayParted(v, n, k, a.calls, b.calls, a'.calls, b'.calls);
  }

  lemma {:induction false} PartedByAll<S>(
      c: Config<S>, v: Visitor<S>, parent: ASTNode, kids: seq<ASTNode>, ti: TypeInfo, s: Solo<S>)
    returns (n: ASTNode, k: nat)
    requires AllBelow(kids, parent)
    requires SkipMeetsLeaveAll(c, v, parent, kids, ti, s)
    ensures n < parent
    ensures PartedAt(v, n, k, SoloAll(c, v, true, parent, kids, ti, s).calls,
        SoloAll(c, v, false, parent, kids, ti, s).calls)
    decreases parent, |kids|
  {
    hide After, SoloWalk, SkipMeetsLeave, PartedAt;
    var front, last := kids[..|kids|-1], kids[|kids|-1];
    var ti1 := After(c.port, c.keys, front, ti);
    var a1, b1 := SoloAll(c, v, true, parent, front, ti, s), SoloAll(c, v, false, parent, front, ti, s);
    if SkipMeetsLeaveAll(c, v, parent, front, ti, s) {
      n, k := PartedByAll(c, v, parent, front, ti, s);
      WalkOpensWell(c, v, true, last, ti1, a1);
      WalkOpensWell(c, v, false, last, ti1, b1);
      var (a2, b2) := (SoloWalk(c, v, true, last, ti1, a1), SoloWalk(c, v, false, last, ti1, b1));
      EnteredWhereParted(v, n, k, a1.calls, b1.calls);
      StayParted(v, n, k, a1.calls, b1.calls, a2.calls, b2.calls);
    } else {
      SameWithoutAll(c, v, parent, front, ti, s);
      n, k := PartedBy(c, v, last, ti1, b1);
    }
  }

  /**
   * A lone visitor under walkNode gets the calls that the merged walk gives it if and
   * only if it never answers SKIP_SUBTREE on a node whose kind has a leave hook.
   */
  lemma LoneWalkAgreesExactly<S>(c: Config<S>, v: Visitor<S>, root: ASTNode, ti: TypeInfo, s: Solo<S>)
    ensures SoloWalk(c, v, true, root, ti, s).calls == SoloWalk(c, v, false, root, ti, s).calls
       <==> !SkipMeetsLeave(c, v, root, ti, s)
  {
    if SkipMeetsLeave(c, v, root, ti, s) {
      var n, k := PartedBy(c, v, root, ti, s);
    } else {
      SameWithout(c, v, root, ti, s);
    }
  }

  /** An enter hook that can ask to skip a node whose kind has a leave hook, on some state and information. */
  ghost predicate CanSkipAndLeave<S(!new)>(c: Config<S>, v: Visitor<S>) {
    exists node, ti, st :: SkipsAndLeaves(c, v, node, ti, st)
  }

  ghost predicate SkipsAndLeaves<S(!new)>(c: Config<S>, v: Visitor<S>, node: ASTNode, ti: TypeInfo, st: S) {
    var el := v.ForKind(node.Kind());
    && el.leave.Some? && el.enter.Some?
    && el.enter.value(st, EnterInfo(c.port, c.schema, node, ti), node).result == SKIP_SUBTREE
  }

  lemma {:induction false} RunShowsIt<S(!new)>(c: Config<S>, v: Visitor<S>, node: ASTNode, ti: TypeInfo, s: Solo<S>)
    requires SkipMeetsLeave(c, v, node, ti, s)
    ensures CanSkipAndLeave(c, v)
    decreases node
  {
    hide EnterInfo, ChildInfo, Kids;
    var (s1, result) := SoloEnter(v, node, EnterInfo(c.port, c.schema, node, ti), s);
    if result == SKIP_SUBTREE {
      assert SkipsAndLeaves(c, v, node, ti, s.st);
    } else {
      AllShowIt(c, v, node, Kids(c.keys, node), ChildInfo(c.port, c.schema, node, ti), s1);
    }
  }

  lemma {:induction false} AllShowIt<S(!new)>(
      c: Config<S>, v: Visitor<S>, parent: ASTNode, kids: seq<ASTNode>, ti: TypeInfo, s: Solo<S>)
    requires AllBelow(kids, parent) && SkipMeetsLeaveAll(c, v, parent, kids, ti, s)
    ensures CanSkipAndLeave(c, v)
    decreases parent, |kids|
  {
    hide After, CanSkipAndLeave;
    var front, last := kids[..|kids|-1], kids[|kids|-1];
    if SkipMeetsLeaveAll(c, v, parent, front, ti, s) {
      AllShowIt(c, v, parent, front, ti, s);
    } else {
      RunShowsIt(c, v, last, After(c.port, c.keys, front, ti), SoloAll(c, v, false, parent, front, ti, s));
    }
  }

  ghost predicate SameCalls<S>(c: Config<S>, v: Visitor<S>, root: ASTNode, ti: TypeInfo, s: Solo<S>) {
    SoloWalk(c, v, true, root, ti, s).calls == SoloWalk(c, v, false, root, ti, s).calls
  }

  /**
   * Of a visitor as such: no tree, state or information ever tells the two walks apart if
   * and only if no kind with a leave hook has an enter hook that can answer SKIP_SUBTREE.
   */
  lemma VisitorsThatAgreeExactly<S(!new)>(c: Config<S>, v: Visitor<S>)
    ensures (forall root, ti, s: Solo<S> :: SameCalls(c, v, root, ti, s)) <==> !CanSkipAndLeave(c, v)
  {
    hide SoloWalk, SkipMeetsLeave;
    forall root, ti, s: Solo<S> ensures SameCalls(c, v, root, ti, s) || CanSkipAndLeave(c, v) {
      LoneWalkAgreesExactly(c, v, root, ti, s);
      if SkipMeetsLeave(c, v, root, ti, s) { RunShowsIt(c, v, root, ti, s); }
    }
    if CanSkipAndLeave(c, v) {
      var node, ti, st :| SkipsAndLeaves(c, v, node, ti, st);
      var s := Solo(st, false, []);
      SkippingRun(c, v, node, ti, st);
      LoneWalkAgreesExactly(c, v, node, ti, s);
      assert !SameCalls(c, v, node, ti, s);
    }
  }

  lemma SkippingRun<S(!new)>(c: Config<S>, v: Visitor<S>, node: ASTNode, ti: TypeInfo, st: S)
    requires SkipsAndLeaves(c, v, node, ti, st)
    ensures SkipMeetsLeave(c, v, node, ti, Solo(st, false, []))
  {
    hide EnterInfo;
  }

  /** An enter-only visitor, such as each of the five rules, can never tell. */
  lemma {:induction false} EnterOnlyNeverTells<S>(c: Config<S>, v: Visitor<S>, root: ASTNode, ti: TypeInfo, s: Solo<S>)
    requires forall kind: Kind {:trigger HasLeave(v, kind)} :: !HasLeave(v, kind)
    ensures !SkipMeetsLeave(c, v, root, ti, s)
    decreases root
  {
    var (s1, result) := SoloEnter(v, root, EnterInfo(c.port, c.schema, root, ti), s);
    if !s.stopped && result == CONTINUE {
      EnterOnlyNeverTellsAll(c, v, root, Kids(c.keys, root), ChildInfo(c.port, c.schema, root, ti), s1);
    }
  }

  lemma {:induction false} EnterOnlyNeverTellsAll<S>(
      c: Config<S>, v: Visitor<S>, parent: ASTNode, kids: seq<ASTNode>, ti: TypeInfo, s: Solo<S>)
    requires AllBelow(kids, parent)
    requires forall kind: Kind {:trigger HasLeave(v, kind)} :: !HasLeave(v, kind)
    ensures !SkipMeetsLeaveAll(c, v, parent, kids, ti, s)
    decreases parent, |kids|
  {
    if kids != [] {
      var front := kids[..|kids|-1];
      EnterOnlyNeverTellsAll(c, v, parent, front, ti, s);
      var last, s1 := kids[|kids|-1], SoloAll(c, v, false, parent, front, ti, s);
      EnterOnlyNeverTells(c, v, last, After(c.port, c.keys, front, ti), s1);
    }
  }

  /** A node and a visitor that can tell: one name, skipped on enter, with a leave hook. */
  lemma LoneWalkDiffers(c: Config<nat>, ti: TypeInfo)
    ensures exists v: Visitor<nat>, root: ASTNode ::
      SoloWalk(c, v, true, root, ti, Solo(0, false, [])).calls
          != SoloWalk(c, v, false, root, ti, Solo(0, false, [])).calls
  {
    var enter: Hook<nat> := (st, info, node) => HookOut(st, [], SKIP_SUBTREE);
    var leave: Hook<nat> := (st, info, node) => HookOut(st, [], CONTINUE);
    var v, root := Visitor(map[NAME := EnterLeave(Some(enter), Some(leave))], None, None), Name("a");
    var s := Solo(0, false, []);
    assert SkipMeetsLeave(c, v, root, ti, s);
    LoneWalkAgreesExactly(c, v, root, ti, s);
  }
}
