/**
 * The JavaScript port's walk, with its exceptions: a hook may throw, and reportError
 * throws the abort object once the error list is full.
 */
module JsWalk {
  import opened Options
  import opened Ast
  import opened Traversal
  import opened ParallelVisitor

  /** ALL_KINDS: a hook registered for any other kind is never called. */
  const ALL_KINDS: seq<Kind> := [
    NAME, DOCUMENT, OPERATION_DEFINITION, VARIABLE_DEFINITION, SELECTION_SET, FIELD, ARGUMENT,
    FRAGMENT_SPREAD, INLINE_FRAGMENT, FRAGMENT_DEFINITION, VARIABLE, NAMED_TYPE, LIST_TYPE,
    NON_NULL_TYPE, OBJECT_TYPE_DEFINITION, INTERFACE_TYPE_DEFINITION]

  /** Those are the kinds whose children are walked. */
  lemma CalledIffWalked(kind: Kind)
    ensures kind in ALL_KINDS <==> QueryDocumentKeys(kind).Some?
  {
    match kind
    case NAME => assert ALL_KINDS[0] == kind;
    case DOCUMENT => assert ALL_KINDS[1] == kind;
    case OPERATION_DEFINITION => assert ALL_KINDS[2] == kind;
    case VARIABLE_DEFINITION => assert ALL_KINDS[3] == kind;
    case SELECTION_SET => assert ALL_KINDS[4] == kind;
    case FIELD => assert ALL_KINDS[5] == kind;
    case ARGUMENT => assert ALL_KINDS[6] == kind;
    case FRAGMENT_SPREAD => assert ALL_KINDS[7] == kind;
    case INLINE_FRAGMENT => assert ALL_KINDS[8] == kind;
    case FRAGMENT_DEFINITION => assert ALL_KINDS[9] == kind;
    case VARIABLE => assert ALL_KINDS[10] == kind;
    case NAMED_TYPE => assert ALL_KINDS[11] == kind;
    case LIST_TYPE => assert ALL_KINDS[12] == kind;
    case NON_NULL_TYPE => assert ALL_KINDS[13] == kind;
    case OBJECT_TYPE_DEFINITION => assert ALL_KINDS[14] == kind;
    case INTERFACE_TYPE_DEFINITION => assert ALL_KINDS[15] == kind;
    case _ =>
  }

  datatype Thrown = Nothing | Abort | Other(exception: nat)

  /** What a hook throws after its reports, if anything. */
  type ThrowFn<!S> = (S, TypeInfo, ASTNode) -> Option<nat>

  /** maxErrors: None means that the list may grow without bound. */
  datatype JsConfig<!S> = JsConfig(base: Config<S>, throws: seq<ThrowFn<S>>, maxErrors: Option<nat>) {
    ghost predicate Valid() {
      |throws| == |base.visitors| && base.port.JavaScript?
    }
  }

  datatype JsWorld<S> = JsWorld(w: World<S>, thrown: Thrown)

  /** reportError, once. */
  function Report(maxErrors: Option<nat>, errors: seq<GraphQLError>, e: GraphQLError): (seq<GraphQLError>, Thrown) {
    if maxErrors.Some? && |errors| >= maxErrors.value then (errors + [TooManyErrors], Abort)
    else (errors + [e], Nothing)
  }

  /** reportError for each error in turn, until one of the calls throws. */
  function ReportAll(
      maxErrors: Option<nat>, errors: seq<GraphQLError>, rs: seq<GraphQLError>): (seq<GraphQLError>, Thrown) {
    if rs == [] then (errors, Nothing) else
    var (errors', thrown) := ReportAll(maxErrors, errors, rs[..|rs|-1]);
    if thrown != Nothing then (errors', thrown) else Report(maxErrors, errors', rs[|rs|-1])
  }

  predicate HasEntry<S>(vs: seq<Visitor<S>>, kind: Kind) {
    kind in ALL_KINDS && exists i | 0 <= i < |vs| :: vs[i].ForKind(kind).enter.Some? || vs[i].ForKind(kind).leave.Some?
  }

  function HookFor<S>(enter: bool, v: Visitor<S>, kind: Kind): Option<Hook<S>> {
    if enter then v.ForKind(kind).enter else v.ForKind(kind).leave
  }

  /** Visitor i's share of its turn. An exception leaves its lane as it was: nothing reads it again. */
  function JsLane<S>(
      c: JsConfig<S>, enter: bool, node: ASTNode, info: TypeInfo, i: nat, l: Lane<S>, errors: seq<GraphQLError>)
    : (Lane<S>, seq<GraphQLError>, Thrown)
    requires c.Valid() && i < |c.throws|
  {
    var v := c.base.visitors[i];
    var h := HookFor(enter, v, node.Kind());
    var quiet := if enter then EnterLane(v, node, info, l).0 else LeaveLane(v, node, info, l).0;
    if l.skip != Running || h.None? then (quiet, errors, Nothing) else
    var (reported, thrown) := ReportAll(c.maxErrors, errors, h.value(l.st, info, node).reports);
    var own := c.throws[i](l.st, info, node);
    (if Ending(thrown, own) == Nothing then quiet else l, reported, Ending(thrown, own))
  }

  /** A report that throws comes before what the hook throws itself. */
  function Ending(early: Thrown, own: Option<nat>): Thrown {
    if early == Nothing && own.Some? then Other(own.value) else early
  }

  function CallFor(enter: bool, node: ASTNode, info: TypeInfo): Call {
    if enter then Enter(node, info) else Leave(node, info)
  }

  /** The skipping entry after a hook has returned. */
  function SkipAfter(enter: bool, node: ASTNode, result: VisitorResult): Skip {
    if enter then SkipOf(node, result) else if result == BREAK then Broken else Running
  }

  lemma JsLaneCalled<S>(
      c: JsConfig<S>, enter: bool, node: ASTNode, info: TypeInfo, i: nat, l: Lane<S>, errors: seq<GraphQLError>,
      f: Hook<S>)
    requires c.Valid() && i < |c.throws| && l.skip == Running
    requires HookFor(enter, c.base.visitors[i], node.Kind()) == Some(f)
    ensures var o := f(l.st, info, node);
            var (reported, early) := ReportAll(c.maxErrors, errors, o.reports);
            var ending := Ending(early, c.throws[i](l.st, info, node));
            var called := Lane(o.st, SkipAfter(enter, node, o.result), l.calls + [CallFor(enter, node, info)]);
            JsLane(c, enter, node, info, i, l, errors) == (if ending == Nothing then called else l, reported, ending)
  {
    hide ReportAll;
  }

  lemma JsLaneNotCalled<S>(
      c: JsConfig<S>, enter: bool, node: ASTNode, info: TypeInfo, i: nat, l: Lane<S>, errors: seq<GraphQLError>)
    requires c.Valid() && i < |c.throws|
    requires l.skip != Running || HookFor(enter, c.base.visitors[i], node.Kind()) == None
    ensures var l' := if !enter && l.skip == At(node) then l.(skip := Running) else l;
            JsLane(c, enter, node, info, i, l, errors) == (l', errors, Nothing)
  {
  }

  function JsTurn<S>(
      c: JsConfig<S>, enter: bool, node: ASTNode, info: TypeInfo, i: nat, x: JsWorld<S>): (r: JsWorld<S>)
    requires c.Valid() && i < |c.throws| == |x.w.lanes|
    ensures |r.w.lanes| == |x.w.lanes|
  {
    if x.thrown != Nothing then x else
    var (l, errors, thrown) := JsLane(c, enter, node, info, i, x.w.lanes[i], x.w.errors);
    JsWorld(World(x.w.lanes[i := l], errors), thrown)
  }

  function JsDispatch<S>(
      c: JsConfig<S>, enter: bool, n: nat, node: ASTNode, info: TypeInfo, x: JsWorld<S>): (r: JsWorld<S>)
    requires c.Valid() && n <= |c.throws| == |x.w.lanes|
    ensures |r.w.lanes| == |x.w.lanes|
  {
    if n == 0 then x else JsTurn(c, enter, node, info, n-1, JsDispatch(c, enter, n-1, node, info, x))
  }

  /** entry.enter or entry.leave, when the kind has an entry. */
  function JsEntry<S>(c: JsConfig<S>, enter: bool, node: ASTNode, info: TypeInfo, x: JsWorld<S>): (r: JsWorld<S>)
    requires c.Valid() && |c.throws| == |x.w.lanes|
    ensures |r.w.lanes| == |x.w.lanes|
  {
    if HasEntry(c.base.visitors, node.Kind()) then JsDispatch(c, enter, |c.throws|, node, info, x) else x
  }

  /** walkSubtree. The type information on the stacks is ti before and after. */
  function JsSubtree<S>(c: JsConfig<S>, node: ASTNode, ti: TypeInfo, x: JsWorld<S>): (r: JsWorld<S>)
    requires c.Valid() && |c.throws| == |x.w.lanes|
    ensures |r.w.lanes| == |x.w.lanes|
    decreases node
  {
    var x1 := JsEntry(c, true, node, ti, x);
    var x2 := JsSubtrees(c, node, Kids(c.base.keys, node), ChildInfo(JavaScript, c.base.schema, node, ti), x1);
    JsEntry(c, false, node, ti, x2)
  }

  function JsSubtrees<S>(
      c: JsConfig<S>, parent: ASTNode, kids: seq<ASTNode>, ti: TypeInfo, x: JsWorld<S>): (r: JsWorld<S>)
    requires c.Valid() && |c.throws| == |x.w.lanes| && AllBelow(kids, parent)
    ensures |r.w.lanes| == |x.w.lanes|
    decreases parent, |kids|
  {
    if kids == [] then x else
    JsSubtree(c, kids[|kids|-1], ti, JsSubtrees(c, parent, kids[..|kids|-1], ti, x))
  }

  // ---------------------------------------------------------------- an exception ends the walk

  lemma {:induction false} ThrownDispatch<S>(
      c: JsConfig<S>, enter: bool, n: nat, node: ASTNode, info: TypeInfo, x: JsWorld<S>)
    requires c.Valid() && n <= |c.throws| == |x.w.lanes| && x.thrown != Nothing
    ensures JsDispatch(c, enter, n, node, info, x) == x
  {
    if n > 0 { ThrownDispatch(c, enter, n-1, node, info, x); }
  }

  lemma {:induction false} ThrownSubtree<S>(c: JsConfig<S>, node: ASTNode, ti: TypeInfo, x: JsWorld<S>)
    requires c.Valid() && |c.throws| == |x.w.lanes| && x.thrown != Nothing
    ensures JsSubtree(c, node, ti, x) == x
    decreases node
  {
    var inside := ChildInfo(JavaScript, c.base.schema, node, ti);
    ThrownDispatch(c, true, |c.throws|, node, ti, x);
    ThrownSubtrees(c, node, Kids(c.base.keys, node), inside, x);
    ThrownDispatch(c, false, |c.throws|, node, ti, x);
  }

  lemma {:induction false} ThrownSubtrees<S>(
      c: JsConfig<S>, parent: ASTNode, kids: seq<ASTNode>, ti: TypeInfo, x: JsWorld<S>)
    requires c.Valid() && |c.throws| == |x.w.lanes| && AllBelow(kids, parent) && x.thrown != Nothing
    ensures JsSubtrees(c, parent, kids, ti, x) == x
    decreases parent, |kids|
  {
    if kids != [] {
      ThrownSubtrees(c, parent, kids[..|kids|-1], ti, x);
      ThrownSubtree(c, kids[|kids|-1], ti, x);
    }
  }

  // ---------------------------------------------------------------- the error cap

  function Uncapped<S>(c: JsConfig<S>): JsConfig<S> {
    c.(maxErrors := None)
  }

  /** k is what a run with the cap looks like when the run without it looks like u. */
  ghost predicate CappedView<S>(cap: nat, u: JsWorld<S>, k: JsWorld<S>) {
    if |u.w.errors| <= cap then k == u
    else k.thrown == Abort && k.w.errors == u.w.errors[..cap] + [TooManyErrors] && |k.w.lanes| == |u.w.lanes|
  }

  lemma {:induction false} ReportAllUncapped(errors: seq<GraphQLError>, rs: seq<GraphQLError>)
    ensures ReportAll(None, errors, rs) == (errors + rs, Nothing)
  {
    if rs != [] {
      ReportAllUncapped(errors, rs[..|rs|-1]);
      assert errors + rs[..|rs|-1] + [rs[|rs|-1]] == errors + rs;
    } else {
      assert errors + rs == errors;
    }
  }

  lemma {:induction false} ReportAllCapped(cap: nat, errors: seq<GraphQLError>, rs: seq<GraphQLError>)
    requires |errors| <= cap
    ensures ReportAll(Some(cap), errors, rs)
         == if |errors + rs| <= cap then (errors + rs, Nothing) else ((errors + rs)[..cap] + [TooManyErrors], Abort)
  {
    if rs == [] {
      assert errors + rs == errors;
    } else {
      var front := rs[..|rs|-1];
      ReportAllCapped(cap, errors, front);
      assert errors + front + [rs[|rs|-1]] == errors + rs;
      if |errors + front| <= cap { assert |errors + front| == cap ==> (errors + rs)[..cap] == errors + front; }
      else { assert (errors + rs)[..cap] == (errors + front)[..cap]; }
    }
  }

  lemma JsTurnGrows<S>(c: JsConfig<S>, enter: bool, node: ASTNode, info: TypeInfo, i: nat, x: JsWorld<S>)
    requires c.Valid() && i < |c.throws| == |x.w.lanes| && c.maxErrors.None?
    ensures x.w.errors <= JsTurn(c, enter, node, info, i, x).w.errors
  {
    var h, l := HookFor(enter, c.base.visitors[i], node.Kind()), x.w.lanes[i];
    if h.Some? { ReportAllUncapped(x.w.errors, h.value(l.st, info, node).reports); }
  }

  lemma JsTurnCapped<S>(
      c: JsConfig<S>, cap: nat, enter: bool, node: ASTNode, info: TypeInfo, i: nat, u: JsWorld<S>, k: JsWorld<S>)
    requires c.Valid() && c.maxErrors == Some(cap) && i < |c.throws| == |u.w.lanes|
    requires CappedView(cap, u, k)
    ensures CappedView(cap, JsTurn(Uncapped(c), enter, node, info, i, u), JsTurn(c, enter, node, info, i, k))
  {
    JsTurnGrows(Uncapped(c), enter, node, info, i, u);
    var u' := JsTurn(Uncapped(c), enter, node, info, i, u);
    if |u.w.errors| <= cap {
      var h, l := HookFor(enter, c.base.visitors[i], node.Kind()), u.w.lanes[i];
      if h.Some? {
        ReportAllUncapped(u.w.errors, h.value(l.st, info, node).reports);
        ReportAllCapped(cap, u.w.errors, h.value(l.st, info, node).reports);
      }
    } else {
      assert u'.w.errors[..cap] == u.w.errors[..cap];
    }
  }

  lemma {:induction false} JsDispatchCapped<S>(
      c: JsConfig<S>, cap: nat, enter: bool, n: nat, node: ASTNode, info: TypeInfo, u: JsWorld<S>, k: JsWorld<S>)
    requires c.Valid() && c.maxErrors == Some(cap) && n <= |c.throws| == |u.w.lanes|
    requires CappedView(cap, u, k)
    ensures CappedView(cap, JsDispatch(Uncapped(c), enter, n, node, info, u), JsDispatch(c, enter, n, node, info, k))
  {
    hide JsTurn;
    if n > 0 {
      JsDispatchCapped(c, cap, enter, n-1, node, info, u, k);
      JsTurnCapped(c, cap, enter, node, info, n-1,
                   JsDispatch(Uncapped(c), enter, n-1, node, info, u), JsDispatch(c, enter, n-1, node, info, k));
    }
  }

  lemma {:induction false} JsSubtreeCapped<S>(
      c: JsConfig<S>, cap: nat, node: ASTNode, ti: TypeInfo, u: JsWorld<S>, k: JsWorld<S>)
    requires c.Valid() && c.maxErrors == Some(cap) && |c.throws| == |u.w.lanes|
    requires CappedView(cap, u, k)
    ensures CappedView(cap, JsSubtree(Uncapped(c), node, ti, u), JsSubtree(c, node, ti, k))
    decreases node
  {
    hide JsDispatch;
    var n, kids, inside := |c.throws|, Kids(c.base.keys, node), ChildInfo(JavaScript, c.base.schema, node, ti);
    JsDispatchCapped(c, cap, true, n, node, ti, u, k);
    var u1, k1 := JsEntry(Uncapped(c), true, node, ti, u), JsEntry(c, true, node, ti, k);
    JsSubtreesCapped(c, cap, node, kids, inside, u1, k1);
    JsDispatchCapped(c, cap, false, n, node, ti, JsSubtrees(Uncapped(c), node, kids, inside, u1),
        JsSubtrees(c, node, kids, inside, k1));
  }

  lemma {:induction false} JsSubtreesCapped<S>(
      c: JsConfig<S>, cap: nat, parent: ASTNode, kids: seq<ASTNode>, ti: TypeInfo, u: JsWorld<S>, k: JsWorld<S>)
    requires c.Valid() && c.maxErrors == Some(cap) && |c.throws| == |u.w.lanes| && AllBelow(kids, parent)
    requires CappedView(cap, u, k)
    ensures CappedView(cap, JsSubtrees(Uncapped(c), parent, kids, ti, u), JsSubtrees(c, parent, kids, ti, k))
    decreases parent, |kids|
  {
    if kids != [] {
      var front := kids[..|kids|-1];
      JsSubtreesCapped(c, cap, parent, front, ti, u, k);
      JsSubtreeCapped(c, cap, kids[|kids|-1], ti, JsSubtrees(Uncapped(c), parent, front, ti, u),
          JsSubtrees(c, parent, front, ti, k));
    }
  }

  /** What validate returns, or throws on: the abort object and nothing else is swallowed. */
  datatype Outcome = Returned(errors: seq<GraphQLError>) | Rethrown(exception: nat)

  function OutcomeOf<S>(x: JsWorld<S>): Outcome {
    match x.thrown
    case Other(e) => Rethrown(e)
    case _ => Returned(x.w.errors)
  }

  /** The cap keeps a prefix, adds the one synthetic error, and hides no other exception that came in time. */
  lemma CapKeepsAPrefix<S>(c: JsConfig<S>, cap: nat, root: ASTNode, ti: TypeInfo, w: World<S>)
    requires c.Valid() && c.maxErrors == Some(cap) && |c.throws| == |w.lanes| && w.errors == []
    ensures var u := JsSubtree(Uncapped(c), root, ti, JsWorld(w, Nothing));
            && OutcomeOf(JsSubtree(c, root, ti, JsWorld(w, Nothing)))
            == if |u.w.errors| <= cap then OutcomeOf(u) else Returned(u.w.errors[..cap] + [TooManyErrors])
  {
    JsSubtreeCapped(c, cap, root, ti, JsWorld(w, Nothing), JsWorld(w, Nothing));
  }

  // ---------------------------------------------------------------- without exceptions it is the merged walk

  ghost predicate Quiet<S(!new)>(c: JsConfig<S>) {
    && c.maxErrors.None?
    && (forall i, st, info, node | 0 <= i < |c.throws| :: c.throws[i](st, info, node).None?)
    && (forall i, kind: Kind | 0 <= i < |c.base.visitors| && kind !in ALL_KINDS ::
          c.base.visitors[i].ForKind(kind) == EnterLeave(None, None))
  }

  lemma {:induction false} QuietDispatch<S(!new)>(c: JsConfig<S>, enter: bool,
      n: nat, node: ASTNode, info: TypeInfo, w: World<S>)
    requires c.Valid() && Quiet(c) && n <= |c.throws| == |w.lanes|
    ensures JsDispatch(c, enter, n, node, info, JsWorld(w, Nothing))
        == JsWorld(Dispatch(enter, c.base.visitors, n, node, info, w), Nothing)
  {
    if n > 0 {
      QuietDispatch(c, enter, n-1, node, info, w);
      var w1 := Dispatch(enter, c.base.visitors, n-1, node, info, w);
      QuietTurn(c, enter, node, info, n-1, w1);
    }
  }

  lemma QuietTurn<S(!new)>(c: JsConfig<S>, enter: bool, node: ASTNode, info: TypeInfo, i: nat, w: World<S>)
    requires c.Valid() && Quiet(c) && i < |c.throws| == |w.lanes|
    ensures JsTurn(c, enter, node, info, i, JsWorld(w, Nothing))
        == JsWorld(Turn(enter, c.base.visitors[i], node, info, i, w), Nothing)
  {
    var v, l := c.base.visitors[i], w.lanes[i];
    var h := HookFor(enter, v, node.Kind());
    if h.Some? { ReportAllUncapped(w.errors, h.value(l.st, info, node).reports); }
  }

  lemma QuietEntry<S(!new)>(c: JsConfig<S>, enter: bool, node: ASTNode, info: TypeInfo, w: World<S>)
    requires c.Valid() && Quiet(c) && |c.throws| == |w.lanes|
    requires !enter && NoHooks(c.base.visitors, node.Kind(), |c.throws|) ==> NoneBelow(w, node)
    ensures JsEntry(c, enter, node, info, JsWorld(w, Nothing))
        == JsWorld(Dispatch(enter, c.base.visitors, |c.throws|, node, info, w), Nothing)
  {
    if HasEntry(c.base.visitors, node.Kind()) {
      QuietDispatch(c, enter, |c.throws|, node, info, w);
    } else {
      assert NoHooks(c.base.visitors, node.Kind(), |c.throws|);
      if !enter { forall i | 0 <= i < |w.lanes| ensures w.lanes[i].skip != At(node) {} }
      DispatchNothing(enter, c.base.visitors, |c.throws|, node, info, w);
    }
  }

  /** With no cap and no throwing hook, walkSubtree is the merged walk. */
  lemma {:induction false} QuietSubtree<S(!new)>(c: JsConfig<S>, node: ASTNode, ti: TypeInfo, w: World<S>)
    requires c.Valid() && Quiet(c) && |c.throws| == |w.lanes| && NoneBelow(w, node)
    ensures JsSubtree(c, node, ti, JsWorld(w, Nothing)) == JsWorld(Walk(c.base, node, ti, w).0, Nothing)
    ensures Walk(c.base, node, ti, w).1 == ti
    decreases node
  {
    hide Quiet, Dispatch, JsEntry;
    var n, kids, inside := |c.throws|, Kids(c.base.keys, node), ChildInfo(JavaScript, c.base.schema, node, ti);
    QuietEntry(c, true, node, ti, w);
    EnterKeepsNone(c.base.visitors, node, ti, w);
    var w1 := Dispatch(true, c.base.visitors, n, node, ti, w);
    QuietSubtrees(c, node, kids, inside, w1);
    WalkKeepsNone(c.base, node, kids, inside, w1);
    var w2 := WalkAll(c.base, node, kids, inside, w1).0;
    QuietEntry(c, false, node, ti, w2);
  }

  lemma {:induction false} QuietSubtrees<S(!new)>(c: JsConfig<S>, parent: ASTNode,
      kids: seq<ASTNode>, ti: TypeInfo, w: World<S>)
    requires c.Valid() && Quiet(c) && |c.throws| == |w.lanes| && AllBelow(kids, parent) && NoneStrictlyBelow(w, parent)
    ensures JsSubtrees(c, parent, kids, ti, JsWorld(w, Nothing))
        == JsWorld(WalkAll(c.base, parent, kids, ti, w).0, Nothing)
    ensures WalkAll(c.base, parent, kids, ti, w).1 == ti
    decreases parent, |kids|
  {
    hide Quiet, Walk, JsSubtree;
    if kids != [] {
      var front := kids[..|kids|-1];
      QuietSubtrees(c, parent, front, ti, w);
      WalkKeepsNone(c.base, parent, front, ti, w);
      QuietSubtree(c, kids[|kids|-1], ti, WalkAll(c.base, parent, front, ti, w).0);
    }
  }
}
