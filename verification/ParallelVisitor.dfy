/** The AssemblyScript walk as it runs: one context and one skipping array, updated in place. */
module ParallelVisitor {
  import opened Options
  import opened Ast
  import opened Traversal
  import opened TypeTracking

  /** The hooks of one kind, visitor by visitor; skipping is shared by all kinds. */
  datatype KindHooks<!S> = KindHooks(enterList: seq<Option<Hook<S>>>, leaveList: seq<Option<Hook<S>>>)

  ghost predicate Lists<S>(vs: seq<Visitor<S>>, kind: Kind, n: nat, d: KindHooks<S>)
    requires n <= |vs|
  {
    && |d.enterList| == |d.leaveList| == n
    && (forall i | 0 <= i < n :: d.enterList[i] == vs[i].ForKind(kind).enter)
    && (forall i | 0 <= i < n :: d.leaveList[i] == vs[i].ForKind(kind).leave)
  }

  ghost predicate NoHooks<S>(vs: seq<Visitor<S>>, kind: Kind, n: nat)
    requires n <= |vs|
  {
    forall i | 0 <= i < n :: vs[i].ForKind(kind).enter.None? && vs[i].ForKind(kind).leave.None?
  }

  ghost predicate Entry<S>(vs: seq<Visitor<S>>, table: map<Kind, KindHooks<S>>, kind: Kind) {
    if kind in table then Lists(vs, kind, |vs|, table[kind]) else NoHooks(vs, kind, |vs|)
  }

  lemma EveryKindIsListed(kind: Kind)
    ensures kind in KIND_VALUES
  {
  }

  lemma OneMoreVisitor<S>(vs: seq<Visitor<S>>, kind: Kind, n: nat, d: KindHooks<S>)
    requires n < |vs| && Lists(vs, kind, n, d)
    ensures var el := vs[n].ForKind(kind);
            Lists(vs, kind, n + 1, KindHooks(d.enterList + [el.enter], d.leaveList + [el.leave]))
  {
  }

  lemma OneMoreHook<S>(vs: seq<Visitor<S>>, kind: Kind, n: nat)
    requires n < |vs|
    ensures var el := vs[n].ForKind(kind);
            NoHooks(vs, kind, n + 1) <==> NoHooks(vs, kind, n) && el.enter.None? && el.leave.None?
  {
  }

  lemma NoVisitor<S>(vs: seq<Visitor<S>>, kind: Kind)
    ensures Lists(vs, kind, 0, KindHooks([], [])) && NoHooks(vs, kind, 0)
  {
  }

  /** One kind's pass over the visitors. */
  method PairUp<S>(visitors: seq<Visitor<S>>, kind: Kind) returns (d: KindHooks<S>, hasVisitor: bool)
    ensures Lists(visitors, kind, |visitors|, d)
    ensures hasVisitor <==> !NoHooks(visitors, kind, |visitors|)
  {
    hide Lists, NoHooks;
    hasVisitor := false;
    d := KindHooks([], []);
    NoVisitor(visitors, kind);
    for i := 0 to |visitors|
      invariant Lists(visitors, kind, i, d)
      invariant hasVisitor <==> !NoHooks(visitors, kind, i)
    {
      OneMoreVisitor(visitors, kind, i, d);
      OneMoreHook(visitors, kind, i);
      var v := visitors[i];
      var el := if kind in v.perKind then v.perKind[kind] else EnterLeave(v.enter, v.leave);
      if !hasVisitor && (el.enter.Some? || el.leave.Some?) { hasVisitor := true; }
      d := KindHooks(d.enterList + [el.enter], d.leaveList + [el.leave]);
    }
  }

  /** The loop of visitInParallel that fills the per-kind tables. */
  method VisitInParallel<S>(visitors: seq<Visitor<S>>) returns (table: map<Kind, KindHooks<S>>)
    ensures forall kind: Kind {:trigger Entry(visitors, table, kind)} :: Entry(visitors, table, kind)
  {
    hide Lists, NoHooks;
    table := map[];
    for k := 0 to |KIND_VALUES|
      invariant forall kind <- table :: kind in KIND_VALUES[..k]
      invariant forall kind <- KIND_VALUES[..k] :: Entry(visitors, table, kind)
    {
      var kind := KIND_VALUES[k];
      var d, hasVisitor := PairUp(visitors, kind);
      ghost var before := table;
      if hasVisitor { table := table[kind := d]; }
      forall x <- KIND_VALUES[..k+1] ensures Entry(visitors, table, x) {
        if x != kind { assert x in KIND_VALUES[..k] && Entry(visitors, before, x); }
        else if !hasVisitor && kind in KIND_VALUES[..k] { assert Entry(visitors, before, kind); }
      }
    }
    forall kind: Kind ensures Entry(visitors, table, kind) {
      EveryKindIsListed(kind);
    }
  }

  function Zip<S>(states: seq<S>, skips: seq<Skip>, calls: seq<seq<Call>>): (r: seq<Lane<S>>)
    requires |states| == |skips| == |calls|
    ensures |r| == |states|
    ensures forall i | 0 <= i < |r| :: r[i] == Lane(states[i], skips[i], calls[i])
  {
    seq(|states|, i requires 0 <= i < |states| => Lane(states[i], skips[i], calls[i]))
  }

  predicate SameBut<T(==)>(i: nat, a: seq<T>, b: seq<T>) {
    i < |a| == |b| && forall j | 0 <= j < |a| && j != i :: a[j] == b[j]
  }

  /** What happens to visitor i happens to lane i. */
  lemma ZipChanges<S>(
      ss: seq<S>, ss': seq<S>, ks: seq<Skip>, ks': seq<Skip>, cs: seq<seq<Call>>, cs': seq<seq<Call>>, i: nat)
    requires |ss| == |ks| == |cs|
    requires i < |ss| == |ss'| && forall j | 0 <= j < |ss| && j != i :: ss[j] == ss'[j]
    requires SameBut(i, ks, ks') && SameBut(i, cs, cs')
    ensures Zip(ss', ks', cs') == Zip(ss, ks, cs)[i := Lane(ss'[i], ks'[i], cs'[i])]
  {
  }

  /** With no hook for the node's kind a dispatch loop finds nothing to do. */
  lemma {:induction false} DispatchNothing<S>(
      enter: bool, vs: seq<Visitor<S>>, n: nat, node: ASTNode, info: TypeInfo, w: World<S>)
    requires n <= |vs| == |w.lanes| && NoHooks(vs, node.Kind(), |vs|)
    requires !enter ==> forall i | 0 <= i < |vs| :: w.lanes[i].skip != At(node)
    ensures Dispatch(enter, vs, n, node, info, w) == w
  {
    if n > 0 {
      DispatchNothing(enter, vs, n-1, node, info, w);
      assert w.lanes[n-1 := w.lanes[n-1]] == w.lanes && w.errors + [] == w.errors;
    }
  }

  /** While node's subtree is walked no visitor is skipping a node inside it. */
  ghost predicate NoneBelow<S>(w: World<S>, node: ASTNode) {
    forall i | 0 <= i < |w.lanes| && w.lanes[i].skip.At? :: node < w.lanes[i].skip.node
  }

  /** The same, once node itself may have been skipped. */
  ghost predicate NoneStrictlyBelow<S>(w: World<S>, node: ASTNode) {
    forall i | 0 <= i < |w.lanes| && w.lanes[i].skip.At? :: node == w.lanes[i].skip.node || node < w.lanes[i].skip.node
  }

  lemma EnterKeepsNone<S>(vs: seq<Visitor<S>>, node: ASTNode, info: TypeInfo, w: World<S>)
    requires |vs| == |w.lanes| && NoneBelow(w, node)
    ensures NoneStrictlyBelow(Dispatch(true, vs, |vs|, node, info, w), node)
    ensures NoHooks(vs, node.Kind(), |vs|) ==> NoneBelow(Dispatch(true, vs, |vs|, node, info, w), node)
  {
    forall i | 0 <= i < |vs| { DispatchLane(true, vs, |vs|, node, info, w, i); }
  }

  /** Entries are set and cleared in step: after a subtree each is as before it, or broken. */
  lemma {:induction false} WalkRestoresSkipping<S>(c: Config<S>, node: ASTNode, ti: TypeInfo, w: World<S>, i: nat)
    requires |w.lanes| == |c.visitors| && i < |c.visitors| && (w.lanes[i].skip.At? ==> node < w.lanes[i].skip.node)
    ensures Walk(c, node, ti, w).0.lanes[i].skip in {w.lanes[i].skip, Broken}
    decreases node
  {
    var n := |c.visitors|;
    var info := EnterInfo(c.port, c.schema, node, ti);
    var w1 := Dispatch(true, c.visitors, n, node, info, w);
    DispatchLane(true, c.visitors, n, node, info, w, i);
    WalkAllRestoresSkipping(c, node, Kids(c.keys, node), ChildInfo(c.port, c.schema, node, ti), w1, i);
    var (w2, inside) := WalkAll(c, node, Kids(c.keys, node), ChildInfo(c.port, c.schema, node, ti), w1);
    DispatchLane(false, c.visitors, n, node, LeaveInfo(c.port, ti, inside), w2, i);
  }

  lemma {:induction false} WalkAllRestoresSkipping<S>(
      c: Config<S>, parent: ASTNode, kids: seq<ASTNode>, ti: TypeInfo, w: World<S>, i: nat)
    requires |w.lanes| == |c.visitors| && i < |c.visitors| && AllBelow(kids, parent)
    requires w.lanes[i].skip.At? ==> parent == w.lanes[i].skip.node || parent < w.lanes[i].skip.node
    ensures WalkAll(c, parent, kids, ti, w).0.lanes[i].skip in {w.lanes[i].skip, Broken}
    decreases parent, |kids|
  {
    if kids != [] {
      WalkAllRestoresSkipping(c, parent, kids[..|kids|-1], ti, w, i);
      var (w1, ti1) := WalkAll(c, parent, kids[..|kids|-1], ti, w);
      WalkRestoresSkipping(c, kids[|kids|-1], ti1, w1, i);
    }
  }

  lemma WalkKeepsNone<S>(c: Config<S>, parent: ASTNode, kids: seq<ASTNode>, ti: TypeInfo, w: World<S>)
    requires |w.lanes| == |c.visitors| && AllBelow(kids, parent) && NoneStrictlyBelow(w, parent)
    ensures NoneStrictlyBelow(WalkAll(c, parent, kids, ti, w).0, parent)
    ensures NoneBelow(w, parent) ==> NoneBelow(WalkAll(c, parent, kids, ti, w).0, parent)
  {
    forall i: nat | i < |w.lanes| { WalkAllRestoresSkipping(c, parent, kids, ti, w, i); }
  }

  lemma NoneBelowChild<S>(w: World<S>, node: ASTNode, child: ASTNode)
    requires NoneStrictlyBelow(w, node) && child < node
    ensures NoneBelow(w, child)
  {
  }

  lemma NobodySkips<S>(w: World<S>, node: ASTNode)
    requires NoneBelow(w, node)
    ensures forall i | 0 <= i < |w.lanes| :: w.lanes[i].skip != At(node)
  {
  }

  lemma WalkAllOneMore<S>(c: Config<S>, parent: ASTNode, done: seq<ASTNode>, child: ASTNode, ti: TypeInfo, w: World<S>)
    requires |w.lanes| == |c.visitors| && AllBelow(done, parent) && child < parent
    ensures AllBelow(done + [child], parent)
    ensures var (w1, ti1) := WalkAll(c, parent, done, ti, w);
            WalkAll(c, parent, done + [child], ti, w) == Walk(c, child, ti1, w1)
  {
    hide Walk;
    assert (done + [child])[..|done|] == done;
  }

  lemma WalkAllNone<S>(c: Config<S>, parent: ASTNode, ti: TypeInfo, w: World<S>)
    requires |w.lanes| == |c.visitors|
    ensures WalkAll(c, parent, [], ti, w) == (w, ti)
  {
  }

  ghost function StackInside(
      node: ASTNode, stack: seq<Option<GraphQLType>>, parent: Option<GraphQLType>): seq<Option<GraphQLType>> {
    if Tracked(node) then stack + [parent] else stack
  }

  lemma UntrackedInfo(schema: GraphQLSchema, node: ASTNode, ti: TypeInfo)
    requires !Tracked(node)
    ensures EnterInfo(AssemblyScript, schema, node, ti) == ti == ChildInfo(AssemblyScript, schema, node, ti)
  {
  }

  class ParallelWalk<S(!new)> {
    const schema: GraphQLSchema
    const keys: VisitorKeys
    const visitors: seq<Visitor<S>>
    const skipping: array<Skip>
    const dispatchers: map<Kind, KindHooks<S>>
    var states: seq<S>
    var errors: seq<GraphQLError>
    var parentType: Option<GraphQLType>
    var fieldDef: Option<GraphQLField>
    var parentTypeStack: seq<Option<GraphQLType>>
    ghost var calls: seq<seq<Call>>

    ghost predicate Valid()
      reads this, skipping
    {
      && |visitors| == skipping.Length == |states| == |calls|
      && forall kind: Kind {:trigger Entry(visitors, dispatchers, kind)} :: Entry(visitors, dispatchers, kind)
    }

    ghost function Config(): Config<S> {
      Traversal.Config(AssemblyScript, schema, keys, visitors)
    }

    ghost function World(): (w: World<S>)
      requires Valid()
      reads this, skipping
    {
      Traversal.World(Zip(states, skipping[..], calls), errors)
    }

    function Info(): TypeInfo
      reads this
    {
      TypeInfo(parentType, fieldDef)
    }

    constructor (schema: GraphQLSchema, keys: VisitorKeys, visitors: seq<Visitor<S>>, states: seq<S>)
      requires |states| == |visitors|
      ensures Valid() && fresh(skipping)
      ensures this.schema == schema && this.keys == keys && this.visitors == visitors
      ensures this.states == states && errors == [] && Info() == TypeInfo(None, None) && parentTypeStack == []
      ensures forall i | 0 <= i < |visitors| :: skipping[i] == Running && calls[i] == []
    {
      var entries := new Skip[|visitors|];
      for i := 0 to entries.Length
        invariant forall j | 0 <= j < i :: entries[j] == Running
      {
        entries[i] := Running;
      }
      var table := VisitInParallel(visitors);
      this.schema, this.keys, this.visitors, this.states := schema, keys, visitors, states;
      skipping, dispatchers := entries, table;
      errors, parentType, fieldDef, parentTypeStack := [], None, None, [];
      calls := seq(|visitors|, _ => []);
    }

    /** The body of the loop in dispatchEnter. */
    method EnterTurn(node: ASTNode, i: nat, fn: Option<Hook<S>>)
      requires Valid() && i < |visitors| && fn == visitors[i].ForKind(node.Kind()).enter
      modifies this`states, this`errors, this`calls, skipping
      ensures Valid()
      ensures World() == Turn(true, visitors[i], node, Info(), i, old(World()))
    {
      hide Zip, Entry;
      ghost var l := Lane(states[i], skipping[i], calls[i]);
      if skipping[i] == Running {
        var result := CONTINUE;
        if fn.Some? {
          var o := fn.value(states[i], Info(), node);
          states, errors, result := states[i := o.st], errors + o.reports, o.result;
          calls := calls[i := calls[i] + [Enter(node, Info())]];
        }
        if result == SKIP_SUBTREE {
          skipping[i] := At(node);
        } else if result == BREAK {
          skipping[i] := Broken;
        }
      }
      ZipChanges(old(states), states, old(skipping[..]), skipping[..], old(calls), calls, i);
      assert Lane(states[i], skipping[i], calls[i]) == EnterLane(visitors[i], node, Info(), l).0;
    }

    method DispatchEnter(node: ASTNode)
      requires Valid()
      modifies this`states, this`errors, this`calls, skipping
      ensures Valid()
      ensures World() == Dispatch(true, visitors, |visitors|, node, Info(), old(World()))
    {
      hide Zip, Turn;
      assert Entry(visitors, dispatchers, node.Kind());
      if node.Kind() !in dispatchers {
        DispatchNothing(true, visitors, |visitors|, node, Info(), World());
        return;
      }
      var enterList := dispatchers[node.Kind()].enterList;
      for i := 0 to |enterList|
        invariant Valid()
        invariant World() == Dispatch(true, visitors, i, node, Info(), old(World()))
      {
        EnterTurn(node, i, enterList[i]);
      }
    }

    /** The body of the loop in dispatchLeave. */
    method LeaveTurn(node: ASTNode, i: nat, fn: Option<Hook<S>>)
      requires Valid() && i < |visitors| && fn == visitors[i].ForKind(node.Kind()).leave
      modifies this`states, this`errors, this`calls, skipping
      ensures Valid()
      ensures World() == Turn(false, visitors[i], node, Info(), i, old(World()))
    {
      hide Zip, Entry;
      ghost var l := Lane(states[i], skipping[i], calls[i]);
      if skipping[i] == Running {
        var result := CONTINUE;
        if fn.Some? {
          var o := fn.value(states[i], Info(), node);
          states, errors, result := states[i := o.st], errors + o.reports, o.result;
          calls := calls[i := calls[i] + [Leave(node, Info())]];
        }
        if result == BREAK {
          skipping[i] := Broken;
        }
      } else if skipping[i] == At(node) {
        skipping[i] := Running;
      }
      ZipChanges(old(states), states, old(skipping[..]), skipping[..], old(calls), calls, i);
      assert Lane(states[i], skipping[i], calls[i]) == LeaveLane(visitors[i], node, Info(), l).0;
    }

    method DispatchLeave(node: ASTNode)
      requires Valid()
      requires node.Kind() !in dispatchers ==> forall i | 0 <= i < |visitors| :: skipping[i] != At(node)
      modifies this`states, this`errors, this`calls, skipping
      ensures Valid()
      ensures World() == Dispatch(false, visitors, |visitors|, node, Info(), old(World()))
    {
      hide Zip, Turn;
      assert Entry(visitors, dispatchers, node.Kind());
      if node.Kind() !in dispatchers {
        DispatchNothing(false, visitors, |visitors|, node, Info(), World());
        return;
      }
      var leaveList := dispatchers[node.Kind()].leaveList;
      for i := 0 to |leaveList|
        invariant Valid()
        invariant World() == Dispatch(false, visitors, i, node, Info(), old(World()))
      {
        LeaveTurn(node, i, leaveList[i]);
      }
    }

    method EnterOperationDefinition(node: ASTNode)
      requires Valid() && node.OperationDefinition?
      modifies this, skipping
      ensures Valid()
      ensures var info := EnterInfo(AssemblyScript, schema, node, old(Info()));
              World() == Dispatch(true, visitors, |visitors|, node, info, old(World()))
      ensures Info() == ChildInfo(AssemblyScript, schema, node, old(Info()))
      ensures parentTypeStack == old(parentTypeStack) + [old(parentType)]
    {
      parentTypeStack := parentTypeStack + [parentType];
      var rootName := "Query";
      if node.operation == Mutation {
        rootName := "Mutation";
      } else if node.operation == Subscription {
        rootName := "Subscription";
      }
      parentType := schema.GetType(rootName);
      DispatchEnter(node);
    }

    method EnterFragmentDefinition(node: ASTNode)
      requires Valid() && node.FragmentDefinition?
      modifies this, skipping
      ensures Valid()
      ensures var info := EnterInfo(AssemblyScript, schema, node, old(Info()));
              World() == Dispatch(true, visitors, |visitors|, node, info, old(World()))
      ensures Info() == ChildInfo(AssemblyScript, schema, node, old(Info()))
      ensures parentTypeStack == old(parentTypeStack) + [old(parentType)]
    {
      parentTypeStack := parentTypeStack + [parentType];
      parentType := schema.GetType(node.onType.NameValue());
      DispatchEnter(node);
    }

    method EnterInlineFragment(node: ASTNode)
      requires Valid() && node.InlineFragment?
      modifies this, skipping
      ensures Valid()
      ensures var info := EnterInfo(AssemblyScript, schema, node, old(Info()));
              World() == Dispatch(true, visitors, |visitors|, node, info, old(World()))
      ensures Info() == ChildInfo(AssemblyScript, schema, node, old(Info()))
      ensures parentTypeStack == old(parentTypeStack) + [old(parentType)]
    {
      parentTypeStack := parentTypeStack + [parentType];
      if node.typeCondition.Some? {
        parentType := schema.GetType(node.typeCondition.value.NameValue());
      }
      DispatchEnter(node);
    }

    /** The field's own hooks still see the type that contains the field. */
    method EnterField(node: ASTNode)
      requires Valid() && node.Field?
      modifies this, skipping
      ensures Valid()
      ensures var info := EnterInfo(AssemblyScript, schema, node, old(Info()));
              World() == Dispatch(true, visitors, |visitors|, node, info, old(World()))
      ensures Info() == ChildInfo(AssemblyScript, schema, node, old(Info()))
      ensures parentTypeStack == old(parentTypeStack) + [old(parentType)]
    {
      var parent := parentType;
      fieldDef := None;
      var nextParent: Option<GraphQLType> := None;
      if parent.Some? && node.name.NameValue() in parent.value.fields {
        fieldDef := Some(parent.value.fields[node.name.NameValue()]);
        nextParent := schema.GetType(fieldDef.value.typeName);
      }
      parentTypeStack := parentTypeStack + [parentType];
      DispatchEnter(node);
      parentType := nextParent;
    }

    /** The enter hook of visitWithTypeInfo's wrapper for the node's kind. */
    method EnterNode(node: ASTNode)
      requires Valid()
      modifies this, skipping
      ensures Valid()
      ensures var info := EnterInfo(AssemblyScript, schema, node, old(Info()));
              World() == Dispatch(true, visitors, |visitors|, node, info, old(World()))
      ensures Info() == ChildInfo(AssemblyScript, schema, node, old(Info()))
      ensures parentTypeStack == StackInside(node, old(parentTypeStack), old(parentType))
    {
      if node.OperationDefinition? {
        EnterOperationDefinition(node);
      } else if node.FragmentDefinition? {
        EnterFragmentDefinition(node);
      } else if node.InlineFragment? {
        EnterInlineFragment(node);
      } else if node.Field? {
        EnterField(node);
      } else {
        UntrackedInfo(schema, node, Info());
        DispatchEnter(node);
      }
    }

    /** The tinfo_leave hooks: the inner hooks first, then the pop. */
    method LeaveNode(node: ASTNode)
      requires Valid()
      requires Tracked(node) ==> parentTypeStack != []
      requires node.Kind() !in dispatchers ==> forall i | 0 <= i < |visitors| :: skipping[i] != At(node)
      modifies this, skipping
      ensures Valid()
      ensures World() == Dispatch(false, visitors, |visitors|, node, old(Info()), old(World()))
      ensures Tracked(node) ==>
                && parentTypeStack == old(parentTypeStack[..|parentTypeStack|-1])
                && parentType == old(parentTypeStack[|parentTypeStack|-1])
                && fieldDef == if node.Field? then None else old(fieldDef)
      ensures !Tracked(node) ==> Info() == old(Info()) && parentTypeStack == old(parentTypeStack)
    {
      DispatchLeave(node);
      if node.OperationDefinition? || node.FragmentDefinition? || node.InlineFragment? || node.Field? {
        var top := |parentTypeStack| - 1;
        parentType, parentTypeStack := parentTypeStack[top], parentTypeStack[..top];
        if node.Field? {
          fieldDef := None;
        }
      }
    }

    /**
     * walkNode with the merged visitor, whose hooks always answer CONTINUE: its two
     * early exits belong to a lone visitor and are in SoloWalk.
     */
    method WalkNode(node: ASTNode)
      requires Valid() && NoneBelow(World(), node)
      modifies this, skipping
      ensures Valid()
      ensures (World(), Info()) == Walk(Config(), node, old(Info()), old(World()))
      ensures parentTypeStack == old(parentTypeStack)
      decreases node, 1, 0
    {
      hide Dispatch, Zip, WalkAll, Kids, EnterInfo, ChildInfo, NoHooks, Lists, NoneBelow, NoneStrictlyBelow;
      ghost var c, before, w := Config(), Info(), World();
      EnterKeepsNone(visitors, node, EnterInfo(AssemblyScript, schema, node, before), w);
      EnterNode(node);
      ghost var inside, w1 := Info(), World();
      assert parentTypeStack == StackInside(node, old(parentTypeStack), old(parentType));
      var ks := keys(node.Kind());
      if ks.Some? {
        WalkKeys(node, ks.value, inside, w1);
      }
      ghost var kids := Kids(keys, node);
      KidsByRow(keys, node);
      WalkAllNone(c, node, inside, w1);
      WalkKeepsNone(c, node, kids, inside, w1);
      assert Entry(visitors, dispatchers, node.Kind());
      if node.Kind() !in dispatchers { NobodySkips(World(), node); }
      LeaveNode(node);
      assert Tracked(node)
          ==> (old(parentTypeStack) + [old(parentType)])[..|old(parentTypeStack)|] == old(parentTypeStack);
    }

    /** walkNode's loop over keys. */
    method WalkKeys(node: ASTNode, ks: seq<Key>, ghost inside: TypeInfo, ghost w1: World<S>)
      requires Valid() && |w1.lanes| == |visitors| && NoneStrictlyBelow(w1, node)
      requires (World(), Info()) == (w1, inside)
      modifies this, skipping
      ensures Valid()
      ensures (World(), Info()) == WalkAll(Config(), node, KidsOf(node, ks), inside, w1)
      ensures parentTypeStack == old(parentTypeStack)
      decreases node, 0, 3
    {
      hide Zip, Entry, WalkAll, NoneStrictlyBelow;
      WalkAllNone(Config(), node, inside, w1);
      for i := 0 to |ks|
        invariant Valid() && parentTypeStack == old(parentTypeStack)
        invariant (World(), Info()) == WalkAll(Config(), node, KidsOf(node, ks[..i]), inside, w1)
      {
        assert ks[..i+1][..i] == ks[..i];
        WalkKey(node, ks[i], KidsOf(node, ks[..i]), inside, w1);
      }
      assert ks[..|ks|] == ks;
    }

    /** One turn of walkNode's loop over keys: a single child, then a list of children. */
    method WalkKey(node: ASTNode, key: Key, ghost done: seq<ASTNode>, ghost inside: TypeInfo, ghost w1: World<S>)
      requires Valid() && |w1.lanes| == |visitors| && AllBelow(done, node) && NoneStrictlyBelow(w1, node)
      requires (World(), Info()) == WalkAll(Config(), node, done, inside, w1)
      modifies this, skipping
      ensures Valid()
      ensures (World(), Info()) == WalkAll(Config(), node, done + KeyKids(node, key), inside, w1)
      ensures parentTypeStack == old(parentTypeStack)
      decreases node, 0, 2
    {
      hide Zip, Entry, WalkAll, NoneStrictlyBelow, GetChild, GetChildren;
      var single, list := GetChild(node, key), GetChildren(node, key);
      if single.Some? {
        WalkChild(node, single.value, done, inside, w1);
      }
      ghost var seen := done + (if single.Some? then [single.value] else []);
      assert single.None? ==> seen == done;
      assert done + KeyKids(node, key) == seen + (if list.Some? then list.value else []);
      if list.Some? {
        WalkList(node, list.value, seen, inside, w1);
      } else {
        assert seen + [] == seen;
      }
    }

    method WalkList(
        node: ASTNode, list: seq<ASTNode>, ghost done: seq<ASTNode>, ghost inside: TypeInfo, ghost w1: World<S>)
      requires Valid() && |w1.lanes| == |visitors| && NoneStrictlyBelow(w1, node)
      requires AllBelow(done, node) && AllBelow(list, node)
      requires (World(), Info()) == WalkAll(Config(), node, done, inside, w1)
      modifies this, skipping
      ensures Valid() && AllBelow(done + list, node)
      ensures (World(), Info()) == WalkAll(Config(), node, done + list, inside, w1)
      ensures parentTypeStack == old(parentTypeStack)
      decreases node, 0, 1
    {
      hide World, Info, Valid, WalkAll, NoneStrictlyBelow;
      ghost var seen := done;
      for j := 0 to |list|
        invariant Valid() && AllBelow(seen, node) && seen == done + list[..j]
        invariant (World(), Info()) == WalkAll(Config(), node, seen, inside, w1)
        invariant parentTypeStack == old(parentTypeStack)
      {
        WalkChild(node, list[j], seen, inside, w1);
        seen := seen + [list[j]];
        assert list[..j+1] == list[..j] + [list[j]];
      }
      assert list[..|list|] == list;
    }

    method WalkChild(
        node: ASTNode, child: ASTNode, ghost done: seq<ASTNode>, ghost inside: TypeInfo, ghost w1: World<S>)
      requires Valid() && |w1.lanes| == |visitors| && NoneStrictlyBelow(w1, node)
      requires AllBelow(done, node) && child < node
      requires (World(), Info()) == WalkAll(Config(), node, done, inside, w1)
      modifies this, skipping
      ensures Valid()
      ensures AllBelow(done + [child], node)
      ensures (World(), Info()) == WalkAll(Config(), node, done + [child], inside, w1)
      ensures parentTypeStack == old(parentTypeStack)
      decreases node, 0, 0
    {
      hide Zip, Entry, Walk, WalkAll;
      WalkKeepsNone(Config(), node, done, inside, w1);
      NoneBelowChild(World(), node, child);
      WalkAllOneMore(Config(), node, done, child, inside, w1);
      hide NoneBelow, NoneStrictlyBelow;
      WalkNode(child);
    }

    /** Visitor i, from state st, has done what it does told its places, and what it does merged with no other. */
    ghost predicate RanAlone(i: nat, root: ASTNode, st: S)
      requires Valid() && i < |visitors|
      reads this, skipping
    {
      var start, lane := Lane(st, Running, []), Lane(states[i], skipping[i], calls[i]);
      && lane == LaneByPlace(Config(), visitors[i], root, start)
      && lane == Walk(Alone(Config(), i), root, TypeInfo(None, None), Traversal.World([start], [])).0.lanes[0]
    }

    /**
     * A whole run. Whatever the hooks are, each visitor's calls and final state are those
     * of its own walk told its places, which is also the merged walk of that visitor alone;
     * each skipping entry is clear unless its visitor broke, and the types are back.
     */
    method Visit(root: ASTNode)
      requires Valid() && Info() == TypeInfo(None, None)
      requires forall i | 0 <= i < |visitors| :: skipping[i] == Running && calls[i] == []
      modifies this, skipping
      ensures Valid()
      ensures parentTypeStack == old(parentTypeStack) && Info() == TypeInfo(None, None)
      ensures (World(), Info()) == Walk(Config(), root, TypeInfo(None, None), old(World()))
      ensures forall i: nat | i < |visitors| :: RanAlone(i, root, old(states)[i])
    {
      hide Walk, LaneByPlace;
      ghost var w := World();
      assert NoneBelow(w, root);
      WalkNode(root);
      WalkInfo(Config(), root, TypeInfo(None, None), w);
      AfterTop(schema, keys, root);
      forall i: nat | i < |visitors|
        ensures World().lanes[i] == LaneByPlace(Config(), visitors[i], root, w.lanes[i])
        ensures World().lanes[i]
             == Walk(Alone(Config(), i), root, TypeInfo(None, None), Traversal.World([w.lanes[i]], [])).0.lanes[0]
      {
        MergedIsByPlace(Config(), root, w, i);
        OthersDoNotMatter(Config(), root, TypeInfo(None, None), w, Traversal.World([w.lanes[i]], []), i);
      }
    }
  }

  lemma AfterTop(schema: GraphQLSchema, keys: VisitorKeys, root: ASTNode)
    ensures After(AssemblyScript, keys, [root], TypeInfo(None, None)) == TypeInfo(None, None)
  {
  }
}
