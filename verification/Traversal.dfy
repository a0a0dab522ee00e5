/**
 * What one depth-first walk does, as functions: the merged walk over a vector of
 * visitors, and the walk of one visitor on its own.
 */
module Traversal {
  import opened Options
  import opened Ast

  datatype VisitorResult = CONTINUE | SKIP_SUBTREE | BREAK

  /** What a hook can read from the context besides the schema and the document. */
  datatype TypeInfo = TypeInfo(parentType: Option<GraphQLType>, fieldDef: Option<GraphQLField>)

  datatype HookOut<S> = HookOut(st: S, reports: seq<GraphQLError>, result: VisitorResult)

  /** A hook is any function of its visitor's own state, the type information and the node. */
  type Hook<!S> = (S, TypeInfo, ASTNode) -> HookOut<S>

  datatype EnterLeave<!S> = EnterLeave(enter: Option<Hook<S>>, leave: Option<Hook<S>>)

  datatype Visitor<!S> = Visitor(perKind: map<Kind, EnterLeave<S>>, enter: Option<Hook<S>>, leave: Option<Hook<S>>) {
    /** The entry registered for the kind, or the generic pair. */
    function ForKind(kind: Kind): EnterLeave<S> {
      if kind in perKind then perKind[kind] else EnterLeave(enter, leave)
    }
  }

  datatype Port = AssemblyScript | JavaScript

  datatype Config<!S> = Config(port: Port, schema: GraphQLSchema, keys: VisitorKeys, visitors: seq<Visitor<S>>)

  // ---------------------------------------------------------------- type tracking

  function RootTypeName(op: OperationType): string {
    match op
    case Query => "Query"
    case Mutation => "Mutation"
    case Subscription => "Subscription"
  }

  function FieldLookup(parent: Option<GraphQLType>, name: string): Option<GraphQLField> {
    if parent.Some? && name in parent.value.fields then Some(parent.value.fields[name]) else None
  }

  function FieldType(schema: GraphQLSchema, parent: Option<GraphQLType>, name: string): Option<GraphQLType> {
    match FieldLookup(parent, name)
    case Some(def) => schema.GetType(def.typeName)
    case None => None
  }

  /** The JavaScript port never looks up the empty name. */
  function ConditionType(schema: GraphQLSchema, condition: Option<ASTNode>): Option<GraphQLType> {
    if condition.Some? && condition.value.NameValue() != "" then schema.GetType(condition.value.NameValue()) else None
  }

  predicate Tracked(node: ASTNode) {
    node.OperationDefinition? || node.FragmentDefinition? || node.InlineFragment? || node.Field?
  }

  /** The information an enter hook sees at node, when ti held just before node. */
  function EnterInfo(port: Port, schema: GraphQLSchema, node: ASTNode, ti: TypeInfo): TypeInfo {
    match port
    case JavaScript => ti
    case AssemblyScript =>
      match node
      case OperationDefinition(op, _, _, _) => ti.(parentType := schema.GetType(RootTypeName(op)))
      case FragmentDefinition(_, t, _) => ti.(parentType := schema.GetType(t.NameValue()))
      case InlineFragment(Some(t), _) => ti.(parentType := schema.GetType(t.NameValue()))
      case Field(n, _, _, _) => ti.(fieldDef := FieldLookup(ti.parentType, n.NameValue()))
      case _ => ti
  }

  /** The information that holds while node's children are walked. */
  function ChildInfo(port: Port, schema: GraphQLSchema, node: ASTNode, ti: TypeInfo): TypeInfo {
    match port
    case AssemblyScript =>
      if node.Field? then
        EnterInfo(port, schema, node, ti).(parentType := FieldType(schema, ti.parentType, node.name.NameValue()))
      else EnterInfo(port, schema, node, ti)
    case JavaScript =>
      match node
      case OperationDefinition(_, _, _, _) => ti.(parentType := schema.queryType)
      case FragmentDefinition(_, t, _) => ti.(parentType := ConditionType(schema, Some(t)))
      case InlineFragment(t, _) => ti.(parentType := ConditionType(schema, t))
      case Field(n, _, _, _) =>
        TypeInfo(FieldType(schema, ti.parentType, n.NameValue()), FieldLookup(ti.parentType, n.NameValue()))
      case _ => ti
  }

  /** What a leave hook sees: one port pops after the hook, the other before it. */
  function LeaveInfo(port: Port, before: TypeInfo, inside: TypeInfo): TypeInfo {
    match port
    case AssemblyScript => inside
    case JavaScript => before
  }

  /** What holds after node has been left. */
  function AfterInfo(port: Port, node: ASTNode, before: TypeInfo, inside: TypeInfo): TypeInfo {
    match port
    case JavaScript => before
    case AssemblyScript =>
      if Tracked(node) then TypeInfo(before.parentType, if node.Field? then None else inside.fieldDef) else inside
  }

  // ---------------------------------------------------------------- the merged walk

  datatype Skip = Running | At(node: ASTNode) | Broken

  datatype Call =
    | Enter(node: ASTNode, info: TypeInfo)
    | Leave(node: ASTNode, info: TypeInfo)

  /** One visitor's share of a merged walk: its state, its skipping entry and the calls it got. */
  datatype Lane<S> = Lane(st: S, skip: Skip, calls: seq<Call>)

  datatype World<S> = World(lanes: seq<Lane<S>>, errors: seq<GraphQLError>)

  /** The entry after an enter hook has answered. */
  function SkipOf(node: ASTNode, result: VisitorResult): Skip {
    match result
    case SKIP_SUBTREE => At(node)
    case BREAK => Broken
    case CONTINUE => Running
  }

  function EnterLane<S>(v: Visitor<S>, node: ASTNode, info: TypeInfo, l: Lane<S>): (Lane<S>, seq<GraphQLError>) {
    if l.skip != Running then (l, []) else
    match v.ForKind(node.Kind()).enter
    case None => (l, [])
    case Some(f) =>
      var o := f(l.st, info, node);
      (Lane(o.st, SkipOf(node, o.result), l.calls + [Enter(node, info)]), o.reports)
  }

  function LeaveLane<S>(v: Visitor<S>, node: ASTNode, info: TypeInfo, l: Lane<S>): (Lane<S>, seq<GraphQLError>) {
    if l.skip == At(node) then (l.(skip := Running), [])
    else if l.skip != Running then (l, [])
    else
      match v.ForKind(node.Kind()).leave
      case None => (l, [])
      case Some(f) =>
        var o := f(l.st, info, node);
        (Lane(o.st, if o.result == BREAK then Broken else Running, l.calls + [Leave(node, info)]), o.reports)
  }

  /** One step of a dispatch loop: visitor i has its turn. */
  function Turn<S>(enter: bool, v: Visitor<S>, node: ASTNode, info: TypeInfo, i: nat, w: World<S>): World<S>
    requires i < |w.lanes|
  {
    var (l, rs) := if enter then EnterLane(v, node, info, w.lanes[i]) else LeaveLane(v, node, info, w.lanes[i]);
    World(w.lanes[i := l], w.errors + rs)
  }

  /** The first n visitors have had their turn at entering, or leaving, node. */
  function Dispatch<S>(
      enter: bool, vs: seq<Visitor<S>>, n: nat, node: ASTNode, info: TypeInfo, w: World<S>): (r: World<S>)
    requires n <= |vs| == |w.lanes|
    ensures |r.lanes| == |vs|
  {
    if n == 0 then w else Turn(enter, vs[n-1], node, info, n-1, Dispatch(enter, vs, n-1, node, info, w))
  }

  function Walk<S>(c: Config<S>, node: ASTNode, ti: TypeInfo, w: World<S>): (r: (World<S>, TypeInfo))
    requires |w.lanes| == |c.visitors|
    ensures |r.0.lanes| == |c.visitors|
    decreases node
  {
    var w1 := Dispatch(true, c.visitors, |c.visitors|, node, EnterInfo(c.port, c.schema, node, ti), w);
    var (w2, inside) := WalkAll(c, node, Kids(c.keys, node), ChildInfo(c.port, c.schema, node, ti), w1);
    (Dispatch(false, c.visitors, |c.visitors|, node, LeaveInfo(c.port, ti, inside), w2),
     AfterInfo(c.port, node, ti, inside))
  }

  function WalkAll<S>(
      c: Config<S>, parent: ASTNode, kids: seq<ASTNode>, ti: TypeInfo, w: World<S>): (r: (World<S>, TypeInfo))
    requires |w.lanes| == |c.visitors|
    requires AllBelow(kids, parent)
    ensures |r.0.lanes| == |c.visitors|
    decreases parent, |kids|
  {
    if kids == [] then (w, ti) else
    var (w1, ti1) := WalkAll(c, parent, kids[..|kids|-1], ti, w);
    Walk(c, kids[|kids|-1], ti1, w1)
  }

  // ---------------------------------------------------------------- what a walked subtree leaves behind

  /** A field can be reached from the node. */
  predicate HoldsField(keys: VisitorKeys, node: ASTNode)
    decreases node
  {
    node.Field? || exists j | 0 <= j < |Kids(keys, node)| :: HoldsField(keys, Kids(keys, node)[j])
  }

  predicate AnyHoldsField(keys: VisitorKeys, nodes: seq<ASTNode>) {
    exists j | 0 <= j < |nodes| :: HoldsField(keys, nodes[j])
  }

  /** ti once the nodes have been walked: in the AssemblyScript port leaving any field clears fieldDef. */
  function After(port: Port, keys: VisitorKeys, nodes: seq<ASTNode>, ti: TypeInfo): TypeInfo {
    if port.AssemblyScript? && AnyHoldsField(keys, nodes) then ti.(fieldDef := None) else ti
  }

  lemma AfterNone(port: Port, keys: VisitorKeys, ti: TypeInfo)
    ensures After(port, keys, [], ti) == ti
  {
  }

  lemma AfterOneMore(port: Port, keys: VisitorKeys, nodes: seq<ASTNode>, ti: TypeInfo)
    requires nodes != []
    ensures var front, last := nodes[..|nodes|-1], nodes[|nodes|-1];
            After(port, keys, nodes, ti) == After(port, keys, [last], After(port, keys, front, ti))
  {
    hide HoldsField;
    var front, last := nodes[..|nodes|-1], nodes[|nodes|-1];
    assert HoldsField(keys, last) <==> HoldsField(keys, [last][0]);
    assert forall j | 0 <= j < |front| :: front[j] == nodes[j];
    if AnyHoldsField(keys, nodes) && !AnyHoldsField(keys, front) {
      assert HoldsField(keys, last);
    }
  }

  lemma AfterNode(port: Port, schema: GraphQLSchema, keys: VisitorKeys, node: ASTNode, ti: TypeInfo)
    ensures AfterInfo(port, node, ti, After(port, keys, Kids(keys, node), ChildInfo(port, schema, node, ti)))
         == After(port, keys, [node], ti)
  {
    hide FieldType, FieldLookup, ConditionType, RootTypeName, Kids;
    assert HoldsField(keys, [node][0]) <==> HoldsField(keys, node);
  }

  /** The type information after a walk does not depend on the visitors. */
  lemma {:induction false} WalkInfo<S>(c: Config<S>, node: ASTNode, ti: TypeInfo, w: World<S>)
    requires |w.lanes| == |c.visitors|
    ensures Walk(c, node, ti, w).1 == After(c.port, c.keys, [node], ti)
    decreases node
  {
    hide After, Dispatch, EnterInfo, ChildInfo, LeaveInfo, AfterInfo;
    var w1 := Dispatch(true, c.visitors, |c.visitors|, node, EnterInfo(c.port, c.schema, node, ti), w);
    WalkAllInfo(c, node, Kids(c.keys, node), ChildInfo(c.port, c.schema, node, ti), w1);
    AfterNode(c.port, c.schema, c.keys, node, ti);
  }

  lemma {:induction false} WalkAllInfo<S>(
      c: Config<S>, parent: ASTNode, kids: seq<ASTNode>, ti: TypeInfo, w: World<S>)
    requires |w.lanes| == |c.visitors| && AllBelow(kids, parent)
    ensures WalkAll(c, parent, kids, ti, w).1 == After(c.port, c.keys, kids, ti)
    decreases parent, |kids|
  {
    hide After, Walk;
    if kids == [] {
      AfterNone(c.port, c.keys, ti);
    } else {
      var front, last := kids[..|kids|-1], kids[|kids|-1];
      WalkAllInfo(c, parent, front, ti, w);
      var (w1, ti1) := WalkAll(c, parent, front, ti, w);
      WalkInfo(c, last, ti1, w1);
      AfterOneMore(c.port, c.keys, kids, ti);
    }
  }

  // ---------------------------------------------------------------- one visitor alone

  datatype Solo<S> = Solo(st: S, stopped: bool, calls: seq<Call>)

  function SoloEnter<S>(v: Visitor<S>, node: ASTNode, info: TypeInfo, s: Solo<S>): (Solo<S>, VisitorResult) {
    match v.ForKind(node.Kind()).enter
    case None => (s, CONTINUE)
    case Some(f) =>
      var o := f(s.st, info, node);
      (Solo(o.st, o.result == BREAK, s.calls + [Enter(node, info)]), o.result)
  }

  function SoloLeave<S>(v: Visitor<S>, node: ASTNode, info: TypeInfo, s: Solo<S>): Solo<S> {
    match v.ForKind(node.Kind()).leave
    case None => s
    case Some(f) =>
      var o := f(s.st, info, node);
      Solo(o.st, o.result == BREAK, s.calls + [Leave(node, info)])
  }

  /**
   * The walk of visitor v by itself: it does not descend under a node it skips, and
   * stops when it breaks. The type information at a node is that of its place in the
   * tree, whatever the visitor has skipped on the way. With leaveAfterSkip it makes the
   * leave call that walkNode makes for a lone visitor; without, it is what graphql-js does.
   */
  function SoloWalk<S>(c: Config<S>, v: Visitor<S>, leaveAfterSkip: bool, node: ASTNode, ti: TypeInfo, s: Solo<S>)
    : Solo<S>
    decreases node
  {
    if s.stopped then s else
    var kids, inside := Kids(c.keys, node), ChildInfo(c.port, c.schema, node, ti);
    var (s1, result) := SoloEnter(v, node, EnterInfo(c.port, c.schema, node, ti), s);
    if result == BREAK || (result == SKIP_SUBTREE && !leaveAfterSkip) then s1
    else
      var s2 := if result == SKIP_SUBTREE then s1 else SoloAll(c, v, leaveAfterSkip, node, kids, inside, s1);
      if s2.stopped then s2
      else SoloLeave(v, node, LeaveInfo(c.port, ti, After(c.port, c.keys, kids, inside)), s2)
  }

  function SoloAll<S>(
      c: Config<S>, v: Visitor<S>, leaveAfterSkip: bool, parent: ASTNode, kids: seq<ASTNode>, ti: TypeInfo, s: Solo<S>)
    : Solo<S>
    requires AllBelow(kids, parent)
    decreases parent, |kids|
  {
    if kids == [] then s else
    var front, last := kids[..|kids|-1], kids[|kids|-1];
    SoloWalk(c, v, leaveAfterSkip, last, After(c.port, c.keys, front, ti),
             SoloAll(c, v, leaveAfterSkip, parent, front, ti, s))
  }

  // ---------------------------------------------------------------- merged equals solo

  /** What a lane becomes if the visitor's own walk of node is spliced in. */
  function SpliceSolo<S>(c: Config<S>, v: Visitor<S>, node: ASTNode, ti: TypeInfo, l: Lane<S>): Lane<S> {
    if l.skip != Running then l else
    LaneOf(SoloWalk(c, v, false, node, ti, Solo(l.st, false, l.calls)))
  }

  function SpliceSoloAll<S>(
      c: Config<S>, v: Visitor<S>, parent: ASTNode, kids: seq<ASTNode>, ti: TypeInfo, l: Lane<S>)
    : Lane<S>
    requires AllBelow(kids, parent)
  {
    if l.skip != Running then l else
    LaneOf(SoloAll(c, v, false, parent, kids, ti, Solo(l.st, false, l.calls)))
  }

  function LaneOf<S>(s: Solo<S>): Lane<S> {
    Lane(s.st, if s.stopped then Broken else Running, s.calls)
  }

  /** A dispatch loop treats each lane by itself. */
  lemma {:induction false} DispatchLane<S>(
      enter: bool, vs: seq<Visitor<S>>, n: nat, node: ASTNode, info: TypeInfo, w: World<S>, i: nat)
    requires n <= |vs| == |w.lanes| && i < |vs|
    ensures Dispatch(enter, vs, n, node, info, w).lanes[i]
         == if i >= n then w.lanes[i]
            else if enter then EnterLane(vs[i], node, info, w.lanes[i]).0
            else LeaveLane(vs[i], node, info, w.lanes[i]).0
  {
    if n > 0 { DispatchLane(enter, vs, n-1, node, info, w, i); }
  }

  /** Entering, walking the children and leaving compose to the visitor's own walk. */
  lemma LaneStages<S>(c: Config<S>, v: Visitor<S>, node: ASTNode, ti: TypeInfo, l: Lane<S>)
    requires l.skip.At? ==> node < l.skip.node
    ensures var kids, inside := Kids(c.keys, node), ChildInfo(c.port, c.schema, node, ti);
            var l1 := EnterLane(v, node, EnterInfo(c.port, c.schema, node, ti), l).0;
            var l2 := SpliceSoloAll(c, v, node, kids, inside, l1);
            && LeaveLane(v, node, LeaveInfo(c.port, ti, After(c.port, c.keys, kids, inside)), l2).0
            == SpliceSolo(c, v, node, ti, l)
  {
    hide EnterInfo, ChildInfo, LeaveInfo, After, Kids;
    if l.skip == Running {
      var (s1, result) := SoloEnter(v, node, EnterInfo(c.port, c.schema, node, ti), Solo(l.st, false, l.calls));
      var l1 := EnterLane(v, node, EnterInfo(c.port, c.schema, node, ti), l).0;
      assert l1 == Lane(s1.st, SkipOf(node, result), s1.calls);
      if result == CONTINUE {
        assert s1 == Solo(l1.st, false, l1.calls);
      }
    }
  }

  /**
   * The heart of visitInParallel, for any hooks: whatever the other visitors do, visitor
   * i gets the calls, and ends in the state, of its own walk. A lane that is skipping an
   * ancestor or is broken is untouched, and a skipping entry never outlives its subtree.
   */
  lemma {:induction false} MergedIsSolo<S>(c: Config<S>, node: ASTNode, ti: TypeInfo, w: World<S>, i: nat)
    requires |w.lanes| == |c.visitors| && i < |c.visitors|
    requires w.lanes[i].skip.At? ==> node < w.lanes[i].skip.node
    ensures Walk(c, node, ti, w).0.lanes[i] == SpliceSolo(c, c.visitors[i], node, ti, w.lanes[i])
    decreases node
  {
    hide EnterInfo, ChildInfo, LeaveInfo, After, Kids, SpliceSolo, SpliceSoloAll, Dispatch, WalkAll;
    var v, n := c.visitors[i], |c.visitors|;
    var info, inside := EnterInfo(c.port, c.schema, node, ti), ChildInfo(c.port, c.schema, node, ti);
    var kids := Kids(c.keys, node);
    var w1 := Dispatch(true, c.visitors, n, node, info, w);
    DispatchLane(true, c.visitors, n, node, info, w, i);
    MergedIsSoloAll(c, node, kids, inside, w1, i);
    WalkAllInfo(c, node, kids, inside, w1);
    var (w2, out) := WalkAll(c, node, kids, inside, w1);
    DispatchLane(false, c.visitors, n, node, LeaveInfo(c.port, ti, out), w2, i);
    LaneStages(c, v, node, ti, w.lanes[i]);
  }

  lemma {:induction false} MergedIsSoloAll<S>(
      c: Config<S>, parent: ASTNode, kids: seq<ASTNode>, ti: TypeInfo, w: World<S>, i: nat)
    requires |w.lanes| == |c.visitors| && i < |c.visitors|
    requires AllBelow(kids, parent)
    requires w.lanes[i].skip.At? ==> parent == w.lanes[i].skip.node || parent < w.lanes[i].skip.node
    ensures WalkAll(c, parent, kids, ti, w).0.lanes[i] == SpliceSoloAll(c, c.visitors[i], parent, kids, ti, w.lanes[i])
    decreases parent, |kids|
  {
    hide After, Walk;
    if kids != [] {
      var front, last := kids[..|kids|-1], kids[|kids|-1];
      MergedIsSoloAll(c, parent, front, ti, w, i);
      WalkAllInfo(c, parent, front, ti, w);
      var (w1, ti1) := WalkAll(c, parent, front, ti, w);
      MergedIsSolo(c, last, ti1, w1, i);
      SpliceSoloLast(c, c.visitors[i], parent, kids, ti, w.lanes[i]);
    }
  }

  lemma SpliceSoloLast<S>(c: Config<S>, v: Visitor<S>, parent: ASTNode, kids: seq<ASTNode>, ti: TypeInfo, l: Lane<S>)
    requires AllBelow(kids, parent) && kids != []
    ensures var front, last := kids[..|kids|-1], kids[|kids|-1];
            && SpliceSoloAll(c, v, parent, kids, ti, l)
            == SpliceSolo(c, v, last, After(c.port, c.keys, front, ti), SpliceSoloAll(c, v, parent, front, ti, l))
  {
    hide After;
    if l.skip == Running {
      var front := kids[..|kids|-1];
      var s := SoloAll(c, v, false, parent, front, ti, Solo(l.st, false, l.calls));
      assert SoloAll(c, v, false, parent, kids, ti, Solo(l.st, false, l.calls))
          == SoloWalk(c, v, false, kids[|kids|-1], After(c.port, c.keys, front, ti), s);
    }
  }

  /** The merged walk of visitor i alone. */
  function Alone<S>(c: Config<S>, i: nat): Config<S>
    requires i < |c.visitors|
  {
    c.(visitors := [c.visitors[i]])
  }

  /** Visitor i is walked with the others exactly as it is merged with none, and so is the type information. */
  lemma OthersDoNotMatter<S>(c: Config<S>, node: ASTNode, ti: TypeInfo, w: World<S>, u: World<S>, i: nat)
    requires |w.lanes| == |c.visitors| && i < |c.visitors|
    requires w.lanes[i].skip.At? ==> node < w.lanes[i].skip.node
    requires |u.lanes| == 1 && u.lanes[0] == w.lanes[i]
    ensures Walk(c, node, ti, w).0.lanes[i] == Walk(Alone(c, i), node, ti, u).0.lanes[0]
    ensures Walk(c, node, ti, w).1 == Walk(Alone(c, i), node, ti, u).1
  {
    hide Walk;
    MergedIsSolo(c, node, ti, w, i);
    MergedIsSolo(Alone(c, i), node, ti, u, 0);
    SoloIgnoresOthers(c, Alone(c, i), c.visitors[i], node, ti, Solo(w.lanes[i].st, false, w.lanes[i].calls));
    WalkInfo(c, node, ti, w);
    WalkInfo(Alone(c, i), node, ti, u);
  }

  ghost predicate SameSetting<S>(c: Config<S>, d: Config<S>) {
    c.port == d.port && c.schema == d.schema && c.keys == d.keys
  }

  lemma {:induction false} SoloIgnoresOthers<S>(
      c: Config<S>, d: Config<S>, v: Visitor<S>, node: ASTNode, ti: TypeInfo, s: Solo<S>)
    requires SameSetting(c, d)
    ensures SoloWalk(c, v, false, node, ti, s) == SoloWalk(d, v, false, node, ti, s)
    decreases node
  {
    hide EnterInfo, ChildInfo, LeaveInfo, After, Kids, SoloAll;
    var (s1, result) := SoloEnter(v, node, EnterInfo(c.port, c.schema, node, ti), s);
    SoloAllIgnoresOthers(c, d, v, node, Kids(c.keys, node), ChildInfo(c.port, c.schema, node, ti), s1);
  }

  lemma {:induction false} SoloAllIgnoresOthers<S>(
      c: Config<S>, d: Config<S>, v: Visitor<S>, parent: ASTNode, kids: seq<ASTNode>, ti: TypeInfo, s: Solo<S>)
    requires SameSetting(c, d) && AllBelow(kids, parent)
    ensures SoloAll(c, v, false, parent, kids, ti, s) == SoloAll(d, v, false, parent, kids, ti, s)
    decreases parent, |kids|
  {
    hide After, SoloWalk;
    if kids != [] {
      var front, last := kids[..|kids|-1], kids[|kids|-1];
      SoloAllIgnoresOthers(c, d, v, parent, front, ti, s);
      var s1 := SoloAll(c, v, false, parent, front, ti, s);
      SoloIgnoresOthers(c, d, v, last, After(c.port, c.keys, front, ti), s1);
    }
  }
}
