/** The type a hook sees is a function of the schema and the path from the root. */
module TypeTracking {
  import opened Options
  import opened Ast
  import opened Traversal

  type Path = seq<ASTNode>

  function Above(path: Path): Path
    requires path != []
  {
    path[..|path|-1]
  }

  function Last(path: Path): ASTNode
    requires path != []
  {
    path[|path|-1]
  }

  /** The type whose fields are selected inside the last node of the path. */
  function TypeInside(port: Port, schema: GraphQLSchema, path: Path): Option<GraphQLType> {
    if path == [] then None else
    match Last(path)
    case OperationDefinition(op, _, _, _) =>
      if port.JavaScript? then schema.queryType else schema.GetType(RootTypeName(op))
    case FragmentDefinition(_, t, _) =>
      if port.JavaScript? then ConditionType(schema, Some(t)) else schema.GetType(t.NameValue())
    case InlineFragment(Some(t), _) =>
      if port.JavaScript? then ConditionType(schema, Some(t)) else schema.GetType(t.NameValue())
    case InlineFragment(None, _) =>
      if port.JavaScript? then None else TypeInside(port, schema, Above(path))
    case Field(n, _, _, _) => FieldType(schema, TypeInside(port, schema, Above(path)), n.NameValue())
    case _ => TypeInside(port, schema, Above(path))
  }

  /** What parentType is when a hook runs on the last node of the path. */
  function TypeSeen(port: Port, schema: GraphQLSchema, path: Path, entering: bool): Option<GraphQLType>
    requires path != []
  {
    if port.JavaScript? || (entering && Last(path).Field?) then TypeInside(port, schema, Above(path))
    else TypeInside(port, schema, path)
  }

  /** The definition of the innermost field on the path. */
  function FieldInside(port: Port, schema: GraphQLSchema, path: Path): Option<GraphQLField> {
    if path == [] then None else
    match Last(path)
    case Field(n, _, _, _) => FieldLookup(TypeInside(port, schema, Above(path)), n.NameValue())
    case _ => FieldInside(port, schema, Above(path))
  }

  function InfoInside(port: Port, schema: GraphQLSchema, path: Path): TypeInfo {
    TypeInfo(TypeInside(port, schema, path), FieldInside(port, schema, path))
  }

  // ---------------------------------------------------------------- places

  /** A node, and the siblings that are walked before it. */
  datatype Step = Step(node: ASTNode, before: seq<ASTNode>)

  /** Where in a tree a node stands: two equal nodes of one tree have different places. */
  type Place = seq<Step>

  function Here(place: Place): ASTNode
    requires place != []
  {
    place[|place|-1].node
  }

  function PathOf(place: Place): (path: Path)
    ensures |path| == |place|
    ensures place != [] ==> Last(path) == Here(place)
  {
    seq(|place|, i requires 0 <= i < |place| => place[i].node)
  }

  function Top(root: ASTNode): Place { [Step(root, [])] }

  /** The place of child j. */
  function Down(keys: VisitorKeys, place: Place, j: nat): Place
    requires place != [] && j < |Kids(keys, Here(place))|
  {
    var kids := Kids(keys, Here(place));
    place + [Step(kids[j], kids[..j])]
  }

  predicate IsChildStep(keys: VisitorKeys, parent: ASTNode, step: Step) {
    |step.before| < |Kids(keys, parent)|
    && step == Step(Kids(keys, parent)[|step.before|], Kids(keys, parent)[..|step.before|])
  }

  predicate IsPlace(keys: VisitorKeys, root: ASTNode, place: Place) {
    && place != [] && place[0] == Step(root, [])
    && forall i | 0 < i < |place| :: IsChildStep(keys, place[i-1].node, place[i])
  }

  /** No step from l on, but perhaps the last one, is a field. */
  predicate NoFieldBelow(place: Place, l: nat) {
    forall m | l <= m < |place| - 1 :: !place[m].node.Field?
  }

  /** Before the last node of the place a field has been left, and none that is still open has been entered since. */
  predicate LeftBefore(keys: VisitorKeys, place: Place) {
    exists l | 0 < l < |place| :: AnyHoldsField(keys, place[l].before) && NoFieldBelow(place, l)
  }

  /** At this hook call a field has been left since the innermost enclosing field was entered. */
  predicate FieldLeft(keys: VisitorKeys, place: Place, entering: bool)
    requires place != []
  {
    || (!Here(place).Field? && LeftBefore(keys, place))
    || (!entering && AnyHoldsField(keys, Kids(keys, Here(place))))
  }

  /** All that a hook on the last node of the place sees. */
  function InfoAt(port: Port, schema: GraphQLSchema, keys: VisitorKeys, place: Place, entering: bool): TypeInfo
    requires place != []
  {
    var path := PathOf(place);
    match port
    case JavaScript => InfoInside(port, schema, Above(path))
    case AssemblyScript =>
      TypeInfo(TypeSeen(port, schema, path, entering),
               if FieldLeft(keys, place, entering) then None else FieldInside(port, schema, path))
  }

  /** Where the AssemblyScript port's answer is the definition of the innermost enclosing field. */
  lemma FieldDefAt(schema: GraphQLSchema, keys: VisitorKeys, place: Place, entering: bool)
    requires place != []
    ensures var right := FieldInside(AssemblyScript, schema, PathOf(place));
            InfoAt(AssemblyScript, schema, keys, place, entering).fieldDef == right
            <==> right == None || !FieldLeft(keys, place, entering)
  {
  }

  /** What holds just before the last node of the place is entered. */
  function InfoBefore(port: Port, schema: GraphQLSchema, keys: VisitorKeys, place: Place): TypeInfo
    requires place != []
  {
    var above := Above(PathOf(place));
    TypeInfo(TypeInside(port, schema, above),
             if port.AssemblyScript? && LeftBefore(keys, place) then None else FieldInside(port, schema, above))
  }

  lemma LeftBeforeDown(keys: VisitorKeys, place: Place, step: Step)
    requires place != []
    ensures LeftBefore(keys, place + [step])
       <==> AnyHoldsField(keys, step.before) || (!Here(place).Field? && LeftBefore(keys, place))
  {
    hide AnyHoldsField;
    var down := place + [step];
    forall l | 0 <= l < |place| ensures NoFieldBelow(down, l) <==> NoFieldBelow(place, l) && !Here(place).Field? {
      assert forall m | l <= m < |place| :: down[m] == place[m];
      assert !NoFieldBelow(down, l) ==> exists m | l <= m < |place| :: place[m].node.Field?;
    }
    assert NoFieldBelow(down, |place|) && down[|place|] == step;
    if LeftBefore(keys, down) {
      var l :| 0 < l < |down| && AnyHoldsField(keys, down[l].before) && NoFieldBelow(down, l);
      if l < |place| { assert place[l] == down[l]; }
    }
    if l :| 0 < l < |place| && AnyHoldsField(keys, place[l].before) && NoFieldBelow(place, l) {
      assert down[l] == place[l];
    }
  }

  lemma PathDown(place: Place, step: Step)
    ensures PathOf(place + [step]) == PathOf(place) + [step.node]
    ensures Above(PathOf(place + [step])) == PathOf(place)
  {
  }

  /** The information that the walk hands down and carries on is that of the place. */
  lemma InfoIsAt(port: Port, schema: GraphQLSchema, keys: VisitorKeys, place: Place)
    requires place != []
    ensures var ti := InfoBefore(port, schema, keys, place);
            && EnterInfo(port, schema, Here(place), ti) == InfoAt(port, schema, keys, place, true)
            && ChildInfo(port, schema, Here(place), ti).parentType == TypeInside(port, schema, PathOf(place))
            && ChildInfo(port, schema, Here(place), ti).fieldDef
               == if port.AssemblyScript? && FieldLeft(keys, place, true) then None
                  else FieldInside(port, schema, PathOf(place))
  {
    hide FieldType, FieldLookup, RootTypeName, LeftBefore, AnyHoldsField, Kids;
  }

  lemma InfoIsAtLeave(port: Port, schema: GraphQLSchema, keys: VisitorKeys, place: Place)
    requires place != []
    ensures var ti := InfoBefore(port, schema, keys, place);
            var inside := ChildInfo(port, schema, Here(place), ti);
            && LeaveInfo(port, ti, After(port, keys, Kids(keys, Here(place)), inside))
            == InfoAt(port, schema, keys, place, false)
  {
    InfoIsAt(port, schema, keys, place);
    hide ChildInfo, EnterInfo, LeftBefore, AnyHoldsField, Kids, TypeInside, FieldInside;
  }

  lemma InfoIsAtDown(port: Port, schema: GraphQLSchema, keys: VisitorKeys, place: Place, j: nat)
    requires place != [] && j < |Kids(keys, Here(place))|
    ensures var inside := ChildInfo(port, schema, Here(place), InfoBefore(port, schema, keys, place));
            && After(port, keys, Kids(keys, Here(place))[..j], inside)
            == InfoBefore(port, schema, keys, Down(keys, place, j))
  {
    var kids := Kids(keys, Here(place));
    var step := Step(kids[j], kids[..j]);
    InfoIsAt(port, schema, keys, place);
    LeftBeforeDown(keys, place, step);
    PathDown(place, step);
    hide ChildInfo, EnterInfo, LeftBefore, AnyHoldsField, Kids, TypeInside, FieldInside;
  }

  // ---------------------------------------------------------------- the walk that is told its place

  datatype Visit = Visit(place: Place, entering: bool)

  /** A visitor's state, and where it has been called. */
  datatype Told<S> = Told(st: S, stopped: bool, log: seq<Visit>)

  /** One hook, if there is one, told what its place says. */
  function Tell<S>(c: Config<S>, v: Visitor<S>, visit: Visit, t: Told<S>): (Told<S>, VisitorResult)
    requires visit.place != []
  {
    var node := Here(visit.place);
    match (if visit.entering then v.ForKind(node.Kind()).enter else v.ForKind(node.Kind()).leave)
    case None => (t, CONTINUE)
    case Some(f) =>
      var o := f(t.st, InfoAt(c.port, c.schema, c.keys, visit.place, visit.entering), node);
      (Told(o.st, o.result == BREAK, t.log + [visit]), o.result)
  }

  /** A visitor's own walk that carries no type information. */
  function ByPlace<S>(c: Config<S>, v: Visitor<S>, place: Place, t: Told<S>): Told<S>
    requires place != []
    decreases Here(place)
  {
    if t.stopped then t else
    var (t1, result) := Tell(c, v, Visit(place, true), t);
    if result != CONTINUE then t1 else
    var t2 := ByPlaceAll(c, v, place, |Kids(c.keys, Here(place))|, t1);
    if t2.stopped then t2 else Tell(c, v, Visit(place, false), t2).0
  }

  /** The first n children. */
  function ByPlaceAll<S>(c: Config<S>, v: Visitor<S>, place: Place, n: nat, t: Told<S>): Told<S>
    requires place != [] && n <= |Kids(c.keys, Here(place))|
    decreases Here(place), n
  {
    if n == 0 then t else ByPlace(c, v, Down(c.keys, place, n-1), ByPlaceAll(c, v, place, n-1, t))
  }

  /** The call that a visit makes. */
  function CallOf<S>(c: Config<S>, visit: Visit): Call
    requires visit.place != []
  {
    var seen := InfoAt(c.port, c.schema, c.keys, visit.place, visit.entering);
    if visit.entering then Enter(Here(visit.place), seen) else Leave(Here(visit.place), seen)
  }

  predicate Placed(log: seq<Visit>) { forall k | 0 <= k < |log| :: log[k].place != [] }

  function CallsOf<S>(c: Config<S>, log: seq<Visit>): (calls: seq<Call>)
    requires Placed(log)
    ensures |calls| == |log|
  {
    seq(|log|, k requires 0 <= k < |log| => CallOf(c, log[k]))
  }

  function SoloOf<S>(c: Config<S>, base: seq<Call>, t: Told<S>): Solo<S>
    requires Placed(t.log)
  {
    Solo(t.st, t.stopped, base + CallsOf(c, t.log))
  }

  lemma TellIsSolo<S>(c: Config<S>, v: Visitor<S>, visit: Visit, base: seq<Call>, t: Told<S>)
    requires visit.place != [] && Placed(t.log)
    ensures var (place, t') := (visit.place, Tell(c, v, visit, t).0);
            var info := InfoAt(c.port, c.schema, c.keys, place, visit.entering);
            && Placed(t'.log)
            && (visit.entering ==>
                  SoloEnter(v, Here(place), info, SoloOf(c, base, t)) == (SoloOf(c, base, t'), Tell(c, v, visit, t).1))
            && (!visit.entering ==>
                  SoloLeave(v, Here(place), info, SoloOf(c, base, t)) == SoloOf(c, base, t'))
  {
    hide TypeInside, FieldInside, FieldLeft;
    var t' := Tell(c, v, visit, t).0;
    if t'.log != t.log {
      assert t'.log == t.log + [visit];
      assert base + CallsOf(c, t'.log) == base + CallsOf(c, t.log) + [CallOf(c, visit)];
    }
  }

  lemma {:induction false} SoloIsByPlace<S>(c: Config<S>, v: Visitor<S>, place: Place, base: seq<Call>, t: Told<S>)
    requires place != [] && Placed(t.log)
    ensures Placed(ByPlace(c, v, place, t).log)
    ensures SoloWalk(c, v, false, Here(place), InfoBefore(c.port, c.schema, c.keys, place), SoloOf(c, base, t))
         == SoloOf(c, base, ByPlace(c, v, place, t))
    decreases Here(place)
  {
    hide InfoAt, InfoBefore, EnterInfo, ChildInfo, LeaveInfo, After, Kids, Tell, SoloEnter, SoloLeave, SoloAll;
    InfoIsAt(c.port, c.schema, c.keys, place);
    InfoIsAtLeave(c.port, c.schema, c.keys, place);
    TellIsSolo(c, v, Visit(place, true), base, t);
    var t1 := Tell(c, v, Visit(place, true), t).0;
    var kids := Kids(c.keys, Here(place));
    SoloIsByPlaceAll(c, v, place, |kids|, base, t1);
    assert kids[..|kids|] == kids;
    TellIsSolo(c, v, Visit(place, false), base, ByPlaceAll(c, v, place, |kids|, t1));
  }

  lemma {:induction false} SoloIsByPlaceAll<S>(
      c: Config<S>, v: Visitor<S>, place: Place, n: nat, base: seq<Call>, t: Told<S>)
    requires place != [] && Placed(t.log) && n <= |Kids(c.keys, Here(place))|
    ensures Placed(ByPlaceAll(c, v, place, n, t).log)
    ensures var inside := ChildInfo(c.port, c.schema, Here(place), InfoBefore(c.port, c.schema, c.keys, place));
            && SoloAll(c, v, false, Here(place), Kids(c.keys, Here(place))[..n], inside, SoloOf(c, base, t))
            == SoloOf(c, base, ByPlaceAll(c, v, place, n, t))
    decreases Here(place), n
  {
    hide InfoBefore, ChildInfo, After, Kids, ByPlace, SoloWalk;
    if n > 0 {
      var kids := Kids(c.keys, Here(place));
      assert kids[..n][..n-1] == kids[..n-1] && kids[..n][n-1] == kids[n-1];
      SoloIsByPlaceAll(c, v, place, n-1, base, t);
      InfoIsAtDown(c.port, c.schema, c.keys, place, n-1);
      SoloIsByPlace(c, v, Down(c.keys, place, n-1), base, ByPlaceAll(c, v, place, n-1, t));
    }
  }

  /** What a lane becomes when the visitor has been told its way through the whole tree. */
  function LaneByPlace<S>(c: Config<S>, v: Visitor<S>, root: ASTNode, l: Lane<S>): Lane<S> {
    var t := ByPlace(c, v, Top(root), Told(l.st, false, []));
    LogIsOfPlaces(c, v, root, Top(root), Told(l.st, false, []));
    Lane(t.st, if t.stopped then Broken else Running, l.calls + CallsOf(c, t.log))
  }

  ghost predicate OfPlaces(keys: VisitorKeys, root: ASTNode, log: seq<Visit>) {
    Placed(log) && forall k | 0 <= k < |log| :: IsPlace(keys, root, log[k].place)
  }

  /** Every call is made at a place of the tree. */
  lemma {:induction false} LogIsOfPlaces<S>(c: Config<S>, v: Visitor<S>, root: ASTNode, place: Place, t: Told<S>)
    requires IsPlace(c.keys, root, place) && OfPlaces(c.keys, root, t.log)
    ensures OfPlaces(c.keys, root, ByPlace(c, v, place, t).log)
    decreases Here(place)
  {
    assert place != [];
    hide InfoAt, Kids, IsPlace, ByPlaceAll;
    var t1 := Tell(c, v, Visit(place, true), t).0;
    LogOfAllIsOfPlaces(c, v, root, place, |Kids(c.keys, Here(place))|, t1);
  }

  lemma {:induction false} LogOfAllIsOfPlaces<S>(
      c: Config<S>, v: Visitor<S>, root: ASTNode, place: Place, n: nat, t: Told<S>)
    requires IsPlace(c.keys, root, place) && OfPlaces(c.keys, root, t.log) && n <= |Kids(c.keys, Here(place))|
    ensures OfPlaces(c.keys, root, ByPlaceAll(c, v, place, n, t).log)
    decreases Here(place), n
  {
    hide Kids, ByPlace, OfPlaces;
    if n > 0 {
      LogOfAllIsOfPlaces(c, v, root, place, n-1, t);
      LogIsOfPlaces(c, v, root, Down(c.keys, place, n-1), ByPlaceAll(c, v, place, n-1, t));
    }
  }

  lemma TopIsPlace(keys: VisitorKeys, root: ASTNode)
    ensures IsPlace(keys, root, Top(root)) && OfPlaces(keys, root, [])
  {
  }

  lemma NothingBeforeTop(port: Port, schema: GraphQLSchema, keys: VisitorKeys, root: ASTNode)
    ensures InfoBefore(port, schema, keys, Top(root)) == TypeInfo(None, None)
  {
  }

  /**
   * In a whole merged walk every visitor, with any hooks, makes the calls and ends in the
   * state of its own walk in which each hook is told the pure function InfoAt of its place.
   */
  lemma MergedIsByPlace<S>(c: Config<S>, root: ASTNode, w: World<S>, i: nat)
    requires |w.lanes| == |c.visitors| && i < |c.visitors| && w.lanes[i].skip == Running
    ensures Walk(c, root, TypeInfo(None, None), w).0.lanes[i] == LaneByPlace(c, c.visitors[i], root, w.lanes[i])
  {
    var (v, l) := (c.visitors[i], w.lanes[i]);
    var t := Told(l.st, false, []);
    MergedIsSolo(c, root, TypeInfo(None, None), w, i);
    NothingBeforeTop(c.port, c.schema, c.keys, root);
    SoloIsByPlace(c, v, Top(root), l.calls, t);
    assert SoloOf(c, l.calls, t) == Solo(l.st, false, l.calls);
    hide SoloWalk, ByPlace, InfoBefore;
  }

  /** The visits of visitor i, which makes the calls of a whole walk at places of the tree. */
  function VisitsOf<S>(c: Config<S>, root: ASTNode, w: World<S>, i: nat): seq<Visit>
    requires |w.lanes| == |c.visitors| && i < |c.visitors|
  {
    ByPlace(c, c.visitors[i], Top(root), Told(w.lanes[i].st, false, [])).log
  }

  lemma CallsAreVisits<S>(c: Config<S>, root: ASTNode, w: World<S>, i: nat)
    requires |w.lanes| == |c.visitors| && i < |c.visitors| && w.lanes[i] == Lane(w.lanes[i].st, Running, [])
    ensures var (calls, log) := (Walk(c, root, TypeInfo(None, None), w).0.lanes[i].calls, VisitsOf(c, root, w, i));
            && |calls| == |log| && OfPlaces(c.keys, root, log)
            && forall k | 0 <= k < |log| :: calls[k] == CallOf(c, log[k])
  {
    MergedIsByPlace(c, root, w, i);
    TopIsPlace(c.keys, root);
    LogIsOfPlaces(c, c.visitors[i], root, Top(root), Told(w.lanes[i].st, false, []));
    hide Walk, ByPlace, CallOf, IsPlace;
  }

  /** So the parent type of its k-th call is the function TypeSeen of the path to the place of that very call. */
  lemma ParentTypeIsAFunctionOfThePath<S>(c: Config<S>, root: ASTNode, w: World<S>, i: nat)
    requires |w.lanes| == |c.visitors| && i < |c.visitors| && w.lanes[i] == Lane(w.lanes[i].st, Running, [])
    ensures var r := Walk(c, root, TypeInfo(None, None), w);
            var (calls, log) := (r.0.lanes[i].calls, VisitsOf(c, root, w, i));
            && |calls| == |log| && OfPlaces(c.keys, root, log)
            && (forall k | 0 <= k < |log| ::
                  && calls[k].info.parentType == TypeSeen(c.port, c.schema, PathOf(log[k].place), log[k].entering)
                  && calls[k].node == Here(log[k].place) && (calls[k].Enter? <==> log[k].entering))
            && r.1.parentType == None
  {
    CallsAreVisits(c, root, w, i);
    WalkInfo(c, root, TypeInfo(None, None), w);
    hide Walk, VisitsOf, IsPlace, FieldInside, TypeInside, FieldLeft;
  }

  /** The call of this visit sees the definition of the innermost field exactly when it should. */
  predicate SeesItsFieldDef<S>(c: Config<S>, call: Call, visit: Visit)
    requires visit.place != []
  {
    var right := FieldInside(c.port, c.schema, PathOf(visit.place));
    call.info.fieldDef == right <==> right == None || !FieldLeft(c.keys, visit.place, visit.entering)
  }

  lemma VisitSees<S>(c: Config<S>, visit: Visit)
    requires visit.place != []
    ensures c.port.AssemblyScript? ==> SeesItsFieldDef(c, CallOf(c, visit), visit)
    ensures c.port.JavaScript? ==>
      CallOf(c, visit).info.fieldDef == FieldInside(c.port, c.schema, Above(PathOf(visit.place)))
  {
    hide FieldInside, FieldLeft, TypeInside;
  }

  /**
   * And the field definition it sees in the AssemblyScript port is that of the innermost field on the
   * path to that place if and only if that is none or no field has been left since it was entered.
   */
  lemma FieldDefIsRightExactly<S>(c: Config<S>, root: ASTNode, w: World<S>, i: nat)
    requires |w.lanes| == |c.visitors| && i < |c.visitors| && w.lanes[i] == Lane(w.lanes[i].st, Running, [])
    ensures var r := Walk(c, root, TypeInfo(None, None), w);
            var (calls, log) := (r.0.lanes[i].calls, VisitsOf(c, root, w, i));
            && |calls| == |log| && OfPlaces(c.keys, root, log)
            && forall k | 0 <= k < |log| ::
                 if c.port.AssemblyScript? then SeesItsFieldDef(c, calls[k], log[k])
                 else calls[k].info.fieldDef == FieldInside(c.port, c.schema, Above(PathOf(log[k].place)))
  {
    CallsAreVisits(c, root, w, i);
    hide Walk, VisitsOf, IsPlace, SeesItsFieldDef, CallOf, FieldInside, PathOf;
    var log := VisitsOf(c, root, w, i);
    forall k | 0 <= k < |log| { VisitSees(c, log[k]); }
  }

  // ---------------------------------------------------------------- visitors that need only the path

  /** Two hook inputs that differ in fieldDef at most, and not at all in the JavaScript port. */
  predicate Agree(port: Port, a: TypeInfo, b: TypeInfo) {
    a.parentType == b.parentType && (port.JavaScript? ==> a == b)
  }

  /** Two calls with such inputs, and with the same one on entering a field. */
  predicate CallsAgree(port: Port, a: Call, b: Call) {
    && (a.Enter? <==> b.Enter?) && a.node == b.node && Agree(port, a.info, b.info)
    && (a.Enter? && a.node.Field? ==> a == b)
  }

  predicate AllCallsAgree(port: Port, a: seq<Call>, b: seq<Call>) {
    |a| == |b| && forall k | 0 <= k < |a| :: CallsAgree(port, a[k], b[k])
  }

  predicate SolosAgree<S(==)>(port: Port, a: Solo<S>, b: Solo<S>) {
    a.st == b.st && a.stopped == b.stopped && AllCallsAgree(port, a.calls, b.calls)
  }

  lemma AgreeIsReflexive<S>(port: Port, a: Solo<S>)
    ensures SolosAgree(port, a, a)
  {
  }

  ghost predicate Blind<S(!new)>(port: Port, h: Option<Hook<S>>) {
    h.Some? ==> forall st, a, b, node | Agree(port, a, b) :: h.value(st, a, node) == h.value(st, b, node)
  }

  /** Of a JavaScript visitor this asks nothing. */
  ghost predicate ReadsFieldDefOnlyOnFieldEnter<S(!new)>(port: Port, v: Visitor<S>) {
    forall kind: Kind {:trigger v.ForKind(kind)} ::
      Blind(port, v.ForKind(kind).leave) && (kind != FIELD ==> Blind(port, v.ForKind(kind).enter))
  }

  /** All that a hook sees when nothing but its path matters. */
  function InfoSeen(port: Port, schema: GraphQLSchema, path: Path, entering: bool): TypeInfo
    requires path != []
  {
    if port.JavaScript? then InfoInside(port, schema, Above(path))
    else TypeInfo(TypeSeen(port, schema, path, entering), FieldInside(port, schema, path))
  }

  /** The walk of one visitor alone whose hooks are told what their path says. */
  function SoloByPath<S>(c: Config<S>, v: Visitor<S>, path: Path, s: Solo<S>): Solo<S>
    requires path != []
    decreases Last(path)
  {
    if s.stopped then s else
    var (s1, result) := SoloEnter(v, Last(path), InfoSeen(c.port, c.schema, path, true), s);
    if result != CONTINUE then s1 else
    var s2 := SoloByPathAll(c, v, path, Kids(c.keys, Last(path)), s1);
    if s2.stopped then s2 else SoloLeave(v, Last(path), InfoSeen(c.port, c.schema, path, false), s2)
  }

  function SoloByPathAll<S>(c: Config<S>, v: Visitor<S>, path: Path, kids: seq<ASTNode>, s: Solo<S>): Solo<S>
    requires path != [] && AllBelow(kids, Last(path))
    decreases Last(path), |kids|
  {
    if kids == [] then s else
    SoloByPath(c, v, path + [kids[|kids|-1]], SoloByPathAll(c, v, path, kids[..|kids|-1], s))
  }

  lemma InfosAreSeen(port: Port, schema: GraphQLSchema, keys: VisitorKeys, path: Path, ti: TypeInfo)
    requires path != [] && Agree(port, ti, InfoInside(port, schema, Above(path)))
    ensures var (node, inside) := (Last(path), ChildInfo(port, schema, Last(path), ti));
            var leave := LeaveInfo(port, ti, After(port, keys, Kids(keys, node), inside));
            && Agree(port, EnterInfo(port, schema, node, ti), InfoSeen(port, schema, path, true))
            && (node.Field? ==> EnterInfo(port, schema, node, ti) == InfoSeen(port, schema, path, true))
            && Agree(port, inside, InfoInside(port, schema, path))
            && Agree(port, leave, InfoSeen(port, schema, path, false))
  {
    hide FieldType, FieldLookup, RootTypeName, AnyHoldsField, Kids;
  }

  lemma EnterAgrees<S(!new)>(port: Port, v: Visitor<S>, node: ASTNode, a: TypeInfo, b: TypeInfo, s: Solo<S>, t: Solo<S>)
    requires ReadsFieldDefOnlyOnFieldEnter(port, v) && Agree(port, a, b) && (node.Field? ==> a == b)
    requires SolosAgree(port, s, t)
    ensures var (x, y) := (SoloEnter(v, node, a, s), SoloEnter(v, node, b, t));
            SolosAgree(port, x.0, y.0) && x.1 == y.1
  {
    hide Agree;
    assert node.Kind() != FIELD ==> Blind(port, v.ForKind(node.Kind()).enter);
  }

  lemma LeaveAgrees<S(!new)>(port: Port, v: Visitor<S>, node: ASTNode, a: TypeInfo, b: TypeInfo, s: Solo<S>, t: Solo<S>)
    requires ReadsFieldDefOnlyOnFieldEnter(port, v) && Agree(port, a, b)
    requires SolosAgree(port, s, t)
    ensures SolosAgree(port, SoloLeave(v, node, a, s), SoloLeave(v, node, b, t))
  {
    hide Agree;
    assert Blind(port, v.ForKind(node.Kind()).leave);
  }

  lemma {:induction false} SoloIsByPath<S(!new)>(
      c: Config<S>, v: Visitor<S>, path: Path, ti: TypeInfo, s: Solo<S>, t: Solo<S>)
    requires path != [] && ReadsFieldDefOnlyOnFieldEnter(c.port, v) && SolosAgree(c.port, s, t)
    requires Agree(c.port, ti, InfoInside(c.port, c.schema, Above(path)))
    ensures SolosAgree(c.port, SoloWalk(c, v, false, Last(path), ti, s), SoloByPath(c, v, path, t))
    decreases Last(path)
  {
    hide InfoSeen, InfoInside, EnterInfo, ChildInfo, LeaveInfo, After, Kids, Agree, ReadsFieldDefOnlyOnFieldEnter,
         SoloEnter, SoloLeave, SoloAll, SoloByPathAll, AllCallsAgree;
    var (node, kids) := (Last(path), Kids(c.keys, Last(path)));
    var inside := ChildInfo(c.port, c.schema, node, ti);
    var leave := LeaveInfo(c.port, ti, After(c.port, c.keys, kids, inside));
    InfosAreSeen(c.port, c.schema, c.keys, path, ti);
    var (own, told) := (EnterInfo(c.port, c.schema, node, ti), InfoSeen(c.port, c.schema, path, true));
    EnterAgrees(c.port, v, node, own, told, s, t);
    var (s1, t1) := (SoloEnter(v, node, own, s).0, SoloEnter(v, node, told, t).0);
    SoloIsByPathAll(c, v, path, kids, inside, s1, t1);
    LeaveAgrees(c.port, v, node, leave, InfoSeen(c.port, c.schema, path, false),
      SoloAll(c, v, false, node, kids, inside, s1), SoloByPathAll(c, v, path, kids, t1));
  }

  lemma {:induction false} SoloIsByPathAll<S(!new)>(
      c: Config<S>, v: Visitor<S>, path: Path, kids: seq<ASTNode>, ti: TypeInfo, s: Solo<S>, t: Solo<S>)
    requires path != [] && AllBelow(kids, Last(path)) && ReadsFieldDefOnlyOnFieldEnter(c.port, v)
    requires Agree(c.port, ti, InfoInside(c.port, c.schema, path)) && SolosAgree(c.port, s, t)
    ensures SolosAgree(c.port, SoloAll(c, v, false, Last(path), kids, ti, s), SoloByPathAll(c, v, path, kids, t))
    decreases Last(path), |kids|
  {
    hide InfoInside, SoloWalk, SoloByPath, AnyHoldsField, ReadsFieldDefOnlyOnFieldEnter, SolosAgree;
    if kids != [] {
      var front, down := kids[..|kids|-1], path + [kids[|kids|-1]];
      assert Above(down) == path && Last(down) == kids[|kids|-1];
      SoloIsByPathAll(c, v, path, front, ti, s, t);
      SoloIsByPath(c, v, down, After(c.port, c.keys, front, ti),
        SoloAll(c, v, false, Last(path), front, ti, s), SoloByPathAll(c, v, path, front, t));
    }
  }

  /** Such a visitor makes the calls, and ends in the state, of its own walk told nothing but its path. */
  lemma MergedSeesThePath<S(!new)>(c: Config<S>, root: ASTNode, w: World<S>, i: nat)
    requires |w.lanes| == |c.visitors| && i < |c.visitors| && w.lanes[i].skip == Running
    requires ReadsFieldDefOnlyOnFieldEnter(c.port, c.visitors[i])
    ensures var (lane, s) := (Walk(c, root, TypeInfo(None, None), w).0.lanes[i],
                              Solo(w.lanes[i].st, false, w.lanes[i].calls));
            LaneAgrees(c.port, lane, SoloByPath(c, c.visitors[i], [root], s))
  {
    var s := Solo(w.lanes[i].st, false, w.lanes[i].calls);
    MergedIsSolo(c, root, TypeInfo(None, None), w, i);
    assert Above([root]) == [];
    assert InfoInside(c.port, c.schema, []) == TypeInfo(None, None);
    AgreeIsReflexive(c.port, s);
    SoloIsByPath(c, c.visitors[i], [root], TypeInfo(None, None), s, s);
    hide SoloByPath, SoloWalk, Walk;
  }

  predicate LaneAgrees<S(==)>(port: Port, lane: Lane<S>, s: Solo<S>) {
    && lane.st == s.st && lane.skip == (if s.stopped then Broken else Running)
    && AllCallsAgree(port, lane.calls, s.calls)
  }
}
