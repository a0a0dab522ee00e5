/** The merged walk of the five rules reports exactly the errors of Rules, in their order. */
module RulesWalk {
  import opened Options
  import opened Ast
  import opened Traversal
  import opened TypeTracking
  import opened Rules

  /** The definition a walk standing below path is inside of, as the second rule's skipping entry. */
  function FirstDefinition(path: Path): Skip {
    if path == [] then Running
    else if FirstDefinition(Above(path)) != Running then FirstDefinition(Above(path))
    else if IsExecutableDefinitionNode(Last(path)) then At(Last(path)) else Running
  }

  lemma {:induction false} FirstDefinitionIsOnPath(path: Path)
    ensures FirstDefinition(path) == Running <==> forall i | 0 <= i < |path| :: !IsExecutableDefinitionNode(path[i])
    ensures FirstDefinition(path) != Running ==> exists i | 0 <= i < |path| :: FirstDefinition(path) == At(path[i])
  {
    if path != [] {
      FirstDefinitionIsOnPath(Above(path));
    }
  }

  ghost predicate Descends(path: Path) {
    forall i, j | 0 <= i < j < |path| :: path[j] < path[i]
  }

  /** The name a position contributes to knownOperationNames. */
  function NamesAt(path: Path): set<string>
    requires path != []
  {
    if Last(path).OperationDefinition? && Last(path).opName.Some? && !InsideDefinition(path)
    then {Last(path).opName.value.NameValue()} else {}
  }

  function NamesUpTo(ps: seq<Path>, n: nat): set<string>
    requires n <= |ps| && NonEmpty(ps)
  {
    if n == 0 then {} else NamesUpTo(ps, n-1) + NamesAt(ps[n-1])
  }

  lemma {:induction false} NamesUpToAreNamedBefore(ps: seq<Path>, n: nat, name: string)
    requires n <= |ps| && NonEmpty(ps)
    ensures name in NamesUpTo(ps, n) <==> NamedBefore(ps, n, name)
  {
    if n > 0 {
      NamesUpToAreNamedBefore(ps, n-1, name);
      assert name in NamesAt(ps[n-1]) <==> NamesOperation(ps[n-1], name);
    }
  }

  /** The skipping entries, and the known names, when the walk stands below `inside` after n positions. */
  ghost predicate RulesAt(ps: seq<Path>, n: nat, inside: Path, w: World<RuleState>)
    requires n <= |ps| && NonEmpty(ps)
  {
    && |w.lanes| == 5
    && w.lanes[0].skip == DocumentSkip(inside)
    && w.lanes[1].skip == FirstDefinition(inside)
    && w.lanes[2].skip == w.lanes[3].skip == w.lanes[4].skip == Running
    && w.lanes[1].st.Keys == NamesUpTo(ps, n)
  }

  function Share<S>(
      enter: bool, v: Visitor<S>, node: ASTNode, info: TypeInfo, l: Lane<S>): (Lane<S>, seq<GraphQLError>) {
    if enter then EnterLane(v, node, info, l) else LeaveLane(v, node, info, l)
  }

  lemma {:induction false} DispatchErrors<S>(
      enter: bool, vs: seq<Visitor<S>>, n: nat, node: ASTNode, info: TypeInfo, w: World<S>)
    requires 0 < n <= |vs| == |w.lanes|
    ensures Dispatch(enter, vs, n, node, info, w).errors
         == Dispatch(enter, vs, n-1, node, info, w).errors + Share(enter, vs[n-1], node, info, w.lanes[n-1]).1
  {
    DispatchLane(enter, vs, n-1, node, info, w, n-1);
  }

  /** Five turns, spelled out. */
  lemma FiveTurns(enter: bool, vs: seq<Visitor<RuleState>>, node: ASTNode, info: TypeInfo, w: World<RuleState>)
    requires |vs| == 5 == |w.lanes|
    ensures forall i | 0 <= i < 5 ::
        Dispatch(enter, vs, 5, node, info, w).lanes[i] == Share(enter, vs[i], node, info, w.lanes[i]).0
    ensures Dispatch(enter, vs, 5, node, info, w).errors
         == w.errors + Share(enter, vs[0], node, info, w.lanes[0]).1
                     + Share(enter, vs[1], node, info, w.lanes[1]).1
                     + Share(enter, vs[2], node, info, w.lanes[2]).1
                     + Share(enter, vs[3], node, info, w.lanes[3]).1
                     + Share(enter, vs[4], node, info, w.lanes[4]).1
  {
    forall i: nat | i < 5 { DispatchLane(enter, vs, 5, node, info, w, i); }
    DispatchErrors(enter, vs, 1, node, info, w);
    DispatchErrors(enter, vs, 2, node, info, w);
    DispatchErrors(enter, vs, 3, node, info, w);
    DispatchErrors(enter, vs, 4, node, info, w);
    DispatchErrors(enter, vs, 5, node, info, w);
  }

  ghost predicate RulesConfig(c: Config<RuleState>, x: Context) {
    c.port == x.port && c.schema == x.schema && c.visitors == SpecifiedRules(c.port, c.schema, x.defined)
  }

  /** Where the walk is: about to visit position n, whose proper ancestors are `inside`. */
  ghost predicate AtPosition(
      c: Config<RuleState>, x: Context, ps: seq<Path>, n: nat, inside: Path, ti: TypeInfo, w: World<RuleState>) {
    && RulesConfig(c, x) && NonEmpty(ps) && n <= |ps|
    && RulesAt(ps, n, inside, w)
    && ti.parentType == TypeInside(c.port, c.schema, inside)
    && w.errors == ErrorsUpTo(x, ps, n)
  }

  /** Before the walk enters the path's last node, and below it. */
  function DocumentSkip(inside: Path): Skip {
    if inside == [] then Running else At(inside[0])
  }

  // ---------------------------------------------------------------- each rule's turn at a node

  lemma EnterExecutableDefinitions(path: Path, info: TypeInfo, l: Lane<RuleState>)
    requires path != [] && path[0].Document? && l.skip == DocumentSkip(Above(path))
    ensures var (l', rs) := EnterLane(ExecutableDefinitionsRule(), Last(path), info, l);
            && l'.skip == DocumentSkip(path)
            && rs == if |path| == 1 then NonExecutable(path[0].definitions) else []
  {
  }

  lemma InsideMeansSkipping(path: Path)
    requires path != []
    ensures InsideDefinition(path) <==> FirstDefinition(Above(path)) != Running
  {
    FirstDefinitionIsOnPath(Above(path));
    if FirstDefinition(Above(path)) != Running {
      var i :| 0 <= i < |path| - 1 && FirstDefinition(Above(path)) == At(Above(path)[i]);
      assert !(forall k | 0 <= k < |path| - 1 :: !IsExecutableDefinitionNode(Above(path)[k]));
      var k :| 0 <= k < |path| - 1 && IsExecutableDefinitionNode(Above(path)[k]);
      assert IsExecutableDefinitionNode(path[k]);
    } else {
      forall k | 0 <= k < |path| - 1 ensures !IsExecutableDefinitionNode(path[k]) { assert path[k] == Above(path)[k]; }
    }
  }

  /** The operation named by a position, if the second rule looks at it. */
  function RepeatAt(path: Path, seen: bool): seq<GraphQLError>
    requires path != []
  {
    if Last(path).OperationDefinition? && Last(path).opName.Some? && !InsideDefinition(path) && seen
    then [GraphQLError(UniqueOperationNames, Last(path).opName.value)] else []
  }

  function OperationNameAt(path: Path): string
    requires path != []
  {
    if Last(path).OperationDefinition? && Last(path).opName.Some? then Last(path).opName.value.NameValue() else ""
  }

  lemma UniqueHook(st: RuleState, info: TypeInfo, path: Path)
    requires path != [] && Last(path).OperationDefinition? && !InsideDefinition(path)
    ensures var o := UniqueOperationNamesOperation(st, info, Last(path));
            && o.result == SKIP_SUBTREE
            && o.st.Keys == st.Keys + NamesAt(path)
            && o.reports == RepeatAt(path, OperationNameAt(path) in st)
  {
  }

  lemma UniqueEntries(kind: Kind)
    ensures UniqueOperationNamesRule().ForKind(kind).enter
         == if kind == OPERATION_DEFINITION then Some(UniqueOperationNamesOperation)
            else if kind == FRAGMENT_DEFINITION then Some(UniqueOperationNamesFragment) else None
  {
  }

  /** What the second rule's turn at the path's last node amounts to. */
  ghost predicate UniqueTurn(path: Path, l: Lane<RuleState>, l': Lane<RuleState>, rs: seq<GraphQLError>)
    requires path != []
  {
    && l'.skip == FirstDefinition(path)
    && l'.st.Keys == l.st.Keys + NamesAt(path)
    && rs == RepeatAt(path, OperationNameAt(path) in l.st)
  }

  lemma UniqueSkipping(path: Path, info: TypeInfo, l: Lane<RuleState>)
    requires path != [] && l.skip == FirstDefinition(Above(path)) != Running
    ensures UniqueTurn(path, l, l, [])
  {
    InsideMeansSkipping(path);
  }

  lemma UniqueOnOperation(path: Path, info: TypeInfo, l: Lane<RuleState>)
    requires path != [] && l.skip == FirstDefinition(Above(path)) == Running && Last(path).OperationDefinition?
    ensures var (l', rs) := EnterLane(UniqueOperationNamesRule(), Last(path), info, l); UniqueTurn(path, l, l', rs)
  {
    InsideMeansSkipping(path);
    UniqueEntries(Last(path).Kind());
    UniqueHook(l.st, info, path);
  }

  lemma UniqueElsewhere(path: Path, info: TypeInfo, l: Lane<RuleState>)
    requires path != [] && l.skip == FirstDefinition(Above(path)) == Running && !Last(path).OperationDefinition?
    ensures var (l', rs) := EnterLane(UniqueOperationNamesRule(), Last(path), info, l); UniqueTurn(path, l, l', rs)
  {
    UniqueEntries(Last(path).Kind());
  }

  lemma EnterUniqueOperationNames(path: Path, info: TypeInfo, l: Lane<RuleState>)
    requires path != [] && l.skip == FirstDefinition(Above(path))
    ensures var (l', rs) := EnterLane(UniqueOperationNamesRule(), Last(path), info, l); UniqueTurn(path, l, l', rs)
  {
    if l.skip != Running {
      UniqueSkipping(path, info, l);
    } else if Last(path).OperationDefinition? {
      UniqueOnOperation(path, info, l);
    } else {
      UniqueElsewhere(path, info, l);
    }
  }

  function UnknownTypeAt(x: Context, node: ASTNode): seq<GraphQLError> {
    if node.NamedType? && node.NameValue() !in x.schema.types && node.NameValue() !in x.defined
    then [GraphQLError(KnownTypeNames, node)] else []
  }

  function MissingFieldAt(parent: Option<GraphQLType>, node: ASTNode): seq<GraphQLError> {
    if node.Field? && parent.Some? && node.name.NameValue() !in parent.value.fields
    then [GraphQLError(FieldsOnCorrectType, node)] else []
  }

  function NonCompositeAt(x: Context, node: ASTNode): seq<GraphQLError> {
    match node
    case InlineFragment(Some(t), _) => OnNonComposite(x.port, x.schema, t)
    case FragmentDefinition(_, t, _) => OnNonComposite(x.port, x.schema, t)
    case _ => []
  }

  function DocumentAt(path: Path): seq<GraphQLError>
    requires path != [] && path[0].Document?
  {
    if |path| == 1 then NonExecutable(path[0].definitions) else []
  }

  /** At most one rule has something to say about one node. */
  lemma FiveShares(x: Context, ps: seq<Path>, n: nat)
    requires n < |ps| && NonEmpty(ps) && ps[n][0].Document?
    ensures ErrorsAt(x, ps, n)
         == DocumentAt(ps[n]) + RepeatAt(ps[n], NamedBefore(ps, n, OperationNameAt(ps[n])))
          + UnknownTypeAt(x, Last(ps[n])) + MissingFieldAt(TypeInside(x.port, x.schema, Above(ps[n])), Last(ps[n]))
          + NonCompositeAt(x, Last(ps[n]))
  {
  }

  lemma EnterStateless(x: Context, node: ASTNode, ti: TypeInfo, l: Lane<RuleState>, i: nat)
    requires 2 <= i < 5 && l.skip == Running
    ensures var (l', rs) :=
        EnterLane(SpecifiedRules(x.port, x.schema, x.defined)[i], node, EnterInfo(x.port, x.schema, node, ti), l);
            && l'.skip == Running
            && (i == 2 ==> rs == UnknownTypeAt(x, node))
            && (i == 3 ==> rs == MissingFieldAt(ti.parentType, node))
            && (i == 4 ==> rs == NonCompositeAt(x, node))
  {
  }

  lemma Regroup<T>(w: seq<T>, a: seq<T>, b: seq<T>, c: seq<T>, d: seq<T>, e: seq<T>)
    ensures w + a + b + c + d + e == w + (a + b + c + d + e)
  {
    assert w + a + b == w + (a + b);
    assert w + (a + b) + c == w + (a + b + c);
    assert w + (a + b + c) + d == w + (a + b + c + d);
  }

  lemma EnterErrors(
      c: Config<RuleState>, x: Context, ps: seq<Path>, n: nat, path: Path, ti: TypeInfo, w: World<RuleState>)
    requires path != [] && path[0].Document? && n < |ps| && NonEmpty(ps) && ps[n] == path
    requires AtPosition(c, x, ps, n, Above(path), ti, w)
    ensures Dispatch(true, c.visitors, 5, Last(path), EnterInfo(c.port, c.schema, Last(path), ti), w).errors
        == ErrorsUpTo(x, ps, n+1)
  {
    var node := Last(path);
    var info := EnterInfo(c.port, c.schema, node, ti);
    FiveTurns(true, c.visitors, node, info, w);
    EnterExecutableDefinitions(path, info, w.lanes[0]);
    EnterUniqueOperationNames(path, info, w.lanes[1]);
    EnterStateless(x, node, ti, w.lanes[2], 2);
    EnterStateless(x, node, ti, w.lanes[3], 3);
    EnterStateless(x, node, ti, w.lanes[4], 4);
    FiveShares(x, ps, n);
    NamesUpToAreNamedBefore(ps, n, OperationNameAt(path));
    Regroup(w.errors, DocumentAt(path), RepeatAt(path, OperationNameAt(path) in w.lanes[1].st),
            UnknownTypeAt(x, node), MissingFieldAt(ti.parentType, node), NonCompositeAt(x, node));
  }

  lemma EnterLanes(
      c: Config<RuleState>, x: Context, ps: seq<Path>, n: nat, path: Path, ti: TypeInfo, w: World<RuleState>)
    requires path != [] && path[0].Document? && n < |ps| && NonEmpty(ps) && ps[n] == path
    requires AtPosition(c, x, ps, n, Above(path), ti, w)
    ensures RulesAt(ps, n+1, path,
        Dispatch(true, c.visitors, 5, Last(path), EnterInfo(c.port, c.schema, Last(path), ti), w))
  {
    var node := Last(path);
    var info := EnterInfo(c.port, c.schema, node, ti);
    var w1 := Dispatch(true, c.visitors, 5, node, info, w);
    FiveTurns(true, c.visitors, node, info, w);
    EnterExecutableDefinitions(path, info, w.lanes[0]);
    EnterUniqueOperationNames(path, info, w.lanes[1]);
    EnterStateless(x, node, ti, w.lanes[2], 2);
    EnterStateless(x, node, ti, w.lanes[3], 3);
    EnterStateless(x, node, ti, w.lanes[4], 4);
  }

  // ---------------------------------------------------------------- leaving, and whole subtrees

  lemma NoLeaveHooks(port: Port, schema: GraphQLSchema, defined: set<string>, i: nat, kind: Kind)
    requires i < 5
    ensures SpecifiedRules(port, schema, defined)[i].ForKind(kind).leave.None?
  {
  }

  lemma LeaveRules(
      c: Config<RuleState>, x: Context, ps: seq<Path>, n: nat, path: Path, info: TypeInfo, w: World<RuleState>)
    requires path != [] && Descends(path) && n <= |ps| && NonEmpty(ps)
    requires RulesConfig(c, x) && RulesAt(ps, n, path, w)
    ensures var w' := Dispatch(false, c.visitors, 5, Last(path), info, w);
            RulesAt(ps, n, Above(path), w') && w'.errors == w.errors
  {
    var node := Last(path);
    FiveTurns(false, c.visitors, node, info, w);
    forall i: nat | i < 5 { NoLeaveHooks(c.port, c.schema, x.defined, i, node.Kind()); }
    FirstDefinitionIsOnPath(Above(path));
  }

  /** ps holds the positions qs from index n on. */
  ghost predicate Holds(ps: seq<Path>, n: nat, qs: seq<Path>) {
    n + |qs| <= |ps| && ps[n..n+|qs|] == qs
  }

  lemma HoldsBoth(ps: seq<Path>, n: nat, a: seq<Path>, b: seq<Path>)
    requires Holds(ps, n, a + b)
    ensures Holds(ps, n, a) && Holds(ps, n + |a|, b)
  {
    assert ps[n..n+|a|] == (a + b)[..|a|];
    assert ps[n+|a|..n+|a|+|b|] == (a + b)[|a|..];
  }

  /** From before a node to below it. */
  lemma StepIn(c: Config<RuleState>, x: Context, ps: seq<Path>, n: nat, path: Path, ti: TypeInfo, w: World<RuleState>)
    requires path != [] && path[0].Document? && Holds(ps, n, [path])
    requires AtPosition(c, x, ps, n, Above(path), ti, w)
    ensures AtPosition(c, x, ps, n+1, path, ChildInfo(c.port, c.schema, Last(path), ti),
                       Dispatch(true, c.visitors, 5, Last(path), EnterInfo(c.port, c.schema, Last(path), ti), w))
    ensures ChildInfo(c.port, c.schema, Last(path), ti).parentType == TypeInside(c.port, c.schema, path)
  {
    assert ps[n] == ps[n..n+1][0];
    EnterLanes(c, x, ps, n, path, ti, w);
    EnterErrors(c, x, ps, n, path, ti, w);
  }

  /** From below a node to after it. */
  lemma StepOut(
      c: Config<RuleState>, x: Context, ps: seq<Path>, n: nat, path: Path, before: TypeInfo, inside: TypeInfo,
      w: World<RuleState>)
    requires path != [] && Descends(path)
    requires AtPosition(c, x, ps, n, path, inside, w) && before.parentType == TypeInside(c.port, c.schema, Above(path))
    ensures AtPosition(c, x, ps, n, Above(path), AfterInfo(c.port, Last(path), before, inside),
                       Dispatch(false, c.visitors, 5, Last(path), LeaveInfo(c.port, before, inside), w))
    ensures AfterInfo(c.port, Last(path), before, inside).parentType == before.parentType
  {
    LeaveRules(c, x, ps, n, path, LeaveInfo(c.port, before, inside), w);
  }

  lemma {:induction false} RulesWalkFrom(
      c: Config<RuleState>, x: Context, ps: seq<Path>, n: nat, path: Path, ti: TypeInfo, w: World<RuleState>)
    requires path != [] && path[0].Document? && Descends(path)
    requires Holds(ps, n, Positions(c.keys, path))
    requires |c.visitors| == 5 == |w.lanes| && ti.parentType == TypeInside(c.port, c.schema, Above(path))
    requires AtPosition(c, x, ps, n, Above(path), ti, w)
    ensures var (w', ti') := Walk(c, Last(path), ti, w);
            ti'.parentType == ti.parentType &&
            AtPosition(c, x, ps, n + |Positions(c.keys, path)|, Above(path), ti', w')
    decreases Last(path)
  {
    hide AtPosition, TypeInside;
    var node, kids := Last(path), Kids(c.keys, Last(path));
    HoldsBoth(ps, n, [path], PositionsBelow(c.keys, path, kids));
    StepIn(c, x, ps, n, path, ti, w);
    var inside := ChildInfo(c.port, c.schema, node, ti);
    var w1 := Dispatch(true, c.visitors, 5, node, EnterInfo(c.port, c.schema, node, ti), w);
    RulesWalkBelow(c, x, ps, n+1, path, kids, inside, w1);
    var (w2, out) := WalkAll(c, node, kids, inside, w1);
    StepOut(c, x, ps, n + |Positions(c.keys, path)|, path, ti, out, w2);
  }

  lemma {:induction false} RulesWalkBelow(
      c: Config<RuleState>, x: Context, ps: seq<Path>, n: nat, path: Path, kids: seq<ASTNode>, ti: TypeInfo,
      w: World<RuleState>)
    requires path != [] && path[0].Document? && Descends(path) && AllBelow(kids, Last(path))
    requires Holds(ps, n, PositionsBelow(c.keys, path, kids))
    requires |c.visitors| == 5 == |w.lanes| && ti.parentType == TypeInside(c.port, c.schema, path)
    requires AtPosition(c, x, ps, n, path, ti, w)
    ensures var (w', ti') := WalkAll(c, Last(path), kids, ti, w);
            ti'.parentType == ti.parentType &&
            AtPosition(c, x, ps, n + |PositionsBelow(c.keys, path, kids)|, path, ti', w')
    decreases Last(path), |kids|
  {
    hide AtPosition, TypeInside, Holds, Walk, Positions, ErrorsAt;
    if kids != [] {
      var front, last := kids[..|kids|-1], kids[|kids|-1];
      HoldsBoth(ps, n, PositionsBelow(c.keys, path, front), Positions(c.keys, path + [last]));
      RulesWalkBelow(c, x, ps, n, path, front, ti, w);
      var (w1, ti1) := WalkAll(c, Last(path), front, ti, w);
      assert Above(path + [last]) == path;
      DescendsFurther(path, last);
      RulesWalkFrom(c, x, ps, n + |PositionsBelow(c.keys, path, front)|, path + [last], ti1, w1);
    }
  }

  lemma DescendsFurther(path: Path, node: ASTNode)
    requires path != [] && Descends(path) && node < Last(path)
    ensures Descends(path + [node])
  {
  }

  /** One merged run of the five rules over a document reports its expected errors, in order. */
  lemma RunReportsExpected(c: Config<RuleState>, doc: ASTNode, ti: TypeInfo, w: World<RuleState>)
    requires doc.Document? && |w.lanes| == 5 && w.errors == [] && ti.parentType == None
    requires c.visitors == SpecifiedRules(c.port, c.schema, DefinedTypeNames(c.port, doc.definitions))
    requires forall i | 0 <= i < 5 :: w.lanes[i].skip == Running
    requires w.lanes[1].st == map[]
    ensures Walk(c, doc, ti, w).0.errors == ExpectedErrors(c.port, c.keys, c.schema, doc)
  {
    hide SpecifiedRules, Walk, AtPosition;
    var x := Context(c.port, c.schema, DefinedTypeNames(c.port, doc.definitions));
    var ps := Positions(c.keys, [doc]);
    PositionsNonEmpty(c.keys, [doc]);
    assert Holds(ps, 0, ps) by { assert ps[0..|ps|] == ps; }
    AtTheStart(c, x, ps, ti, w);
    RulesWalkFrom(c, x, ps, 0, [doc], ti, w);
    AtTheEnd(c, x, ps, Walk(c, doc, ti, w).1, Walk(c, doc, ti, w).0);
  }

  lemma AtTheStart(c: Config<RuleState>, x: Context, ps: seq<Path>, ti: TypeInfo, w: World<RuleState>)
    requires RulesConfig(c, x) && NonEmpty(ps) && |w.lanes| == 5 && w.errors == [] && ti.parentType == None
    requires forall i | 0 <= i < 5 :: w.lanes[i].skip == Running
    requires w.lanes[1].st == map[]
    ensures AtPosition(c, x, ps, 0, [], ti, w)
  {
    hide SpecifiedRules;
  }

  lemma AtTheEnd(c: Config<RuleState>, x: Context, ps: seq<Path>, ti: TypeInfo, w: World<RuleState>)
    requires NonEmpty(ps) && AtPosition(c, x, ps, |ps|, [], ti, w)
    ensures w.errors == ErrorsUpTo(x, ps, |ps|)
  {
    hide SpecifiedRules;
  }
}
