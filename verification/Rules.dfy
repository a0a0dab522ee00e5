/** The five rules as visitors, and what a document's errors are without any traversal. */
module Rules {
  import opened Options
  import opened Ast
  import opened Traversal
  import opened TypeTracking

  /** Operation names seen so far; only UniqueOperationNames uses it. */
  type RuleState = map<string, ASTNode>

  // ---------------------------------------------------------------- the hooks

  function NonExecutable(defs: seq<ASTNode>): seq<GraphQLError> {
    if defs == [] then [] else
    NonExecutable(defs[..|defs|-1]) +
    (var d := defs[|defs|-1]; if IsExecutableDefinitionNode(d) then [] else [GraphQLError(ExecutableDefinitions, d)])
  }

  /** The loop of the rule's Document hook. */
  method ReportNonExecutable(defs: seq<ASTNode>) returns (errors: seq<GraphQLError>)
    ensures errors == NonExecutable(defs)
  {
    errors := [];
    for i := 0 to |defs|
      invariant errors == NonExecutable(defs[..i])
    {
      assert defs[..i+1][..i] == defs[..i];
      if !defs[i].OperationDefinition? && !defs[i].FragmentDefinition? {
        errors := errors + [GraphQLError(ExecutableDefinitions, defs[i])];
      }
    }
    assert defs[..|defs|] == defs;
  }

  function ExecutableDefinitionsDocument(st: RuleState, info: TypeInfo, node: ASTNode): HookOut<RuleState> {
    HookOut(st, if node.Document? then NonExecutable(node.definitions) else [], SKIP_SUBTREE)
  }

  function UniqueOperationNamesOperation(st: RuleState, info: TypeInfo, node: ASTNode): HookOut<RuleState> {
    if node.OperationDefinition? && node.opName.Some? then
      var operationName := node.opName.value;
      if operationName.NameValue() in st
          then HookOut(st, [GraphQLError(UniqueOperationNames, operationName)], SKIP_SUBTREE)
      else HookOut(st[operationName.NameValue() := operationName], [], SKIP_SUBTREE)
    else HookOut(st, [], SKIP_SUBTREE)
  }

  function UniqueOperationNamesFragment(st: RuleState, info: TypeInfo, node: ASTNode): HookOut<RuleState> {
    HookOut(st, [], SKIP_SUBTREE)
  }

  function KnownTypeNamesHook(schema: GraphQLSchema, defined: set<string>): Hook<RuleState> {
    (st: RuleState, info: TypeInfo, node: ASTNode) =>
      var unknown := node.NameValue() !in schema.types && node.NameValue() !in defined;
      HookOut(st, if unknown then [GraphQLError(KnownTypeNames, node)] else [], CONTINUE)
  }

  /** One port looks at the tracked definition, the other looks the field up again. */
  function FieldsOnCorrectTypeHook(port: Port): Hook<RuleState> {
    (st: RuleState, info: TypeInfo, node: ASTNode) =>
      var missing :=
        && info.parentType.Some? && node.Field?
        && if port.AssemblyScript? then info.fieldDef.None? else node.name.NameValue() !in info.parentType.value.fields;
      HookOut(st, if missing then [GraphQLError(FieldsOnCorrectType, node)] else [], CONTINUE)
  }

  /** typeFromAST; the JavaScript port does not ask what kind of node it is given. */
  function TypeFromAST(port: Port, schema: GraphQLSchema, ref: ASTNode): Option<GraphQLType> {
    if port.JavaScript? || ref.NamedType? then schema.GetType(ref.NameValue()) else None
  }

  function OnNonComposite(port: Port, schema: GraphQLSchema, condition: ASTNode): seq<GraphQLError> {
    var t := TypeFromAST(port, schema, condition);
    if t.Some? && !IsCompositeType(t.value) then [GraphQLError(FragmentsOnCompositeTypes, condition)] else []
  }

  function FragmentsOnCompositeTypesHook(port: Port, schema: GraphQLSchema): Hook<RuleState> {
    (st: RuleState, info: TypeInfo, node: ASTNode) =>
      var condition := match node
        case InlineFragment(t, _) => t
        case FragmentDefinition(_, t, _) => Some(t)
        case _ => None;
      var t := if condition.Some? then TypeFromAST(port, schema, condition.value) else None;
      var reported := t.Some? && t.value.kind != Object && t.value.kind != Interface && t.value.kind != Union;
      HookOut(st, if reported then [GraphQLError(FragmentsOnCompositeTypes, condition.value)] else [], CONTINUE)
  }

  // ---------------------------------------------------------------- the types a document defines

  predicate DefinesType(port: Port, def: ASTNode) {
    if port.AssemblyScript? then IsTypeDefinitionNode(def) && def.name.NameValue() != ""
    else def.ObjectTypeDefinition? || def.InterfaceTypeDefinition?
  }

  ghost function DefinedTypeNames(port: Port, defs: seq<ASTNode>): set<string> {
    set def <- defs | DefinesType(port, def) :: def.name.NameValue()
  }

  /** The pre-pass of KnownTypeNamesRule. */
  method DefinedTypes(port: Port, defs: seq<ASTNode>) returns (defined: set<string>)
    ensures defined == DefinedTypeNames(port, defs)
  {
    defined := {};
    for i := 0 to |defs|
      invariant defined == DefinedTypeNames(port, defs[..i])
    {
      assert defs[..i+1] == defs[..i] + [defs[i]];
      var def := defs[i];
      if port.AssemblyScript? {
        if def.ObjectTypeDefinition? || def.InterfaceTypeDefinition? || def.UnionTypeDefinition? {
          var name := def.name.NameValue();
          if |name| > 0 { defined := defined + {name}; }
        }
      } else if def.ObjectTypeDefinition? || def.InterfaceTypeDefinition? {
        defined := defined + {def.name.NameValue()};
      }
    }
    assert defs[..|defs|] == defs;
  }

  function On(kind: Kind, hook: Hook<RuleState>): Visitor<RuleState> {
    Visitor(map[kind := EnterLeave(Some(hook), None)], None, None)
  }

  function ExecutableDefinitionsRule(): Visitor<RuleState> {
    On(DOCUMENT, ExecutableDefinitionsDocument)
  }

  function UniqueOperationNamesRule(): Visitor<RuleState> {
    Visitor(map[OPERATION_DEFINITION := EnterLeave(Some(UniqueOperationNamesOperation), None),
                FRAGMENT_DEFINITION := EnterLeave(Some(UniqueOperationNamesFragment), None)], None, None)
  }

  function KnownTypeNamesRule(schema: GraphQLSchema, defined: set<string>): Visitor<RuleState> {
    On(NAMED_TYPE, KnownTypeNamesHook(schema, defined))
  }

  function FieldsOnCorrectTypeRule(port: Port): Visitor<RuleState> {
    On(FIELD, FieldsOnCorrectTypeHook(port))
  }

  function FragmentsOnCompositeTypesRule(port: Port, schema: GraphQLSchema): Visitor<RuleState> {
    Visitor(map[INLINE_FRAGMENT := EnterLeave(Some(FragmentsOnCompositeTypesHook(port, schema)), None),
                FRAGMENT_DEFINITION := EnterLeave(Some(FragmentsOnCompositeTypesHook(port, schema)), None)], None, None)
  }

  /** specifiedRules, each applied to its context. */
  function SpecifiedRules(port: Port, schema: GraphQLSchema, defined: set<string>): (r: seq<Visitor<RuleState>>)
    ensures |r| == 5
  {
    [ ExecutableDefinitionsRule(), UniqueOperationNamesRule(), KnownTypeNamesRule(schema, defined),
      FieldsOnCorrectTypeRule(port), FragmentsOnCompositeTypesRule(port, schema) ]
  }

  /** Each of the five rules is a visitor that MergedIsSolo is about, and none has a leave hook. */
  lemma RulesAreDisciplined(port: Port, schema: GraphQLSchema, defined: set<string>, i: nat)
    requires i < 5
    ensures ReadsFieldDefOnlyOnFieldEnter(port, SpecifiedRules(port, schema, defined)[i])
    ensures forall kind: Kind :: SpecifiedRules(port, schema, defined)[i].ForKind(kind).leave.None?
  {
    var v := SpecifiedRules(port, schema, defined)[i];
    forall kind: Kind ensures Blind(port, v.ForKind(kind).leave)
        && (kind != FIELD ==> Blind(port, v.ForKind(kind).enter)) {
    }
  }

  /** So each rule, merged with the others, does what it would do alone, told nothing but its path. */
  lemma EachRuleRunsAlone(c: Config<RuleState>, defined: set<string>, root: ASTNode, w: World<RuleState>, i: nat)
    requires c.visitors == SpecifiedRules(c.port, c.schema, defined) && |w.lanes| == 5
    requires i < 5 && w.lanes[i].skip == Running
    ensures var (lane, s) := (Walk(c, root, TypeInfo(None, None), w).0.lanes[i],
                              Solo(w.lanes[i].st, false, w.lanes[i].calls));
            LaneAgrees(c.port, lane, SoloByPath(c, c.visitors[i], [root], s))
  {
    hide SpecifiedRules, Walk, SoloByPath;
    RulesAreDisciplined(c.port, c.schema, defined, i);
    MergedSeesThePath(c, root, w, i);
  }

  // ---------------------------------------------------------------- what the errors are

  /** The paths of all nodes reached from the last node of path, parents before children. */
  function Positions(keys: VisitorKeys, path: Path): (r: seq<Path>)
    requires path != []
    ensures |r| > 0 && r[0] == path
    decreases Last(path)
  {
    [path] + PositionsBelow(keys, path, Kids(keys, Last(path)))
  }

  function PositionsBelow(keys: VisitorKeys, path: Path, kids: seq<ASTNode>): (r: seq<Path>)
    requires path != [] && AllBelow(kids, Last(path))
    decreases Last(path), |kids|
  {
    if kids == [] then [] else
    PositionsBelow(keys, path, kids[..|kids|-1]) + Positions(keys, path + [kids[|kids|-1]])
  }

  predicate NonEmpty(ps: seq<Path>) {
    forall k | 0 <= k < |ps| :: ps[k] != []
  }

  predicate InsideDefinition(path: Path)
    requires path != []
  {
    exists i | 0 <= i < |path| - 1 :: IsExecutableDefinitionNode(path[i])
  }

  /** The position holds a named operation that is not inside another definition. */
  predicate NamesOperation(path: Path, name: string)
    requires path != []
  {
    && Last(path).OperationDefinition? && Last(path).opName.Some?
    && Last(path).opName.value.NameValue() == name && !InsideDefinition(path)
  }

  predicate NamedBefore(ps: seq<Path>, n: nat, name: string)
    requires n <= |ps| && NonEmpty(ps)
  {
    exists j | 0 <= j < n :: NamesOperation(ps[j], name)
  }

  datatype Context = Context(port: Port, schema: GraphQLSchema, defined: set<string>)

  /** The rules' errors at one position, by what the position is and what precedes it. */
  function ErrorsAt(x: Context, ps: seq<Path>, i: nat): seq<GraphQLError>
    requires i < |ps| && NonEmpty(ps)
  {
    var path, node := ps[i], Last(ps[i]);
    match node
    case Document(defs) => if |path| == 1 then NonExecutable(defs) else []
    case OperationDefinition(_, Some(name), _, _) =>
      if !InsideDefinition(path) && NamedBefore(ps, i, name.NameValue()) then [GraphQLError(UniqueOperationNames, name)]
      else []
    case NamedType(_) =>
      if node.NameValue() !in x.schema.types && node.NameValue() !in x.defined then [GraphQLError(KnownTypeNames, node)]
      else []
    case Field(name, _, _, _) =>
      var parent := TypeInside(x.port, x.schema, Above(path));
      if parent.Some? && name.NameValue() !in parent.value.fields then [GraphQLError(FieldsOnCorrectType, node)] else []
    case InlineFragment(Some(t), _) => OnNonComposite(x.port, x.schema, t)
    case FragmentDefinition(_, t, _) => OnNonComposite(x.port, x.schema, t)
    case _ => []
  }

  function ErrorsUpTo(x: Context, ps: seq<Path>, n: nat): seq<GraphQLError>
    requires n <= |ps| && NonEmpty(ps)
  {
    if n == 0 then [] else ErrorsUpTo(x, ps, n-1) + ErrorsAt(x, ps, n-1)
  }

  lemma {:induction false} PositionsNonEmpty(keys: VisitorKeys, path: Path)
    requires path != []
    ensures NonEmpty(Positions(keys, path))
    decreases Last(path)
  {
    PositionsBelowNonEmpty(keys, path, Kids(keys, Last(path)));
  }

  lemma {:induction false} PositionsBelowNonEmpty(keys: VisitorKeys, path: Path, kids: seq<ASTNode>)
    requires path != [] && AllBelow(kids, Last(path))
    ensures NonEmpty(PositionsBelow(keys, path, kids))
    decreases Last(path), |kids|
  {
    if kids != [] {
      PositionsBelowNonEmpty(keys, path, kids[..|kids|-1]);
      PositionsNonEmpty(keys, path + [kids[|kids|-1]]);
    }
  }

  /** The specification of validate: the errors of every position, in document order. */
  ghost function ExpectedErrors(port: Port, keys: VisitorKeys, schema: GraphQLSchema, doc: ASTNode): seq<GraphQLError>
    requires doc.Document?
  {
    PositionsNonEmpty(keys, [doc]);
    var ps := Positions(keys, [doc]);
    ErrorsUpTo(Context(port, schema, DefinedTypeNames(port, doc.definitions)), ps, |ps|)
  }
}
