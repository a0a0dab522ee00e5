/** The ports agree on a document under every schema exactly where Agreement says they do. */
module ExactAgreement {
  import opened Options
  import opened Ast
  import opened Traversal
  import opened TypeTracking
  import opened Rules
  import opened AsValidate
  import opened Agreement

  // ---------------------------------------------------------------- a schema that goes as deep as a path

  /** Rung k of a ladder: its name is the root's with k marks. */
  function RungName(root: string, k: nat): string {
    root + seq(k, _ => 'x')
  }

  /** Every field of a rung leads to the next one, and the last rung has no field. */
  function Rung(names: set<string>, name: string, last: bool): GraphQLType {
    GraphQLType(name, Object, if last then map[] else map f | f in names :: GraphQLField(f, name + "x"))
  }

  ghost function Ladder(names: set<string>, root: string, height: nat): map<string, GraphQLType> {
    var rungs := set k | 0 <= k <= height :: RungName(root, k);
    map s | s in rungs :: Rung(names, s, |s| == |root| + height)
  }

  /** A schema without a query type, unless it has to be the rung named Query. */
  ghost function LadderSchema(schemas: Schemas, names: set<string>, root: string, height: nat): (schema: GraphQLSchema)
    ensures Admits(schemas, schema)
  {
    var types := Ladder(names, root, height);
    GraphQLSchema(types, if schemas.QueryIsNamed? && "Query" in types then Some(types["Query"]) else None)
  }

  lemma RungIsThere(schemas: Schemas, names: set<string>, root: string, height: nat, k: nat)
    requires k <= height
    ensures LadderSchema(schemas, names, root, height).GetType(RungName(root, k))
         == Some(Rung(names, RungName(root, k), k == height))
  {
  }

  lemma NextRung(root: string, k: nat)
    ensures RungName(root, 0) == root && RungName(root, k) + "x" == RungName(root, k + 1)
  {
  }

  lemma NoQueryType(schemas: Schemas, names: set<string>, root: string, height: nat)
    requires schemas.AnySchema? || (root != "" && root[0] != 'Q')
    ensures LadderSchema(schemas, names, root, height).queryType == None
  {
    if schemas.AnySchema? { return; }
    forall k: nat ensures RungName(root, k) != "Query" { assert RungName(root, k)[0] == root[0]; }
  }

  // ---------------------------------------------------------------- how deep a path goes

  /** How many fields stand after the innermost source. */
  function Depth(path: Path): nat {
    if path == [] || IsSource(Last(path)) then 0 else
    Depth(Above(path)) + if Last(path).Field? then 1 else 0
  }

  function FieldNames(path: Path): set<string> {
    set i | 0 <= i < |path| && path[i].Field? :: path[i].name.NameValue()
  }

  /** The type name that the AssemblyScript port reads off a source. */
  function SourceName(source: ASTNode): string {
    match source
    case OperationDefinition(op, _, _, _) => RootTypeName(op)
    case FragmentDefinition(_, t, _) => t.NameValue()
    case InlineFragment(Some(t), _) => t.NameValue()
    case _ => ""
  }

  /** Fields climb the ladder that starts at the path's source. */
  lemma {:induction false} Climbs(schemas: Schemas, names: set<string>, root: string, height: nat, path: Path)
    requires Source(path).Some? && SourceName(Source(path).value) == root
    requires Depth(path) <= height && FieldNames(path) <= names
    ensures TypeInside(AssemblyScript, LadderSchema(schemas, names, root, height), path)
         == Some(Rung(names, RungName(root, Depth(path)), Depth(path) == height))
  {
    hide LadderSchema, Rung, RungName;
    RungIsThere(schemas, names, root, height, Depth(path));
    NextRung(root, 0);
    if !IsSource(Last(path)) {
      var above := Above(path);
      assert FieldNames(above) <= names by {
        forall i | 0 <= i < |above| && above[i].Field? ensures above[i].name.NameValue() in names {
          assert path[i] == above[i];
        }
      }
      Climbs(schemas, names, root, height, above);
      if Last(path).Field? {
        assert Last(path).name.NameValue() in FieldNames(path);
        RungLeadsOn(schemas, names, root, height, Depth(above), Last(path).name.NameValue());
      }
    }
  }

  lemma RungLeadsOn(schemas: Schemas, names: set<string>, root: string, height: nat, k: nat, name: string)
    requires k < height && name in names
    ensures var schema := LadderSchema(schemas, names, root, height);
            FieldType(schema, Some(Rung(names, RungName(root, k), false)), name)
            == Some(Rung(names, RungName(root, k + 1), k + 1 == height))
  {
    RungIsThere(schemas, names, root, height, k + 1);
    NextRung(root, k);
    hide LadderSchema, RungName;
  }

  // ---------------------------------------------------------------- the JavaScript port knows less

  /** The path starts from an operation for which the ports may take different types. */
  predicate FromLostOperation(schemas: Schemas, path: Path) {
    Source(path).Some? && Source(path).value.OperationDefinition? && !ReadAlike(schemas, Source(path).value)
  }

  lemma {:induction false} LostType(schemas: Schemas, schema: GraphQLSchema, path: Path)
    requires Source(path).Some? && !Settled(schemas, path)
    requires FromLostOperation(schemas, path) ==> schema.queryType == None
    ensures TypeInside(JavaScript, schema, path) == None
  {
    if !IsSource(Last(path)) && !Last(path).InlineFragment? { LostType(schemas, schema, Above(path)); }
  }

  /** Unless it takes the query type for another, it finds no type that the other port does not find. */
  lemma NoOtherTypes(schemas: Schemas, schema: GraphQLSchema, path: Path)
    requires Admits(schemas, schema)
    requires FromLostOperation(schemas, path) ==> schema.queryType == None
    ensures var found := TypeInside(JavaScript, schema, path);
            found == None || found == TypeInside(AssemblyScript, schema, path)
  {
    hide TypeInside, Kept, ReadAlike;
    if Source(path).None? {
      NoTypeWithoutSource(JavaScript, schema, path);
    } else if Settled(schemas, path) {
      SettledTypes(schemas, schema, path);
    } else {
      LostType(schemas, schema, path);
    }
  }

  // ---------------------------------------------------------------- counting one error

  function Count(errors: seq<GraphQLError>, e: GraphQLError): nat { multiset(errors)[e] }

  /** A position earns an error about a field or a type at most once. */
  lemma EarnedOnce(x: Context, ps: seq<Path>, i: nat, e: GraphQLError)
    requires i < |ps| && NonEmpty(ps) && e.GraphQLError? && e.rule != ExecutableDefinitions
    ensures Count(ErrorsAt(x, ps, i), e) == if e in ErrorsAt(x, ps, i) then 1 else 0
  {
    hide TypeInside, NonExecutable, NamedBefore, InsideDefinition;
    var errors := ErrorsAt(x, ps, i);
    if Last(ps[i]).Document? {
      if e in NonExecutable(Last(ps[i]).definitions) { OnlyOneRule(Last(ps[i]).definitions, e); }
    } else if |errors| == 1 {
      assert errors == [errors[0]];
    }
  }

  lemma JsEarnedOnce(y: Context, ps: seq<Path>, i: nat, e: GraphQLError)
    requires i < |ps| && NonEmpty(ps) && e.GraphQLError? && e.rule != ExecutableDefinitions
    ensures Count(JsErrorsAt(y, ps, i), e) == if e in JsErrorsAt(y, ps, i) then 1 else 0
  {
    hide ErrorsAt, Visible;
    EarnedOnce(y, ps, i, e);
  }

  lemma CountAppends(a: seq<GraphQLError>, b: seq<GraphQLError>, e: GraphQLError)
    ensures Count(a + b, e) == Count(a, e) + Count(b, e)
  {
  }

  lemma CountNothing(e: GraphQLError)
    ensures Count([], e) == 0
  {
  }

  /** The JavaScript port reports e only where the other port does, and not at position k. */
  lemma {:induction false} CountsDiffer(x: Context, y: Context, ps: seq<Path>, n: nat, e: GraphQLError, k: nat)
    requires n <= |ps| && NonEmpty(ps) && e.GraphQLError? && e.rule != ExecutableDefinitions
    requires forall i | 0 <= i < n :: e in JsErrorsAt(y, ps, i) ==> e in ErrorsAt(x, ps, i)
    requires k < n ==> e in ErrorsAt(x, ps, k) && e !in JsErrorsAt(y, ps, k)
    ensures Count(JsErrorsUpTo(y, ps, n), e) <= Count(ErrorsUpTo(x, ps, n), e)
    ensures k < n ==> Count(JsErrorsUpTo(y, ps, n), e) < Count(ErrorsUpTo(x, ps, n), e)
  {
    hide ErrorsAt, JsErrorsAt, Count;
    CountNothing(e);
    if n > 0 {
      CountsDiffer(x, y, ps, n-1, e, k);
      EarnedOnce(x, ps, n-1, e);
      JsEarnedOnce(y, ps, n-1, e);
      CountAppends(ErrorsUpTo(x, ps, n-1), ErrorsAt(x, ps, n-1), e);
      CountAppends(JsErrorsUpTo(y, ps, n-1), JsErrorsAt(y, ps, n-1), e);
    }
  }

  /** So the lists are different. */
  lemma ErrorTellsThemApart(schema: GraphQLSchema, doc: ASTNode, e: GraphQLError, k: nat)
    requires doc.Document? && OrdinaryDocument(doc) && e.GraphQLError? && e.rule != ExecutableDefinitions
    requires var ps := AllPositions(DefaultVisitorKeys, doc);
      var (x, y) := (ContextOf(AssemblyScript, schema, doc), ContextOf(JavaScript, schema, doc));
      && (forall i | 0 <= i < |ps| :: e in JsErrorsAt(y, ps, i) ==> e in ErrorsAt(x, ps, i))
      && k < |ps| && e in ErrorsAt(x, ps, k) && e !in JsErrorsAt(y, ps, k)
    ensures PortsDiffer(schema, doc)
  {
    hide Positions, ErrorsAt, JsErrorsAt, OrdinaryDocument, ErrorsUpTo, JsErrorsUpTo;
    var ps := AllPositions(DefaultVisitorKeys, doc);
    var (x, y) := (ContextOf(AssemblyScript, schema, doc), ContextOf(JavaScript, schema, doc));
    CountsDiffer(x, y, ps, |ps|, e, k);
    JsErrors(schema, doc);
  }

  // ---------------------------------------------------------------- a schema against every position that is not alike

  /** At the field the ports differ, and nowhere does the JavaScript port report a field that the other does not. */
  lemma FieldTellsThemApart(schemas: Schemas, schema: GraphQLSchema, doc: ASTNode, k: nat)
    requires doc.Document? && OrdinaryDocument(doc) && Admits(schemas, schema)
    requires var ps := AllPositions(DefaultVisitorKeys, doc);
      && k < |ps|
      && FieldExists(ContextOf(JavaScript, schema, doc), ps[k])
      && !FieldExists(ContextOf(AssemblyScript, schema, doc), ps[k])
      && forall i | 0 <= i < |ps| && Last(ps[i]).Field? ::
           FromLostOperation(schemas, Above(ps[i])) ==> schema.queryType == None
    ensures PortsDiffer(schema, doc)
  {
    hide Positions, ErrorsAt, OrdinaryDocument, TypeInside, Source, Visible;
    var ps := AllPositions(DefaultVisitorKeys, doc);
    var (x, y) := (ContextOf(AssemblyScript, schema, doc), ContextOf(JavaScript, schema, doc));
    var e := GraphQLError(FieldsOnCorrectType, Last(ps[k]));
    forall i: nat | i < |ps| ensures e in JsErrorsAt(y, ps, i) ==> e in ErrorsAt(x, ps, i) {
      MissingFieldAt(x, ps, i, e.node);
      MissingFieldAt(y, ps, i, e.node);
      if Last(ps[i]).Field? { NoOtherTypes(schemas, schema, Above(ps[i])); }
    }
    MissingFieldAt(x, ps, k, e.node);
    MissingFieldAt(y, ps, k, e.node);
    ErrorTellsThemApart(schema, doc, e, k);
  }

  /** The ladder as high as the field is deep: one port finds its last rung, the other finds nothing. */
  ghost function WitnessFor(schemas: Schemas, path: Path): GraphQLSchema
    requires Source(path).Some?
  {
    LadderSchema(schemas, FieldNames(path), SourceName(Source(path).value), Depth(path))
  }

  lemma WitnessSeparates(schemas: Schemas, doc: ASTNode, path: Path)
    requires doc.Document? && path != [] && Last(path).Field? && !Settled(schemas, Above(path))
    ensures var schema := WitnessFor(schemas, Above(path));
            && (FromLostOperation(schemas, Above(path)) ==> schema.queryType == None)
            && FieldExists(ContextOf(JavaScript, schema, doc), path)
            && !FieldExists(ContextOf(AssemblyScript, schema, doc), path)
  {
    hide LadderSchema, TypeInside, Source, Kept;
    var above := Above(path);
    var root := SourceName(Source(above).value);
    if FromLostOperation(schemas, above) { NoQueryType(schemas, FieldNames(above), root, Depth(above)); }
    LostType(schemas, WitnessFor(schemas, above), above);
    Climbs(schemas, FieldNames(above), root, Depth(above), above);
  }

  /** Fields of such operations first: against them a schema without a query type will do. */
  lemma UnsettledFieldsShow(schemas: Schemas, doc: ASTNode, k: nat) returns (schema: GraphQLSchema)
    requires doc.Document? && OrdinaryDocument(doc) && k < |AllPositions(DefaultVisitorKeys, doc)|
    requires var path := AllPositions(DefaultVisitorKeys, doc)[k]; Last(path).Field? && !Settled(schemas, Above(path))
    ensures Admits(schemas, schema) && PortsDiffer(schema, doc)
  {
    hide LadderSchema, Positions, FieldExists, OrdinaryDocument, PortsDiffer, Source, Kept;
    var ps := AllPositions(DefaultVisitorKeys, doc);
    var j := k;
    if i :| 0 <= i < |ps| && Last(ps[i]).Field? && FromLostOperation(schemas, Above(ps[i])) { j := i; }
    WitnessSeparates(schemas, doc, ps[j]);
    schema := WitnessFor(schemas, Above(ps[j]));
    FieldTellsThemApart(schemas, schema, doc, j);
  }

  lemma {:induction false} JsErrorsMembers(y: Context, ps: seq<Path>, n: nat, e: GraphQLError)
    requires n <= |ps| && NonEmpty(ps)
    ensures e in JsErrorsUpTo(y, ps, n) <==> exists i | 0 <= i < n :: e in JsErrorsAt(y, ps, i)
  {
    hide JsErrorsAt;
    if n > 0 { JsErrorsMembers(y, ps, n-1, e); }
  }

  lemma EarnsUnknownType(doc: ASTNode, i: nat, n: ASTNode)
    requires doc.Document? && i < |AllPositions(DefaultVisitorKeys, doc)| && n.NamedType?
    ensures var ps := AllPositions(DefaultVisitorKeys, doc);
            var (x, y) := (ContextOf(AssemblyScript, NO_TYPES, doc), ContextOf(JavaScript, NO_TYPES, doc));
            var e := GraphQLError(KnownTypeNames, n);
            && (e in ErrorsAt(x, ps, i) <==> Last(ps[i]) == n && !IsDefined(AssemblyScript, doc, n.NameValue()))
            && (e in JsErrorsAt(y, ps, i) <==>
                 Last(ps[i]) == n && Visible(ps[i]) && !IsDefined(JavaScript, doc, n.NameValue()))
  {
    hide Positions, ErrorsAt, Visible;
    var ps := AllPositions(DefaultVisitorKeys, doc);
    UnknownTypeAt(ContextOf(AssemblyScript, NO_TYPES, doc), ps, i, n);
    UnknownTypeAt(ContextOf(JavaScript, NO_TYPES, doc), ps, i, n);
  }

  /** Against types that are not defined alike, or hidden and not defined, a schema without any types will do. */
  lemma UnsettledTypesShow(schemas: Schemas, doc: ASTNode, k: nat)
    requires doc.Document? && OrdinaryDocument(doc) && k < |AllPositions(DefaultVisitorKeys, doc)|
    requires var path := AllPositions(DefaultVisitorKeys, doc)[k]; Last(path).NamedType? && !AlikeAt(schemas, doc, path)
    ensures Admits(schemas, NO_TYPES) && PortsDiffer(NO_TYPES, doc)
  {
    hide Positions, ErrorsAt, JsErrorsAt, OrdinaryDocument, IsDefined, Visible, ErrorsUpTo, JsErrorsUpTo;
    var ps := AllPositions(DefaultVisitorKeys, doc);
    var (x, y) := (ContextOf(AssemblyScript, NO_TYPES, doc), ContextOf(JavaScript, NO_TYPES, doc));
    var n := Last(ps[k]);
    var e := GraphQLError(KnownTypeNames, n);
    EarnsUnknownType(doc, k, n);
    if IsDefined(AssemblyScript, doc, n.NameValue()) {
      forall i: nat | i < |ps| ensures e !in ErrorsAt(x, ps, i) { EarnsUnknownType(doc, i, n); }
      JsErrorsMembers(y, ps, |ps|, e);
      ErrorsUpToMembers(x, ps, |ps|, e);
      JsErrors(NO_TYPES, doc);
    } else {
      forall i: nat | i < |ps| ensures e in JsErrorsAt(y, ps, i) ==> e in ErrorsAt(x, ps, i) {
        EarnsUnknownType(doc, i, n);
      }
      ErrorTellsThemApart(NO_TYPES, doc, e, k);
    }
  }

  /**
   * The ports report the same errors on the document under every schema, or every one whose query
   * type is the one named Query, if and only if: each field's source is a condition with a name,
   * or, in the second case, a query, without an unconditioned fragment after it; each type that
   * both ports reach is defined for both or for neither; and each other one is defined.
   */
  lemma PortsAgreeExactly(schemas: Schemas, doc: ASTNode)
    requires doc.Document? && OrdinaryDocument(doc)
    ensures (forall schema: GraphQLSchema | Admits(schemas, schema) :: !PortsDiffer(schema, doc))
       <==> AlikeEverywhere(schemas, doc)
  {
    hide Positions, OrdinaryDocument, PortsDiffer, IsDefined, Settled, Visible, Admits;
    if AlikeEverywhere(schemas, doc) {
      forall schema: GraphQLSchema | Admits(schemas, schema) ensures !PortsDiffer(schema, doc) {
        PortsAgree(schemas, schema, doc);
      }
    } else {
      var ps := AllPositions(DefaultVisitorKeys, doc);
      var k :| 0 <= k < |ps| && !AlikeAt(schemas, doc, ps[k]);
      if Last(ps[k]).Field? {
        var schema := UnsettledFieldsShow(schemas, doc, k);
      } else {
        UnsettledTypesShow(schemas, doc, k);
      }
    }
  }
}
