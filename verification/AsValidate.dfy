/** The AssemblyScript port's validate, and what its answer means. */
module AsValidate {
  import opened Options
  import opened Ast
  import opened Traversal
  import opened TypeTracking
  import opened Rules
  import opened RulesWalk
  import opened ParallelVisitor

  method Validate(schema: GraphQLSchema, doc: ASTNode) returns (errors: seq<GraphQLError>)
    requires doc.Document?
    ensures errors == ExpectedErrors(AssemblyScript, DefaultVisitorKeys, schema, doc)
  {
    hide SpecifiedRules, ExpectedErrors, Walk;
    var defined := DefinedTypes(AssemblyScript, doc.definitions);
    var visitorList := SpecifiedRules(AssemblyScript, schema, defined);
    var start: seq<RuleState> := [map[], map[], map[], map[], map[]];
    var context := new ParallelWalk(schema, DefaultVisitorKeys, visitorList, start);
    ghost var w := context.World();
    context.Visit(doc);
    RunReportsExpected(context.Config(), doc, TypeInfo(None, None), w);
    errors := context.errors;
  }

  // ---------------------------------------------------------------- reading the specification

  function AllPositions(keys: VisitorKeys, doc: ASTNode): (ps: seq<Path>)
    ensures NonEmpty(ps)
  {
    PositionsNonEmpty(keys, [doc]);
    Positions(keys, [doc])
  }

  function ContextOf(port: Port, schema: GraphQLSchema, doc: ASTNode): Context
    requires doc.Document?
  {
    Context(port, schema, set def <- doc.definitions | DefinesType(port, def) :: def.name.NameValue())
  }

  lemma {:induction false} ErrorsUpToMembers(x: Context, ps: seq<Path>, n: nat, e: GraphQLError)
    requires n <= |ps| && NonEmpty(ps)
    ensures e in ErrorsUpTo(x, ps, n) <==> exists i | 0 <= i < n :: e in ErrorsAt(x, ps, i)
  {
    hide ErrorsAt;
    if n > 0 {
      ErrorsUpToMembers(x, ps, n-1, e);
    }
  }

  /** An error is reported if and only if some position of the document earns it. */
  lemma ReportedIffEarned(port: Port, keys: VisitorKeys, schema: GraphQLSchema, doc: ASTNode, e: GraphQLError)
    requires doc.Document?
    ensures var ps := AllPositions(keys, doc);
            e in ExpectedErrors(port, keys, schema, doc) <==>
            exists i | 0 <= i < |ps| :: e in ErrorsAt(ContextOf(port, schema, doc), ps, i)
  {
    var ps := AllPositions(keys, doc);
    ErrorsUpToMembers(ContextOf(port, schema, doc), ps, |ps|, e);
  }

  lemma {:induction false} NonExecutableMembers(defs: seq<ASTNode>)
    ensures NonExecutable(defs) == [] <==> forall i | 0 <= i < |defs| :: IsExecutableDefinitionNode(defs[i])
  {
    if defs != [] {
      NonExecutableMembers(defs[..|defs|-1]);
    }
  }

  lemma {:induction false} ErrorsUpToEmpty(x: Context, ps: seq<Path>, n: nat)
    requires n <= |ps| && NonEmpty(ps)
    ensures ErrorsUpTo(x, ps, n) == [] <==> forall i | 0 <= i < n :: ErrorsAt(x, ps, i) == []
  {
    hide ErrorsAt;
    if n > 0 {
      ErrorsUpToEmpty(x, ps, n-1);
    }
  }

  ghost predicate FieldExists(x: Context, path: Path)
    requires path != []
  {
    Last(path).Field? && TypeInside(x.port, x.schema, Above(path)).Some? ==>
      Last(path).name.NameValue() in TypeInside(x.port, x.schema, Above(path)).value.fields
  }

  predicate TypeIsKnown(x: Context, node: ASTNode) {
    node.NamedType? ==> node.NameValue() in x.schema.types || node.NameValue() in x.defined
  }

  /** A condition that the port resolves to a type of the schema names a composite one. */
  predicate ConditionIsComposite(x: Context, condition: ASTNode) {
    (x.port.JavaScript? || condition.NamedType?) && condition.NameValue() in x.schema.types ==>
      !x.schema.types[condition.NameValue()].kind.Scalar?
  }

  predicate FragmentIsComposite(x: Context, node: ASTNode) {
    match node
    case InlineFragment(Some(t), _) => ConditionIsComposite(x, t)
    case FragmentDefinition(_, t, _) => ConditionIsComposite(x, t)
    case _ => true
  }

  /**
   * What the five rules ask, on positions: sections 5.1.1, 5.2.1.1, 5.3.1, 5.5.1.2 and 5.5.1.3 of
   * the GraphQL specification, except that no type is granted the meta-field __typename.
   */
  ghost predicate DocumentIsValid(port: Port, keys: VisitorKeys, schema: GraphQLSchema, doc: ASTNode)
    requires doc.Document?
  {
    var x, ps := ContextOf(port, schema, doc), AllPositions(keys, doc);
    && (forall i | 0 <= i < |doc.definitions| ::
          doc.definitions[i].OperationDefinition? || doc.definitions[i].FragmentDefinition?)
    && (forall i, j, name | 0 <= i < j < |ps| :: !(NamesOperation(ps[i], name) && NamesOperation(ps[j], name)))
    && (forall i | 0 <= i < |ps| :: TypeIsKnown(x, Last(ps[i])))
    && (forall i | 0 <= i < |ps| :: FieldExists(x, ps[i]))
    && (forall i | 0 <= i < |ps| :: FragmentIsComposite(x, Last(ps[i])))
  }

  predicate NamesFreshOperation(ps: seq<Path>, i: nat)
    requires i < |ps| && NonEmpty(ps)
  {
    Last(ps[i]).OperationDefinition? && Last(ps[i]).opName.Some? && !InsideDefinition(ps[i])
    ==> !NamedBefore(ps, i, Last(ps[i]).opName.value.NameValue())
  }

  lemma PositionIsClean(x: Context, ps: seq<Path>, i: nat)
    requires i < |ps| && NonEmpty(ps) && ps[i][0].Document?
    requires |ps[i]| == 1 <==> i == 0
    ensures ErrorsAt(x, ps, i) == [] <==>
              && (i == 0 ==> forall k | 0 <= k < |ps[i][0].definitions| ::
                  IsExecutableDefinitionNode(ps[i][0].definitions[k]))
              && NamesFreshOperation(ps, i) && TypeIsKnown(x, Last(ps[i]))
              && FieldExists(x, ps[i]) && FragmentIsComposite(x, Last(ps[i]))
  {
    NonExecutableMembers(ps[i][0].definitions);
  }

  lemma FreshMeansDistinct(ps: seq<Path>)
    requires NonEmpty(ps)
    ensures (forall i | 0 <= i < |ps| :: NamesFreshOperation(ps, i))
       <==> (forall i, j, name | 0 <= i < j < |ps| :: !(NamesOperation(ps[i], name) && NamesOperation(ps[j], name)))
  {
    if forall i | 0 <= i < |ps| :: NamesFreshOperation(ps, i) {
      forall i, j, name | 0 <= i < j < |ps| ensures !(NamesOperation(ps[i], name) && NamesOperation(ps[j], name)) {
        assert NamesFreshOperation(ps, j);
      }
    }
  }

  predicate AllBeyond(path: Path, qs: seq<Path>) {
    forall i | 0 <= i < |qs| :: path <= qs[i] && |path| < |qs[i]|
  }

  lemma {:induction false} PositionsStartWith(keys: VisitorKeys, path: Path)
    requires path != []
    ensures Positions(keys, path)[0] == path && AllBeyond(path, Positions(keys, path)[1..])
    decreases Last(path)
  {
    var kids := Kids(keys, Last(path));
    PositionsBelowStartWith(keys, path, kids);
    assert Positions(keys, path)[1..] == PositionsBelow(keys, path, kids);
  }

  lemma {:induction false} PositionsBelowStartWith(keys: VisitorKeys, path: Path, kids: seq<ASTNode>)
    requires path != [] && AllBelow(kids, Last(path))
    ensures AllBeyond(path, PositionsBelow(keys, path, kids))
    decreases Last(path), |kids|
  {
    if kids != [] {
      var down := path + [kids[|kids|-1]];
      PositionsBelowStartWith(keys, path, kids[..|kids|-1]);
      PositionsStartWith(keys, down);
      BeyondFurther(path, down, Positions(keys, down));
    }
  }

  lemma BeyondFurther(path: Path, down: Path, rs: seq<Path>)
    requires path <= down && |path| < |down| && |rs| > 0 && rs[0] == down && AllBeyond(down, rs[1..])
    ensures AllBeyond(path, rs)
  {
    forall i | 0 <= i < |rs| ensures path <= rs[i] && |path| < |rs[i]| {
      if i > 0 {
        assert rs[i] == rs[1..][i-1];
        forall k | 0 <= k < |path| ensures rs[i][k] == path[k] { assert down[k] == path[k]; }
      }
    }
  }

  lemma DocumentStartsEveryPosition(keys: VisitorKeys, doc: ASTNode, i: nat)
    requires i < |AllPositions(keys, doc)|
    ensures var p := AllPositions(keys, doc)[i]; p != [] && p[0] == doc && (|p| == 1 <==> i == 0)
  {
    PositionsStartWith(keys, [doc]);
    if i > 0 { assert AllPositions(keys, doc)[i] == AllPositions(keys, doc)[1..][i-1]; }
  }

  /** validate answers with no error if and only if the document is valid. */
  lemma NoErrorsIffValid(port: Port, keys: VisitorKeys, schema: GraphQLSchema, doc: ASTNode)
    requires doc.Document?
    ensures ExpectedErrors(port, keys, schema, doc) == [] <==> DocumentIsValid(port, keys, schema, doc)
  {
    hide ErrorsAt, NamesFreshOperation, TypeIsKnown, FieldExists, FragmentIsComposite,
        Positions, NamesOperation, ErrorsUpTo;
    var x, ps := ContextOf(port, schema, doc), AllPositions(keys, doc);
    ErrorsUpToEmpty(x, ps, |ps|);
    FreshMeansDistinct(ps);
    forall i: nat | i < |ps|
      ensures ErrorsAt(x, ps, i) == [] <==>
                && (i == 0 ==> forall k | 0 <= k < |doc.definitions| :: IsExecutableDefinitionNode(doc.definitions[k]))
                && NamesFreshOperation(ps, i) && TypeIsKnown(x, Last(ps[i]))
                && FieldExists(x, ps[i]) && FragmentIsComposite(x, Last(ps[i]))
    {
      DocumentStartsEveryPosition(keys, doc, i);
      PositionIsClean(x, ps, i);
    }
  }

  // ---------------------------------------------------------------- one rule at a time

  lemma {:induction false} OnlyOneRule(defs: seq<ASTNode>, e: GraphQLError)
    requires e in NonExecutable(defs)
    ensures e.GraphQLError? && e.rule == ExecutableDefinitions
  {
    if e in NonExecutable(defs[..|defs|-1]) { OnlyOneRule(defs[..|defs|-1], e); }
  }

  lemma UnknownTypeAt(x: Context, ps: seq<Path>, i: nat, n: ASTNode)
    requires i < |ps| && NonEmpty(ps)
    ensures GraphQLError(KnownTypeNames, n) in ErrorsAt(x, ps, i)
       <==> Last(ps[i]) == n && n.NamedType? && !TypeIsKnown(x, n)
  {
    hide NonExecutable, TypeInside;
    var (node, e) := (Last(ps[i]), GraphQLError(KnownTypeNames, n));
    if node.Document? && e in NonExecutable(node.definitions) { OnlyOneRule(node.definitions, e); }
  }

  lemma MissingFieldAt(x: Context, ps: seq<Path>, i: nat, n: ASTNode)
    requires i < |ps| && NonEmpty(ps)
    ensures GraphQLError(FieldsOnCorrectType, n) in ErrorsAt(x, ps, i)
       <==> Last(ps[i]) == n && !FieldExists(x, ps[i])
  {
    hide NonExecutable, TypeInside;
    var (node, e) := (Last(ps[i]), GraphQLError(FieldsOnCorrectType, n));
    if node.Document? && e in NonExecutable(node.definitions) { OnlyOneRule(node.definitions, e); }
  }

  /** An unknown type is reported exactly when some position holds it. */
  lemma UnknownTypesAtPositions(port: Port, keys: VisitorKeys, schema: GraphQLSchema, doc: ASTNode, n: ASTNode)
    requires doc.Document?
    ensures var ps := AllPositions(keys, doc);
            && (GraphQLError(KnownTypeNames, n) in ExpectedErrors(port, keys, schema, doc) <==>
                && n.NamedType? && !TypeIsKnown(ContextOf(port, schema, doc), n)
                && exists i | 0 <= i < |ps| :: Last(ps[i]) == n)
  {
    hide ErrorsAt, Positions, ExpectedErrors;
    var (x, ps) := (ContextOf(port, schema, doc), AllPositions(keys, doc));
    ReportedIffEarned(port, keys, schema, doc, GraphQLError(KnownTypeNames, n));
    forall i: nat | i < |ps| { UnknownTypeAt(x, ps, i, n); }
  }

  /** A field is reported exactly when some path to it gives it a parent type without it. */
  lemma MissingFieldsExactly(port: Port, keys: VisitorKeys, schema: GraphQLSchema, doc: ASTNode, n: ASTNode)
    requires doc.Document?
    ensures var ps := AllPositions(keys, doc);
            && (GraphQLError(FieldsOnCorrectType, n) in ExpectedErrors(port, keys, schema, doc) <==>
                exists i | 0 <= i < |ps| :: Last(ps[i]) == n && !FieldExists(ContextOf(port, schema, doc), ps[i]))
  {
    hide ErrorsAt, Positions, ExpectedErrors, FieldExists;
    var (x, ps) := (ContextOf(port, schema, doc), AllPositions(keys, doc));
    ReportedIffEarned(port, keys, schema, doc, GraphQLError(FieldsOnCorrectType, n));
    forall i: nat | i < |ps| { MissingFieldAt(x, ps, i, n); }
  }

  // ---------------------------------------------------------------- counting repeats

  function CountRule(errors: seq<GraphQLError>, rule: Rule): nat {
    if errors == [] then 0 else
    var last := errors[|errors|-1];
    CountRule(errors[..|errors|-1], rule) + if last.GraphQLError? && last.rule == rule then 1 else 0
  }

  lemma {:induction false} CountRuleAppends(a: seq<GraphQLError>, b: seq<GraphQLError>, rule: Rule)
    ensures CountRule(a + b, rule) == CountRule(a, rule) + CountRule(b, rule)
  {
    if b == [] {
      assert a + b == a;
    } else {
      CountRuleAppends(a, b[..|b|-1], rule);
      assert (a + b)[..|a + b|-1] == a + b[..|b|-1];
    }
  }

  lemma {:induction false} NonExecutableCounts(defs: seq<ASTNode>, rule: Rule)
    requires rule != ExecutableDefinitions
    ensures CountRule(NonExecutable(defs), rule) == 0
  {
    if defs != [] {
      var front, d := defs[..|defs|-1], defs[|defs|-1];
      NonExecutableCounts(front, rule);
      var own := if IsExecutableDefinitionNode(d) then [] else [GraphQLError(ExecutableDefinitions, d)];
      CountRuleAppends(NonExecutable(front), own, rule);
    }
  }

  /** How many of the first n positions hold a named operation outside other definitions. */
  function NamedOperations(ps: seq<Path>, n: nat): nat
    requires n <= |ps| && NonEmpty(ps)
  {
    if n == 0 then 0 else NamedOperations(ps, n-1) + |NamesAt(ps[n-1])|
  }

  lemma CountNone(rule: Rule)
    ensures CountRule([], rule) == 0
  {
  }

  lemma CountOne(e: GraphQLError, rule: Rule)
    ensures CountRule([e], rule) == if e.GraphQLError? && e.rule == rule then 1 else 0
  {
    assert [e][..0] == [];
  }

  lemma OtherErrorsAt(x: Context, ps: seq<Path>, i: nat)
    requires i < |ps| && NonEmpty(ps)
    requires !Last(ps[i]).OperationDefinition?
    ensures CountRule(ErrorsAt(x, ps, i), UniqueOperationNames) == 0
  {
    hide CountRule, TypeInside, NonExecutable;
    var errors := ErrorsAt(x, ps, i);
    CountNone(UniqueOperationNames);
    if Last(ps[i]).Document? {
      NonExecutableCounts(Last(ps[i]).definitions, UniqueOperationNames);
    } else if |errors| == 1 {
      CountOne(errors[0], UniqueOperationNames);
      assert errors == [errors[0]];
    }
  }

  lemma RepeatsAt(x: Context, ps: seq<Path>, i: nat)
    requires i < |ps| && NonEmpty(ps)
    ensures CountRule(ErrorsAt(x, ps, i), UniqueOperationNames)
         == |NamesAt(ps[i])| - |NamesAt(ps[i]) - NamesUpTo(ps, i)|
  {
    hide CountRule, NamesUpTo, NamedBefore;
    var path := ps[i];
    CountNone(UniqueOperationNames);
    if Last(path).OperationDefinition? {
      NamesUpToAreNamedBefore(ps, i, OperationNameAt(path));
      if NamesAt(path) != {} {
        CountOne(GraphQLError(UniqueOperationNames, Last(path).opName.value), UniqueOperationNames);
        assert NamesAt(path) - NamesUpTo(ps, i) ==
               if OperationNameAt(path) in NamesUpTo(ps, i) then {} else {OperationNameAt(path)};
      }
    } else {
      OtherErrorsAt(x, ps, i);
    }
  }

  lemma {:induction false} RepeatsUpTo(x: Context, ps: seq<Path>, n: nat)
    requires n <= |ps| && NonEmpty(ps)
    ensures CountRule(ErrorsUpTo(x, ps, n), UniqueOperationNames) + |NamesUpTo(ps, n)| == NamedOperations(ps, n)
  {
    hide ErrorsAt, NamesAt;
    if n > 0 {
      RepeatsUpTo(x, ps, n-1);
      CountRuleAppends(ErrorsUpTo(x, ps, n-1), ErrorsAt(x, ps, n-1), UniqueOperationNames);
      RepeatsAt(x, ps, n-1);
      var seen, news := NamesUpTo(ps, n-1), NamesAt(ps[n-1]) - NamesUpTo(ps, n-1);
      assert seen + NamesAt(ps[n-1]) == seen + news;
    }
  }

  /** Every named operation is either the first of its name or one reported repeat. */
  lemma RepeatsAreCounted(port: Port, keys: VisitorKeys, schema: GraphQLSchema, doc: ASTNode)
    requires doc.Document?
    ensures var ps := AllPositions(keys, doc);
            CountRule(ExpectedErrors(port, keys, schema, doc), UniqueOperationNames)
            == NamedOperations(ps, |ps|) - |NamesUpTo(ps, |ps|)|
  {
    var ps := AllPositions(keys, doc);
    forall i: nat | i < |ps| ensures ps[i][0] == doc { DocumentStartsEveryPosition(keys, doc, i); }
    RepeatsUpTo(ContextOf(port, schema, doc), ps, |ps|);
  }
}
