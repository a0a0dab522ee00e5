/** The meta-field __typename, which section 5.3.1 of the GraphQL specification allows on every composite type. */
module MetaField {
  import opened Options
  import opened Ast
  import opened Traversal
  import opened TypeTracking
  import opened Rules
  import opened AsValidate
  import opened Disagreement

  /** `{ __typename }`: both ports report it. */
  lemma BothPortsReportTypename()
    ensures var doc := OneField(Query, "__typename")[0];
            var e := GraphQLError(FieldsOnCorrectType, OneField(Query, "__typename")[3]);
            && e in ExpectedErrors(AssemblyScript, DefaultVisitorKeys, EMPTY_ROOT, doc)
            && e in ExpectedErrors(JavaScript, QueryDocumentKeys, EMPTY_ROOT, doc)
  {
    hide Chain, ExpectedErrors;
    OneFieldIsChain(Query, "__typename");
    OneFieldReports(AssemblyScript, DefaultVisitorKeys, EMPTY_ROOT, Query, "__typename");
    OneFieldReports(JavaScript, QueryDocumentKeys, EMPTY_ROOT, Query, "__typename");
  }

  /** The field is the meta-field of a composite type that does not list it. */
  predicate MetaAt(x: Context, path: Path)
    requires path != []
  {
    var parent := TypeInside(x.port, x.schema, Above(path));
    && Last(path).Field? && Last(path).name.NameValue() == "__typename"
    && parent.Some? && IsCompositeType(parent.value) && "__typename" !in parent.value.fields
  }

  /** Both ports report it wherever it stands. */
  lemma MetaFieldIsReported(port: Port, keys: VisitorKeys, schema: GraphQLSchema, doc: ASTNode, i: nat)
    requires doc.Document? && i < |AllPositions(keys, doc)|
    requires MetaAt(ContextOf(port, schema, doc), AllPositions(keys, doc)[i])
    ensures var node := Last(AllPositions(keys, doc)[i]);
            GraphQLError(FieldsOnCorrectType, node) in ExpectedErrors(port, keys, schema, doc)
  {
    hide Positions, ExpectedErrors, TypeInside;
    MissingFieldsExactly(port, keys, schema, doc, Last(AllPositions(keys, doc)[i]));
    assert !FieldExists(ContextOf(port, schema, doc), AllPositions(keys, doc)[i]);
  }

  /** What section 5.3.1 asks of a position, where the parent type is known. */
  ghost predicate FieldIsAllowed(x: Context, path: Path)
    requires path != []
  {
    FieldExists(x, path) || MetaAt(x, path)
  }

  /** How many of the first n positions break section 5.3.1. */
  ghost function Violations(x: Context, ps: seq<Path>, n: nat): nat
    requires n <= |ps| && NonEmpty(ps)
  {
    if n == 0 then 0 else Violations(x, ps, n-1) + if FieldIsAllowed(x, ps[n-1]) then 0 else 1
  }

  function MetaFields(x: Context, ps: seq<Path>, n: nat): nat
    requires n <= |ps| && NonEmpty(ps)
  {
    if n == 0 then 0 else MetaFields(x, ps, n-1) + if MetaAt(x, ps[n-1]) then 1 else 0
  }

  lemma FieldsCounted(x: Context, ps: seq<Path>, i: nat)
    requires i < |ps| && NonEmpty(ps)
    ensures CountRule(ErrorsAt(x, ps, i), FieldsOnCorrectType)
         == (if FieldIsAllowed(x, ps[i]) then 0 else 1) + if MetaAt(x, ps[i]) then 1 else 0
  {
    hide CountRule, TypeInside, NonExecutable;
    var errors := ErrorsAt(x, ps, i);
    CountNone(FieldsOnCorrectType);
    if Last(ps[i]).Document? {
      NonExecutableCounts(Last(ps[i]).definitions, FieldsOnCorrectType);
    } else if |errors| == 1 {
      CountOne(errors[0], FieldsOnCorrectType);
      assert errors == [errors[0]];
    }
  }

  lemma {:induction false} FieldsCountedUpTo(x: Context, ps: seq<Path>, n: nat)
    requires n <= |ps| && NonEmpty(ps)
    ensures CountRule(ErrorsUpTo(x, ps, n), FieldsOnCorrectType) == Violations(x, ps, n) + MetaFields(x, ps, n)
  {
    hide ErrorsAt, FieldIsAllowed, MetaAt;
    if n > 0 {
      FieldsCountedUpTo(x, ps, n-1);
      FieldsCounted(x, ps, n-1);
      CountRuleAppends(ErrorsUpTo(x, ps, n-1), ErrorsAt(x, ps, n-1), FieldsOnCorrectType);
    }
  }

  lemma {:induction false} NoMetaFields(x: Context, ps: seq<Path>, n: nat)
    requires n <= |ps| && NonEmpty(ps)
    ensures MetaFields(x, ps, n) == 0 <==> forall i | 0 <= i < n :: !MetaAt(x, ps[i])
  {
    hide MetaAt;
    if n > 0 { NoMetaFields(x, ps, n-1); }
  }

  /**
   * Each port reports every violation of section 5.3.1 and every such meta-field, so its reports
   * are the violations if and only if the document has no such meta-field.
   */
  lemma ReportsAreViolationsExactly(port: Port, keys: VisitorKeys, schema: GraphQLSchema, doc: ASTNode)
    requires doc.Document?
    ensures var (x, ps) := (ContextOf(port, schema, doc), AllPositions(keys, doc));
            var reports := CountRule(ExpectedErrors(port, keys, schema, doc), FieldsOnCorrectType);
            && reports == Violations(x, ps, |ps|) + MetaFields(x, ps, |ps|)
            && (reports == Violations(x, ps, |ps|) <==> forall i | 0 <= i < |ps| :: !MetaAt(x, ps[i]))
  {
    hide Positions, ErrorsUpTo, MetaAt;
    var (x, ps) := (ContextOf(port, schema, doc), AllPositions(keys, doc));
    FieldsCountedUpTo(x, ps, |ps|);
    NoMetaFields(x, ps, |ps|);
  }
}
