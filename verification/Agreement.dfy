/** When the two ports of validate report the same errors. */
module Agreement {
  import opened Options
  import opened Ast
  import opened Children
  import opened Traversal
  import opened TypeTracking
  import opened Rules
  import opened AsValidate

  /** A fragment's type condition is a named type, as the node classes declare it. */
  predicate ConditionIsNamed(node: ASTNode) {
    match node
    case InlineFragment(Some(t), _) => t.NamedType?
    case FragmentDefinition(_, t, _) => t.NamedType?
    case _ => true
  }

  /** The parts of a document that the rules other than KnownTypeNames look at. */
  predicate IsExecutablePart(node: ASTNode) {
    node.OperationDefinition? || node.FragmentDefinition? || node.InlineFragment? || node.Field?
  }

  /** Nothing above the last node hides it from the JavaScript port. */
  predicate Visible(path: Path) {
    forall i | 0 <= i < |path| - 1 :: WalkedAlike(path[i])
  }

  predicate OrdinaryAt(path: Path)
    requires path != []
  {
    ConditionIsNamed(Last(path)) && (IsExecutablePart(Last(path)) ==> Visible(path))
  }

  /** No operation, fragment or field stands inside a union or a field definition. */
  ghost predicate OrdinaryDocument(doc: ASTNode) {
    var ps := AllPositions(DefaultVisitorKeys, doc);
    forall i | 0 <= i < |ps| :: OrdinaryAt(ps[i])
  }

  lemma SameKids(node: ASTNode)
    requires WalkedAlike(node)
    ensures Kids(DefaultVisitorKeys, node) == Kids(QueryDocumentKeys, node)
  {
    hide Kids, Parts;
    KidsAreParts(node);
  }

  lemma HiddenKids(node: ASTNode)
    requires !WalkedAlike(node)
    ensures Kids(QueryDocumentKeys, node) == []
  {
    hide Kids, Parts;
    KidsAreParts(node);
  }

  // ---------------------------------------------------------------- the positions the other port reaches

  function VisibleOf(ps: seq<Path>): seq<Path> {
    if ps == [] then [] else
    VisibleOf(ps[..|ps|-1]) + if Visible(ps[|ps|-1]) then [ps[|ps|-1]] else []
  }

  lemma {:induction false} VisibleAppends(a: seq<Path>, b: seq<Path>)
    ensures VisibleOf(a + b) == VisibleOf(a) + VisibleOf(b)
  {
    hide Visible;
    if b == [] {
      assert a + b == a;
    } else {
      VisibleAppends(a, b[..|b|-1]);
      assert (a + b)[..|a + b|-1] == a + b[..|b|-1];
    }
  }

  lemma {:induction false} NoneVisible(ps: seq<Path>)
    requires forall i | 0 <= i < |ps| :: !Visible(ps[i])
    ensures VisibleOf(ps) == []
  {
    hide Visible;
    if ps != [] { NoneVisible(ps[..|ps|-1]); }
  }

  lemma JustVisible(path: Path)
    ensures VisibleOf([path]) == if Visible(path) then [path] else []
  {
    hide Visible;
    assert [path][..0] == [];
  }

  lemma {:induction false} VisibleMembers(ps: seq<Path>, p: Path)
    ensures p in VisibleOf(ps) <==> p in ps && Visible(p)
  {
    hide Visible;
    if ps != [] {
      VisibleMembers(ps[..|ps|-1], p);
      assert ps == ps[..|ps|-1] + [ps[|ps|-1]];
    }
  }

  /** The JavaScript port reaches exactly the visible positions, in the same order. */
  lemma {:induction false} VisiblePositions(path: Path)
    requires path != [] && Visible(path)
    ensures VisibleOf(Positions(DefaultVisitorKeys, path)) == Positions(QueryDocumentKeys, path)
    decreases Last(path)
  {
    hide Kids, WalkedAlike, VisibleOf, Visible;
    var kids := Kids(DefaultVisitorKeys, Last(path));
    var below := PositionsBelow(DefaultVisitorKeys, path, kids);
    VisibleAppends([path], below);
    JustVisible(path);
    if WalkedAlike(Last(path)) {
      SameKids(Last(path));
      VisiblePositionsBelow(path, kids);
    } else {
      HiddenKids(Last(path));
      HiddenBelow(path, kids, below);
      NoneVisible(below);
      assert PositionsBelow(QueryDocumentKeys, path, []) == [];
    }
  }

  lemma {:induction false} VisiblePositionsBelow(path: Path, kids: seq<ASTNode>)
    requires path != [] && Visible(path) && WalkedAlike(Last(path)) && AllBelow(kids, Last(path))
    ensures VisibleOf(PositionsBelow(DefaultVisitorKeys, path, kids)) == PositionsBelow(QueryDocumentKeys, path, kids)
    decreases Last(path), |kids|
  {
    hide Kids, WalkedAlike, VisibleOf;
    if kids == [] {
      NoneVisible([]);
    } else {
      var front, down := kids[..|kids|-1], path + [kids[|kids|-1]];
      VisiblePositionsBelow(path, front);
      assert Visible(down) by { assert forall i | 0 <= i < |path| :: down[i] == path[i]; }
      VisiblePositions(down);
      VisibleAppends(PositionsBelow(DefaultVisitorKeys, path, front), Positions(DefaultVisitorKeys, down));
    }
  }

  lemma HiddenBelow(path: Path, kids: seq<ASTNode>, below: seq<Path>)
    requires path != [] && !WalkedAlike(Last(path)) && AllBelow(kids, Last(path))
    requires below == PositionsBelow(DefaultVisitorKeys, path, kids)
    ensures forall i | 0 <= i < |below| :: !Visible(below[i])
  {
    hide WalkedAlike, PositionsBelow;
    PositionsBelowStartWith(DefaultVisitorKeys, path, kids);
    forall q: Path | path <= q && |path| < |q| ensures !Visible(q) {
      assert q[|path| - 1] == Last(path);
    }
  }

  // ---------------------------------------------------------------- where a type comes from

  /** An operation or a fragment with a condition: it says which type its fields are looked up in. */
  predicate IsSource(node: ASTNode) {
    node.OperationDefinition? || node.FragmentDefinition? || (node.InlineFragment? && node.typeCondition.Some?)
  }

  /** The innermost source on the path. */
  function Source(path: Path): Option<ASTNode> {
    if path == [] then None else
    if IsSource(Last(path)) then Some(Last(path)) else Source(Above(path))
  }

  /** No unconditioned fragment stands after the innermost source. */
  predicate Kept(path: Path) {
    path != [] ==> IsSource(Last(path)) || (!Last(path).InlineFragment? && Kept(Above(path)))
  }

  /** Which schemas are meant: those whose query type is the one named Query, or all. */
  datatype Schemas = QueryIsNamed | AnySchema

  predicate Admits(schemas: Schemas, schema: GraphQLSchema) {
    schemas.AnySchema? || schema.queryType == schema.GetType("Query")
  }

  predicate ReadAlike(schemas: Schemas, source: ASTNode) {
    match source
    case OperationDefinition(op, _, _, _) => schemas.QueryIsNamed? && op == Query
    case FragmentDefinition(_, t, _) => t.NameValue() != ""
    case InlineFragment(Some(t), _) => t.NameValue() != ""
    case _ => true
  }

  /** Both ports find the type inside the path in the same way, or never find one. */
  predicate Settled(schemas: Schemas, path: Path) {
    Source(path).Some? ==> ReadAlike(schemas, Source(path).value) && Kept(path)
  }

  lemma {:induction false} NoTypeWithoutSource(port: Port, schema: GraphQLSchema, path: Path)
    requires Source(path).None?
    ensures TypeInside(port, schema, path) == None
  {
    if path != [] { NoTypeWithoutSource(port, schema, Above(path)); }
  }

  lemma {:induction false} SettledTypes(schemas: Schemas, schema: GraphQLSchema, path: Path)
    requires Source(path).Some? && Settled(schemas, path) && Admits(schemas, schema)
    ensures TypeInside(AssemblyScript, schema, path) == TypeInside(JavaScript, schema, path)
  {
    hide FieldType;
    if !IsSource(Last(path)) { SettledTypes(schemas, schema, Above(path)); }
  }

  // ---------------------------------------------------------------- the errors the other port reports

  function JsErrorsAt(y: Context, ps: seq<Path>, i: nat): seq<GraphQLError>
    requires i < |ps| && NonEmpty(ps)
  {
    if Visible(ps[i]) then ErrorsAt(y, ps, i) else []
  }

  function JsErrorsUpTo(y: Context, ps: seq<Path>, n: nat): seq<GraphQLError>
    requires n <= |ps| && NonEmpty(ps)
  {
    if n == 0 then [] else JsErrorsUpTo(y, ps, n-1) + JsErrorsAt(y, ps, n-1)
  }

  ghost predicate AllOrdinary(ps: seq<Path>) {
    NonEmpty(ps) && forall i | 0 <= i < |ps| :: OrdinaryAt(ps[i])
  }

  lemma {:induction false} VisiblePrefix(ps: seq<Path>, n: nat)
    requires n <= |ps|
    ensures VisibleOf(ps[..n]) <= VisibleOf(ps)
  {
    VisibleAppends(ps[..n], ps[n..]);
    assert ps[..n] + ps[n..] == ps;
  }

  lemma SameNamesBefore(ps: seq<Path>, n: nat, vs: seq<Path>, m: nat, name: string)
    requires AllOrdinary(ps) && n <= |ps| && NonEmpty(vs) && m <= |vs| && vs[..m] == VisibleOf(ps[..n])
    ensures NamedBefore(ps, n, name) <==> NamedBefore(vs, m, name)
  {
    hide Visible, VisibleOf;
    if NamedBefore(ps, n, name) {
      var j :| 0 <= j < n && NamesOperation(ps[j], name);
      assert ps[..n][j] == ps[j] && Visible(ps[j]);
      VisibleMembers(ps[..n], ps[j]);
      var i :| 0 <= i < |vs[..m]| && vs[..m][i] == ps[j];
      assert NamesOperation(vs[i], name);
    }
    if NamedBefore(vs, m, name) {
      var i :| 0 <= i < m && NamesOperation(vs[i], name);
      assert vs[..m][i] == vs[i];
      VisibleMembers(ps[..n], vs[i]);
      var j :| 0 <= j < |ps[..n]| && ps[..n][j] == vs[i];
      assert NamesOperation(ps[j], name);
    }
  }

  lemma SameErrorsElsewhere(y: Context, ps: seq<Path>, n: nat, vs: seq<Path>, m: nat)
    requires AllOrdinary(ps) && n < |ps| && NonEmpty(vs) && m < |vs| && vs[m] == ps[n] && vs[..m] == VisibleOf(ps[..n])
    ensures ErrorsAt(y, vs, m) == ErrorsAt(y, ps, n)
  {
    hide TypeInside, NonExecutable, NamedBefore, Visible, VisibleOf, InsideDefinition;
    match Last(ps[n])
    case OperationDefinition(_, Some(name), _, _) => SameNamesBefore(ps, n, vs, m, name.NameValue());
    case _ =>
  }

  lemma NonEmptyVisible(ps: seq<Path>)
    requires NonEmpty(ps)
    ensures NonEmpty(VisibleOf(ps))
  {
    forall k | 0 <= k < |VisibleOf(ps)| ensures VisibleOf(ps)[k] != [] { VisibleMembers(ps, VisibleOf(ps)[k]); }
  }

  lemma {:induction false} VisibleErrors(y: Context, ps: seq<Path>, n: nat)
    requires AllOrdinary(ps) && n <= |ps| && NonEmpty(VisibleOf(ps)) && VisibleOf(ps[..n]) <= VisibleOf(ps)
    ensures ErrorsUpTo(y, VisibleOf(ps), |VisibleOf(ps[..n])|) == JsErrorsUpTo(y, ps, n)
  {
    hide ErrorsAt, Visible, OrdinaryAt;
    if n > 0 {
      VisiblePrefix(ps, n - 1);
      VisibleErrors(y, ps, n - 1);
      assert ps[..n][..n - 1] == ps[..n - 1];
      var vs, m := VisibleOf(ps), |VisibleOf(ps[..n - 1])|;
      assert vs[..m] == VisibleOf(ps[..n - 1]);
      if Visible(ps[n - 1]) {
        assert vs[m] == VisibleOf(ps[..n])[m] == ps[n - 1];
        SameErrorsElsewhere(y, ps, n - 1, vs, m);
      }
    }
  }

  /** What the JavaScript port reports, on the positions of the other port. */
  lemma JsErrors(schema: GraphQLSchema, doc: ASTNode)
    requires doc.Document? && OrdinaryDocument(doc)
    ensures var ps := AllPositions(DefaultVisitorKeys, doc);
            && ExpectedErrors(JavaScript, QueryDocumentKeys, schema, doc)
            == JsErrorsUpTo(ContextOf(JavaScript, schema, doc), ps, |ps|)
  {
    hide Positions, Visible, OrdinaryAt, ErrorsAt, VisibleOf;
    var ps := AllPositions(DefaultVisitorKeys, doc);
    assert Visible([doc]) by { TopIsVisible(doc); }
    VisiblePositions([doc]);
    NonEmptyVisible(ps);
    assert ps[..|ps|] == ps;
    VisibleErrors(ContextOf(JavaScript, schema, doc), ps, |ps|);
  }

  lemma TopIsVisible(doc: ASTNode)
    ensures Visible([doc])
  {
  }

  // ---------------------------------------------------------------- the same errors at each position

  ghost predicate IsDefined(port: Port, doc: ASTNode, name: string)
    requires doc.Document?
  {
    name in DefinedTypeNames(port, doc.definitions)
  }

  /** At this position of the document the ports cannot differ under any of the schemas. */
  ghost predicate AlikeAt(schemas: Schemas, doc: ASTNode, path: Path)
    requires doc.Document? && path != []
  {
    match Last(path)
    case Field(_, _, _, _) => Settled(schemas, Above(path))
    case NamedType(_) =>
      var name := Last(path).NameValue();
      if Visible(path) then IsDefined(AssemblyScript, doc, name) <==> IsDefined(JavaScript, doc, name)
      else IsDefined(AssemblyScript, doc, name)
    case _ => true
  }

  ghost predicate AlikeEverywhere(schemas: Schemas, doc: ASTNode)
    requires doc.Document?
  {
    var ps := AllPositions(DefaultVisitorKeys, doc);
    forall i | 0 <= i < |ps| :: AlikeAt(schemas, doc, ps[i])
  }

  lemma SameErrorsAt(schemas: Schemas, x: Context, y: Context, doc: ASTNode, ps: seq<Path>, i: nat)
    requires doc.Document? && i < |ps| && NonEmpty(ps)
    requires OrdinaryAt(ps[i]) && AlikeAt(schemas, doc, ps[i]) && (|ps[i]| == 1 ==> Visible(ps[i]))
    requires x == ContextOf(AssemblyScript, x.schema, doc) && y == ContextOf(JavaScript, x.schema, doc)
    requires Admits(schemas, x.schema)
    ensures ErrorsAt(x, ps, i) == JsErrorsAt(y, ps, i)
  {
    hide TypeInside, NonExecutable, Source, Kept, Visible, NamedBefore, InsideDefinition;
    if Last(ps[i]).Field? {
      var above := Above(ps[i]);
      if Source(above).None? {
        NoTypeWithoutSource(AssemblyScript, x.schema, above);
        NoTypeWithoutSource(JavaScript, x.schema, above);
      } else {
        SettledTypes(schemas, x.schema, above);
      }
    }
  }

  lemma {:induction false} SameErrorsUpTo(schemas: Schemas, x: Context, y: Context, doc: ASTNode, ps: seq<Path>, n: nat)
    requires doc.Document? && n <= |ps| && AllOrdinary(ps)
    requires forall i | 0 <= i < n :: AlikeAt(schemas, doc, ps[i])
    requires x == ContextOf(AssemblyScript, x.schema, doc) && y == ContextOf(JavaScript, x.schema, doc)
    requires Admits(schemas, x.schema)
    ensures ErrorsUpTo(x, ps, n) == JsErrorsUpTo(y, ps, n)
  {
    hide ErrorsAt, JsErrorsAt, OrdinaryAt, AlikeAt, ContextOf;
    if n > 0 {
      SameErrorsUpTo(schemas, x, y, doc, ps, n-1);
      if |ps[n-1]| == 1 { assert ps[n-1] == [ps[n-1][0]]; TopIsVisible(ps[n-1][0]); }
      SameErrorsAt(schemas, x, y, doc, ps, n-1);
    }
  }

  ghost predicate PortsDiffer(schema: GraphQLSchema, doc: ASTNode)
    requires doc.Document?
  {
    ExpectedErrors(AssemblyScript, DefaultVisitorKeys, schema, doc)
    != ExpectedErrors(JavaScript, QueryDocumentKeys, schema, doc)
  }

  const NO_TYPES := GraphQLSchema(map[], None)

  /** Where nothing differs, the ports report the same errors in the same order. */
  lemma PortsAgree(schemas: Schemas, schema: GraphQLSchema, doc: ASTNode)
    requires doc.Document? && OrdinaryDocument(doc) && AlikeEverywhere(schemas, doc) && Admits(schemas, schema)
    ensures !PortsDiffer(schema, doc)
  {
    hide Positions, AlikeAt, OrdinaryAt, JsErrorsUpTo, ErrorsUpTo;
    JsErrors(schema, doc);
    var ps := AllPositions(DefaultVisitorKeys, doc);
    SameErrorsUpTo(schemas, ContextOf(AssemblyScript, schema, doc), ContextOf(JavaScript, schema, doc), doc, ps, |ps|);
  }
}
