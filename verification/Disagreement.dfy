/** Documents on which the ports differ, one for each way in which they can. */
module Disagreement {
  import opened Options
  import opened Ast
  import opened Children
  import opened Traversal
  import opened TypeTracking
  import opened Rules
  import opened AsValidate
  import opened Contents
  import opened Agreement

  // ---------------------------------------------------------------- trees without branches

  /** Each node of the path has the next one as its only child, and the last one has none. */
  predicate Chain(keys: VisitorKeys, full: Path) {
    forall i | 0 <= i < |full| :: Kids(keys, full[i]) == if i + 1 < |full| then [full[i + 1]] else []
  }

  /** Then the positions are the path's beginnings. */
  lemma {:induction false} ChainPositions(keys: VisitorKeys, full: Path, k: nat, q: Path)
    requires Chain(keys, full) && 0 < k <= |full|
    ensures q in Positions(keys, full[..k]) <==> k <= |q| && q <= full
    decreases |full| - k
  {
    hide Kids, Positions;
    var path := full[..k];
    assert Last(path) == full[k - 1];
    if k < |full| {
      OnlyChild(keys, path, full[k]);
      assert path + [full[k]] == full[..k + 1];
      ChainPositions(keys, full, k + 1, q);
    } else {
      NoChild(keys, path);
      assert path == full;
    }
    Beginnings(full, k, q);
  }

  lemma Beginnings(full: Path, k: nat, q: Path)
    requires 0 < k <= |full|
    ensures k <= |q| && q <= full <==> q == full[..k] || (k < |full| && k + 1 <= |q| && q <= full)
    ensures k == |full| ==> (k <= |q| && q <= full <==> q == full)
  {
    if q <= full && |q| == k { assert q == full[..k]; }
  }

  lemma OnlyChild(keys: VisitorKeys, path: Path, child: ASTNode)
    requires path != [] && Kids(keys, Last(path)) == [child]
    ensures Positions(keys, path) == [path] + Positions(keys, path + [child])
  {
    hide Kids;
    assert [child][..0] == [];
    assert PositionsBelow(keys, path, []) == [];
    assert PositionsBelow(keys, path, [child]) == [] + Positions(keys, path + [child]);
  }

  lemma NoChild(keys: VisitorKeys, path: Path)
    requires path != [] && Kids(keys, Last(path)) == []
    ensures Positions(keys, path) == [path]
  {
    hide Kids;
    assert PositionsBelow(keys, path, []) == [];
  }

  /** In a document without branches the one field is reported exactly when its parent type lacks it. */
  lemma ChainReports(port: Port, keys: VisitorKeys, schema: GraphQLSchema, full: Path, k: nat)
    requires Chain(keys, full) && 0 < k < |full| && full[0].Document?
    requires forall i | 0 <= i < |full| :: full[i].Field? <==> i == k
    ensures GraphQLError(FieldsOnCorrectType, full[k]) in ExpectedErrors(port, keys, schema, full[0])
       <==> !FieldExists(ContextOf(port, schema, full[0]), full[..k + 1])
  {
    hide Kids, Positions, Chain, ExpectedErrors, FieldExists;
    var ps := AllPositions(keys, full[0]);
    MissingFieldsExactly(port, keys, schema, full[0], full[k]);
    assert full[..1] == [full[0]];
    ChainPositions(keys, full, 1, full[..k + 1]);
    assert Last(full[..k + 1]) == full[k];
    forall i | 0 <= i < |ps| && Last(ps[i]) == full[k] ensures ps[i] == full[..k + 1] {
      ChainPositions(keys, full, 1, ps[i]);
      assert full[|ps[i]| - 1] == full[k];
    }
  }

  lemma ChainOfParts(full: Path)
    requires forall i: nat | i < |full| :: Linked(full, i)
    ensures Chain(DefaultVisitorKeys, full) && Chain(QueryDocumentKeys, full)
  {
    hide Kids, WalkedAlike, Parts;
    forall i | 0 <= i < |full|
      ensures Kids(DefaultVisitorKeys, full[i]) == Kids(QueryDocumentKeys, full[i])
           == if i + 1 < |full| then [full[i + 1]] else []
    {
      assert Linked(full, i);
      KidsAreParts(full[i]);
    }
  }

  // ---------------------------------------------------------------- the type a field is looked up in

  const F := Field(Name("f"), [], None, None)
  const SELECTION := SelectionSet([F])

  /** `op { name }` */
  function OneField(op: OperationType, name: string): Path {
    var field := Field(Name(name), [], None, None);
    var selection := SelectionSet([field]);
    var operation := OperationDefinition(op, None, [], selection);
    [Document([operation]), operation, selection, field, Name(name)]
  }

  lemma OneFieldIsChain(op: OperationType, name: string)
    ensures Chain(DefaultVisitorKeys, OneField(op, name)) && Chain(QueryDocumentKeys, OneField(op, name))
  {
    hide Kids;
    var full := OneField(op, name);
    ChainOfParts(full);
  }

  const WITH_F := GraphQLType("Query", Object, map["f" := GraphQLField("f", "Query")])
  const WITHOUT_F := GraphQLType("Empty", Object, map[])

  function RootType(port: Port, schema: GraphQLSchema, op: OperationType): Option<GraphQLType> {
    if port.JavaScript? then schema.queryType else schema.GetType(RootTypeName(op))
  }

  lemma TypeOfOneField(port: Port, schema: GraphQLSchema, op: OperationType, name: string)
    ensures TypeInside(port, schema, Above(OneField(op, name)[..4])) == RootType(port, schema, op)
  {
    var full := OneField(op, name);
    var path := Above(full[..4]);
    assert path == full[..3] && Above(path) == full[..2];
    assert Last(path) == full[2] && Last(Above(path)) == full[1];
  }

  lemma OneFieldReports(port: Port, keys: VisitorKeys, schema: GraphQLSchema, op: OperationType, name: string)
    requires Chain(keys, OneField(op, name))
    ensures var (root, full) := (RootType(port, schema, op), OneField(op, name));
            && (GraphQLError(FieldsOnCorrectType, full[3]) in ExpectedErrors(port, keys, schema, full[0])
                <==> root.Some? && name !in root.value.fields)
  {
    var full := OneField(op, name);
    ChainReports(port, keys, schema, full, 3);
    TypeOfOneField(port, schema, op, name);
    assert full[..4][3] == full[3];
    hide TypeInside, Chain, ExpectedErrors;
  }

  const TWO_ROOTS := GraphQLSchema(map["Query" := WITH_F, "Mutation" := WITHOUT_F], Some(WITH_F))

  /** `mutation { f }`: one port looks f up in the mutation type, the other in the query type. */
  lemma PortsDifferOnMutations()
    ensures TWO_ROOTS.queryType == TWO_ROOTS.GetType("Query")
    ensures PortsDiffer(TWO_ROOTS, OneField(Mutation, "f")[0])
  {
    hide Chain, ExpectedErrors;
    OneFieldIsChain(Mutation, "f");
    OneFieldReports(AssemblyScript, DefaultVisitorKeys, TWO_ROOTS, Mutation, "f");
    OneFieldReports(JavaScript, QueryDocumentKeys, TWO_ROOTS, Mutation, "f");
  }

  const RENAMED := GraphQLSchema(map["Query" := WITHOUT_F, "Root" := WITH_F], Some(WITH_F))

  /** `{ f }` against a schema whose query type is not the one named Query. */
  lemma PortsDifferOnQueryType()
    ensures PortsDiffer(RENAMED, OneField(Query, "f")[0])
  {
    hide Chain, ExpectedErrors;
    OneFieldIsChain(Query, "f");
    OneFieldReports(AssemblyScript, DefaultVisitorKeys, RENAMED, Query, "f");
    OneFieldReports(JavaScript, QueryDocumentKeys, RENAMED, Query, "f");
  }

  const INLINE := InlineFragment(None, SELECTION)
  const AROUND := SelectionSet([INLINE])
  const INLINE_OPERATION := OperationDefinition(Query, None, [], AROUND)
  const INLINE_PATH: Path :=
    [Document([INLINE_OPERATION]), INLINE_OPERATION, AROUND, INLINE, SELECTION, F, Name("f")]
  const EMPTY_ROOT := GraphQLSchema(map["Query" := WITHOUT_F], Some(WITHOUT_F))

  lemma PartsOfInline()
    ensures Parts(Document([INLINE_OPERATION])) == [INLINE_OPERATION] && Parts(INLINE_OPERATION) == [AROUND]
    ensures Parts(AROUND) == [INLINE] && Parts(INLINE) == [SELECTION] && Parts(SELECTION) == [F]
  {
  }

  lemma PartsOfF()
    ensures Parts(F) == [Name("f")] && Parts(Name("f")) == []
  {
  }

  /** The path's next node is the only part of node i, if there is one. */
  predicate Linked(path: Path, i: nat)
    requires i < |path|
  {
    WalkedAlike(path[i]) && Parts(path[i]) == if i + 1 < |path| then [path[i + 1]] else []
  }

  lemma InlineIsLinked(i: nat)
    requires i < |INLINE_PATH|
    ensures Linked(INLINE_PATH, i)
  {
    PartsOfInline();
    PartsOfF();
    hide Parts;
    if i == 0 {
    } else if i == 1 {
    } else if i == 2 {
    } else if i == 3 {
    } else if i == 4 {
    } else if i == 5 {
    }
  }

  lemma InlineIsChain()
    ensures Chain(DefaultVisitorKeys, INLINE_PATH) && Chain(QueryDocumentKeys, INLINE_PATH)
  {
    hide Kids, Parts, Chain, WalkedAlike;
    forall i: nat | i < |INLINE_PATH| ensures Linked(INLINE_PATH, i) { InlineIsLinked(i); }
    ChainOfParts(INLINE_PATH);
  }

  lemma TypeOfInline(port: Port)
    ensures TypeInside(port, EMPTY_ROOT, Above(INLINE_PATH[..6]))
         == if port.AssemblyScript? then Some(WITHOUT_F) else None
  {
    assert INLINE_PATH[..6][..5] == INLINE_PATH[..5] && INLINE_PATH[..5][..4] == INLINE_PATH[..4];
    TypeStays(port, INLINE_PATH[..5]);
    if port.AssemblyScript? {
      assert INLINE_PATH[..4][..3] == INLINE_PATH[..3] && INLINE_PATH[..3][..2] == INLINE_PATH[..2];
      TypeStays(port, INLINE_PATH[..4]);
      TypeStays(port, INLINE_PATH[..3]);
      TypeOfOperation(port, INLINE_PATH[..2]);
    }
  }

  lemma TypeStays(port: Port, path: Path)
    requires path != [] && (Last(path).SelectionSet? || Last(path) == INLINE)
    ensures TypeInside(port, EMPTY_ROOT, path)
         == if Last(path) == INLINE && port.JavaScript? then None else TypeInside(port, EMPTY_ROOT, Above(path))
  {
  }

  lemma TypeOfOperation(port: Port, path: Path)
    requires path != [] && Last(path) == INLINE_OPERATION
    ensures TypeInside(port, EMPTY_ROOT, path) == Some(WITHOUT_F)
  {
  }

  lemma InlineFieldExists(port: Port)
    ensures FieldExists(ContextOf(port, EMPTY_ROOT, INLINE_PATH[0]), INLINE_PATH[..6]) <==> port.JavaScript?
  {
    TypeOfInline(port);
    assert Last(INLINE_PATH[..6]) == F;
    hide TypeInside;
  }

  lemma InlineReports(port: Port, keys: VisitorKeys)
    requires Chain(keys, INLINE_PATH)
    ensures GraphQLError(FieldsOnCorrectType, F) in ExpectedErrors(port, keys, EMPTY_ROOT, INLINE_PATH[0])
       <==> port.AssemblyScript?
  {
    hide Chain, ExpectedErrors, FieldExists;
    InlineFieldExists(port);
    ChainReports(port, keys, EMPTY_ROOT, INLINE_PATH, 5);
  }

  /** `{ ... { f } }`: in one port the fragment keeps the type, in the other it has none. */
  lemma PortsDifferOnInlineFragments()
    ensures EMPTY_ROOT.queryType == EMPTY_ROOT.GetType("Query")
    ensures PortsDiffer(EMPTY_ROOT, INLINE_PATH[0])
  {
    hide Chain, ExpectedErrors;
    InlineIsChain();
    InlineReports(AssemblyScript, DefaultVisitorKeys);
    InlineReports(JavaScript, QueryDocumentKeys);
  }

  // ---------------------------------------------------------------- the types that are reached or defined

  const UNKNOWN := NamedType(Name("X"))
  const UNION := UnionTypeDefinition(Name("U"), [UNKNOWN])

  lemma UnknownInUnion()
    ensures Occurs(AssemblyScript, Document([UNION]), UNKNOWN)
    ensures !Occurs(JavaScript, Document([UNION]), UNKNOWN)
  {
    assert Parts(Document([UNION])) == [UNION] && Parts(UNION) == [Name("U"), UNKNOWN];
    hide Parts;
    assert Occurs(AssemblyScript, Parts(UNION)[1], UNKNOWN);
    assert Occurs(AssemblyScript, Parts(Document([UNION]))[0], UNKNOWN);
    assert !Occurs(JavaScript, UNION, UNKNOWN);
    assert [UNION][..0] == [] && !OccursIn(JavaScript, Document([UNION]), [], UNKNOWN);
    assert !OccursIn(JavaScript, Document([UNION]), [UNION], UNKNOWN);
  }

  /** `union U = X`: only one port walks the members of a union, and reports the unknown type. */
  lemma PortsDifferOnUnions()
    ensures NO_TYPES.queryType == NO_TYPES.GetType("Query")
    ensures PortsDiffer(NO_TYPES, Document([UNION]))
  {
    hide ExpectedErrors, Occurs;
    UnknownInUnion();
    UnknownTypesExactly(AssemblyScript, NO_TYPES, Document([UNION]), UNKNOWN);
    UnknownTypesExactly(JavaScript, NO_TYPES, Document([UNION]), UNKNOWN);
  }

  const NAMELESS := NamedType(Name(""))
  const ANONYMOUS := ObjectTypeDefinition(Name(""), [NAMELESS], [])

  lemma NamelessOccurs()
    ensures Occurs(AssemblyScript, Document([ANONYMOUS]), NAMELESS)
  {
    assert Parts(Document([ANONYMOUS])) == [ANONYMOUS] && Parts(ANONYMOUS) == [Name(""), NAMELESS];
    hide Parts;
    assert Occurs(AssemblyScript, Parts(ANONYMOUS)[1], NAMELESS);
    assert Occurs(AssemblyScript, Parts(Document([ANONYMOUS]))[0], NAMELESS);
  }

  /** A type definition whose name is empty: it defines the empty name in one port and nothing in the other. */
  lemma PortsDifferOnEmptyNames()
    ensures NO_TYPES.queryType == NO_TYPES.GetType("Query")
    ensures PortsDiffer(NO_TYPES, Document([ANONYMOUS]))
  {
    hide ExpectedErrors, Occurs;
    NamelessOccurs();
    assert ANONYMOUS in Document([ANONYMOUS]).definitions;
    UnknownTypesExactly(AssemblyScript, NO_TYPES, Document([ANONYMOUS]), NAMELESS);
    UnknownTypesExactly(JavaScript, NO_TYPES, Document([ANONYMOUS]), NAMELESS);
  }
}
