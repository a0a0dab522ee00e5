/** What a document contains, and that the rules meet all of it. */
module Contents {
  import opened Options
  import opened Ast
  import opened Children
  import opened Traversal
  import opened TypeTracking
  import opened Rules
  import opened AsValidate

  function KeysOf(port: Port): VisitorKeys {
    if port.AssemblyScript? then DefaultVisitorKeys else QueryDocumentKeys
  }

  predicate Enters(port: Port, node: ASTNode) { port.AssemblyScript? || WalkedAlike(node) }

  /** n is the node, or occurs in one of its parts. */
  ghost predicate Occurs(port: Port, node: ASTNode, n: ASTNode)
    decreases node
  {
    n == node || (Enters(port, node) && OccursIn(port, node, Parts(node), n))
  }

  ghost predicate OccursIn(port: Port, parent: ASTNode, parts: seq<ASTNode>, n: ASTNode)
    requires AllBelow(parts, parent)
    decreases parent, 0, |parts|
  {
    parts != [] && (OccursIn(port, parent, parts[..|parts|-1], n) || Occurs(port, parts[|parts|-1], n))
  }

  ghost predicate Reached(ps: seq<Path>, n: ASTNode) {
    exists i | 0 <= i < |ps| :: ps[i] != [] && Last(ps[i]) == n
  }

  lemma ReachedInEither(a: seq<Path>, b: seq<Path>, n: ASTNode)
    ensures Reached(a + b, n) <==> Reached(a, n) || Reached(b, n)
  {
    assert forall i | 0 <= i < |a| :: (a + b)[i] == a[i];
    assert forall i | 0 <= i < |b| :: (a + b)[|a| + i] == b[i];
  }

  lemma KidsOfPort(port: Port, node: ASTNode)
    ensures Kids(KeysOf(port), node) == if Enters(port, node) then Parts(node) else []
  {
    hide Kids, Parts;
    KidsAreParts(node);
  }

  /** The positions below a path end in exactly the nodes that occur there. */
  lemma {:induction false} PositionsReach(port: Port, path: Path, n: ASTNode)
    requires path != []
    ensures Reached(Positions(KeysOf(port), path), n) <==> Occurs(port, Last(path), n)
    decreases Last(path)
  {
    hide Kids, Parts, Reached;
    var kids := Kids(KeysOf(port), Last(path));
    KidsOfPort(port, Last(path));
    ReachedInEither([path], PositionsBelow(KeysOf(port), path, kids), n);
    JustReached(path, n);
    PositionsBelowReach(port, path, kids, n);
  }

  lemma JustReached(path: Path, n: ASTNode)
    requires path != []
    ensures Reached([path], n) <==> Last(path) == n
  {
    assert [path][0] == path;
  }

  lemma {:induction false} PositionsBelowReach(port: Port, path: Path, kids: seq<ASTNode>, n: ASTNode)
    requires path != [] && AllBelow(kids, Last(path))
    ensures Reached(PositionsBelow(KeysOf(port), path, kids), n) <==> OccursIn(port, Last(path), kids, n)
    decreases Last(path), |kids|
  {
    hide Kids, Occurs;
    if kids != [] {
      var front, last := kids[..|kids|-1], kids[|kids|-1];
      PositionsBelowReach(port, path, front, n);
      PositionsReach(port, path + [last], n);
      ReachedInEither(PositionsBelow(KeysOf(port), path, front), Positions(KeysOf(port), path + [last]), n);
    }
  }

  // ---------------------------------------------------------------- what KnownTypeNames reports

  /** Some definition of the document is read by the port as one of the type's. */
  ghost predicate Defines(port: Port, doc: ASTNode, name: string)
    requires doc.Document?
  {
    exists def <- doc.definitions ::
      match def
      case ObjectTypeDefinition(n, _, _) => n.NameValue() == name && (port.AssemblyScript? ==> name != "")
      case InterfaceTypeDefinition(n, _, _) => n.NameValue() == name && (port.AssemblyScript? ==> name != "")
      case UnionTypeDefinition(n, _) => n.NameValue() == name && port.AssemblyScript? && name != ""
      case _ => false
  }

  lemma DefinedIsDefines(port: Port, schema: GraphQLSchema, doc: ASTNode, name: string)
    requires doc.Document?
    ensures name in ContextOf(port, schema, doc).defined <==> Defines(port, doc, name)
  {
  }

  /** An unknown type is reported exactly when it occurs in the document. */
  lemma UnknownTypesExactly(port: Port, schema: GraphQLSchema, doc: ASTNode, n: ASTNode)
    requires doc.Document?
    ensures GraphQLError(KnownTypeNames, n) in ExpectedErrors(port, KeysOf(port), schema, doc)
       <==> n.NamedType? && Occurs(port, doc, n)
              && n.NameValue() !in schema.types && !Defines(port, doc, n.NameValue())
  {
    hide Positions, ExpectedErrors, Occurs, Defines, ContextOf;
    UnknownTypesAtPositions(port, KeysOf(port), schema, doc, n);
    PositionsReach(port, [doc], n);
    DefinedIsDefines(port, schema, doc, n.NameValue());
    SchemaOf(port, schema, doc);
    var ps := AllPositions(KeysOf(port), doc);
    assert ps == Positions(KeysOf(port), [doc]) && Last([doc]) == doc;
    assert Reached(ps, n) <==> exists i | 0 <= i < |ps| :: Last(ps[i]) == n;
  }

  lemma SchemaOf(port: Port, schema: GraphQLSchema, doc: ASTNode)
    requires doc.Document?
    ensures ContextOf(port, schema, doc).schema == schema
  {
  }
}
