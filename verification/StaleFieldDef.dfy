/**
 * A document, walked with the AssemblyScript port's own keys, in which a hook sees no
 * field definition although it is inside a known field: `{ f { g } }`.
 */
module StaleFieldDef {
  import opened Options
  import opened Ast
  import opened Children
  import opened Traversal
  import opened TypeTracking

  const DEF_F := GraphQLField("f", "Query")
  const QUERY_TYPE := GraphQLType("Query", Object, map["f" := DEF_F, "g" := GraphQLField("g", "Query")])
  const SCHEMA := GraphQLSchema(map["Query" := QUERY_TYPE], Some(QUERY_TYPE))

  const F_NAME := Name("f")
  const G_NAME := Name("g")
  const G := Field(G_NAME, [], None, None)
  const INNER := SelectionSet([G])
  const F := Field(F_NAME, [], Some(INNER), None)
  const OUTER := SelectionSet([F])
  const OPERATION := OperationDefinition(Query, None, [], OUTER)
  const DOCUMENT_OF_F := Document([OPERATION])

  lemma PartsOfAll()
    ensures Parts(DOCUMENT_OF_F) == [OPERATION] && Parts(OPERATION) == [OUTER]
    ensures Parts(OUTER) == [F] && Parts(INNER) == [G]
    ensures Parts(F) == [F_NAME, INNER] && Parts(G) == [G_NAME] && Parts(F_NAME) == Parts(G_NAME) == []
  {
  }

  lemma KidsOfAll()
    ensures Kids(DefaultVisitorKeys, DOCUMENT_OF_F) == [OPERATION] && Kids(DefaultVisitorKeys, OPERATION) == [OUTER]
    ensures Kids(DefaultVisitorKeys, OUTER) == [F] && Kids(DefaultVisitorKeys, INNER) == [G]
    ensures Kids(DefaultVisitorKeys, F) == [F_NAME, INNER] && Kids(DefaultVisitorKeys, G) == [G_NAME]
    ensures Kids(DefaultVisitorKeys, F_NAME) == Kids(DefaultVisitorKeys, G_NAME) == []
  {
    PartsOfAll();
    hide Kids, Parts;
    KidsAreParts(DOCUMENT_OF_F);
    KidsAreParts(OPERATION);
    KidsAreParts(OUTER);
    KidsAreParts(INNER);
    KidsAreParts(F);
    KidsAreParts(G);
    KidsAreParts(F_NAME);
    KidsAreParts(G_NAME);
  }

  // ---------------------------------------------------------------- one place, two answers

  const INNER_PLACE: Place :=
    [Step(DOCUMENT_OF_F, []), Step(OPERATION, []), Step(OUTER, []), Step(F, []), Step(INNER, [F_NAME])]

  lemma InnerIsAPlace()
    ensures IsPlace(DefaultVisitorKeys, DOCUMENT_OF_F, INNER_PLACE)
  {
    KidsOfAll();
    hide Kids;
  }

  const INNER_PATH: Path := [DOCUMENT_OF_F, OPERATION, OUTER, F, INNER]

  lemma TypesOnTheWay()
    ensures TypeInside(AssemblyScript, SCHEMA, [DOCUMENT_OF_F, OPERATION, OUTER]) == Some(QUERY_TYPE)
    ensures FieldInside(AssemblyScript, SCHEMA, INNER_PATH) == Some(DEF_F)
  {
    var path := [DOCUMENT_OF_F, OPERATION, OUTER];
    assert Above(path) == [DOCUMENT_OF_F, OPERATION];
    assert TypeInside(AssemblyScript, SCHEMA, Above(path)) == Some(QUERY_TYPE);
    assert Above(INNER_PATH) == path + [F] && Above(path + [F]) == path;
  }

  lemma FieldsInside()
    ensures HoldsField(DefaultVisitorKeys, F) && HoldsField(DefaultVisitorKeys, G)
    ensures !HoldsField(DefaultVisitorKeys, F_NAME)
  {
    KidsOfAll();
    hide Kids;
  }

  /** Entering and leaving f's selection set, a hook sees different definitions on the same path. */
  lemma FieldDefIsNotAFunctionOfThePath()
    ensures IsPlace(DefaultVisitorKeys, DOCUMENT_OF_F, INNER_PLACE) && PathOf(INNER_PLACE) == INNER_PATH
    ensures InfoAt(AssemblyScript, SCHEMA, DefaultVisitorKeys, INNER_PLACE, true).fieldDef == Some(DEF_F)
    ensures InfoAt(AssemblyScript, SCHEMA, DefaultVisitorKeys, INNER_PLACE, false).fieldDef == None
  {
    InnerIsAPlace();
    TypesOnTheWay();
    FieldsInside();
    KidsOfAll();
    hide Kids, HoldsField, FieldInside, TypeSeen, IsPlace;
    assert PathOf(INNER_PLACE) == INNER_PATH;
    assert HoldsField(DefaultVisitorKeys, [G][0]);
    NothingLeftYet();
    FieldDefAt(SCHEMA, DefaultVisitorKeys, INNER_PLACE, true);
    FieldDefAt(SCHEMA, DefaultVisitorKeys, INNER_PLACE, false);
  }

  lemma NothingLeftYet()
    ensures !LeftBefore(DefaultVisitorKeys, INNER_PLACE)
  {
    FieldsInside();
    hide HoldsField;
    assert !AnyHoldsField(DefaultVisitorKeys, [F_NAME]) && !AnyHoldsField(DefaultVisitorKeys, []);
  }

  // ---------------------------------------------------------------- a visitor that can tell

  /** A hook that remembers whether a field definition has been in sight. */
  function Probe(st: bool, info: TypeInfo, node: ASTNode): HookOut<bool> {
    HookOut(st || info.fieldDef.Some?, [], CONTINUE)
  }

  const PROBE: Visitor<bool> := Visitor(map[SELECTION_SET := EnterLeave(None, Some(Probe))], None, None)
  const CONFIG: Config<bool> := Config(AssemblyScript, SCHEMA, DefaultVisitorKeys, [PROBE])

  /** Every selection set below the node holds a field. */
  predicate Covered(node: ASTNode)
    decreases node
  {
    var kids := Kids(DefaultVisitorKeys, node);
    && (node.SelectionSet? ==> AnyHoldsField(DefaultVisitorKeys, kids))
    && forall j | 0 <= j < |kids| :: Covered(kids[j])
  }

  lemma {:induction false} ProbeSeesNothing(node: ASTNode, ti: TypeInfo, s: Solo<bool>)
    requires Covered(node) && !s.stopped
    ensures var r := SoloWalk(CONFIG, PROBE, false, node, ti, s); !r.stopped && r.st == s.st
    decreases node
  {
    hide EnterInfo, ChildInfo, Kids, HoldsField, SoloAll;
    var kids := Kids(DefaultVisitorKeys, node);
    ProbeSeesNothingAll(node, kids, ChildInfo(AssemblyScript, SCHEMA, node, ti), s);
  }

  lemma {:induction false} ProbeSeesNothingAll(parent: ASTNode, kids: seq<ASTNode>, ti: TypeInfo, s: Solo<bool>)
    requires AllBelow(kids, parent) && !s.stopped && forall j | 0 <= j < |kids| :: Covered(kids[j])
    ensures var r := SoloAll(CONFIG, PROBE, false, parent, kids, ti, s); !r.stopped && r.st == s.st
    decreases parent, |kids|
  {
    hide After, Covered, SoloWalk;
    if kids != [] {
      var front, last := kids[..|kids|-1], kids[|kids|-1];
      ProbeSeesNothingAll(parent, front, ti, s);
      var s1 := SoloAll(CONFIG, PROBE, false, parent, front, ti, s);
      ProbeSeesNothing(last, After(AssemblyScript, DefaultVisitorKeys, front, ti), s1);
    }
  }

  lemma DocumentIsCovered()
    ensures Covered(DOCUMENT_OF_F)
  {
    KidsOfAll();
    FieldsInside();
    hide Kids, HoldsField;
    assert HoldsField(DefaultVisitorKeys, [G][0]) && HoldsField(DefaultVisitorKeys, [F][0]);
    assert Covered(F_NAME) && Covered(G_NAME);
    assert Covered(G);
    assert Covered(INNER);
    assert Covered(F);
    assert Covered(OUTER);
    assert Covered(OPERATION);
  }

  lemma {:induction false} ProbeGoesOn(path: Path, s: Solo<bool>)
    requires path != [] && !s.stopped
    ensures var r := SoloByPath(CONFIG, PROBE, path, s); !r.stopped && (s.st ==> r.st)
    decreases Last(path)
  {
    hide InfoSeen, Kids, SoloByPathAll;
    ProbeGoesOnAll(path, Kids(DefaultVisitorKeys, Last(path)), s);
  }

  lemma {:induction false} ProbeGoesOnAll(path: Path, kids: seq<ASTNode>, s: Solo<bool>)
    requires path != [] && AllBelow(kids, Last(path)) && !s.stopped
    ensures var r := SoloByPathAll(CONFIG, PROBE, path, kids, s); !r.stopped && (s.st ==> r.st)
    decreases Last(path), |kids|
  {
    hide SoloByPath;
    if kids != [] {
      var front := kids[..|kids|-1];
      ProbeGoesOnAll(path, front, s);
      ProbeGoesOn(path + [kids[|kids|-1]], SoloByPathAll(CONFIG, PROBE, path, front, s));
    }
  }

  /** Wherever the probe comes from, it has seen a definition once the path's last node is left. */
  ghost predicate Tells(path: Path)
    requires path != []
  {
    forall s: Solo<bool> | !s.stopped :: SoloByPath(CONFIG, PROBE, path, s).st
  }

  lemma TellsHere(path: Path)
    requires path != [] && Last(path).SelectionSet? && FieldInside(AssemblyScript, SCHEMA, path).Some?
    ensures Tells(path)
  {
    hide FieldInside, TypeSeen, Kids, SoloByPathAll;
    forall s: Solo<bool> | !s.stopped ensures SoloByPath(CONFIG, PROBE, path, s).st {
      ProbeGoesOnAll(path, Kids(DefaultVisitorKeys, Last(path)), s);
    }
  }

  lemma TellsAbove(path: Path)
    requires path != [] && Kids(DefaultVisitorKeys, Last(path)) != []
    requires var kids := Kids(DefaultVisitorKeys, Last(path)); Tells(path + [kids[|kids|-1]])
    ensures Tells(path)
  {
    hide InfoSeen, Kids;
    var kids := Kids(DefaultVisitorKeys, Last(path));
    forall s: Solo<bool> | !s.stopped ensures SoloByPath(CONFIG, PROBE, path, s).st {
      ProbeGoesOnAll(path, kids[..|kids|-1], s);
      ProbeGoesOnAll(path, kids, s);
    }
  }

  lemma DocumentTells()
    ensures Tells([DOCUMENT_OF_F])
  {
    KidsOfAll();
    TypesOnTheWay();
    hide Kids, Tells, FieldInside;
    TellsHere(INNER_PATH);
    var path := INNER_PATH;
    assert path[..1] == [DOCUMENT_OF_F] && path[..4] + [INNER] == path;
    TellsAbove(path[..4]);
    assert path[..3] + [F] == path[..4];
    TellsAbove(path[..3]);
    assert path[..2] + [OUTER] == path[..3];
    TellsAbove(path[..2]);
    assert path[..1] + [OPERATION] == path[..2];
    TellsAbove(path[..1]);
  }

  /** So a hook that asks for fieldDef elsewhere can tell the merged walk from one told only its path. */
  lemma StaleFieldDefIsSeen()
    ensures var w: World<bool> := World([Lane(false, Running, [])], []);
            && !Walk(CONFIG, DOCUMENT_OF_F, TypeInfo(None, None), w).0.lanes[0].st
            && SoloByPath(CONFIG, PROBE, [DOCUMENT_OF_F], Solo(false, false, [])).st
  {
    var w: World<bool> := World([Lane(false, Running, [])], []);
    MergedIsSolo(CONFIG, DOCUMENT_OF_F, TypeInfo(None, None), w, 0);
    DocumentIsCovered();
    ProbeSeesNothing(DOCUMENT_OF_F, TypeInfo(None, None), Solo(false, false, []));
    DocumentTells();
    hide Walk, SoloWalk, SoloByPath;
  }
}
