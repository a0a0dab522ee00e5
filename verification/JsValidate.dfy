/** The JavaScript port as it runs: stacks for the types, and exceptions that unwind the walk. */
module JsValidate {
  import opened Options
  import opened Ast
  import opened Traversal
  import opened Rules
  import opened RulesWalk
  import opened ParallelVisitor
  import opened JsWalk

  function Top<T>(stack: seq<Option<T>>): Option<T> {
    if stack == [] then None else stack[|stack|-1]
  }

  ghost predicate EntryFor<S>(vs: seq<Visitor<S>>, merged: map<Kind, KindHooks<S>>, kind: Kind) {
    && (kind in merged <==> HasEntry(vs, kind))
    && (kind in merged ==> Lists(vs, kind, |vs|, merged[kind]))
  }

  lemma HasEntryIs<S>(vs: seq<Visitor<S>>, kind: Kind)
    ensures HasEntry(vs, kind) <==> kind in ALL_KINDS && !NoHooks(vs, kind, |vs|)
  {
  }

  method MergeVisitors<S>(visitors: seq<Visitor<S>>) returns (merged: map<Kind, KindHooks<S>>)
    ensures forall kind: Kind {:trigger EntryFor(visitors, merged, kind)} :: EntryFor(visitors, merged, kind)
  {
    hide Lists, NoHooks, HasEntry;
    merged := map[];
    for k := 0 to |ALL_KINDS|
      invariant forall kind <- merged :: kind in ALL_KINDS[..k]
      invariant forall kind <- ALL_KINDS[..k] :: EntryFor(visitors, merged, kind)
    {
      var kind := ALL_KINDS[k];
      var entry, hasVisitor := PairUp(visitors, kind);
      HasEntryIs(visitors, kind);
      ghost var before := merged;
      if hasVisitor { merged := merged[kind := entry]; }
      assert EntryFor(visitors, merged, kind) by {
        if !hasVisitor && kind in before { assert EntryFor(visitors, before, kind); }
      }
      forall x <- ALL_KINDS[..k+1] ensures EntryFor(visitors, merged, x) {
        if x != kind { assert x in ALL_KINDS[..k] && EntryFor(visitors, before, x); }
      }
    }
    forall kind: Kind ensures EntryFor(visitors, merged, kind) {
      HasEntryIs(visitors, kind);
      if kind in ALL_KINDS { assert kind in ALL_KINDS[..|ALL_KINDS|]; }
    }
  }

  class ValidationContext<S(!new)> {
    const schema: GraphQLSchema
    const keys: VisitorKeys
    const visitors: seq<Visitor<S>>
    const throws: seq<ThrowFn<S>>
    const maxErrors: Option<nat>
    const merged: map<Kind, KindHooks<S>>
    const skipping: array<Skip>
    var states: seq<S>
    var errors: seq<GraphQLError>
    var typeStack: seq<Option<GraphQLType>>
    var fieldDefStack: seq<Option<GraphQLField>>
    ghost var calls: seq<seq<Call>>

    ghost predicate Valid()
      reads this, skipping
    {
      && |visitors| == |throws| == skipping.Length == |states| == |calls|
      && forall kind: Kind {:trigger EntryFor(visitors, merged, kind)} :: EntryFor(visitors, merged, kind)
    }

    ghost function Config(): (c: JsConfig<S>) {
      JsConfig(Traversal.Config(JavaScript, schema, keys, visitors), throws, maxErrors)
    }

    ghost function World(): World<S>
      requires Valid()
      reads this, skipping
    {
      Traversal.World(Zip(states, skipping[..], calls), errors)
    }

    /** getParentType and getFieldDef. */
    function Info(): TypeInfo
      reads this
    {
      TypeInfo(Top(typeStack), Top(fieldDefStack))
    }

    constructor (
        schema: GraphQLSchema, keys: VisitorKeys, visitors: seq<Visitor<S>>, throws: seq<ThrowFn<S>>, states: seq<S>,
        maxErrors: Option<nat>)
      requires |visitors| == |throws| == |states|
      ensures Valid() && fresh(skipping)
      ensures Config() == JsConfig(Traversal.Config(JavaScript, schema, keys, visitors), throws, maxErrors)
      ensures World() == Traversal.World(Zip(states, seq(|visitors|, _ => Running), seq(|visitors|, _ => [])), [])
      ensures typeStack == [] && fieldDefStack == []
    {
      var entries := new Skip[|visitors|];
      for i := 0 to entries.Length
        invariant forall j | 0 <= j < i :: entries[j] == Running
      {
        entries[i] := Running;
      }
      var table := MergeVisitors(visitors);
      this.schema, this.keys, this.visitors, this.throws, this.states, this.maxErrors :=
          schema, keys, visitors, throws, states, maxErrors;
      skipping, merged := entries, table;
      errors, typeStack, fieldDefStack := [], [], [];
      calls := seq(|visitors|, _ => []);
      new;
      assert skipping[..] == seq(|visitors|, _ => Running);
    }

    method ReportError(error: GraphQLError) returns (thrown: Thrown)
      modifies this`errors
      ensures (errors, thrown) == Report(maxErrors, old(errors), error)
    {
      if maxErrors.Some? && |errors| >= maxErrors.value {
        errors := errors + [TooManyErrors];
        return Abort;
      }
      errors := errors + [error];
      return Nothing;
    }

    /** A hook's calls of reportError: the first one that throws ends them. */
    method ReportErrors(reports: seq<GraphQLError>) returns (thrown: Thrown)
      modifies this`errors
      ensures (errors, thrown) == ReportAll(maxErrors, old(errors), reports)
    {
      thrown := Nothing;
      for i := 0 to |reports|
        invariant (errors, thrown) == ReportAll(maxErrors, old(errors), reports[..i])
      {
        assert reports[..i+1][..i] == reports[..i];
        if thrown == Nothing {
          thrown := ReportError(reports[i]);
        }
      }
      assert reports[..|reports|] == reports;
    }

    /** Visitor i's hook runs, reports, and returns or throws. */
    method CallHook(f: Hook<S>, i: nat, node: ASTNode) returns (thrown: Thrown, result: VisitorResult)
      requires Valid() && i < |visitors|
      modifies this`states, this`errors
      ensures Valid()
      ensures var o := f(old(states)[i], Info(), node);
              var (errors', early) := ReportAll(maxErrors, old(errors), o.reports);
              var own := throws[i](old(states)[i], Info(), node);
              && errors == errors' && result == o.result
              && thrown == Ending(early, own)
              && states == if thrown == Nothing then old(states)[i := o.st] else old(states)
    {
      var o := f(states[i], Info(), node);
      var own := throws[i](states[i], Info(), node);
      result := o.result;
      thrown := ReportErrors(o.reports);
      if thrown == Nothing && own.Some? {
        thrown := Other(own.value);
      }
      if thrown == Nothing {
        states := states[i := o.st];
      }
    }

    /** The body of the loops in MergedKindEntry's enter and leave. */
    method CallOne(enter: bool, node: ASTNode, i: nat, fn: Option<Hook<S>>) returns (thrown: Thrown)
      requires Valid() && i < |visitors| && fn == HookFor(enter, visitors[i], node.Kind())
      modifies this`states, this`errors, this`calls, skipping
      ensures Valid()
      ensures JsWorld(World(), thrown) == JsTurn(Config(), enter, node, Info(), i, JsWorld(old(World()), Nothing))
    {
      hide ReportAll, EntryFor, Zip, JsLane, Ending;
      ghost var (c, l) := (Config(), Lane(states[i], skipping[i], calls[i]));
      thrown := Nothing;
      if skipping[i] == Running && fn.Some? {
        JsLaneCalled(c, enter, node, Info(), i, l, errors, fn.value);
        var result;
        thrown, result := CallHook(fn.value, i, node);
        if thrown == Nothing {
          calls := calls[i := calls[i] + [CallFor(enter, node, Info())]];
          if enter && result == SKIP_SUBTREE {
            skipping[i] := At(node);
          } else if result == BREAK {
            skipping[i] := Broken;
          }
        }
      } else {
        JsLaneNotCalled(c, enter, node, Info(), i, l, errors);
        if !enter && skipping[i] == At(node) {
          skipping[i] := Running;
        }
      }
      ZipChanges(old(states), states, old(skipping[..]), skipping[..], old(calls), calls, i);
      assert (Lane(states[i], skipping[i], calls[i]), errors, thrown)
          == JsLane(c, enter, node, Info(), i, l, old(errors));
    }

    method CallEntry(enter: bool, node: ASTNode) returns (thrown: Thrown)
      requires Valid()
      modifies this`states, this`errors, this`calls, skipping
      ensures Valid()
      ensures JsWorld(World(), thrown) == JsEntry(Config(), enter, node, Info(), JsWorld(old(World()), Nothing))
    {
      hide JsTurn, Zip;
      assert EntryFor(visitors, merged, node.Kind());
      thrown := Nothing;
      if node.Kind() in merged {
        var list := if enter then merged[node.Kind()].enterList else merged[node.Kind()].leaveList;
        for i := 0 to |list|
          invariant Valid()
          invariant JsWorld(World(), thrown)
              == JsDispatch(Config(), enter, i, node, Info(), JsWorld(old(World()), Nothing))
        {
          if thrown == Nothing {
            thrown := CallOne(enter, node, i, list[i]);
          } else {
            ThrownTurn(Config(), enter, node, Info(), i, JsWorld(World(), thrown));
          }
        }
      }
    }

    method EnterNodeContext(node: ASTNode)
      modifies this`typeStack, this`fieldDefStack
      ensures Info() == ChildInfo(JavaScript, schema, node, old(Info()))
      ensures Tracked(node) ==> typeStack != [] && typeStack[..|typeStack|-1] == old(typeStack)
      ensures !Tracked(node) ==> typeStack == old(typeStack)
      ensures node.Field? ==> fieldDefStack != [] && fieldDefStack[..|fieldDefStack|-1] == old(fieldDefStack)
      ensures !node.Field? ==> fieldDefStack == old(fieldDefStack)
    {
      if node.OperationDefinition? {
        typeStack := typeStack + [schema.queryType];
      } else if node.Field? {
        var parent := Top(typeStack);
        var fieldName := node.name.NameValue();
        var fieldType: Option<GraphQLType> := None;
        var fieldDef: Option<GraphQLField> := None;
        if parent.Some? && fieldName in parent.value.fields {
          fieldDef := Some(parent.value.fields[fieldName]);
          fieldType := schema.GetType(fieldDef.value.typeName);
        }
        fieldDefStack := fieldDefStack + [fieldDef];
        typeStack := typeStack + [fieldType];
      } else if node.InlineFragment? || node.FragmentDefinition? {
        var condition := if node.FragmentDefinition? then Some(node.onType) else node.typeCondition;
        var resolved: Option<GraphQLType> := None;
        if condition.Some? && condition.value.NameValue() != "" {
          resolved := schema.GetType(condition.value.NameValue());
        }
        typeStack := typeStack + [resolved];
      }
    }

    method LeaveNodeContext(node: ASTNode)
      requires Tracked(node) ==> typeStack != []
      requires node.Field? ==> fieldDefStack != []
      modifies this`typeStack, this`fieldDefStack
      ensures typeStack == if Tracked(node) then old(typeStack[..|typeStack|-1]) else old(typeStack)
      ensures fieldDefStack == if node.Field? then old(fieldDefStack[..|fieldDefStack|-1]) else old(fieldDefStack)
    {
      if node.OperationDefinition? || node.InlineFragment? || node.FragmentDefinition? {
        typeStack := typeStack[..|typeStack|-1];
      } else if node.Field? {
        fieldDefStack := fieldDefStack[..|fieldDefStack|-1];
        typeStack := typeStack[..|typeStack|-1];
      }
    }

    /** walkSubtree: an exception leaves it at once, with the stacks wherever they were. */
    method WalkSubtree(node: ASTNode) returns (thrown: Thrown)
      requires Valid()
      modifies this, skipping
      ensures Valid()
      ensures JsWorld(World(), thrown) == JsSubtree(Config(), node, old(Info()), JsWorld(old(World()), Nothing))
      ensures thrown == Nothing ==> typeStack == old(typeStack) && fieldDefStack == old(fieldDefStack)
      decreases node, 1, 0
    {
      hide JsEntry, ChildInfo, EntryFor, Zip;
      ghost var c, ti, x := Config(), Info(), JsWorld(World(), Nothing);
      ghost var kids, inside := Kids(keys, node), ChildInfo(JavaScript, schema, node, ti);
      ghost var x1 := JsEntry(c, true, node, ti, x);
      ghost var x2 := JsSubtrees(c, node, kids, inside, x1);
      thrown := CallEntry(true, node);
      if thrown == Nothing {
        thrown := WalkInside(node, x1);
      } else {
        ThrownSubtrees(c, node, kids, inside, x1);
      }
      assert JsWorld(World(), thrown) == x2;
      if thrown == Nothing {
        thrown := CallEntry(false, node);
      } else {
        ThrownEntry(c, false, node, ti, x2);
      }
    }

    /** Between entry.enter and entry.leave. */
    method WalkInside(node: ASTNode, ghost x1: JsWorld<S>) returns (thrown: Thrown)
      requires Valid() && |x1.w.lanes| == |visitors| && JsWorld(World(), Nothing) == x1
      modifies this, skipping
      ensures Valid()
      ensures JsWorld(World(), thrown)
          == JsSubtrees(Config(), node, Kids(keys, node), ChildInfo(JavaScript, schema, node, old(Info())), x1)
      ensures thrown == Nothing ==> typeStack == old(typeStack) && fieldDefStack == old(fieldDefStack)
      decreases node, 0, 4
    {
      hide ChildInfo, JsSubtrees, EntryFor, Zip, Kids;
      thrown := Nothing;
      KidsByRow(keys, node);
      EnterNodeContext(node);
      SubtreesNone(Config(), node, Info(), x1);
      var ks := keys(node.Kind());
      if ks.Some? {
        thrown := WalkKeys(node, ks.value, Info(), x1);
      }
      if thrown == Nothing {
        LeaveNodeContext(node);
      }
    }

    method WalkKeys(node: ASTNode, ks: seq<Key>, ghost inside: TypeInfo, ghost x1: JsWorld<S>) returns (thrown: Thrown)
      requires Valid() && |x1.w.lanes| == |visitors| && Info() == inside && JsWorld(World(), Nothing) == x1
      modifies this, skipping
      ensures Valid()
      ensures JsWorld(World(), thrown) == JsSubtrees(Config(), node, KidsOf(node, ks), inside, x1)
      ensures thrown == Nothing ==> typeStack == old(typeStack) && fieldDefStack == old(fieldDefStack)
      decreases node, 0, 3
    {
      hide JsSubtrees, EntryFor, Zip;
      thrown := Nothing;
      SubtreesNone(Config(), node, inside, x1);
      for i := 0 to |ks|
        invariant Valid()
        invariant thrown == Nothing ==> typeStack == old(typeStack) && fieldDefStack == old(fieldDefStack)
        invariant JsWorld(World(), thrown) == JsSubtrees(Config(), node, KidsOf(node, ks[..i]), inside, x1)
      {
        assert ks[..i+1][..i] == ks[..i];
        thrown := WalkList(node, KeyKids(node, ks[i]), thrown, KidsOf(node, ks[..i]), inside, x1);
      }
      assert ks[..|ks|] == ks;
    }

    /** The nodes under one key. Once something has been thrown no further node is walked. */
    method WalkList(
        node: ASTNode, list: seq<ASTNode>, before: Thrown, ghost done: seq<ASTNode>, ghost inside: TypeInfo,
        ghost x1: JsWorld<S>) returns (thrown: Thrown)
      requires Valid() && |x1.w.lanes| == |visitors| && AllBelow(done, node) && AllBelow(list, node)
      requires before == Nothing ==> Info() == inside
      requires JsWorld(World(), before) == JsSubtrees(Config(), node, done, inside, x1)
      modifies this, skipping
      ensures Valid() && AllBelow(done + list, node)
      ensures JsWorld(World(), thrown) == JsSubtrees(Config(), node, done + list, inside, x1)
      ensures thrown == Nothing
          ==> before == Nothing && typeStack == old(typeStack) && fieldDefStack == old(fieldDefStack)
      decreases node, 0, 2
    {
      hide JsSubtree, JsSubtrees, EntryFor, Zip;
      thrown := before;
      ghost var seen := done;
      for j := 0 to |list|
        invariant Valid() && AllBelow(seen, node) && seen == done + list[..j]
        invariant thrown == Nothing
            ==> before == Nothing && typeStack == old(typeStack) && fieldDefStack == old(fieldDefStack)
        invariant JsWorld(World(), thrown) == JsSubtrees(Config(), node, seen, inside, x1)
      {
        assert list[..j+1] == list[..j] + [list[j]];
        thrown := WalkChild(node, list[j], thrown, seen, inside, x1);
        seen := seen + [list[j]];
      }
      assert list[..|list|] == list;
    }

    method WalkChild(
        node: ASTNode, child: ASTNode, before: Thrown, ghost done: seq<ASTNode>, ghost inside: TypeInfo,
        ghost x1: JsWorld<S>) returns (thrown: Thrown)
      requires Valid() && |x1.w.lanes| == |visitors| && AllBelow(done, node) && child < node
      requires before == Nothing ==> Info() == inside
      requires JsWorld(World(), before) == JsSubtrees(Config(), node, done, inside, x1)
      modifies this, skipping
      ensures Valid() && AllBelow(done + [child], node)
      ensures JsWorld(World(), thrown) == JsSubtrees(Config(), node, done + [child], inside, x1)
      ensures thrown == Nothing
          ==> before == Nothing && typeStack == old(typeStack) && fieldDefStack == old(fieldDefStack)
      decreases node, 0, 1
    {
      hide JsSubtree, EntryFor, Zip;
      assert (done + [child])[..|done|] == done;
      thrown := before;
      if thrown == Nothing {
        thrown := WalkSubtree(child);
      } else {
        ThrownSubtree(Config(), child, inside, JsWorld(World(), thrown));
      }
    }

    /** The try block around visit, and its handler. */
    method Visit(root: ASTNode) returns (outcome: Outcome)
      requires Valid() && typeStack == [] && fieldDefStack == []
      modifies this, skipping
      ensures outcome == OutcomeOf(JsSubtree(Config(), root, TypeInfo(None, None), JsWorld(old(World()), Nothing)))
    {
      var thrown := WalkSubtree(root);
      match thrown
      case Other(e) => return Rethrown(e);
      case _ => return Returned(errors);
    }
  }

  lemma SubtreesNone<S>(c: JsConfig<S>, parent: ASTNode, ti: TypeInfo, x: JsWorld<S>)
    requires c.Valid() && |c.throws| == |x.w.lanes|
    ensures JsSubtrees(c, parent, [], ti, x) == x
  {
  }

  lemma ThrownTurn<S>(c: JsConfig<S>, enter: bool, node: ASTNode, info: TypeInfo, i: nat, x: JsWorld<S>)
    requires c.Valid() && i < |c.throws| == |x.w.lanes| && x.thrown != Nothing
    ensures JsTurn(c, enter, node, info, i, x) == x
  {
  }

  lemma ThrownEntry<S>(c: JsConfig<S>, enter: bool, node: ASTNode, info: TypeInfo, x: JsWorld<S>)
    requires c.Valid() && |c.throws| == |x.w.lanes| && x.thrown != Nothing
    ensures JsEntry(c, enter, node, info, x) == x
  {
    ThrownDispatch(c, enter, |c.throws|, node, info, x);
  }

  // ---------------------------------------------------------------- validate

  function NeverThrows(): ThrowFn<RuleState> {
    (st: RuleState, info: TypeInfo, node: ASTNode) => None
  }

  /** The errors that validate returns under a cap, from the errors it would report without one. */
  function UnderCap(cap: nat, errors: seq<GraphQLError>): seq<GraphQLError> {
    if |errors| <= cap then errors else errors[..cap] + [TooManyErrors]
  }

  /** validate with arbitrary rules: the outcome is that of the run without a cap, cut off at the cap. */
  method ValidateWith<S(!new)>(schema: GraphQLSchema, doc: ASTNode,
      visitors: seq<Visitor<S>>, throws: seq<ThrowFn<S>>, states: seq<S>, maxErrors: Option<nat>)
    returns (outcome: Outcome)
    requires |visitors| == |throws| == |states|
    ensures var cap := if maxErrors.Some? then maxErrors.value else 100;
            var c := JsConfig(Config(JavaScript, schema, QueryDocumentKeys, visitors), throws, None);
            var w := World(Zip(states, seq(|visitors|, _ => Running), seq(|visitors|, _ => [])), []);
            var u := JsSubtree(c, doc, TypeInfo(None, None), JsWorld(w, Nothing));
            outcome == if |u.w.errors| <= cap then OutcomeOf(u) else Returned(u.w.errors[..cap] + [TooManyErrors])
  {
    var cap := if maxErrors.Some? then maxErrors.value else 100;
    var context := new ValidationContext(schema, QueryDocumentKeys, visitors, throws, states, Some(cap));
    ghost var w := context.World();
    outcome := context.Visit(doc);
    CapKeepsAPrefix(context.Config(), cap, doc, TypeInfo(None, None), w);
  }

  lemma RulesAreQuiet(schema: GraphQLSchema, defined: set<string>, throws: seq<ThrowFn<RuleState>>)
    requires |throws| == 5 && forall i | 0 <= i < 5 :: throws[i] == NeverThrows()
    ensures Quiet(JsConfig(Config(JavaScript, schema, QueryDocumentKeys, SpecifiedRules(JavaScript, schema, defined)),
        throws, None))
  {
    forall i, kind: Kind | 0 <= i < 5 && kind !in ALL_KINDS
      ensures SpecifiedRules(JavaScript, schema, defined)[i].ForKind(kind) == EnterLeave(None, None)
    {
    }
  }

  /** validate with the five rules: their expected errors under the cap, and never an exception. */
  method Validate(schema: GraphQLSchema, doc: ASTNode, maxErrors: Option<nat>) returns (outcome: Outcome)
    requires doc.Document?
    ensures var cap := if maxErrors.Some? then maxErrors.value else 100;
            outcome == Returned(UnderCap(cap, ExpectedErrors(JavaScript, QueryDocumentKeys, schema, doc)))
  {
    hide SpecifiedRules, ExpectedErrors, JsSubtree, Walk;
    var defined := DefinedTypes(JavaScript, doc.definitions);
    var visitors := SpecifiedRules(JavaScript, schema, defined);
    var never := NeverThrows();
    var throws := [never, never, never, never, never];
    var states: seq<RuleState> := [map[], map[], map[], map[], map[]];
    outcome := ValidateWith(schema, doc, visitors, throws, states, maxErrors);
    ghost var c := JsConfig(Config(JavaScript, schema, QueryDocumentKeys, visitors), throws, None);
    ghost var w := World(Zip(states, seq(5, _ => Running), seq(5, _ => [])), []);
    RulesAreQuiet(schema, defined, throws);
    QuietSubtree(c, doc, TypeInfo(None, None), w);
    RunReportsExpected(c.base, doc, TypeInfo(None, None), w);
  }
}
