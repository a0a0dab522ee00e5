/** What a node contains, told by its constructor alone, and that the two tables of visitor keys lead to it. */
module Children {
  import opened Options
  import opened Ast

  function Possibly(node: Option<ASTNode>): seq<ASTNode> {
    if node.Some? then [node.value] else []
  }

  /** The nodes that a node is made of, in the order the walk meets them. */
  function Parts(node: ASTNode): (parts: seq<ASTNode>)
    ensures AllBelow(parts, node)
  {
    match node
    case Name(_) => []
    case Variable(name) => [name]
    case NamedType(name) => [name]
    case ListType(inner) => [inner]
    case NonNullType(inner) => [inner]
    case Argument(name, value) => [name, value]
    case StringValue(_) => []
    case IntValue(_) => []
    case Field(name, arguments, selectionSet, alias) =>
      Possibly(alias) + ([name] + (arguments + Possibly(selectionSet)))
    case SelectionSet(selections) => selections
    case FragmentSpread(name) => [name]
    case InlineFragment(typeCondition, body) => Possibly(typeCondition) + [body]
    case VariableDefinition(variable, inner) => [variable, inner]
    case OperationDefinition(_, name, variableDefinitions, body) => Possibly(name) + (variableDefinitions + [body])
    case FragmentDefinition(name, onType, body) => [name, onType, body]
    case FieldDefinition(name, arguments, inner) => [name] + (arguments + [inner])
    case ObjectTypeDefinition(name, interfaces, fields) => [name] + (interfaces + fields)
    case InterfaceTypeDefinition(name, interfaces, fields) => [name] + (interfaces + fields)
    case UnionTypeDefinition(name, types) => [name] + types
    case Document(definitions) => definitions
  }

  /** A node of a kind whose children the JavaScript port walks too. */
  predicate WalkedAlike(node: ASTNode) {
    !node.UnionTypeDefinition? && !node.FieldDefinition?
  }

  // ---------------------------------------------------------------- lists of keys

  /** What the keys of a list lead to, the first key first. */
  function KeyByKey(node: ASTNode, ks: seq<Key>): seq<ASTNode> {
    if ks == [] then [] else KeyKids(node, ks[0]) + KeyByKey(node, ks[1..])
  }

  lemma {:induction false} KeyByKeySnoc(node: ASTNode, ks: seq<Key>, key: Key)
    ensures KeyByKey(node, ks + [key]) == KeyByKey(node, ks) + KeyKids(node, key)
  {
    hide KeyKids;
    if ks == [] {
      assert (ks + [key])[1..] == [];
    } else {
      KeyByKeySnoc(node, ks[1..], key);
      assert (ks + [key])[1..] == ks[1..] + [key];
    }
  }

  lemma {:induction false} KidsKeyByKey(node: ASTNode, ks: seq<Key>)
    ensures KidsOf(node, ks) == KeyByKey(node, ks)
  {
    hide KeyKids;
    if ks != [] {
      KidsKeyByKey(node, ks[..|ks|-1]);
      KeyByKeySnoc(node, ks[..|ks|-1], ks[|ks|-1]);
      assert ks[..|ks|-1] + [ks[|ks|-1]] == ks;
    }
  }

  lemma NoKeys(node: ASTNode)
    ensures KeyByKey(node, []) == []
  {
  }

  lemma FirstKey(node: ASTNode, key: Key, ks: seq<Key>)
    ensures KeyByKey(node, [key] + ks) == KeyKids(node, key) + KeyByKey(node, ks)
  {
    hide KeyKids;
    assert ([key] + ks)[1..] == ks;
  }

  lemma LastKey(node: ASTNode, key: Key)
    ensures KeyByKey(node, [key]) == KeyKids(node, key)
  {
    hide KeyKids, KeyByKey;
    FirstKey(node, key, []);
    NoKeys(node);
    assert [key] + [] == [key];
  }

  lemma TwoKeys(node: ASTNode, a: Key, b: Key)
    ensures KidsOf(node, [a, b]) == KeyKids(node, a) + KeyKids(node, b)
  {
    hide KeyKids, KidsOf, KeyByKey;
    KidsKeyByKey(node, [a, b]);
    FirstKey(node, a, [b]);
    LastKey(node, b);
    assert [a] + [b] == [a, b];
  }

  lemma ThreeKeys(node: ASTNode, a: Key, b: Key, c: Key)
    ensures KidsOf(node, [a, b, c]) == KeyKids(node, a) + (KeyKids(node, b) + KeyKids(node, c))
  {
    hide KeyKids, KidsOf, KeyByKey;
    KidsKeyByKey(node, [a, b, c]);
    FirstKey(node, a, [b, c]);
    FirstKey(node, b, [c]);
    LastKey(node, c);
    assert [a] + [b, c] == [a, b, c] && [b] + [c] == [b, c];
  }

  lemma FourKeys(node: ASTNode, a: Key, b: Key, c: Key, d: Key)
    ensures KidsOf(node, [a, b, c, d])
         == KeyKids(node, a) + (KeyKids(node, b) + (KeyKids(node, c) + KeyKids(node, d)))
  {
    hide KeyKids, KidsOf, KeyByKey;
    KidsKeyByKey(node, [a, b, c, d]);
    FirstKey(node, a, [b, c, d]);
    FirstKey(node, b, [c, d]);
    FirstKey(node, c, [d]);
    LastKey(node, d);
    assert [a] + [b, c, d] == [a, b, c, d] && [b] + [c, d] == [b, c, d] && [c] + [d] == [c, d];
  }

  lemma FiveKeys(node: ASTNode, a: Key, b: Key, c: Key, d: Key, e: Key)
    ensures KidsOf(node, [a, b, c, d, e])
         == KeyKids(node, a) + (KeyKids(node, b) + (KeyKids(node, c) + (KeyKids(node, d) + KeyKids(node, e))))
  {
    hide KeyKids, KidsOf, KeyByKey;
    KidsKeyByKey(node, [a, b, c, d, e]);
    FirstKey(node, a, [b, c, d, e]);
    FirstKey(node, b, [c, d, e]);
    FirstKey(node, c, [d, e]);
    FirstKey(node, d, [e]);
    LastKey(node, e);
    assert [a] + [b, c, d, e] == [a, b, c, d, e] && [b] + [c, d, e] == [b, c, d, e];
    assert [c] + [d, e] == [c, d, e] && [d] + [e] == [d, e];
  }

  lemma OneKey(node: ASTNode, a: Key)
    ensures KidsOf(node, [a]) == KeyKids(node, a)
  {
    hide KeyKids, KidsOf, KeyByKey;
    KidsKeyByKey(node, [a]);
    LastKey(node, a);
  }

  // ---------------------------------------------------------------- the rows of the tables

  lemma SelectionRows()
    ensures Row(DefaultVisitorKeys, FIELD) == [KAlias, KName, KArguments, KDirectives, KSelectionSet]
    ensures Row(QueryDocumentKeys, FIELD) == [KAlias, KName, KArguments, KSelectionSet]
    ensures Row(DefaultVisitorKeys, INLINE_FRAGMENT) == [KTypeCondition, KDirectives, KSelectionSet]
    ensures Row(QueryDocumentKeys, INLINE_FRAGMENT) == [KTypeCondition, KSelectionSet]
    ensures Row(DefaultVisitorKeys, SELECTION_SET) == [KSelections]
    ensures Row(QueryDocumentKeys, SELECTION_SET) == [KSelections]
    ensures Row(DefaultVisitorKeys, FRAGMENT_SPREAD) == [KName, KDirectives]
    ensures Row(QueryDocumentKeys, FRAGMENT_SPREAD) == [KName]
  {
  }

  lemma DefinitionRows()
    ensures Row(DefaultVisitorKeys, VARIABLE_DEFINITION) == [KVariable, KType, KDefaultValue, KDirectives]
    ensures Row(QueryDocumentKeys, VARIABLE_DEFINITION) == [KVariable, KType, KDefaultValue]
    ensures Row(DefaultVisitorKeys, OPERATION_DEFINITION) == [KName, KVariableDefinitions, KDirectives, KSelectionSet]
    ensures Row(QueryDocumentKeys, OPERATION_DEFINITION) == [KName, KVariableDefinitions, KSelectionSet]
    ensures Row(DefaultVisitorKeys, FRAGMENT_DEFINITION)
         == [KName, KVariableDefinitions, KTypeCondition, KDirectives, KSelectionSet]
    ensures Row(QueryDocumentKeys, FRAGMENT_DEFINITION) == [KName, KTypeCondition, KSelectionSet]
    ensures Row(DefaultVisitorKeys, DOCUMENT) == [KDefinitions]
    ensures Row(QueryDocumentKeys, DOCUMENT) == [KDefinitions]
  {
  }

  lemma TypeSystemRows()
    ensures Row(DefaultVisitorKeys, FIELD_DEFINITION) == [KName, KArguments, KType, KDirectives]
    ensures Row(QueryDocumentKeys, FIELD_DEFINITION) == []
    ensures Row(DefaultVisitorKeys, OBJECT_TYPE_DEFINITION) == [KName, KInterfaces, KDirectives, KFields]
    ensures Row(QueryDocumentKeys, OBJECT_TYPE_DEFINITION) == [KName, KInterfaces, KFields]
    ensures Row(DefaultVisitorKeys, INTERFACE_TYPE_DEFINITION) == [KName, KInterfaces, KDirectives, KFields]
    ensures Row(QueryDocumentKeys, INTERFACE_TYPE_DEFINITION) == [KName, KInterfaces, KFields]
    ensures Row(DefaultVisitorKeys, UNION_TYPE_DEFINITION) == [KName, KDirectives, KTypes]
    ensures Row(QueryDocumentKeys, UNION_TYPE_DEFINITION) == []
  {
  }

  lemma ValueAndTypeRows()
    ensures Row(DefaultVisitorKeys, ARGUMENT) == [KName, KValue]
    ensures Row(QueryDocumentKeys, ARGUMENT) == [KName, KValue]
    ensures Row(DefaultVisitorKeys, VARIABLE) == [KName]
    ensures Row(QueryDocumentKeys, VARIABLE) == [KName]
    ensures Row(DefaultVisitorKeys, NAMED_TYPE) == [KName]
    ensures Row(QueryDocumentKeys, NAMED_TYPE) == [KName]
    ensures Row(DefaultVisitorKeys, LIST_TYPE) == [KType]
    ensures Row(QueryDocumentKeys, LIST_TYPE) == [KType]
    ensures Row(DefaultVisitorKeys, NON_NULL_TYPE) == [KType]
    ensures Row(QueryDocumentKeys, NON_NULL_TYPE) == [KType]
  {
  }

  lemma LeafRows()
    ensures forall k <- {NAME, STRING, INT} :: Row(DefaultVisitorKeys, k) == [] == Row(QueryDocumentKeys, k)
  {
  }

  // ---------------------------------------------------------------- kind by kind

  lemma NothingFirst(s: seq<ASTNode>)
    ensures [] + s == s
  {
  }

  lemma NothingLast(s: seq<ASTNode>)
    ensures s + [] == s
  {
  }

  lemma InARow(x: ASTNode, y: ASTNode)
    ensures [x] + [y] == [x, y]
  {
  }

  lemma ThreeInARow(x: ASTNode, y: ASTNode, z: ASTNode)
    ensures [x] + [y, z] == [x, y, z]
  {
  }

  lemma FieldKeys(node: ASTNode)
    requires node.Field?
    ensures Parts(node) == Possibly(node.alias) + ([node.name] + (node.arguments + Possibly(node.selectionSet)))
    ensures KeyKids(node, KAlias) == Possibly(node.alias)
    ensures KeyKids(node, KName) == [node.name]
    ensures KeyKids(node, KArguments) == node.arguments
    ensures KeyKids(node, KDirectives) == []
    ensures KeyKids(node, KSelectionSet) == Possibly(node.selectionSet)
  {
  }

  lemma PartsOfField(node: ASTNode)
    requires node.Field?
    ensures Kids(DefaultVisitorKeys, node) == Parts(node)
    ensures Kids(QueryDocumentKeys, node) == Parts(node)
  {
    SelectionRows();
    FieldKeys(node);
    FiveKeys(node, KAlias, KName, KArguments, KDirectives, KSelectionSet);
    FourKeys(node, KAlias, KName, KArguments, KSelectionSet);
    hide Parts, AllBelow, KeyKids, KidsOf, DefaultVisitorKeys, QueryDocumentKeys, Possibly;
    NothingFirst(Possibly(node.selectionSet));
  }

  lemma InlineFragmentKeys(node: ASTNode)
    requires node.InlineFragment?
    ensures Parts(node) == Possibly(node.typeCondition) + [node.body]
    ensures KeyKids(node, KTypeCondition) == Possibly(node.typeCondition)
    ensures KeyKids(node, KDirectives) == []
    ensures KeyKids(node, KSelectionSet) == [node.body]
  {
  }

  lemma InlineFragmentWalk(node: ASTNode)
    requires node.InlineFragment?
    ensures Kids(DefaultVisitorKeys, node) == KidsOf(node, [KTypeCondition, KDirectives, KSelectionSet])
    ensures Kids(QueryDocumentKeys, node) == KidsOf(node, [KTypeCondition, KSelectionSet])
  {
    SelectionRows();
    hide KidsOf, DefaultVisitorKeys, QueryDocumentKeys;
  }

  lemma PartsOfInlineFragment(node: ASTNode)
    requires node.InlineFragment?
    ensures Kids(DefaultVisitorKeys, node) == Parts(node)
    ensures Kids(QueryDocumentKeys, node) == Parts(node)
  {
    hide Parts, AllBelow, Kids, KeyKids, KidsOf, Possibly;
    InlineFragmentWalk(node);
    InlineFragmentKeys(node);
    ThreeKeys(node, KTypeCondition, KDirectives, KSelectionSet);
    TwoKeys(node, KTypeCondition, KSelectionSet);
    NothingFirst([node.body]);
  }

  lemma VariableDefinitionKeys(node: ASTNode)
    requires node.VariableDefinition?
    ensures Parts(node) == [node.variable, node.inner]
    ensures KeyKids(node, KVariable) == [node.variable]
    ensures KeyKids(node, KType) == [node.inner]
    ensures KeyKids(node, KDefaultValue) == []
    ensures KeyKids(node, KDirectives) == []
  {
  }

  lemma PartsOfVariableDefinition(node: ASTNode)
    requires node.VariableDefinition?
    ensures Kids(DefaultVisitorKeys, node) == Parts(node)
    ensures Kids(QueryDocumentKeys, node) == Parts(node)
  {
    DefinitionRows();
    VariableDefinitionKeys(node);
    FourKeys(node, KVariable, KType, KDefaultValue, KDirectives);
    ThreeKeys(node, KVariable, KType, KDefaultValue);
    hide Parts, AllBelow, KeyKids, KidsOf, DefaultVisitorKeys, QueryDocumentKeys, Possibly;
    NothingFirst([]);
    NothingLast([node.inner]);
    InARow(node.variable, node.inner);
  }

  lemma OperationDefinitionKeys(node: ASTNode)
    requires node.OperationDefinition?
    ensures Parts(node) == Possibly(node.opName) + (node.variableDefinitions + [node.body])
    ensures KeyKids(node, KName) == Possibly(node.opName)
    ensures KeyKids(node, KVariableDefinitions) == node.variableDefinitions
    ensures KeyKids(node, KDirectives) == []
    ensures KeyKids(node, KSelectionSet) == [node.body]
  {
  }

  lemma PartsOfOperationDefinition(node: ASTNode)
    requires node.OperationDefinition?
    ensures Kids(DefaultVisitorKeys, node) == Parts(node)
    ensures Kids(QueryDocumentKeys, node) == Parts(node)
  {
    DefinitionRows();
    OperationDefinitionKeys(node);
    FourKeys(node, KName, KVariableDefinitions, KDirectives, KSelectionSet);
    ThreeKeys(node, KName, KVariableDefinitions, KSelectionSet);
    hide Parts, AllBelow, KeyKids, KidsOf, DefaultVisitorKeys, QueryDocumentKeys, Possibly;
    NothingFirst([node.body]);
  }

  lemma FragmentDefinitionKeys(node: ASTNode)
    requires node.FragmentDefinition?
    ensures Parts(node) == [node.name, node.onType, node.body]
    ensures KeyKids(node, KName) == [node.name]
    ensures KeyKids(node, KVariableDefinitions) == []
    ensures KeyKids(node, KTypeCondition) == [node.onType]
    ensures KeyKids(node, KDirectives) == []
    ensures KeyKids(node, KSelectionSet) == [node.body]
  {
  }

  lemma PartsOfFragmentDefinition(node: ASTNode)
    requires node.FragmentDefinition?
    ensures Kids(DefaultVisitorKeys, node) == Parts(node)
    ensures Kids(QueryDocumentKeys, node) == Parts(node)
  {
    DefinitionRows();
    FragmentDefinitionKeys(node);
    FiveKeys(node, KName, KVariableDefinitions, KTypeCondition, KDirectives, KSelectionSet);
    ThreeKeys(node, KName, KTypeCondition, KSelectionSet);
    hide Parts, AllBelow, KeyKids, KidsOf, DefaultVisitorKeys, QueryDocumentKeys, Possibly;
    NothingFirst([node.body]);
    NothingFirst([node.onType] + [node.body]);
    InARow(node.onType, node.body);
    ThreeInARow(node.name, node.onType, node.body);
  }

  lemma FieldDefinitionKeys(node: ASTNode)
    requires node.FieldDefinition?
    ensures Parts(node) == [node.name] + (node.arguments + [node.inner])
    ensures KeyKids(node, KName) == [node.name]
    ensures KeyKids(node, KArguments) == node.arguments
    ensures KeyKids(node, KType) == [node.inner]
    ensures KeyKids(node, KDirectives) == []
  {
  }

  lemma PartsOfFieldDefinition(node: ASTNode)
    requires node.FieldDefinition?
    ensures Kids(DefaultVisitorKeys, node) == Parts(node)
    ensures Kids(QueryDocumentKeys, node) == []
  {
    TypeSystemRows();
    FieldDefinitionKeys(node);
    FourKeys(node, KName, KArguments, KType, KDirectives);
    KidsKeyByKey(node, []);
    hide Parts, AllBelow, KeyKids, KidsOf, DefaultVisitorKeys, QueryDocumentKeys, Possibly;
    NothingLast([node.inner]);
  }

  lemma ObjectTypeDefinitionKeys(node: ASTNode)
    requires node.ObjectTypeDefinition?
    ensures Parts(node) == [node.name] + (node.interfaces + node.fields)
    ensures KeyKids(node, KName) == [node.name]
    ensures KeyKids(node, KInterfaces) == node.interfaces
    ensures KeyKids(node, KDirectives) == []
    ensures KeyKids(node, KFields) == node.fields
  {
  }

  lemma PartsOfObjectTypeDefinition(node: ASTNode)
    requires node.ObjectTypeDefinition?
    ensures Kids(DefaultVisitorKeys, node) == Parts(node)
    ensures Kids(QueryDocumentKeys, node) == Parts(node)
  {
    TypeSystemRows();
    ObjectTypeDefinitionKeys(node);
    FourKeys(node, KName, KInterfaces, KDirectives, KFields);
    ThreeKeys(node, KName, KInterfaces, KFields);
    hide Parts, AllBelow, KeyKids, KidsOf, DefaultVisitorKeys, QueryDocumentKeys, Possibly;
    NothingFirst(node.fields);
  }

  lemma InterfaceTypeDefinitionKeys(node: ASTNode)
    requires node.InterfaceTypeDefinition?
    ensures Parts(node) == [node.name] + (node.interfaces + node.fields)
    ensures KeyKids(node, KName) == [node.name]
    ensures KeyKids(node, KInterfaces) == node.interfaces
    ensures KeyKids(node, KDirectives) == []
    ensures KeyKids(node, KFields) == node.fields
  {
  }

  lemma PartsOfInterfaceTypeDefinition(node: ASTNode)
    requires node.InterfaceTypeDefinition?
    ensures Kids(DefaultVisitorKeys, node) == Parts(node)
    ensures Kids(QueryDocumentKeys, node) == Parts(node)
  {
    TypeSystemRows();
    InterfaceTypeDefinitionKeys(node);
    FourKeys(node, KName, KInterfaces, KDirectives, KFields);
    ThreeKeys(node, KName, KInterfaces, KFields);
    hide Parts, AllBelow, KeyKids, KidsOf, DefaultVisitorKeys, QueryDocumentKeys, Possibly;
    NothingFirst(node.fields);
  }

  lemma UnionTypeDefinitionKeys(node: ASTNode)
    requires node.UnionTypeDefinition?
    ensures Parts(node) == [node.name] + node.types
    ensures KeyKids(node, KName) == [node.name]
    ensures KeyKids(node, KDirectives) == []
    ensures KeyKids(node, KTypes) == node.types
  {
  }

  lemma PartsOfUnionTypeDefinition(node: ASTNode)
    requires node.UnionTypeDefinition?
    ensures Kids(DefaultVisitorKeys, node) == Parts(node)
    ensures Kids(QueryDocumentKeys, node) == []
  {
    TypeSystemRows();
    UnionTypeDefinitionKeys(node);
    ThreeKeys(node, KName, KDirectives, KTypes);
    KidsKeyByKey(node, []);
    hide Parts, AllBelow, KeyKids, KidsOf, DefaultVisitorKeys, QueryDocumentKeys, Possibly;
    NothingFirst(node.types);
  }

  lemma FragmentSpreadKeys(node: ASTNode)
    requires node.FragmentSpread?
    ensures Parts(node) == [node.name]
    ensures KeyKids(node, KName) == [node.name]
    ensures KeyKids(node, KDirectives) == []
  {
  }

  lemma PartsOfFragmentSpread(node: ASTNode)
    requires node.FragmentSpread?
    ensures Kids(DefaultVisitorKeys, node) == Parts(node)
    ensures Kids(QueryDocumentKeys, node) == Parts(node)
  {
    SelectionRows();
    FragmentSpreadKeys(node);
    TwoKeys(node, KName, KDirectives);
    OneKey(node, KName);
    hide Parts, AllBelow, KeyKids, KidsOf, DefaultVisitorKeys, QueryDocumentKeys, Possibly;
    NothingLast([node.name]);
  }

  lemma ArgumentKeys(node: ASTNode)
    requires node.Argument?
    ensures Parts(node) == [node.name, node.argValue]
    ensures KeyKids(node, KName) == [node.name]
    ensures KeyKids(node, KValue) == [node.argValue]
  {
  }

  lemma PartsOfArgument(node: ASTNode)
    requires node.Argument?
    ensures Kids(DefaultVisitorKeys, node) == Parts(node)
    ensures Kids(QueryDocumentKeys, node) == Parts(node)
  {
    ValueAndTypeRows();
    ArgumentKeys(node);
    TwoKeys(node, KName, KValue);
    hide Parts, AllBelow, KeyKids, KidsOf, DefaultVisitorKeys, QueryDocumentKeys, Possibly;
    InARow(node.name, node.argValue);
  }

  lemma VariableKeys(node: ASTNode)
    requires node.Variable?
    ensures Parts(node) == [node.name]
    ensures KeyKids(node, KName) == [node.name]
  {
  }

  lemma PartsOfVariable(node: ASTNode)
    requires node.Variable?
    ensures Kids(DefaultVisitorKeys, node) == Parts(node)
    ensures Kids(QueryDocumentKeys, node) == Parts(node)
  {
    ValueAndTypeRows();
    VariableKeys(node);
    OneKey(node, KName);
    hide Parts, AllBelow, KeyKids, KidsOf, DefaultVisitorKeys, QueryDocumentKeys, Possibly;
  }

  lemma NamedTypeKeys(node: ASTNode)
    requires node.NamedType?
    ensures Parts(node) == [node.name]
    ensures KeyKids(node, KName) == [node.name]
  {
  }

  lemma PartsOfNamedType(node: ASTNode)
    requires node.NamedType?
    ensures Kids(DefaultVisitorKeys, node) == Parts(node)
    ensures Kids(QueryDocumentKeys, node) == Parts(node)
  {
    ValueAndTypeRows();
    NamedTypeKeys(node);
    OneKey(node, KName);
    hide Parts, AllBelow, KeyKids, KidsOf, DefaultVisitorKeys, QueryDocumentKeys, Possibly;
  }

  lemma ListTypeKeys(node: ASTNode)
    requires node.ListType?
    ensures Parts(node) == [node.inner]
    ensures KeyKids(node, KType) == [node.inner]
  {
  }

  lemma PartsOfListType(node: ASTNode)
    requires node.ListType?
    ensures Kids(DefaultVisitorKeys, node) == Parts(node)
    ensures Kids(QueryDocumentKeys, node) == Parts(node)
  {
    ValueAndTypeRows();
    ListTypeKeys(node);
    OneKey(node, KType);
    hide Parts, AllBelow, KeyKids, KidsOf, DefaultVisitorKeys, QueryDocumentKeys, Possibly;
  }

  lemma NonNullTypeKeys(node: ASTNode)
    requires node.NonNullType?
    ensures Parts(node) == [node.inner]
    ensures KeyKids(node, KType) == [node.inner]
  {
  }

  lemma PartsOfNonNullType(node: ASTNode)
    requires node.NonNullType?
    ensures Kids(DefaultVisitorKeys, node) == Parts(node)
    ensures Kids(QueryDocumentKeys, node) == Parts(node)
  {
    ValueAndTypeRows();
    NonNullTypeKeys(node);
    OneKey(node, KType);
    hide Parts, AllBelow, KeyKids, KidsOf, DefaultVisitorKeys, QueryDocumentKeys, Possibly;
  }

  lemma SelectionSetKeys(node: ASTNode)
    requires node.SelectionSet?
    ensures Parts(node) == node.selections
    ensures KeyKids(node, KSelections) == node.selections
  {
  }

  lemma PartsOfSelectionSet(node: ASTNode)
    requires node.SelectionSet?
    ensures Kids(DefaultVisitorKeys, node) == Parts(node)
    ensures Kids(QueryDocumentKeys, node) == Parts(node)
  {
    SelectionRows();
    SelectionSetKeys(node);
    OneKey(node, KSelections);
    hide Parts, AllBelow, KeyKids, KidsOf, DefaultVisitorKeys, QueryDocumentKeys, Possibly;
  }

  lemma DocumentKeys(node: ASTNode)
    requires node.Document?
    ensures Parts(node) == node.definitions
    ensures KeyKids(node, KDefinitions) == node.definitions
  {
  }

  lemma PartsOfDocument(node: ASTNode)
    requires node.Document?
    ensures Kids(DefaultVisitorKeys, node) == Parts(node)
    ensures Kids(QueryDocumentKeys, node) == Parts(node)
  {
    DefinitionRows();
    DocumentKeys(node);
    OneKey(node, KDefinitions);
    hide Parts, AllBelow, KeyKids, KidsOf, DefaultVisitorKeys, QueryDocumentKeys, Possibly;
  }

  lemma PartsOfLeaf(node: ASTNode)
    requires node.Name? || node.StringValue? || node.IntValue?
    ensures Kids(DefaultVisitorKeys, node) == Kids(QueryDocumentKeys, node) == Parts(node)
  {
    LeafRows();
    KidsKeyByKey(node, []);
    hide AllBelow, KeyKids, KidsOf, DefaultVisitorKeys, QueryDocumentKeys, Possibly;
    assert node.Kind() in {NAME, STRING, INT};
  }

  /** The AssemblyScript port walks exactly what a node contains; so does the other port, but for two kinds. */
  lemma KidsAreParts(node: ASTNode)
    ensures Kids(DefaultVisitorKeys, node) == Parts(node)
    ensures Kids(QueryDocumentKeys, node) == if WalkedAlike(node) then Parts(node) else []
  {
    hide Kids, Parts;
    match node
    case Field(_, _, _, _) => PartsOfField(node);
    case InlineFragment(_, _) => PartsOfInlineFragment(node);
    case VariableDefinition(_, _) => PartsOfVariableDefinition(node);
    case OperationDefinition(_, _, _, _) => PartsOfOperationDefinition(node);
    case FragmentDefinition(_, _, _) => PartsOfFragmentDefinition(node);
    case FieldDefinition(_, _, _) => PartsOfFieldDefinition(node);
    case ObjectTypeDefinition(_, _, _) => PartsOfObjectTypeDefinition(node);
    case InterfaceTypeDefinition(_, _, _) => PartsOfInterfaceTypeDefinition(node);
    case UnionTypeDefinition(_, _) => PartsOfUnionTypeDefinition(node);
    case FragmentSpread(_) => PartsOfFragmentSpread(node);
    case Argument(_, _) => PartsOfArgument(node);
    case Variable(_) => PartsOfVariable(node);
    case NamedType(_) => PartsOfNamedType(node);
    case ListType(_) => PartsOfListType(node);
    case NonNullType(_) => PartsOfNonNullType(node);
    case SelectionSet(_) => PartsOfSelectionSet(node);
    case Document(_) => PartsOfDocument(node);
    case _ => PartsOfLeaf(node);
  }
}
