/** The document tree, its visitor keys and the schema that both validator ports walk. */
module Ast {
  import opened Options

  /** Every value of KIND_VALUES; only some of them have a node class. */
  datatype Kind =
    | NAME | DOCUMENT | OPERATION_DEFINITION | VARIABLE_DEFINITION | SELECTION_SET
    | FIELD | ARGUMENT | FRAGMENT_SPREAD | INLINE_FRAGMENT | FRAGMENT_DEFINITION
    | VARIABLE | INT | FLOAT | STRING | BOOLEAN | NULL | ENUM | LIST | OBJECT | OBJECT_FIELD
    | DIRECTIVE | NAMED_TYPE | LIST_TYPE | NON_NULL_TYPE | SCHEMA_DEFINITION
    | OPERATION_TYPE_DEFINITION | SCALAR_TYPE_DEFINITION | OBJECT_TYPE_DEFINITION
    | FIELD_DEFINITION | INPUT_VALUE_DEFINITION | INTERFACE_TYPE_DEFINITION
    | UNION_TYPE_DEFINITION | ENUM_TYPE_DEFINITION | ENUM_VALUE_DEFINITION
    | INPUT_OBJECT_TYPE_DEFINITION | DIRECTIVE_DEFINITION | SCHEMA_EXTENSION
    | SCALAR_TYPE_EXTENSION | OBJECT_TYPE_EXTENSION | INTERFACE_TYPE_EXTENSION
    | UNION_TYPE_EXTENSION | ENUM_TYPE_EXTENSION | INPUT_OBJECT_TYPE_EXTENSION

  const KIND_VALUES: seq<Kind> := QUERY_KINDS + VALUE_KINDS + TYPE_KINDS + EXTENSION_KINDS

  const QUERY_KINDS := [
    NAME, DOCUMENT, OPERATION_DEFINITION, VARIABLE_DEFINITION, SELECTION_SET,
    FIELD, ARGUMENT, FRAGMENT_SPREAD, INLINE_FRAGMENT, FRAGMENT_DEFINITION]
  const VALUE_KINDS := [
    VARIABLE, INT, FLOAT, STRING, BOOLEAN, NULL, ENUM, LIST, OBJECT, OBJECT_FIELD,
    DIRECTIVE, NAMED_TYPE, LIST_TYPE, NON_NULL_TYPE]
  const TYPE_KINDS := [
    SCHEMA_DEFINITION, OPERATION_TYPE_DEFINITION, SCALAR_TYPE_DEFINITION, OBJECT_TYPE_DEFINITION,
    FIELD_DEFINITION, INPUT_VALUE_DEFINITION, INTERFACE_TYPE_DEFINITION,
    UNION_TYPE_DEFINITION, ENUM_TYPE_DEFINITION, ENUM_VALUE_DEFINITION]
  const EXTENSION_KINDS := [
    INPUT_OBJECT_TYPE_DEFINITION, DIRECTIVE_DEFINITION, SCHEMA_EXTENSION,
    SCALAR_TYPE_EXTENSION, OBJECT_TYPE_EXTENSION, INTERFACE_TYPE_EXTENSION,
    UNION_TYPE_EXTENSION, ENUM_TYPE_EXTENSION, INPUT_OBJECT_TYPE_EXTENSION]

  datatype OperationType = Query | Mutation | Subscription

  /**
   * One constructor per node class. Fields that the classes declare with a
   * node subclass are plain nodes here; NameValue reads them back totally.
   */
  datatype ASTNode =
    | Name(value: string)
    | Variable(name: ASTNode)
    | NamedType(name: ASTNode)
    | ListType(inner: ASTNode)
    | NonNullType(inner: ASTNode)
    | Argument(name: ASTNode, argValue: ASTNode)
    | StringValue(value: string)
    | IntValue(value: string)
    | Field(name: ASTNode, arguments: seq<ASTNode>, selectionSet: Option<ASTNode>, alias: Option<ASTNode>)
    | SelectionSet(selections: seq<ASTNode>)
    | FragmentSpread(name: ASTNode)
    | InlineFragment(typeCondition: Option<ASTNode>, body: ASTNode)
    | VariableDefinition(variable: ASTNode, inner: ASTNode)
    | OperationDefinition(operation: OperationType, opName: Option<ASTNode>,
        variableDefinitions: seq<ASTNode>, body: ASTNode)
    | FragmentDefinition(name: ASTNode, onType: ASTNode, body: ASTNode)
    | FieldDefinition(name: ASTNode, arguments: seq<ASTNode>, inner: ASTNode)
    | ObjectTypeDefinition(name: ASTNode, interfaces: seq<ASTNode>, fields: seq<ASTNode>)
    | InterfaceTypeDefinition(name: ASTNode, interfaces: seq<ASTNode>, fields: seq<ASTNode>)
    | UnionTypeDefinition(name: ASTNode, types: seq<ASTNode>)
    | Document(definitions: seq<ASTNode>)
  {
    function Kind(): Kind {
      match this
      case Name(_) => NAME
      case Variable(_) => VARIABLE
      case NamedType(_) => NAMED_TYPE
      case ListType(_) => LIST_TYPE
      case NonNullType(_) => NON_NULL_TYPE
      case Argument(_, _) => ARGUMENT
      case StringValue(_) => STRING
      case IntValue(_) => INT
      case Field(_, _, _, _) => FIELD
      case SelectionSet(_) => SELECTION_SET
      case FragmentSpread(_) => FRAGMENT_SPREAD
      case InlineFragment(_, _) => INLINE_FRAGMENT
      case VariableDefinition(_, _) => VARIABLE_DEFINITION
      case OperationDefinition(_, _, _, _) => OPERATION_DEFINITION
      case FragmentDefinition(_, _, _) => FRAGMENT_DEFINITION
      case FieldDefinition(_, _, _) => FIELD_DEFINITION
      case ObjectTypeDefinition(_, _, _) => OBJECT_TYPE_DEFINITION
      case InterfaceTypeDefinition(_, _, _) => INTERFACE_TYPE_DEFINITION
      case UnionTypeDefinition(_, _) => UNION_TYPE_DEFINITION
      case Document(_) => DOCUMENT
    }

    /** The text of a name node, or of the name held by a named type. */
    function NameValue(): string {
      match this
      case Name(v) => v
      case NamedType(Name(v)) => v
      case _ => ""
    }
  }

  /** Of a name, and of a named type that holds one, it is the text. */
  lemma NamesAreRead(text: string)
    ensures Name(text).NameValue() == text && NamedType(Name(text)).NameValue() == text
  {
  }

  datatype Key =
    | KDefinitions | KName | KVariableDefinitions | KDirectives | KSelectionSet | KVariable | KType
    | KDefaultValue | KSelections | KAlias | KArguments | KValue | KTypeCondition | KValues | KFields
    | KInterfaces | KTypes

  /** The child keys to walk for a kind, or none. */
  type VisitorKeys = Kind -> Option<seq<Key>>

  ghost predicate AllBelow(kids: seq<ASTNode>, parent: ASTNode) {
    forall j | 0 <= j < |kids| :: kids[j] < parent
  }

  /** The child a key holds when it holds a single node. */
  function GetChild(node: ASTNode, key: Key): (r: Option<ASTNode>)
    ensures r.Some? ==> r.value < node
  {
    match (node, key)
    case (Variable(n), KName) => Some(n)
    case (NamedType(n), KName) => Some(n)
    case (ListType(t), KType) => Some(t)
    case (NonNullType(t), KType) => Some(t)
    case (Argument(n, _), KName) => Some(n)
    case (Argument(_, v), KValue) => Some(v)
    case (Field(_, _, _, a), KAlias) => a
    case (Field(n, _, _, _), KName) => Some(n)
    case (Field(_, _, s, _), KSelectionSet) => s
    case (FragmentSpread(n), KName) => Some(n)
    case (InlineFragment(t, _), KTypeCondition) => t
    case (InlineFragment(_, s), KSelectionSet) => Some(s)
    case (VariableDefinition(v, _), KVariable) => Some(v)
    case (VariableDefinition(_, t), KType) => Some(t)
    case (OperationDefinition(_, n, _, _), KName) => n
    case (OperationDefinition(_, _, _, s), KSelectionSet) => Some(s)
    case (FragmentDefinition(n, _, _), KName) => Some(n)
    case (FragmentDefinition(_, t, _), KTypeCondition) => Some(t)
    case (FragmentDefinition(_, _, s), KSelectionSet) => Some(s)
    case (FieldDefinition(n, _, _), KName) => Some(n)
    case (FieldDefinition(_, _, t), KType) => Some(t)
    case (ObjectTypeDefinition(n, _, _), KName) => Some(n)
    case (InterfaceTypeDefinition(n, _, _), KName) => Some(n)
    case (UnionTypeDefinition(n, _), KName) => Some(n)
    case _ => None
  }

  /** The children a key holds when it holds a list. */
  function GetChildren(node: ASTNode, key: Key): (r: Option<seq<ASTNode>>)
    ensures r.Some? ==> AllBelow(r.value, node)
  {
    match (node, key)
    case (Field(_, args, _, _), KArguments) => Some(args)
    case (SelectionSet(s), KSelections) => Some(s)
    case (OperationDefinition(_, _, v, _), KVariableDefinitions) => Some(v)
    case (FieldDefinition(_, args, _), KArguments) => Some(args)
    case (ObjectTypeDefinition(_, i, _), KInterfaces) => Some(i)
    case (ObjectTypeDefinition(_, _, f), KFields) => Some(f)
    case (InterfaceTypeDefinition(_, i, _), KInterfaces) => Some(i)
    case (InterfaceTypeDefinition(_, _, f), KFields) => Some(f)
    case (UnionTypeDefinition(_, t), KTypes) => Some(t)
    case (Document(d), KDefinitions) => Some(d)
    case _ => None
  }

  /** The nodes one key leads to, in the order the walk meets them. */
  function KeyKids(node: ASTNode, key: Key): (r: seq<ASTNode>)
    ensures AllBelow(r, node)
  {
    (match GetChild(node, key) case Some(c) => [c] case None => []) +
    (match GetChildren(node, key) case Some(cs) => cs case None => [])
  }

  function KidsOf(node: ASTNode, ks: seq<Key>): (r: seq<ASTNode>)
    ensures AllBelow(r, node)
  {
    if ks == [] then [] else KidsOf(node, ks[..|ks|-1]) + KeyKids(node, ks[|ks|-1])
  }

  /** The keys to walk for a kind: none when the table does not know it. */
  function Row(keys: VisitorKeys, kind: Kind): seq<Key> {
    match keys(kind)
    case Some(ks) => ks
    case None => []
  }

  function Kids(keys: VisitorKeys, node: ASTNode): (r: seq<ASTNode>)
    ensures AllBelow(r, node)
  {
    KidsOf(node, Row(keys, node.Kind()))
  }

  lemma KidsByRow(keys: VisitorKeys, node: ASTNode)
    ensures Kids(keys, node) ==
      match keys(node.Kind())
      case Some(ks) => KidsOf(node, ks)
      case None => []
  {
    hide KeyKids;
  }

  /** The AssemblyScript table. */
  function DefaultVisitorKeys(kind: Kind): Option<seq<Key>> {
    match kind
    case NAME => Some([])
    case DOCUMENT => Some([KDefinitions])
    case OPERATION_DEFINITION => Some([KName, KVariableDefinitions, KDirectives, KSelectionSet])
    case VARIABLE_DEFINITION => Some([KVariable, KType, KDefaultValue, KDirectives])
    case VARIABLE => Some([KName])
    case SELECTION_SET => Some([KSelections])
    case FIELD => Some([KAlias, KName, KArguments, KDirectives, KSelectionSet])
    case ARGUMENT => Some([KName, KValue])
    case FRAGMENT_SPREAD => Some([KName, KDirectives])
    case INLINE_FRAGMENT => Some([KTypeCondition, KDirectives, KSelectionSet])
    case FRAGMENT_DEFINITION => Some([KName, KVariableDefinitions, KTypeCondition, KDirectives, KSelectionSet])
    case INT => Some([])
    case FLOAT => Some([])
    case STRING => Some([])
    case BOOLEAN => Some([])
    case NULL => Some([])
    case ENUM => Some([])
    case LIST => Some([KValues])
    case OBJECT => Some([KFields])
    case OBJECT_FIELD => Some([KName, KValue])
    case DIRECTIVE => Some([KName, KArguments])
    case NAMED_TYPE => Some([KName])
    case LIST_TYPE => Some([KType])
    case NON_NULL_TYPE => Some([KType])
    case OBJECT_TYPE_DEFINITION => Some([KName, KInterfaces, KDirectives, KFields])
    case INTERFACE_TYPE_DEFINITION => Some([KName, KInterfaces, KDirectives, KFields])
    case UNION_TYPE_DEFINITION => Some([KName, KDirectives, KTypes])
    case FIELD_DEFINITION => Some([KName, KArguments, KType, KDirectives])
    case INPUT_VALUE_DEFINITION => Some([KName, KType, KDefaultValue, KDirectives])
    case _ => None
  }

  /** The JavaScript table: fewer kinds, no directives. */
  function QueryDocumentKeys(kind: Kind): Option<seq<Key>> {
    match kind
    case NAME => Some([])
    case DOCUMENT => Some([KDefinitions])
    case OPERATION_DEFINITION => Some([KName, KVariableDefinitions, KSelectionSet])
    case VARIABLE_DEFINITION => Some([KVariable, KType, KDefaultValue])
    case VARIABLE => Some([KName])
    case SELECTION_SET => Some([KSelections])
    case FIELD => Some([KAlias, KName, KArguments, KSelectionSet])
    case ARGUMENT => Some([KName, KValue])
    case FRAGMENT_SPREAD => Some([KName])
    case INLINE_FRAGMENT => Some([KTypeCondition, KSelectionSet])
    case FRAGMENT_DEFINITION => Some([KName, KTypeCondition, KSelectionSet])
    case NAMED_TYPE => Some([KName])
    case LIST_TYPE => Some([KType])
    case NON_NULL_TYPE => Some([KType])
    case OBJECT_TYPE_DEFINITION => Some([KName, KInterfaces, KFields])
    case INTERFACE_TYPE_DEFINITION => Some([KName, KInterfaces, KFields])
    case _ => None
  }

  predicate IsExecutableDefinitionNode(node: ASTNode) {
    node.OperationDefinition? || node.FragmentDefinition?
  }

  predicate IsTypeDefinitionNode(node: ASTNode) {
    node.ObjectTypeDefinition? || node.InterfaceTypeDefinition? || node.UnionTypeDefinition?
  }

  datatype TypeKind = Object | Interface | Union | Scalar

  datatype GraphQLField = GraphQLField(name: string, typeName: string)

  datatype GraphQLType = GraphQLType(name: string, kind: TypeKind, fields: map<string, GraphQLField>)

  /** queryType is the field only the JavaScript port reads. */
  datatype GraphQLSchema = GraphQLSchema(types: map<string, GraphQLType>, queryType: Option<GraphQLType>) {
    function GetType(name: string): Option<GraphQLType> {
      if name in types then Some(types[name]) else None
    }
  }

  predicate IsCompositeType(t: GraphQLType) {
    t.kind.Object? || t.kind.Interface? || t.kind.Union?
  }

  datatype Rule =
    | ExecutableDefinitions | UniqueOperationNames | KnownTypeNames
    | FieldsOnCorrectType | FragmentsOnCompositeTypes

  /**
   * Messages are left out: an error is the rule that raised it and the node it points at,
   * or the one synthetic error of a full error list, which points at none.
   */
  datatype GraphQLError = GraphQLError(rule: Rule, node: ASTNode) | TooManyErrors
}
