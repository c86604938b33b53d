/** The part of the graphql library's AST the loaders look at: a document is
    an ordered list of definitions, each tagged with a `Kind`; everything
    else about a definition is an opaque payload. */
module GraphQL {

  /** The `Kind` enumeration of graphql-js 14, in declaration order. */
  datatype Kind =
    | Name | Document | OperationDefinition | VariableDefinition | SelectionSet
    | Field | Argument | FragmentSpread | InlineFragment | FragmentDefinition
    | Variable | IntValue | FloatValue | StringValue | BooleanValue | NullValue
    | EnumValue | ListValue | ObjectValue | ObjectField | Directive | NamedType
    | ListType | NonNullType | SchemaDefinition | OperationTypeDefinition
    | ScalarTypeDefinition | ObjectTypeDefinition | FieldDefinition
    | InputValueDefinition | InterfaceTypeDefinition | UnionTypeDefinition
    | EnumTypeDefinition | EnumValueDefinition | InputObjectTypeDefinition
    | DirectiveDefinition | SchemaExtension | ScalarTypeExtension
    | ObjectTypeExtension | InterfaceTypeExtension | UnionTypeExtension
    | EnumTypeExtension | InputObjectTypeExtension

  /** The number of `Kind` values. */
  const KindCount: nat := 43

  /** The `Kind` value declared at position `i`. */
  function KindAt(i: nat): Kind
    requires i < KindCount
  {
    match i
    case 0 => Name
    case 1 => Document
    case 2 => OperationDefinition
    case 3 => VariableDefinition
    case 4 => SelectionSet
    case 5 => Field
    case 6 => Argument
    case 7 => FragmentSpread
    case 8 => InlineFragment
    case 9 => FragmentDefinition
    case 10 => Variable
    case 11 => IntValue
    case 12 => FloatValue
    case 13 => StringValue
    case 14 => BooleanValue
    case 15 => NullValue
    case 16 => EnumValue
    case 17 => ListValue
    case 18 => ObjectValue
    case 19 => ObjectField
    case 20 => Directive
    case 21 => NamedType
    case 22 => ListType
    case 23 => NonNullType
    case 24 => SchemaDefinition
    case 25 => OperationTypeDefinition
    case 26 => ScalarTypeDefinition
    case 27 => ObjectTypeDefinition
    case 28 => FieldDefinition
    case 29 => InputValueDefinition
    case 30 => InterfaceTypeDefinition
    case 31 => UnionTypeDefinition
    case 32 => EnumTypeDefinition
    case 33 => EnumValueDefinition
    case 34 => InputObjectTypeDefinition
    case 35 => DirectiveDefinition
    case 36 => SchemaExtension
    case 37 => ScalarTypeExtension
    case 38 => ObjectTypeExtension
    case 39 => InterfaceTypeExtension
    case 40 => UnionTypeExtension
    case 41 => EnumTypeExtension
    case _ => InputObjectTypeExtension
  }

  /** The values of `Kind`, in the order `Object.keys(Kind)` lists them. */
  function AllKinds(): (r: seq<Kind>)
    ensures |r| == KindCount
  {
    seq(KindCount, i requires 0 <= i < KindCount => KindAt(i))
  }

  /** The position of a kind in the enumeration: every kind is listed. */
  function KindIndex(k: Kind): (i: nat)
    ensures i < KindCount && KindAt(i) == k
  {
    match k
    case Name => 0
    case Document => 1
    case OperationDefinition => 2
    case VariableDefinition => 3
    case SelectionSet => 4
    case Field => 5
    case Argument => 6
    case FragmentSpread => 7
    case InlineFragment => 8
    case FragmentDefinition => 9
    case Variable => 10
    case IntValue => 11
    case FloatValue => 12
    case StringValue => 13
    case BooleanValue => 14
    case NullValue => 15
    case EnumValue => 16
    case ListValue => 17
    case ObjectValue => 18
    case ObjectField => 19
    case Directive => 20
    case NamedType => 21
    case ListType => 22
    case NonNullType => 23
    case SchemaDefinition => 24
    case OperationTypeDefinition => 25
    case ScalarTypeDefinition => 26
    case ObjectTypeDefinition => 27
    case FieldDefinition => 28
    case InputValueDefinition => 29
    case InterfaceTypeDefinition => 30
    case UnionTypeDefinition => 31
    case EnumTypeDefinition => 32
    case EnumValueDefinition => 33
    case InputObjectTypeDefinition => 34
    case DirectiveDefinition => 35
    case SchemaExtension => 36
    case ScalarTypeExtension => 37
    case ObjectTypeExtension => 38
    case InterfaceTypeExtension => 39
    case UnionTypeExtension => 40
    case EnumTypeExtension => 41
    case InputObjectTypeExtension => 42
  }

  lemma KindListed(k: Kind)
    ensures k in AllKinds()
  {
    var i := KindIndex(k);
    assert AllKinds()[i] == k;
  }

  /** A top-level definition of a document: its kind and the rest of the node. */
  datatype Definition = Definition(kind: Kind, payload: string)

  /** A parsed document: its `definitions`, in source order. */
  type AstDocument = seq<Definition>

  /** `concatAST`: the definitions of every document, one document after
      the other. */
  function ConcatAst(docs: seq<AstDocument>): (r: AstDocument)
    ensures docs == [] ==> r == []
    decreases |docs|
  {
    if docs == [] then [] else docs[0] + ConcatAst(docs[1..])
  }

  /** The concatenation is empty exactly when every document is. */
  lemma {:induction false} ConcatAstEmpty(docs: seq<AstDocument>)
    ensures ConcatAst(docs) == [] <==> forall i :: 0 <= i < |docs| ==> docs[i] == []
    decreases |docs|
  {
    if docs != [] {
      ConcatAstEmpty(docs[1..]);
      if ConcatAst(docs) == [] {
        forall i | 0 <= i < |docs| ensures docs[i] == [] {
          if i > 0 { assert docs[i] == docs[1..][i - 1]; }
        }
      }
      if forall i :: 0 <= i < |docs| ==> docs[i] == [] {
        forall i | 0 <= i < |docs[1..]| ensures docs[1..][i] == [] {
          assert docs[1..][i] == docs[i + 1];
        }
      }
    }
  }
}
