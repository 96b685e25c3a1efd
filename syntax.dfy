/**
 * The parser's syntax tree as the extraction code sees it.
 *
 * A node is reported by the parser's traversal as an Enter event, then the
 * events of everything below it, then a Leave event. Iterating over a node
 * visits the node itself and then every node below it in that order (the
 * Enter order), and a search for the first node of some kinds
 * (`unwrap_node!`) returns the first of them in that order. The parser itself
 * is not part of this model: trees are inputs.
 */
module Syntax {
  import opened Wrappers

  /** The keyword of a PortDirection node. */
  datatype DirectionKw = KwInout | KwInput | KwOutput | KwRef

  /** The keyword of a NetType node. */
  datatype NetTypeKw =
    | KwSupply0 | KwSupply1 | KwTriand | KwTrior | KwTrireg | KwTri0
    | KwTri1 | KwTri | KwUwire | KwWire | KwWand | KwWor

  /** The variant of an IntegerVectorType, IntegerAtomType or NonIntegerType
      node, or a ClassType or TypeReference node. */
  datatype TypeKw =
    | KwLogic | KwReg | KwBit
    | KwByte | KwShortint | KwInt | KwLongint | KwInteger | KwTime
    | KwShortreal | KwRealtime | KwReal
    | KwClassType | KwTypeReference

  /** The keyword of a Signing node. */
  datatype SigningKw = KwSigned | KwUnsigned

  /** The kinds of grammar node the extraction code distinguishes, with the
      parts of a node it reads directly rather than by searching below it. */
  datatype Tag =
    // tokens
    | Locate(offset: nat, text: string)
    | WhiteSpace
    | Comment
    | SimpleIdentifier(text: string)  // the text of its Locate
    | EscapedIdentifier(text: string)
    | Keyword(text: string)
    | Symbol(text: string)
    // declarations
    | ModuleDeclarationAnsi
    | ModuleDeclarationNonansi
    | ModuleAnsiHeader
    | ModuleIdentifier
    | PackageDeclaration
    | PackageIdentifier
    // parameters
    | ParameterPortList
    | ParameterDeclarationParam
    | LocalParameterDeclarationParam
    | ParameterPortDeclarationParamList
    | ListOfParamAssignments
    | ParamAssignment
    | ParameterIdentifier
    | ConstantParamExpression
    // data types
    | DataType
    | DataTypeOrImplicit
    | TypeKeyword(kw: TypeKw)
    | Signing(signing: SigningKw)
    | ClassIdentifier
    | VarDataType
    | NetType(net: NetTypeKw)
    // dimensions
    | PackedDimension
    | PackedDimensionRange
    | ConstantRange(left: Node, right: Node)  // its first and third children
    | ConstantExpression
    | UnpackedDimensionRange
    | UnpackedDimensionExpression
    // ports
    | AnsiPortDeclaration
    | AnsiPortDeclarationVariable
    | AnsiPortDeclarationNet
    | PortDirection(direction: DirectionKw)
    | PortIdentifier
    // instances
    | ModuleInstantiation
    | InstanceIdentifier
    | GenerateBlock
    | GenerateBlockIdentifier
    | NamedPortConnection
    | OrderedPortConnection
    | HierarchicalIdentifier
    | Identifier
    | Select
    // expressions and literals
    | ConstantFunctionCall
    | BinaryOperator
    | ConstantConcatenation
    | ConditionalExpression
    | Number(integral: bool)         // Number::IntegralNumber or Number::RealNumber
    | IntegralNumber
    | RealNumber
    | DecimalNumber(unsignedNumber: bool)  // DecimalNumber::UnsignedNumber or another variant
    | BinaryNumber
    | HexNumber
    | OctalNumber
    | BinaryBase
    | HexBase
    | OctalBase
    | DecimalBase
    | DecimalNumberBaseUnsigned
    | Size
    | TimeLiteral
    | UnbasedUnsizedLiteral
    | StringLiteral
    // anything else
    | OtherNode

  /** A node: its kind, its textual rendering (what converting the node to a
      string gives), and the events of everything below it, in traversal order. */
  datatype Node = Node(tag: Tag, name: string, sub: seq<Event>)

  datatype Event = Enter(node: Node) | Leave(node: Node)

  /** The events of traversing `n`, itself included. */
  function Stream(n: Node): seq<Event> {
    [Enter(n)] + n.sub + [Leave(n)]
  }

  /** The nodes visited when iterating over a traversal: the entered ones, in order. */
  function Nodes(evs: seq<Event>): (r: seq<Node>)
    ensures |r| <= |evs|
    ensures forall x :: x in r <==> Enter(x) in evs
  {
    if evs == [] then []
    else
      var rest := Nodes(evs[1..]);
      assert evs == [evs[0]] + evs[1..];
      if evs[0].Enter? then [evs[0].node] + rest else rest
  }

  /** The nodes entered in consecutive stretches of events come in that order. */
  lemma {:induction false} NodesAppend(a: seq<Event>, b: seq<Event>)
    ensures Nodes(a + b) == Nodes(a) + Nodes(b)
    decreases |a|
  {
    if a == [] {
      assert a + b == b;
    } else {
      assert (a + b)[0] == a[0];
      assert (a + b)[1..] == a[1..] + b;
      NodesAppend(a[1..], b);
    }
  }

  /** Event `i` enters a node whose kind satisfies `p`, and no earlier event does. */
  ghost predicate IsFirst(evs: seq<Event>, i: int, p: Tag -> bool) {
    0 <= i < |evs| && evs[i].Enter? && p(evs[i].node.tag)
    && forall j :: 0 <= j < i ==> !(evs[j].Enter? && p(evs[j].node.tag))
  }

  /** The first node entered in `evs` whose kind satisfies `p` (`unwrap_node!`). */
  function First(evs: seq<Event>, p: Tag -> bool): (r: Option<Node>)
    ensures r.Some? ==> p(r.value.tag) && Enter(r.value) in evs
    ensures r.Some? ==> exists i :: IsFirst(evs, i, p) && evs[i].node == r.value
    ensures r.None? ==> forall i :: 0 <= i < |evs| ==> !(evs[i].Enter? && p(evs[i].node.tag))
  {
    if evs == [] then None
    else if evs[0].Enter? && p(evs[0].node.tag) then
      assert IsFirst(evs, 0, p);
      Some(evs[0].node)
    else
      assert forall i :: IsFirst(evs[1..], i, p) ==> IsFirst(evs, i + 1, p);
      First(evs[1..], p)
  }

  /** The first node of a kind satisfying `p` in the subtree of `n`, `n` included. */
  function Find(n: Node, p: Tag -> bool): (r: Option<Node>)
    ensures r.Some? ==> p(r.value.tag)
  {
    First(Stream(n), p)
  }

  /** Whether the subtree of `n` holds a node of a kind satisfying `p`. */
  predicate Contains(n: Node, p: Tag -> bool) {
    Find(n, p).Some?
  }

  /** The texts of the Locate tokens entered in `evs`, in order. */
  function LocateTexts(evs: seq<Event>): string {
    if evs == [] then ""
    else if evs[0].Enter? && evs[0].node.tag.Locate? then evs[0].node.tag.text + LocateTexts(evs[1..])
    else LocateTexts(evs[1..])
  }

  /** The source text a node spans (the parser's `get_str`): absent when the
      node covers no token. */
  function SourceText(n: Node): Option<string> {
    if Find(n, (t: Tag) => t.Locate?).None? then None else Some(LocateTexts(Stream(n)))
  }
}
