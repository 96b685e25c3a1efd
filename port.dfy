/**
 * Attribute resolution for ANSI port declarations and for parameter
 * assignments: every attribute the source does not write is given its
 * default, and a parameter is checked against the combinations the
 * language forbids.
 */
module PortExtraction {
  import opened Wrappers
  import opened Syntax
  import opened Structures
  import opened Panics
  import opened Folds
  import SvMisc
  import Text

  // ---------------------------------------------------------------------
  // Node kinds searched for.
  // ---------------------------------------------------------------------

  predicate IsPortIdentifier(t: Tag) { t.PortIdentifier? }
  predicate IsPortDirection(t: Tag) { t.PortDirection? }
  predicate IsTypeKeyword(t: Tag) { t.TypeKeyword? }
  predicate IsDataType(t: Tag) { t.DataType? }
  predicate IsSigning(t: Tag) { t.Signing? }
  predicate IsNetType(t: Tag) { t.NetType? }
  predicate IsClassIdentifier(t: Tag) { t.ClassIdentifier? }
  predicate IsPortForm(t: Tag) { t.AnsiPortDeclarationVariable? || t.AnsiPortDeclarationNet? }
  /** What keeps a variable-form port from defaulting to a wire. */
  predicate IsWireBlocker(t: Tag) { t.PortDirection? || t.DataType? || t.Signing? || t.PackedDimension? }
  /** What keeps a port from inheriting the previous port's attributes. */
  predicate IsInheritanceBlocker(t: Tag) {
    t.DataType? || t.Signing? || t.NetType? || t.VarDataType? || t.PortDirection? || t.PackedDimension?
  }
  predicate IsConstantRange(t: Tag) { t.ConstantRange? }
  predicate IsConstantExpression(t: Tag) { t.ConstantExpression? }
  predicate IsConstantParamExpression(t: Tag) { t.ConstantParamExpression? }
  predicate IsParameterIdentifier(t: Tag) { t.ParameterIdentifier? }
  /** Expressions whose type the extraction does not work out from a single literal. */
  predicate IsResolverTrigger(t: Tag) {
    t.ConstantFunctionCall? || t.BinaryOperator? || t.ConstantConcatenation? || t.ConditionalExpression?
  }
  predicate IsBinaryOperator(t: Tag) { t.BinaryOperator? }
  predicate IsLiteral(t: Tag) { t.Number? || t.TimeLiteral? || t.UnbasedUnsizedLiteral? || t.StringLiteral? }
  predicate IsRealNumber(t: Tag) { t.RealNumber? }
  predicate IsRealOrIntegral(t: Tag) { t.RealNumber? || t.IntegralNumber? }
  predicate IsBasedNumber(t: Tag) { t.BinaryNumber? || t.HexNumber? || t.OctalNumber? }
  predicate IsResolverBase(t: Tag) { t.BinaryBase? || t.HexBase? || t.OctalBase? || t.DecimalNumberBaseUnsigned? }
  predicate IsIntegralLiteral(t: Tag) {
    t.DecimalNumber? || t.BinaryNumber? || t.HexNumber? || t.OctalNumber? || t.UnbasedUnsizedLiteral?
  }
  predicate IsBase(t: Tag) { t.BinaryBase? || t.HexBase? || t.OctalBase? || t.DecimalBase? }
  predicate IsSizeOrUnbased(t: Tag) { t.Size? || t.UnbasedUnsizedLiteral? }

  // ---------------------------------------------------------------------
  // Keyword tables.
  // ---------------------------------------------------------------------

  function DirectionOf(kw: DirectionKw): (d: SvPortDirection)
    ensures d != SvPortDirection.IMPLICIT
  {
    match kw
    case KwInout => Inout
    case KwInput => Input
    case KwOutput => Output
    case KwRef => Ref
  }

  function NetTypeOf(kw: NetTypeKw): (n: SvNetType)
    ensures n != SvNetType.IMPLICIT
  {
    match kw
    case KwSupply0 => Supply0
    case KwSupply1 => Supply1
    case KwTriand => Triand
    case KwTrior => Trior
    case KwTrireg => Trireg
    case KwTri0 => Tri0
    case KwTri1 => Tri1
    case KwTri => Tri
    case KwUwire => Uwire
    case KwWire => Wire
    case KwWand => Wand
    case KwWor => Wor
  }

  /** The data type a type keyword names; each keyword names its own type. */
  function DataTypeOf(kw: TypeKw): (d: SvDataType)
    ensures TypeKeywordOf(d) == Some(kw)
  {
    match kw
    case KwLogic => Logic
    case KwReg => Reg
    case KwBit => Bit
    case KwByte => Byte
    case KwShortint => Shortint
    case KwInt => Int
    case KwLongint => Longint
    case KwInteger => Integer
    case KwTime => Time
    case KwShortreal => Shortreal
    case KwRealtime => Realtime
    case KwReal => Real
    case KwClassType => Class
    case KwTypeReference => TypeRef
  }

  /** The keyword that names a data type, for the types a keyword names. */
  function TypeKeywordOf(d: SvDataType): Option<TypeKw> {
    match d
    case Logic => Some(KwLogic)
    case Reg => Some(KwReg)
    case Bit => Some(KwBit)
    case Byte => Some(KwByte)
    case Shortint => Some(KwShortint)
    case Int => Some(KwInt)
    case Longint => Some(KwLongint)
    case Integer => Some(KwInteger)
    case Time => Some(KwTime)
    case Shortreal => Some(KwShortreal)
    case Realtime => Some(KwRealtime)
    case Real => Some(KwReal)
    case Class => Some(KwClassType)
    case TypeRef => Some(KwTypeReference)
    case _ => None
  }

  /** The integer types that are signed unless declared otherwise. */
  predicate SignedByDefault(d: SvDataType) {
    d == Shortint || d == Int || d == Longint || d == Byte || d == Integer
  }

  // ---------------------------------------------------------------------
  // Ports.
  // ---------------------------------------------------------------------

  /** The port's name: the identifier of its PortIdentifier. */
  function PortIdentifier(p: Node): (r: Result<string, Panic>)
    ensures Find(p, IsPortIdentifier).None? ==> r == Err(Unreachable)
    ensures r.Ok? ==> exists id :: Find(p, IsPortIdentifier) == Some(id) && SvMisc.Identifier(id) == Some(r.value)
  {
    match Find(p, IsPortIdentifier)
    case None => Err(Unreachable)
    case Some(id) => Unwrap(SvMisc.Identifier(id))
  }

  /**
   * The written direction; without one, the previous port's; for the first
   * port, Inout. The result is never IMPLICIT unless it was copied from a
   * previous port that was.
   */
  function PortDirectionAnsi(p: Node, prev: Option<SvPort>): (d: SvPortDirection)
    ensures Contains(p, IsPortDirection) ==> d == DirectionOf(Find(p, IsPortDirection).value.tag.direction)
    ensures !Contains(p, IsPortDirection) && prev.Some? ==> d == prev.value.direction
    ensures !Contains(p, IsPortDirection) && prev.None? ==> d == Inout
    ensures d == SvPortDirection.IMPLICIT ==> prev.Some? && prev.value.direction == SvPortDirection.IMPLICIT
  {
    match Find(p, IsPortDirection)
    case Some(n) => DirectionOf(n.tag.direction)
    case None => if prev.Some? then prev.value.direction else Inout
  }

  /**
   * The net type. A variable-form port is a wire exactly when it writes no
   * direction, data type, signing or packed dimension. A net-form port has
   * its written net type; without one an Input or Inout is a wire, an
   * Output is a wire exactly when it writes no data type, and a Ref has no
   * net type.
   */
  function PortNettypeAnsi(p: Node, direction: SvPortDirection): (r: Result<Option<SvNetType>, Panic>)
    ensures Find(p, IsPortForm).None? ==> r == Err(Unreachable)
    ensures IsVariableForm(p) ==> r.Ok? && (r.value == Some(Wire) <==> !Contains(p, IsWireBlocker))
    ensures IsVariableForm(p) ==> r.Ok? && (r.value == None <==> Contains(p, IsWireBlocker))
    ensures IsNetForm(p) && Contains(FormOf(p), IsNetType) ==>
      r == Ok(Some(NetTypeOf(Find(FormOf(p), IsNetType).value.tag.net)))
    ensures IsNetForm(p) && !Contains(FormOf(p), IsNetType) ==>
      && ((direction == Input || direction == Inout) ==> r == Ok(Some(Wire)))
      && (direction == Output ==> r == Ok(if Contains(p, IsDataType) then None else Some(Wire)))
      && (direction == Ref ==> r == Ok(None))
      && (direction == SvPortDirection.IMPLICIT ==> r == Err(Unreachable))
    ensures r.Ok? && r.value.Some? ==> r.value.value != SvNetType.IMPLICIT
  {
    match Find(p, IsPortForm)
    case None => Err(Unreachable)
    case Some(form) =>
      if form.tag.AnsiPortDeclarationVariable? then
        Ok(if Contains(p, IsWireBlocker) then None else Some(Wire))
      else
        match Find(form, IsNetType)
        case Some(n) => Ok(Some(NetTypeOf(n.tag.net)))
        case None =>
          match direction
          case Inout => Ok(Some(Wire))
          case Input => Ok(Some(Wire))
          case Output => Ok(if Contains(p, IsDataType) then None else Some(Wire))
          case Ref => Ok(None)
          case IMPLICIT => Err(Unreachable)
  }

  /** The AnsiPortDeclarationVariable or AnsiPortDeclarationNet below the port. */
  function FormOf(p: Node): Node
    requires Contains(p, IsPortForm)
  {
    Find(p, IsPortForm).value
  }

  predicate IsVariableForm(p: Node) {
    Contains(p, IsPortForm) && FormOf(p).tag.AnsiPortDeclarationVariable?
  }

  predicate IsNetForm(p: Node) {
    Contains(p, IsPortForm) && FormOf(p).tag.AnsiPortDeclarationNet?
  }

  /** A port with a net type is a net; one without is a variable. */
  function PortDatakindAnsi(netType: Option<SvNetType>): (k: SvDataKind)
    ensures k == Net <==> netType.Some?
    ensures k == Variable <==> netType.None?
  {
    match netType
    case None => Variable
    case Some(_) => Net
  }

  /**
   * The data type: that of the first type keyword; otherwise String for a
   * data type written `string`, a stop for any other data type, and Logic
   * when no data type is written.
   */
  function PortDatatypeAnsi(p: Node): (r: Result<SvDataType, Panic>)
    ensures Contains(p, IsTypeKeyword) ==> r == Ok(DataTypeOf(Find(p, IsTypeKeyword).value.tag.kw))
    ensures !Contains(p, IsTypeKeyword) && !Contains(p, IsDataType) ==> r == Ok(Logic)
    ensures !Contains(p, IsTypeKeyword) && Contains(p, IsDataType) ==>
      (r.Ok? <==> SvMisc.Keyword(Find(p, IsDataType).value) == Some("string"))
    ensures r.Ok? ==> r.value != SvDataType.IMPLICIT && r.value != SvDataType.Unsupported
  {
    match Find(p, IsTypeKeyword)
    case Some(n) => Ok(DataTypeOf(n.tag.kw))
    case None =>
      match Find(p, IsDataType)
      case Some(x) =>
        (match SvMisc.Keyword(x)
         case Some(k) => if k == "string" then Ok(String) else Err(Unreachable)
         case None => Err(Unreachable))
      case None => Ok(Logic)
  }

  /** A class port's class name; no other port has one. */
  function PortClassidAnsi(p: Node, dataType: SvDataType): (r: Result<Option<string>, Panic>)
    ensures dataType != Class ==> r == Ok(None)
    ensures dataType == Class && Contains(p, IsClassIdentifier) ==>
      r == Ok(SvMisc.Identifier(Find(p, IsClassIdentifier).value))
    ensures dataType == Class && !Contains(p, IsClassIdentifier) ==> r == Err(Unreachable)
  {
    if dataType == Class then
      match Find(p, IsClassIdentifier)
      case Some(id) => Ok(SvMisc.Identifier(id))
      case None => Err(Unreachable)
    else Ok(None)
  }

  /**
   * Signedness: none for Class, String, Real and Time; otherwise the
   * written signing; otherwise Signed for the signed integer types and
   * Unsigned for every other type.
   */
  function PortSignednessAnsi(p: Node, dataType: SvDataType): (s: Option<SvSignedness>)
    ensures s.None? <==> dataType in {Class, String, Real, Time}
    ensures dataType !in {Class, String, Real, Time} && Contains(p, IsSigning) ==>
      s == Some(if Find(p, IsSigning).value.tag.signing == KwSigned then Signed else Unsigned)
    ensures dataType !in {Class, String, Real, Time} && !Contains(p, IsSigning) ==>
      s == Some(if SignedByDefault(dataType) then Signed else Unsigned)
  {
    if dataType in {Class, String, Real, Time} then None
    else
      match Find(p, IsSigning)
      case Some(n) => Some(if n.tag.signing == KwSigned then Signed else Unsigned)
      case None => Some(if SignedByDefault(dataType) then Signed else Unsigned)
  }

  /**
   * A port inherits from the previous port exactly when there is one and
   * the port writes no data type, signing, net type, variable type,
   * direction or packed dimension.
   */
  function PortCheckInheritanceAnsi(p: Node, prev: Option<SvPort>): (b: bool)
    ensures b <==> prev.Some? && !Contains(p, IsInheritanceBlocker)
  {
    match prev
    case Some(_) => Find(p, IsInheritanceBlocker).None?
    case None => false
  }

  // ---------------------------------------------------------------------
  // Dimensions: every node below the declaration is visited in order and
  // each dimension node adds one entry.
  // ---------------------------------------------------------------------

  /** A PackedDimensionRange adds the texts of its range's two bounds. */
  function PackedStep(n: Node): Result<seq<SvPackedDimension>, Panic> {
    if !n.tag.PackedDimensionRange? then Ok([])
    else
      match Find(n, IsConstantRange)
      case None => Ok([])
      case Some(range) =>
        var left :- Unwrap(SvMisc.StringOf(range.tag.left));
        var right :- Unwrap(SvMisc.StringOf(range.tag.right));
        Ok([(left, right)])
  }

  /** The packed dimensions below `m`, as (left, right) source texts in traversal order. */
  function PackedDims(m: Node): Result<seq<SvPackedDimension>, Panic> {
    FoldSteps(Nodes(Stream(m)), PackedStep)
  }

  /** One node's packed dimensions, read with the string collector. */
  method PackedOf(node: Node) returns (r: Result<seq<SvPackedDimension>, Panic>)
    ensures r == PackedStep(node)
  {
    if !node.tag.PackedDimensionRange? {
      return Ok([]);
    }
    var range := Find(node, IsConstantRange);
    if range.None? {
      return Ok([]);
    }
    var left := SvMisc.GetString(range.value.tag.left);
    if left.None? {
      return Err(UnwrapNone);
    }
    var right := SvMisc.GetString(range.value.tag.right);
    if right.None? {
      return Err(UnwrapNone);
    }
    return Ok([(left.value, right.value)]);
  }

  method PortPackeddimAnsi(m: Node) returns (r: Result<seq<SvPackedDimension>, Panic>)
    ensures r == PackedDims(m)
  {
    var ns := Nodes(Stream(m));
    var ret: seq<SvPackedDimension> := [];
    var i := 0;
    while i < |ns|
      invariant 0 <= i <= |ns|
      invariant FoldSteps(ns[..i], PackedStep) == Ok(ret)
    {
      FoldStepsNext(ns, i, PackedStep);
      var piece := PackedOf(ns[i]);
      if piece.Err? {
        FoldStepsStopPersists(ns, i + 1, PackedStep);
        return Err(piece.error);
      }
      ret := ret + piece.value;
      i := i + 1;
    }
    assert ns[..i] == ns;
    return Ok(ret);
  }

  /**
   * An UnpackedDimensionRange adds (left, Some(right)); an
   * UnpackedDimensionExpression adds (expression, None).
   */
  function UnpackedStep(n: Node): Result<seq<SvUnpackedDimension>, Panic> {
    if n.tag.UnpackedDimensionRange? then
      match Find(n, IsConstantRange)
      case None => Ok([])
      case Some(range) =>
        var left :- Unwrap(SvMisc.StringOf(range.tag.left));
        var right :- Unwrap(SvMisc.StringOf(range.tag.right));
        Ok([(left, Some(right))])
    else if n.tag.UnpackedDimensionExpression? then
      var e :- Unwrap(Find(n, IsConstantExpression));
      var left :- Unwrap(SvMisc.StringOf(e));
      Ok([(left, None)])
    else Ok([])
  }

  /** The unpacked dimensions below `m`, in traversal order. */
  function UnpackedDims(m: Node): Result<seq<SvUnpackedDimension>, Panic> {
    FoldSteps(Nodes(Stream(m)), UnpackedStep)
  }

  /** One node's unpacked dimensions, read with the string collector. */
  method UnpackedOf(node: Node) returns (r: Result<seq<SvUnpackedDimension>, Panic>)
    ensures r == UnpackedStep(node)
  {
    if node.tag.UnpackedDimensionRange? {
      var range := Find(node, IsConstantRange);
      if range.None? {
        return Ok([]);
      }
      var left := SvMisc.GetString(range.value.tag.left);
      if left.None? {
        return Err(UnwrapNone);
      }
      var right := SvMisc.GetString(range.value.tag.right);
      if right.None? {
        return Err(UnwrapNone);
      }
      return Ok([(left.value, Some(right.value))]);
    } else if node.tag.UnpackedDimensionExpression? {
      var e := Find(node, IsConstantExpression);
      if e.None? {
        return Err(UnwrapNone);
      }
      var left := SvMisc.GetString(e.value);
      if left.None? {
        return Err(UnwrapNone);
      }
      return Ok([(left.value, None)]);
    }
    return Ok([]);
  }

  method PortUnpackeddimAnsi(m: Node) returns (r: Result<seq<SvUnpackedDimension>, Panic>)
    ensures r == UnpackedDims(m)
  {
    var ns := Nodes(Stream(m));
    var ret: seq<SvUnpackedDimension> := [];
    var i := 0;
    while i < |ns|
      invariant 0 <= i <= |ns|
      invariant FoldSteps(ns[..i], UnpackedStep) == Ok(ret)
    {
      FoldStepsNext(ns, i, UnpackedStep);
      var piece := UnpackedOf(ns[i]);
      if piece.Err? {
        FoldStepsStopPersists(ns, i + 1, UnpackedStep);
        return Err(piece.error);
      }
      ret := ret + piece.value;
      i := i + 1;
    }
    assert ns[..i] == ns;
    return Ok(ret);
  }

  /** A node that is not a dimension adds nothing. */
  lemma NonDimensionAddsNothing(n: Node)
    requires !n.tag.PackedDimensionRange? && !n.tag.UnpackedDimensionRange? && !n.tag.UnpackedDimensionExpression?
    ensures PackedStep(n) == Ok([]) && UnpackedStep(n) == Ok([])
  {
  }

  /** Dimensions are listed in traversal order: splitting the visited nodes
      splits the list in the same place. */
  lemma DimensionsInTraversalOrder(a: seq<Node>, b: seq<Node>)
    requires FoldSteps(a, PackedStep).Ok? && FoldSteps(b, PackedStep).Ok?
    requires FoldSteps(a, UnpackedStep).Ok? && FoldSteps(b, UnpackedStep).Ok?
    ensures FoldSteps(a + b, PackedStep) == Ok(FoldSteps(a, PackedStep).value + FoldSteps(b, PackedStep).value)
    ensures FoldSteps(a + b, UnpackedStep) == Ok(FoldSteps(a, UnpackedStep).value + FoldSteps(b, UnpackedStep).value)
  {
    FoldStepsAppend(a, b, PackedStep);
    FoldStepsAppend(a, b, UnpackedStep);
  }

  /** A range dimension keeps both bound texts; an expression dimension has no right bound. */
  lemma DimensionEntries(n: Node)
    requires FoldSteps([n], UnpackedStep).Ok?
    ensures n.tag.UnpackedDimensionExpression? ==>
      |FoldSteps([n], UnpackedStep).value| == 1 && FoldSteps([n], UnpackedStep).value[0].1.None?
    ensures n.tag.UnpackedDimensionRange? ==>
      forall d :: d in FoldSteps([n], UnpackedStep).value ==> d.1.Some?
  {
    assert [n][..0] == [];
  }

  // ---------------------------------------------------------------------
  // A whole port.
  // ---------------------------------------------------------------------

  /**
   * A port declaration. An inheriting port copies every attribute but its
   * name, unpacked dimensions and comment from the previous port; any
   * other port resolves each attribute from its own text.
   */
  function PortDeclarationAnsi(p: Node, prev: Option<SvPort>): (r: Result<SvPort, Panic>)
    ensures r.Ok? ==> Ok(r.value.identifier) == PortIdentifier(p)
    ensures r.Ok? ==> Ok(r.value.unpackedDimensions) == UnpackedDims(p)
    ensures r.Ok? ==> r.value.comment == SvMisc.CommentOf(p)
    ensures r.Ok? && PortCheckInheritanceAnsi(p, prev) ==>
      var q := prev.value;
      && r.value.direction == q.direction && r.value.netType == q.netType
      && r.value.dataKind == q.dataKind && r.value.dataType == q.dataType
      && r.value.classId == q.classId && r.value.signedness == q.signedness
      && r.value.packedDimensions == q.packedDimensions
    ensures r.Ok? && !PortCheckInheritanceAnsi(p, prev) ==>
      && r.value.direction == PortDirectionAnsi(p, prev)
      && Ok(r.value.netType) == PortNettypeAnsi(p, r.value.direction)
      && r.value.dataKind == PortDatakindAnsi(r.value.netType)
      && Ok(r.value.dataType) == PortDatatypeAnsi(p)
      && Ok(r.value.classId) == PortClassidAnsi(p, r.value.dataType)
      && r.value.signedness == PortSignednessAnsi(p, r.value.dataType)
      && Ok(r.value.packedDimensions) == PackedDims(p)
  {
    if !PortCheckInheritanceAnsi(p, prev) then
      var identifier :- PortIdentifier(p);
      var direction := PortDirectionAnsi(p, prev);
      var netType :- PortNettypeAnsi(p, direction);
      var dataType :- PortDatatypeAnsi(p);
      var classId :- PortClassidAnsi(p, dataType);
      var packed :- PackedDims(p);
      var unpacked :- UnpackedDims(p);
      Ok(SvPort(identifier, direction, PortDatakindAnsi(netType), dataType, classId, netType,
                PortSignednessAnsi(p, dataType), packed, unpacked, SvMisc.CommentOf(p)))
    else
      var q := prev.value;
      var identifier :- PortIdentifier(p);
      var unpacked :- UnpackedDims(p);
      Ok(SvPort(identifier, q.direction, q.dataKind, q.dataType, q.classId, q.netType,
                q.signedness, q.packedDimensions, unpacked, SvMisc.CommentOf(p)))
  }

  /**
   * The attributes of a resolved port agree with each other: a port is a
   * net exactly when it has a net type, and neither its direction nor its
   * data kind is IMPLICIT.
   */
  predicate PortConsistent(q: SvPort) {
    && (q.dataKind == Net <==> q.netType.Some?)
    && q.dataKind != SvDataKind.IMPLICIT
    && q.direction != SvPortDirection.IMPLICIT
  }

  /** Resolving a port after a consistent port (or first) gives a consistent port. */
  lemma PortDeclarationKeepsConsistency(p: Node, prev: Option<SvPort>)
    requires prev.Some? ==> PortConsistent(prev.value)
    ensures PortDeclarationAnsi(p, prev).Ok? ==> PortConsistent(PortDeclarationAnsi(p, prev).value)
  {
  }

  // ---------------------------------------------------------------------
  // Parameters.
  // ---------------------------------------------------------------------

  /** Whether the assignment has a default value. */
  function PortParameterCheckDefaultAnsi(p: Node): (b: bool)
    ensures b <==> exists e :: Find(p, IsConstantParamExpression) == Some(e)
  {
    Find(p, IsConstantParamExpression).Some?
  }

  /** Whether the default value needs working out beyond a single literal. */
  function ParameterResolverNeededAnsi(p: Node): (b: bool)
    ensures b <==> exists x :: Enter(x) in Stream(p) && IsResolverTrigger(x.tag)
  {
    Find(p, IsResolverTrigger).Some?
  }

  function PortParameterIdentifierAnsi(p: Node): (r: Result<string, Panic>)
    ensures r.Ok? ==> exists id :: Find(p, IsParameterIdentifier) == Some(id) && SvMisc.Identifier(id) == Some(r.value)
  {
    var id :- Unwrap(Find(p, IsParameterIdentifier));
    Unwrap(SvMisc.Identifier(id))
  }

  /** The default value's text: none without a default. */
  function PortParameterValueAnsi(p: Node, found: bool): (r: Option<string>)
    requires found ==> Contains(p, IsConstantParamExpression)
    ensures !found ==> r.None?
    ensures found ==> r == SvMisc.StringOf(Find(p, IsConstantParamExpression).value)
  {
    if !found then None
    else SvMisc.StringOf(Find(p, IsConstantParamExpression).value)
  }

  /** The data type of the first literal in an expression that needs resolving. */
  function ParameterDatatypeResolverAnsi(p: Node): (d: SvDataType)
    ensures !Contains(p, IsLiteral) ==> d == SvDataType.Unsupported
    ensures d in {Logic, Real, Time, Bit, String, SvDataType.Unsupported}
    // an integral number is Real when a real number appears anywhere in the expression
    ensures Contains(p, IsLiteral) && Find(p, IsLiteral).value.tag.Number? ==>
      d == (if Find(p, IsLiteral).value.tag.integral && !Contains(p, IsRealNumber) then Logic else Real)
    // a time or unbased literal takes the kind of the first number, if any
    ensures Contains(p, IsLiteral) && (Find(p, IsLiteral).value.tag.TimeLiteral? || Find(p, IsLiteral).value.tag.UnbasedUnsizedLiteral?) ==>
      d == (if !Contains(p, IsRealOrIntegral) then (if Find(p, IsLiteral).value.tag.TimeLiteral? then Time else Bit)
            else if Find(p, IsRealOrIntegral).value.tag.RealNumber? then Real else Logic)
    ensures Contains(p, IsLiteral) && Find(p, IsLiteral).value.tag.StringLiteral? ==> d == String
  {
    match Find(p, IsLiteral)
    case None => SvDataType.Unsupported
    case Some(n) =>
      if n.tag.Number? then
        if n.tag.integral then (if Contains(p, IsRealNumber) then Real else Logic)
        else Real
      else if n.tag.TimeLiteral? || n.tag.UnbasedUnsizedLiteral? then
        match Find(p, IsRealOrIntegral)
        case Some(x) => if x.tag.RealNumber? then Real else Logic
        case None => if n.tag.TimeLiteral? then Time else Bit
      else String
  }

  /** Whether a declaration writes a type keyword. */
  predicate WritesTypeKeyword(common: Option<Node>) {
    common.Some? && Contains(common.value, IsTypeKeyword)
  }

  /** Whether a declaration writes some other data type. */
  predicate WritesDataType(common: Option<Node>) {
    common.Some? && Contains(common.value, IsDataType)
  }

  /** The data type implied by the kind of a default value's first literal. */
  function LiteralDatatype(n: Node): (d: SvDataType)
    ensures n.tag.Number? ==> d in {Logic, Real} && (d == Logic <==> n.tag.integral)
    ensures n.tag.UnbasedUnsizedLiteral? ==> d == Logic
    ensures n.tag.TimeLiteral? ==> d == Time
    ensures !(n.tag.Number? || n.tag.UnbasedUnsizedLiteral? || n.tag.TimeLiteral?) ==> d == String
  {
    if n.tag.Number? then (if n.tag.integral then Logic else Real)
    else if n.tag.UnbasedUnsizedLiteral? then Logic
    else if n.tag.TimeLiteral? then Time
    else String
  }

  /**
   * The data type of a parameter, and whether it was inferred from the
   * default value (and so may be overridden) rather than written.
   */
  function PortParameterDatatypeAnsi(common: Option<Node>, p: Node, found: bool, paramType: SvParamType)
    : (r: Result<(Option<SvDataType>, bool), Panic>)
    ensures WritesTypeKeyword(common) ==>
      r == Ok((Some(DataTypeOf(Find(common.value, IsTypeKeyword).value.tag.kw)), false))
    // any other written data type must be `string`, or extraction panics
    ensures !WritesTypeKeyword(common) && WritesDataType(common) ==>
      && (r.Ok? <==> SvMisc.Keyword(Find(common.value, IsDataType).value) == Some("string"))
      && (r.Ok? ==> r.value == (Some(String), false))
    // an expression that needs resolving: by its first literal when it has an operator
    ensures !WritesTypeKeyword(common) && !WritesDataType(common) && found && ParameterResolverNeededAnsi(p) ==>
      r == Ok((Some(if Contains(p, IsBinaryOperator) then ParameterDatatypeResolverAnsi(p) else SvDataType.Unsupported), true))
    // a plain literal: by its kind
    ensures !WritesTypeKeyword(common) && !WritesDataType(common) && found && !ParameterResolverNeededAnsi(p) ==>
      r == Ok((Some(if Contains(p, IsLiteral) then LiteralDatatype(Find(p, IsLiteral).value) else SvDataType.Unsupported), true))
    ensures !WritesTypeKeyword(common) && !WritesDataType(common) && !found ==>
      r == Ok(if paramType == Parameter then (None, true) else (Some(Logic), false))
    ensures r.Ok? && r.value.1 ==> !WritesTypeKeyword(common)
  {
    var default := if paramType == Parameter then (None, true) else (Some(Logic), false);
    var written := if common.Some? then Find(common.value, IsTypeKeyword) else None;
    match written
    case Some(n) => Ok((Some(DataTypeOf(n.tag.kw)), false))
    case None =>
      if common.Some? && Contains(common.value, IsDataType) then
        match SvMisc.Keyword(Find(common.value, IsDataType).value)
        case Some(k) => if k == "string" then Ok((Some(String), false)) else Err(Unreachable)
        case None => Err(Unreachable)
      else if found then
        if ParameterResolverNeededAnsi(p) then
          if Contains(p, IsBinaryOperator) then Ok((Some(ParameterDatatypeResolverAnsi(p)), true))
          else Ok((Some(SvDataType.Unsupported), true))
        else
          match Find(p, IsLiteral)
          case Some(n) => Ok((Some(LiteralDatatype(n)), true))
          case None => Ok((Some(SvDataType.Unsupported), true))
      else Ok(default)
  }

  // The signedness resolver visits the nodes of the expression in order and
  // stops at the first one that decides.

  datatype ScanStep = Continue | Decide(signedness: Option<SvSignedness>)

  /** The binary operators whose result the resolver takes as unsigned, as
      written: the inequality operator appears spelled backwards. */
  const UNSIGNED_OPERATORS: set<string> := {"&", "~&", "|", "~|", "^", "~^", "<", "<=", ">", ">=", "==", "=!"}

  /** The same list with the inequality operator spelled `!=`, as evidently intended. */
  const INTENDED_UNSIGNED_OPERATORS: set<string> := {"&", "~&", "|", "~|", "^", "~^", "<", "<=", ">", ">=", "==", "!="}

  /** The spelling of a base that marks its literal signed. */
  function SignedBaseToken(base: Tag): string {
    if base.BinaryBase? then "'sb"
    else if base.HexBase? then "'sh"
    else if base.OctalBase? then "'so"
    else "'sd"
  }

  /** What one visited node says about the signedness of the expression. */
  function ResolverStep(n: Node, operators: set<string>): Result<ScanStep, Panic> {
    if n.tag.Number? then
      if !n.tag.integral then Ok(Decide(None))
      else
        match Find(n, IsBasedNumber)
        case None => Ok(Continue)
        case Some(it) =>
          match Find(it, IsResolverBase)
          case None => Ok(Decide(Some(SvSignedness.Unsupported)))
          case Some(base) =>
            var token :- Unwrap(SvMisc.StringOf(base));
            Ok(if token != SignedBaseToken(base.tag) then Decide(Some(Unsigned)) else Continue)
    else if n.tag.TimeLiteral? || n.tag.UnbasedUnsizedLiteral? then Ok(Decide(Some(Unsigned)))
    else if n.tag.BinaryOperator? then
      var symbol :- Unwrap(SvMisc.Symbol(n));
      Ok(if symbol in operators then Decide(Some(Unsigned)) else Continue)
    else Ok(Continue)
  }

  /** The decision of the first deciding node; Signed when none decides. */
  function ResolverScan(ns: seq<Node>, operators: set<string>): Result<Option<SvSignedness>, Panic> {
    if ns == [] then Ok(Some(Signed))
    else
      var s :- ResolverStep(ns[0], operators);
      match s
      case Decide(g) => Ok(g)
      case Continue => ResolverScan(ns[1..], operators)
  }

  function SignednessResolverOf(p: Node, dataType: Option<SvDataType>, operators: set<string>)
    : Result<Option<SvSignedness>, Panic>
  {
    if dataType == Some(String) then Ok(None) else ResolverScan(Nodes(Stream(p)), operators)
  }

  /** The body of the resolver loop for one visited node. */
  method ResolverStepAnsi(node: Node, operators: set<string>) returns (r: Result<ScanStep, Panic>)
    ensures r == ResolverStep(node, operators)
  {
    match node.tag {
      case Number(integral) =>
        if !integral {
          return Ok(Decide(None));
        }
        var integralType := Find(node, IsBasedNumber);
        if integralType.None? {
          return Ok(Continue);
        }
        var base := Find(integralType.value, IsResolverBase);
        if base.None? {
          return Ok(Decide(Some(SvSignedness.Unsupported)));
        }
        var token := SvMisc.GetString(base.value);
        if token.None? {
          return Err(UnwrapNone);
        }
        var b := base.value.tag;
        if b.BinaryBase? {
          return Ok(if token.value != "'sb" then Decide(Some(Unsigned)) else Continue);
        } else if b.HexBase? {
          return Ok(if token.value != "'sh" then Decide(Some(Unsigned)) else Continue);
        } else if b.OctalBase? {
          return Ok(if token.value != "'so" then Decide(Some(Unsigned)) else Continue);
        } else {
          return Ok(if token.value != "'sd" then Decide(Some(Unsigned)) else Continue);
        }
      case TimeLiteral =>
        return Ok(Decide(Some(Unsigned)));
      case UnbasedUnsizedLiteral =>
        return Ok(Decide(Some(Unsigned)));
      case BinaryOperator =>
        var symbol := SvMisc.Symbol(node);
        if symbol.None? {
          return Err(UnwrapNone);
        }
        return Ok(if symbol.value in operators then Decide(Some(Unsigned)) else Continue);
      case _ =>
        return Ok(Continue);
    }
  }

  /** The resolver loop: it stops at the first deciding node; its result is the scan's. */
  method ParameterSignednessResolverAnsi(p: Node, dataType: Option<SvDataType>, operators: set<string>)
    returns (r: Result<Option<SvSignedness>, Panic>)
    ensures r == SignednessResolverOf(p, dataType, operators)
  {
    if dataType == Some(String) {
      return Ok(None);
    }
    var ns := Nodes(Stream(p));
    var ret: Option<SvSignedness> := Some(Signed);
    var i := 0;
    while i < |ns|
      invariant 0 <= i <= |ns|
      invariant ResolverScan(ns, operators) == ResolverScan(ns[i..], operators)
    {
      assert ns[i..][0] == ns[i] && ns[i..][1..] == ns[i + 1..];
      var step := ResolverStepAnsi(ns[i], operators);
      if step.Err? {
        return Err(step.error);
      }
      if step.value.Decide? {
        ret := step.value.signedness;
        break;
      }
      i := i + 1;
    }
    if i == |ns| {
      assert ns[i..] == [];
    }
    return Ok(ret);
  }

  /** A binary operator node whose only token is the symbol `text`. */
  function OperatorNode(text: string): (n: Node)
    ensures n.tag.BinaryOperator? && SvMisc.Symbol(n) == Some(text)
  {
    var sym := Node(Symbol(text), text, []);
    var n := Node(BinaryOperator, text, [Enter(sym), Leave(sym)]);
    assert Stream(n)[1] == Enter(sym);
    n
  }

  /** An unbased, unsized decimal literal such as `1`. */
  function DecimalLiteralNode(text: string): Node {
    Node(Number(true), text, [])
  }

  /**
   * As written, `1 != 2` is taken as Signed while `1 == 2` is taken as
   * Unsigned: the backwards `=!` in the operator list matches no symbol the
   * parser produces, so an inequality never decides.
   */
  lemma NotEqualResolvedSigned()
    ensures ResolverScan([DecimalLiteralNode("1"), OperatorNode("!="), DecimalLiteralNode("2")], UNSIGNED_OPERATORS)
            == Ok(Some(Signed))
  {
    var one, two := DecimalLiteralNode("1"), DecimalLiteralNode("2");
    var ne := OperatorNode("!=");
    LiteralContinues("1", UNSIGNED_OPERATORS);
    LiteralContinues("2", UNSIGNED_OPERATORS);
    NotEqualIsNotListed();
    OperatorStep("!=", UNSIGNED_OPERATORS);
    var xs := [one, ne, two];
    assert xs[0] == one && xs[1] == ne && xs[2] == two;
    ContinuePrefixScan(xs, [], UNSIGNED_OPERATORS);
    assert xs + [] == xs;
  }

  /** The same literals compared with `==` are taken as Unsigned. */
  lemma EqualResolvedUnsigned()
    ensures ResolverScan([DecimalLiteralNode("1"), OperatorNode("=="), DecimalLiteralNode("2")], UNSIGNED_OPERATORS)
            == Ok(Some(Unsigned))
  {
    var one, two := DecimalLiteralNode("1"), DecimalLiteralNode("2");
    var eq := OperatorNode("==");
    LiteralContinues("1", UNSIGNED_OPERATORS);
    NotEqualIsNotListed();
    OperatorStep("==", UNSIGNED_OPERATORS);
    var ys := [one, eq, two];
    ContinuePrefixScan([one], [eq, two], UNSIGNED_OPERATORS);
    assert [one] + [eq, two] == ys;
    assert [eq, two][0] == eq;
  }

  lemma NotEqualIsNotListed()
    ensures "!=" !in UNSIGNED_OPERATORS && "==" in UNSIGNED_OPERATORS
  {
    assert "!="[0] == '!';
  }

  lemma LiteralContinues(text: string, operators: set<string>)
    ensures ResolverStep(DecimalLiteralNode(text), operators) == Ok(Continue)
  {
    var n := DecimalLiteralNode(text);
    assert Stream(n) == [Enter(n), Leave(n)];
    assert Stream(n)[1..] == [Leave(n)] && Stream(n)[1..][1..] == [];
  }

  lemma OperatorStep(text: string, operators: set<string>)
    ensures ResolverStep(OperatorNode(text), operators)
            == Ok(if text in operators then Decide(Some(Unsigned)) else Continue)
  {
  }

  /**
   * With the intended list, the equality and the inequality operator decide
   * alike: an expression whose first deciding node is either of them is
   * Unsigned, whatever follows.
   */
  lemma IntendedEqualityOperatorsAgree(before: seq<Node>, after: seq<Node>, text: string)
    requires text in {"==", "!="}
    requires forall k :: 0 <= k < |before| ==> ResolverStep(before[k], INTENDED_UNSIGNED_OPERATORS) == Ok(Continue)
    ensures ResolverScan(before + [OperatorNode(text)] + after, INTENDED_UNSIGNED_OPERATORS) == Ok(Some(Unsigned))
  {
    var op := OperatorNode(text);
    ContinuePrefixScan(before, [op] + after, INTENDED_UNSIGNED_OPERATORS);
    assert before + [op] + after == before + ([op] + after);
    OperatorStep(text, INTENDED_UNSIGNED_OPERATORS);
    assert ([op] + after)[0] == op;
  }

  /** Nodes that do not decide can be skipped. */
  lemma {:induction false} ContinuePrefixScan(before: seq<Node>, rest: seq<Node>, operators: set<string>)
    requires forall k :: 0 <= k < |before| ==> ResolverStep(before[k], operators) == Ok(Continue)
    ensures ResolverScan(before + rest, operators) == ResolverScan(rest, operators)
  {
    if before != [] {
      assert (before + rest)[0] == before[0];
      assert (before + rest)[1..] == before[1..] + rest;
      assert ResolverStep((before + rest)[0], operators) == Ok(Continue);
      ContinuePrefixScan(before[1..], rest, operators);
    } else {
      assert before + rest == rest;
    }
  }

  /**
   * The signedness a literal's base spelling gives: signed exactly when
   * spelled with `s`; an unsigned decimal base is not overridable.
   */
  function BaseSignedness(base: Tag, token: string): (r: (Option<SvSignedness>, bool))
    requires IsBase(base)
    ensures r.0 == Some(if token == SignedBaseToken(base) then Signed else Unsigned)
    ensures !r.1 <==> base.DecimalBase? && token != "'sd"
  {
    if base.BinaryBase? || base.HexBase? || base.OctalBase? then
      (Some(if token == SignedBaseToken(base) then Signed else Unsigned), true)
    else if token == "'sd" then (Some(Signed), true)
    else (Some(Unsigned), false)
  }

  /**
   * The signedness of a parameter and whether it may be overridden. A
   * written signing wins and is not overridable; Class, String and Real
   * have none; the signed integer types are Signed; an inferred Logic is
   * worked out from its literal's base.
   */
  function PortParameterSignednessAnsi(common: Option<Node>, p: Node, dataType: Option<SvDataType>,
                                       found: bool, dataTypeOverridable: bool, operators: set<string>)
    : (r: Result<(Option<SvSignedness>, bool), Panic>)
    ensures common.Some? && Contains(common.value, IsSigning) ==>
      r == Ok((Some(if Find(common.value, IsSigning).value.tag.signing == KwSigned then Signed else Unsigned), false))
    ensures !(common.Some? && Contains(common.value, IsSigning)) && dataType in {Some(Class), Some(String), Some(Real)} ==>
      r == Ok((None, dataTypeOverridable))
    ensures !(common.Some? && Contains(common.value, IsSigning)) && dataType.Some? && SignedByDefault(dataType.value) ==>
      r == Ok((Some(Signed), true))
    ensures !(common.Some? && Contains(common.value, IsSigning)) && dataType == Some(Logic) && !(dataTypeOverridable && found) ==>
      r == Ok((Some(Unsigned), true))
    ensures !(common.Some? && Contains(common.value, IsSigning)) && dataType.None? ==> r == Ok((None, true))
    // an inferred Logic whose expression needs resolving
    ensures !(common.Some? && Contains(common.value, IsSigning)) && dataType == Some(Logic) && dataTypeOverridable && found
            && ParameterResolverNeededAnsi(p) ==>
      if Contains(p, IsBinaryOperator) then
        var g := SignednessResolverOf(p, dataType, operators);
        (r.Ok? <==> g.Ok?) && (r.Ok? ==> r.value == (g.value, true))
      else r == Ok((Some(SvSignedness.Unsupported), true))
    // an inferred Logic from a plain literal: by the literal's base
    ensures !(common.Some? && Contains(common.value, IsSigning)) && dataType == Some(Logic) && dataTypeOverridable && found
            && !ParameterResolverNeededAnsi(p) ==>
      match Find(p, IsIntegralLiteral)
      case None => r.Err?
      case Some(it) =>
        if it.tag.UnbasedUnsizedLiteral? then r == Ok((Some(Unsigned), true))
        else if it.tag.DecimalNumber? && it.tag.unsignedNumber then r == Ok((Some(Signed), true))
        else
          match Find(it, IsBase)
          case None => r == Ok((Some(SvSignedness.Unsupported), true))
          case Some(base) =>
            match SvMisc.StringOf(base)
            case None => r.Err?
            case Some(token) => r == Ok(BaseSignedness(base.tag, token))
    // the remaining types
    ensures !(common.Some? && Contains(common.value, IsSigning)) && dataType == Some(SvDataType.Unsupported) ==>
      r == Ok((Some(SvSignedness.Unsupported), true))
    ensures !(common.Some? && Contains(common.value, IsSigning)) && dataType.Some?
            && dataType.value !in {Class, String, Real, Logic, SvDataType.Unsupported} && !SignedByDefault(dataType.value) ==>
      r == Ok((Some(Unsigned), true))
  {
    var written := if common.Some? then Find(common.value, IsSigning) else None;
    match written
    case Some(n) => Ok((Some(if n.tag.signing == KwSigned then Signed else Unsigned), false))
    case None =>
      match dataType
      case None => Ok((None, true))
      case Some(d) =>
        if d in {Class, String, Real} then Ok((None, dataTypeOverridable))
        else if SignedByDefault(d) then Ok((Some(Signed), true))
        else if d == Logic then
          if !dataTypeOverridable || !found then Ok((Some(Unsigned), true))
          else if ParameterResolverNeededAnsi(p) then
            if Contains(p, IsBinaryOperator) then
              var g :- SignednessResolverOf(p, dataType, operators);
              Ok((g, true))
            else Ok((Some(SvSignedness.Unsupported), true))
          else
            match Find(p, IsIntegralLiteral)
            case None => Err(UnwrapNone)
            case Some(it) =>
              if it.tag.UnbasedUnsizedLiteral? then Ok((Some(Unsigned), true))
              else if it.tag.DecimalNumber? && it.tag.unsignedNumber then Ok((Some(Signed), true))
              else
                match Find(it, IsBase)
                case None => Ok((Some(SvSignedness.Unsupported), true))
                case Some(base) =>
                  var token :- Unwrap(SvMisc.StringOf(base));
                  Ok(BaseSignedness(base.tag, token))
        else if d == SvDataType.Unsupported then Ok((Some(SvSignedness.Unsupported), true))
        else Ok((Some(Unsigned), true))
  }

  /** A class parameter's class name, from its data type; other parameters have none. */
  function PortParameterClassidAnsi(common: Option<Node>, dataType: Option<SvDataType>): (r: Result<Option<string>, Panic>)
    ensures dataType != Some(Class) ==> r == Ok(None)
    ensures dataType == Some(Class) && common.Some? && Contains(common.value, IsClassIdentifier) ==>
      r == Ok(SvMisc.Identifier(Find(common.value, IsClassIdentifier).value))
    ensures dataType == Some(Class) && common.None? ==> r.Err?
  {
    if dataType == Some(Class) then
      var m :- Unwrap(common);
      match Find(m, IsClassIdentifier)
      case Some(id) => Ok(SvMisc.Identifier(id))
      case None => Err(Unreachable)
    else Ok(None)
  }

  // Bit width from packed dimensions: each dimension [l:r] spans |l - r| + 1
  // bits and the width is their product, worked out in 64-bit arithmetic.

  function Reverse<T>(s: seq<T>): (r: seq<T>)
    ensures |r| == |s|
    ensures forall i :: 0 <= i < |s| ==> r[i] == s[|s| - 1 - i]
  {
    if s == [] then [] else Reverse(s[1..]) + [s[0]]
  }

  /** The running product, or the point where a bound did not parse. */
  datatype BitsAcc = Counting(bits: U64) | GaveUp

  function Abs(x: int): nat { if x < 0 then -x else x }

  /** The product of two widths, a width itself. */
  function Times(a: nat, b: nat): nat { a * b }

  /** One dimension folded into the running product. */
  function BitsStep(acc: U64, dim: SvPackedDimension): Result<BitsAcc, Panic> {
    match (Text.ParseI64(dim.0), Text.ParseI64(dim.1))
    case (Some(l), Some(r)) =>
      var res := l - r;
      if !(-(Text.I64_LIMIT as int) < res < Text.I64_LIMIT) then Err(Overflow)  // i64 subtraction or abs
      else
        var w := Abs(res) + 1;
        if acc == 0 then Ok(Counting(w))
        else if Times(acc, w) >= Text.U64_LIMIT then Err(Overflow)
        else Ok(Counting(Times(acc, w)))
    case _ => Ok(GaveUp)
  }

  function BitsFold(dims: seq<SvPackedDimension>): Result<BitsAcc, Panic> {
    if dims == [] then Ok(Counting(0))
    else
      var acc :- BitsFold(dims[..|dims| - 1]);
      match acc
      case GaveUp => Ok(GaveUp)
      case Counting(n) => BitsStep(n, dims[|dims| - 1])
  }

  /** Once the fold stops or gives up, later dimensions change nothing. */
  lemma {:induction false} BitsFoldStopPersists(dims: seq<SvPackedDimension>, i: nat)
    requires i <= |dims| && (BitsFold(dims[..i]).Err? || BitsFold(dims[..i]) == Ok(GaveUp))
    ensures BitsFold(dims) == BitsFold(dims[..i])
    decreases |dims|
  {
    if i < |dims| {
      var pre := dims[..|dims| - 1];
      assert pre[..i] == dims[..i];
      BitsFoldStopPersists(pre, i);
    } else {
      assert dims[..i] == dims;
    }
  }

  /** The UTF-8 length of a string (Rust's `str::len`). */
  function Utf8Length(s: string): nat {
    if s == [] then 0
    else
      var c := s[0] as int;
      (if c < 0x80 then 1 else if c < 0x800 then 2 else if c < 0x1_0000 then 3 else 4) + Utf8Length(s[1..])
  }

  /**
   * The bit width of a parameter. With packed dimensions it is the product
   * of their spans, or 404 once a bound is not an integer; otherwise it
   * comes from the data type.
   */
  function PortParameterBitsOf(packed: seq<SvPackedDimension>, p: Node, dataType: Option<SvDataType>,
                               dataTypeOverridable: bool, found: bool, expression: Option<string>)
    : Result<Option<U64>, Panic>
  {
    if packed != [] then
      var acc :- BitsFold(Reverse(packed));
      match acc
      case GaveUp => Ok(Some(404))
      case Counting(n) => Ok(Some(n))
    else
      match dataType
      case None => Ok(None)
      case Some(d) =>
        match d
        case Class => Ok(None)
        case Bit => Ok(Some(1))
        case Byte => Ok(Some(8))
        case Integer => Ok(Some(32))
        case Int => Ok(Some(32))
        case Shortreal => Ok(Some(32))
        case Shortint => Ok(Some(16))
        case Longint => Ok(Some(64))
        case Time => Ok(Some(64))
        case Real => Ok(Some(64))
        case Realtime => Ok(Some(64))
        case String =>
          if ParameterResolverNeededAnsi(p) then Ok(Some(404))
          else if !found then Ok(None)
          else
            var e :- Unwrap(expression);
            var len := Utf8Length(e);
            if len < 2 || (len - 2) * 8 >= Text.U64_LIMIT then Err(Overflow)
            else Ok(Some((len - 2) * 8))
        case Reg => LogicBits(p, dataTypeOverridable, found)
        case Logic => LogicBits(p, dataTypeOverridable, found)
        case Unsupported => Ok(Some(404))
        case _ => Err(Unreachable)
  }

  /** The width of a Logic or Reg parameter without packed dimensions. */
  function LogicBits(p: Node, dataTypeOverridable: bool, found: bool): (r: Result<Option<U64>, Panic>)
    ensures !ParameterResolverNeededAnsi(p) && !dataTypeOverridable ==> r == Ok(Some(1))
  {
    if ParameterResolverNeededAnsi(p) then Ok(Some(404))
    else if !dataTypeOverridable then Ok(Some(1))
    else if !found then Ok(None)
    else
      match Find(p, IsSizeOrUnbased)
      case Some(n) =>
        if n.tag.Size? then
          var text :- Unwrap(SvMisc.StringOf(n));
          var v :- Unwrap(Text.ParseU64(text));
          Ok(Some(v))
        else Ok(Some(1))
      case None => Ok(Some(32))
  }

  /** The bit-width function as written, with its loop over the reversed dimensions. */
  method PortParameterBitsAnsi(packed: seq<SvPackedDimension>, p: Node, dataType: Option<SvDataType>,
                               dataTypeOverridable: bool, found: bool, expression: Option<string>)
    returns (r: Result<Option<U64>, Panic>)
    ensures r == PortParameterBitsOf(packed, p, dataType, dataTypeOverridable, found, expression)
  {
    if packed != [] {
      var dims := Reverse(packed);
      var nuBits: U64 := 0;
      var i := 0;
      while i < |dims|
        invariant 0 <= i <= |dims|
        invariant BitsFold(dims[..i]) == Ok(Counting(nuBits))
      {
        assert dims[..i + 1][..i] == dims[..i];
        assert dims[..i + 1][i] == dims[i];
        var step := BitsStep(nuBits, dims[i]);
        if step.Err? {
          BitsFoldStopPersists(dims, i + 1);
          return Err(step.error);
        }
        if step.value.GaveUp? {
          BitsFoldStopPersists(dims, i + 1);
          return Ok(Some(404));
        }
        nuBits := step.value.bits;
        i := i + 1;
      }
      assert dims[..i] == dims;
      return Ok(Some(nuBits));
    }
    r := PortParameterBitsOf(packed, p, dataType, dataTypeOverridable, found, expression);
  }

  /** A dimension whose bounds are integers that differ by less than 2^63. */
  predicate Spannable(d: SvPackedDimension) {
    Text.ParseI64(d.0).Some? && Text.ParseI64(d.1).Some?
    && Abs(Text.ParseI64(d.0).value - Text.ParseI64(d.1).value) < Text.I64_LIMIT
  }

  /** The number of bits a dimension spans, |l - r| + 1. */
  function Span(d: SvPackedDimension): (w: nat)
    requires Spannable(d)
    ensures 1 <= w <= Text.I64_LIMIT
  {
    Abs(Text.ParseI64(d.0).value - Text.ParseI64(d.1).value) + 1
  }

  predicate AllSpannable(dims: seq<SvPackedDimension>) {
    forall i :: 0 <= i < |dims| ==> Spannable(dims[i])
  }

  function SpanProduct(dims: seq<SvPackedDimension>): (n: nat)
    requires AllSpannable(dims)
    ensures n >= 1
  {
    if dims == [] then 1
    else
      var last := dims[|dims| - 1];
      assert Spannable(last);
      var pre := dims[..|dims| - 1];
      assert AllSpannable(pre) by {
        forall i | 0 <= i < |pre| ensures Spannable(pre[i]) {
          assert pre[i] == dims[i];
        }
      }
      MulAtLeastOne(SpanProduct(pre), Span(last));
      SpanProduct(pre) * Span(last)
  }

  lemma MulAtLeastOne(x: nat, y: nat)
    requires x >= 1 && y >= 1
    ensures x * y >= x && x * y >= y && x * y >= 1
  {
  }

  lemma MulAssoc(x: nat, y: nat, z: nat)
    ensures (x * y) * z == x * (y * z)
  {
  }

  /** One spannable dimension multiplies the running product by its span. */
  lemma BitsStepOfSpan(acc: U64, d: SvPackedDimension)
    requires Spannable(d)
    ensures BitsStep(acc, d) ==
      if acc == 0 then Ok(Counting(Span(d)))
      else if Times(acc, Span(d)) >= Text.U64_LIMIT then Err(Overflow)
      else Ok(Counting(Times(acc, Span(d))))
  {
  }

  /** Once every bound parses and nothing overflows, the fold is the product of the spans. */
  lemma {:induction false} BitsFoldIsSpanProduct(dims: seq<SvPackedDimension>)
    requires |dims| >= 1 && AllSpannable(dims)
    requires SpanProduct(dims) < Text.U64_LIMIT
    ensures BitsFold(dims) == Ok(Counting(SpanProduct(dims)))
  {
    var pre := dims[..|dims| - 1];
    var last := dims[|dims| - 1];
    assert Spannable(last);
    assert AllSpannable(pre) by {
      forall i | 0 <= i < |pre| ensures Spannable(pre[i]) {
        assert pre[i] == dims[i];
      }
    }
    if pre == [] {
      assert SpanProduct(pre) == 1;
      BitsStepOfSpan(0, last);
    } else {
      var n := SpanProduct(pre);
      assert SpanProduct(dims) == n * Span(last);
      MulAtLeastOne(n, Span(last));
      BitsFoldIsSpanProduct(pre);
      BitsStepOfSpan(n, last);
    }
  }

  lemma {:induction false} SpanProductFirst(dims: seq<SvPackedDimension>)
    requires |dims| >= 1 && AllSpannable(dims)
    ensures AllSpannable(dims[1..])
    ensures SpanProduct(dims) == Span(dims[0]) * SpanProduct(dims[1..])
  {
    assert Spannable(dims[0]);
    assert AllSpannable(dims[1..]) by {
      forall i | 0 <= i < |dims[1..]| ensures Spannable(dims[1..][i]) {
        assert dims[1..][i] == dims[i + 1];
      }
    }
    if |dims| > 1 {
      var pre := dims[..|dims| - 1];
      var last := dims[|dims| - 1];
      assert Spannable(last);
      assert AllSpannable(pre) by {
        forall i | 0 <= i < |pre| ensures Spannable(pre[i]) {
          assert pre[i] == dims[i];
        }
      }
      SpanProductFirst(pre);
      assert pre[1..] == dims[1..][..|dims[1..]| - 1];
      assert dims[1..][|dims[1..]| - 1] == last;
      assert SpanProduct(dims[1..]) == SpanProduct(pre[1..]) * Span(last);
      MulAssoc(Span(dims[0]), SpanProduct(pre[1..]), Span(last));
    } else {
      assert dims[1..] == [];
      assert dims[..0] == [];
    }
  }

  /** The order the dimensions are multiplied in does not change the product. */
  lemma {:induction false} SpanProductReverse(dims: seq<SvPackedDimension>)
    requires AllSpannable(dims)
    ensures AllSpannable(Reverse(dims))
    ensures SpanProduct(Reverse(dims)) == SpanProduct(dims)
  {
    var r := Reverse(dims);
    assert AllSpannable(r) by {
      forall i | 0 <= i < |r| ensures Spannable(r[i]) {
        assert r[i] == dims[|dims| - 1 - i];
      }
    }
    if dims != [] {
      SpanProductFirst(dims);
      SpanProductReverse(dims[1..]);
      assert r[..|r| - 1] == Reverse(dims[1..]);
      assert r[|r| - 1] == dims[0];
      assert SpanProduct(r) == SpanProduct(Reverse(dims[1..])) * Span(dims[0]);
    }
  }

  /**
   * With packed dimensions whose bounds are all integers, and no 64-bit
   * overflow, the width is the product of |l - r| + 1 over the dimensions.
   */
  lemma PackedBitsAreProduct(packed: seq<SvPackedDimension>, p: Node, dataType: Option<SvDataType>,
                             dataTypeOverridable: bool, found: bool, expression: Option<string>)
    requires packed != [] && AllSpannable(packed)
    requires SpanProduct(packed) < Text.U64_LIMIT
    ensures PortParameterBitsOf(packed, p, dataType, dataTypeOverridable, found, expression)
      == Ok(Some(SpanProduct(packed)))
  {
    SpanProductReverse(packed);
    BitsFoldIsSpanProduct(Reverse(packed));
  }

  /** A bound that is not an integer, met before any overflow, gives the width 404. */
  lemma UnparsableBoundGives404(packed: seq<SvPackedDimension>, k: nat, p: Node, dataType: Option<SvDataType>,
                                dataTypeOverridable: bool, found: bool, expression: Option<string>)
    requires k < |packed|
    requires BitsFold(Reverse(packed)[..k]).Ok?
    requires Text.ParseI64(Reverse(packed)[k].0).None? || Text.ParseI64(Reverse(packed)[k].1).None?
    ensures PortParameterBitsOf(packed, p, dataType, dataTypeOverridable, found, expression) == Ok(Some(404))
  {
    BitsFoldGivesUp(Reverse(packed), k);
    GaveUpGives404(packed, p, dataType, dataTypeOverridable, found, expression);
  }

  lemma BitsFoldGivesUp(dims: seq<SvPackedDimension>, k: nat)
    requires k < |dims| && BitsFold(dims[..k]).Ok?
    requires Text.ParseI64(dims[k].0).None? || Text.ParseI64(dims[k].1).None?
    ensures BitsFold(dims) == Ok(GaveUp)
  {
    var pre := dims[..k + 1];
    assert pre[..|pre| - 1] == dims[..k];
    assert pre[|pre| - 1] == dims[k];
    match BitsFold(dims[..k]).value {
      case GaveUp =>
      case Counting(n) => BitsStepUnparsable(n, dims[k]);
    }
    assert BitsFold(pre) == Ok(GaveUp);
    BitsFoldStopPersists(dims, k + 1);
  }

  lemma BitsStepUnparsable(acc: U64, d: SvPackedDimension)
    requires Text.ParseI64(d.0).None? || Text.ParseI64(d.1).None?
    ensures BitsStep(acc, d) == Ok(GaveUp)
  {
  }

  lemma GaveUpGives404(packed: seq<SvPackedDimension>, p: Node, dataType: Option<SvDataType>,
                       dataTypeOverridable: bool, found: bool, expression: Option<string>)
    requires packed != [] && BitsFold(Reverse(packed)) == Ok(GaveUp)
    ensures PortParameterBitsOf(packed, p, dataType, dataTypeOverridable, found, expression) == Ok(Some(404))
  {
  }

  /** `[7:0]` is 8 bits wide. */
  lemma SevenDownToZeroIsEightBits(p: Node, dataType: Option<SvDataType>, dataTypeOverridable: bool,
                                   found: bool, expression: Option<string>)
    ensures PortParameterBitsOf([("7", "0")], p, dataType, dataTypeOverridable, found, expression) == Ok(Some(8))
  {
    assert Text.ParseI64("7") == Some(7) by {
      assert Text.SplitSign("7") == (false, "7");
      assert Text.DigitsValue("7") == 7 by { assert "7"[..0] == ""; }
    }
    assert Text.ParseI64("0") == Some(0) by {
      assert Text.SplitSign("0") == (false, "0");
      assert Text.DigitsValue("0") == 0 by { assert "0"[..0] == ""; }
    }
    var dims: seq<SvPackedDimension> := [("7", "0")];
    assert Spannable(dims[0]) && Span(dims[0]) == 8;
    assert dims[..0] == [];
    assert SpanProduct(dims) == 8;
    PackedBitsAreProduct(dims, p, dataType, dataTypeOverridable, found, expression);
  }

  /** Without dimensions the width follows the data type. */
  lemma FixedWidths(p: Node, dataTypeOverridable: bool, found: bool, expression: Option<string>)
    ensures PortParameterBitsOf([], p, Some(Bit), dataTypeOverridable, found, expression) == Ok(Some(1))
    ensures PortParameterBitsOf([], p, Some(Byte), dataTypeOverridable, found, expression) == Ok(Some(8))
    ensures PortParameterBitsOf([], p, Some(Shortint), dataTypeOverridable, found, expression) == Ok(Some(16))
    ensures PortParameterBitsOf([], p, Some(Int), dataTypeOverridable, found, expression) == Ok(Some(32))
    ensures PortParameterBitsOf([], p, Some(Integer), dataTypeOverridable, found, expression) == Ok(Some(32))
    ensures PortParameterBitsOf([], p, Some(Shortreal), dataTypeOverridable, found, expression) == Ok(Some(32))
    ensures PortParameterBitsOf([], p, Some(Longint), dataTypeOverridable, found, expression) == Ok(Some(64))
    ensures PortParameterBitsOf([], p, Some(Time), dataTypeOverridable, found, expression) == Ok(Some(64))
    ensures PortParameterBitsOf([], p, Some(Real), dataTypeOverridable, found, expression) == Ok(Some(64))
    ensures PortParameterBitsOf([], p, Some(Realtime), dataTypeOverridable, found, expression) == Ok(Some(64))
    ensures PortParameterBitsOf([], p, Some(Class), dataTypeOverridable, found, expression) == Ok(None)
    ensures !ParameterResolverNeededAnsi(p) && !dataTypeOverridable ==>
      PortParameterBitsOf([], p, Some(Logic), dataTypeOverridable, found, expression) == Ok(Some(1))
      && PortParameterBitsOf([], p, Some(Reg), dataTypeOverridable, found, expression) == Ok(Some(1))
  {
  }

  /**
   * The combinations a parameter may not have: packed dimensions on an
   * Integer, Real, String or Time; a signing on a Real or String; a
   * localparam without a default. The first that applies is reported.
   */
  function PortParameterSyntaxAnsi(dataType: Option<SvDataType>, signedness: Option<SvSignedness>,
                                   packed: seq<SvPackedDimension>, paramType: SvParamType, found: bool)
    : (r: Option<Panic>)
    ensures r.Some? <==>
      || (packed != [] && dataType in {Some(Integer), Some(Real), Some(String), Some(Time)})
      || (signedness in {Some(Signed), Some(Unsigned)} && dataType in {Some(Real), Some(String)})
      || (paramType == LocalParam && !found)
    ensures r.Some? ==> r.value.Message?
    ensures paramType == LocalParam && !found && packed == [] && signedness.None? ==>
      r == Some(Message("Localparams must have a default value!"))
  {
    if packed != [] && dataType == Some(Integer) then Some(Message("Cannot combine packed dimensions with an integer!"))
    else if packed != [] && dataType == Some(Real) then Some(Message("Cannot combine packed dimensions with a real!"))
    else if packed != [] && dataType == Some(String) then Some(Message("Cannot combine packed dimensions with a string!"))
    else if packed != [] && dataType == Some(Time) then Some(Message("Cannot combine packed dimensions with time!"))
    else if signedness in {Some(Signed), Some(Unsigned)} && dataType == Some(Real) then Some(Message("Reals cannot have signedness!"))
    else if signedness in {Some(Signed), Some(Unsigned)} && dataType == Some(String) then Some(Message("Strings cannot have signedness!"))
    else if paramType == LocalParam && !found then Some(Message("Localparams must have a default value!"))
    else None
  }

  /**
   * The rest of a parameter once its data type and signedness are known:
   * its name, dimensions, class name, default, width and comment, and the
   * syntax check over them.
   */
  function PortParameterRecordAnsi(p: Node, common: Option<Node>, paramType: SvParamType, found: bool,
                                   dataType: Option<SvDataType>, explicitType: bool,
                                   signedness: Option<SvSignedness>, explicitSigning: bool)
    : (r: Result<SvParameter, Panic>)
    requires found == PortParameterCheckDefaultAnsi(p)
    ensures r.Ok? ==>
      && r.value.paramType == paramType && r.value.dataType == dataType && r.value.signedness == signedness
      && r.value.dataTypeOverridable == (explicitType && paramType == Parameter)
      && r.value.signednessOverridable == (explicitSigning && paramType == Parameter)
      && r.value.expression == PortParameterValueAnsi(p, found)
      && Ok(r.value.identifier) == PortParameterIdentifierAnsi(p)
      && r.value.comment == SvMisc.CommentOf(p)
      && (common.None? ==> r.value.packedDimensions == [])
      && (common.Some? ==> Ok(r.value.packedDimensions) == PackedDims(common.value))
      && Ok(r.value.unpackedDimensions) == UnpackedDims(p)
      && Ok(r.value.classId) == PortParameterClassidAnsi(common, dataType)
      && Ok(r.value.numBits) == PortParameterBitsOf(r.value.packedDimensions, p, dataType, explicitType, found, r.value.expression)
      && PortParameterSyntaxAnsi(dataType, signedness, r.value.packedDimensions, paramType, found).None?
  {
    var packed :- if common.Some? then PackedDims(common.value) else Ok([]);
    var isParam := paramType == Parameter;
    var identifier :- PortParameterIdentifierAnsi(p);
    var classId :- PortParameterClassidAnsi(common, dataType);
    var unpacked :- UnpackedDims(p);
    var expression := PortParameterValueAnsi(p, found);
    var numBits :- PortParameterBitsOf(packed, p, dataType, explicitType, found, expression);
    var ret := SvParameter(identifier, expression, paramType, dataType, explicitType && isParam, classId,
                           signedness, explicitSigning && isParam, numBits, packed, unpacked, SvMisc.CommentOf(p));
    match PortParameterSyntaxAnsi(dataType, signedness, packed, paramType, found)
    case Some(e) => Err(e)
    case None => Ok(ret)
  }

  /**
   * One parameter assignment, with the data type, signing and packed
   * dimensions of its declaration (`common`) when it has one. The
   * overridable flags hold only for a Parameter; a localparam without a
   * default, like any combination the syntax check rejects, stops.
   */
  function PortParameterDeclarationAnsi(p: Node, common: Option<Node>, paramType: SvParamType)
    : (r: Result<SvParameter, Panic>)
    ensures r.Ok? ==> r.value.paramType == paramType
    ensures r.Ok? && paramType == LocalParam ==> !r.value.dataTypeOverridable && !r.value.signednessOverridable
    ensures paramType == LocalParam && !PortParameterCheckDefaultAnsi(p) ==> r.Err?
    ensures r.Ok? ==> PortParameterSyntaxAnsi(r.value.dataType, r.value.signedness, r.value.packedDimensions,
                                              paramType, PortParameterCheckDefaultAnsi(p)).None?
    ensures r.Ok? && r.value.expression.Some? ==> PortParameterCheckDefaultAnsi(p)
    ensures r.Ok? ==> Ok(r.value.identifier) == PortParameterIdentifierAnsi(p)
    ensures r.Ok? ==> r.value.comment == SvMisc.CommentOf(p)
    ensures r.Ok? && common.None? ==> r.value.packedDimensions == []
    ensures r.Ok? && common.Some? ==> Ok(r.value.packedDimensions) == PackedDims(common.value)
    ensures r.Ok? ==> Ok(r.value.unpackedDimensions) == UnpackedDims(p)
    ensures var found := PortParameterCheckDefaultAnsi(p);
      var dt := PortParameterDatatypeAnsi(common, p, found, paramType);
      && (dt.Err? ==> r.Err?)
      && (r.Ok? ==>
            && dt.Ok? && r.value.dataType == dt.value.0
            && r.value.dataTypeOverridable == (dt.value.1 && paramType == Parameter)
            && r.value.expression == PortParameterValueAnsi(p, found)
            && Ok(r.value.classId) == PortParameterClassidAnsi(common, r.value.dataType)
            && Ok(r.value.numBits) == PortParameterBitsOf(r.value.packedDimensions, p, r.value.dataType, dt.value.1,
                                                          found, r.value.expression))
    ensures var found := PortParameterCheckDefaultAnsi(p);
      var dt := PortParameterDatatypeAnsi(common, p, found, paramType);
      r.Ok? && dt.Ok? ==>
        var sg := PortParameterSignednessAnsi(common, p, dt.value.0, found, dt.value.1, UNSIGNED_OPERATORS);
        && sg.Ok? && r.value.signedness == sg.value.0
        && r.value.signednessOverridable == (sg.value.1 && paramType == Parameter)
  {
    var found := PortParameterCheckDefaultAnsi(p);
    var (dataType, explicitType) :- PortParameterDatatypeAnsi(common, p, found, paramType);
    var (signedness, explicitSigning) :-
      PortParameterSignednessAnsi(common, p, dataType, found, explicitType, UNSIGNED_OPERATORS);
    PortParameterRecordAnsi(p, common, paramType, found, dataType, explicitType, signedness, explicitSigning)
  }
}
