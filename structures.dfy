/**
 * The record and enum types every extraction function builds, their
 * constructor defaults, their `__repr__` tables, and their `Display`
 * renderings.
 */
module Structures {
  import opened Wrappers
  import Text

  /** Rust's `u64`, the type of a parameter's bit width. */
  type U64 = x: int | 0 <= x < 0x1_0000_0000_0000_0000

  datatype SvParamType = Parameter | LocalParam

  datatype SvPortDirection = Inout | Input | Output | Ref | IMPLICIT

  datatype SvDataKind = Net | Variable | IMPLICIT

  datatype SvSignedness = Signed | Unsigned | Unsupported | IMPLICIT

  datatype SvDataType =
    | Logic | Reg | Bit | Byte | Integer | Int | Shortint | Longint | Time
    | Real | Shortreal | Realtime | Array | Enum | Struct | Union | Class
    | TypeRef | String | Unsupported | IMPLICIT

  datatype SvNetType =
    | Wire | Uwire | Tri | Wor | Wand | Triand | Trior | Trireg | Tri0 | Tri1
    | Supply0 | Supply1 | IMPLICIT

  /** A packed dimension `[left:right]`, both bounds as source text. */
  type SvPackedDimension = (string, string)

  /** An unpacked dimension: `[left:right]` as (left, Some(right)), `[expr]` as (expr, None). */
  type SvUnpackedDimension = (string, Option<string>)

  datatype SvPort = SvPort(
    identifier: string,
    direction: SvPortDirection,
    dataKind: SvDataKind,
    dataType: SvDataType,
    classId: Option<string>,
    netType: Option<SvNetType>,
    signedness: Option<SvSignedness>,
    packedDimensions: seq<SvPackedDimension>,
    unpackedDimensions: seq<SvUnpackedDimension>,
    comment: Option<seq<string>>)

  datatype SvParameter = SvParameter(
    identifier: string,
    expression: Option<string>,
    paramType: SvParamType,
    dataType: Option<SvDataType>,
    dataTypeOverridable: bool,
    classId: Option<string>,
    signedness: Option<SvSignedness>,
    signednessOverridable: bool,
    numBits: Option<U64>,
    packedDimensions: seq<SvPackedDimension>,
    unpackedDimensions: seq<SvUnpackedDimension>,
    comment: Option<seq<string>>)

  datatype SvInstance = SvInstance(
    moduleIdentifier: string,
    hierarchicalInstance: string,
    hierarchy: seq<string>,
    connections: seq<seq<string>>)

  datatype SvModuleDeclaration = SvModuleDeclaration(
    identifier: string,
    parameters: seq<SvParameter>,
    ports: seq<SvPort>,
    instances: seq<SvInstance>,
    filepath: string,
    comments: seq<string>)

  datatype SvPackageDeclaration = SvPackageDeclaration(
    identifier: string,
    parameters: seq<SvParameter>,
    filepath: string)

  datatype SvData = SvData(modules: seq<SvModuleDeclaration>, packages: seq<SvPackageDeclaration>)

  // ---------------------------------------------------------------------
  // __repr__ tables (also the `{:?}` rendering of each enum), each with
  // the inverse that shows it injective.
  // ---------------------------------------------------------------------

  function ParamTypeRepr(t: SvParamType): (s: string)
    ensures ParamTypeFromRepr(s) == Some(t)
  {
    match t
    case Parameter => "Parameter"
    case LocalParam => "LocalParam"
  }

  function ParamTypeFromRepr(s: string): (r: Option<SvParamType>) {
    if s == "Parameter" then Some(Parameter)
    else if s == "LocalParam" then Some(LocalParam)
    else None
  }

  function PortDirectionRepr(d: SvPortDirection): (s: string)
    ensures PortDirectionFromRepr(s) == Some(d)
  {
    match d
    case Inout => "Inout"
    case Input => "Input"
    case Output => "Output"
    case Ref => "Ref"
    case IMPLICIT => "IMPLICIT"
  }

  function PortDirectionFromRepr(s: string): (r: Option<SvPortDirection>) {
    if s == "Inout" then Some(Inout)
    else if s == "Input" then Some(Input)
    else if s == "Output" then Some(Output)
    else if s == "Ref" then Some(Ref)
    else if s == "IMPLICIT" then Some(SvPortDirection.IMPLICIT)
    else None
  }

  function DataKindRepr(k: SvDataKind): (s: string)
    ensures DataKindFromRepr(s) == Some(k)
  {
    match k
    case Net => "Net"
    case Variable => "Variable"
    case IMPLICIT => "IMPLICIT"
  }

  function DataKindFromRepr(s: string): (r: Option<SvDataKind>) {
    if s == "Net" then Some(Net)
    else if s == "Variable" then Some(Variable)
    else if s == "IMPLICIT" then Some(SvDataKind.IMPLICIT)
    else None
  }

  function SignednessRepr(g: SvSignedness): (s: string)
    ensures SignednessFromRepr(s) == Some(g)
  {
    match g
    case Signed => "Signed"
    case Unsigned => "Unsigned"
    case Unsupported => "Unsupported"
    case IMPLICIT => "IMPLICIT"
  }

  function SignednessFromRepr(s: string): (r: Option<SvSignedness>) {
    if s == "Signed" then Some(Signed)
    else if s == "Unsigned" then Some(Unsigned)
    else if s == "Unsupported" then Some(SvSignedness.Unsupported)
    else if s == "IMPLICIT" then Some(SvSignedness.IMPLICIT)
    else None
  }

  function DataTypeRepr(t: SvDataType): (s: string)
    ensures DataTypeFromRepr(s) == Some(t)
  {
    match t
    case Logic => "Logic"
    case Reg => "Reg"
    case Bit => "Bit"
    case Byte => "Byte"
    case Integer => "Integer"
    case Int => "Int"
    case Shortint => "Shortint"
    case Longint => "Longint"
    case Time => "Time"
    case Real => "Real"
    case Shortreal => "Shortreal"
    case Realtime => "Realtime"
    case Array => "Array"
    case Enum => "Enum"
    case Struct => "Struct"
    case Union => "Union"
    case Class => "Class"
    case TypeRef => "TypeRef"
    case String => "String"
    case Unsupported => "Unsupported"
    case IMPLICIT => "IMPLICIT"
  }

  function DataTypeFromRepr(s: string): (r: Option<SvDataType>) {
    if s == "Logic" then Some(Logic)
    else if s == "Reg" then Some(Reg)
    else if s == "Bit" then Some(Bit)
    else if s == "Byte" then Some(Byte)
    else if s == "Integer" then Some(Integer)
    else if s == "Int" then Some(Int)
    else if s == "Shortint" then Some(Shortint)
    else if s == "Longint" then Some(Longint)
    else if s == "Time" then Some(Time)
    else if s == "Real" then Some(Real)
    else if s == "Shortreal" then Some(Shortreal)
    else if s == "Realtime" then Some(Realtime)
    else if s == "Array" then Some(Array)
    else if s == "Enum" then Some(Enum)
    else if s == "Struct" then Some(Struct)
    else if s == "Union" then Some(Union)
    else if s == "Class" then Some(Class)
    else if s == "TypeRef" then Some(TypeRef)
    else if s == "String" then Some(String)
    else if s == "Unsupported" then Some(SvDataType.Unsupported)
    else if s == "IMPLICIT" then Some(SvDataType.IMPLICIT)
    else None
  }

  function NetTypeRepr(n: SvNetType): (s: string)
    ensures NetTypeFromRepr(s) == Some(n)
  {
    match n
    case Wire => "Wire"
    case Uwire => "Uwire"
    case Tri => "Tri"
    case Wor => "Wor"
    case Wand => "Wand"
    case Triand => "Triand"
    case Trior => "Trior"
    case Trireg => "Trireg"
    case Tri0 => "Tri0"
    case Tri1 => "Tri1"
    case Supply0 => "Supply0"
    case Supply1 => "Supply1"
    case IMPLICIT => "IMPLICIT"
  }

  function NetTypeFromRepr(s: string): (r: Option<SvNetType>) {
    if s == "Wire" then Some(Wire)
    else if s == "Uwire" then Some(Uwire)
    else if s == "Tri" then Some(Tri)
    else if s == "Wor" then Some(Wor)
    else if s == "Wand" then Some(Wand)
    else if s == "Triand" then Some(Triand)
    else if s == "Trior" then Some(Trior)
    else if s == "Trireg" then Some(Trireg)
    else if s == "Tri0" then Some(Tri0)
    else if s == "Tri1" then Some(Tri1)
    else if s == "Supply0" then Some(Supply0)
    else if s == "Supply1" then Some(Supply1)
    else if s == "IMPLICIT" then Some(SvNetType.IMPLICIT)
    else None
  }

  /** Two data types with the same repr are the same data type (and so for every enum). */
  lemma ReprInjective()
    ensures forall a: SvDataType, b: SvDataType :: DataTypeRepr(a) == DataTypeRepr(b) ==> a == b
    ensures forall a: SvNetType, b: SvNetType :: NetTypeRepr(a) == NetTypeRepr(b) ==> a == b
    ensures forall a: SvSignedness, b: SvSignedness :: SignednessRepr(a) == SignednessRepr(b) ==> a == b
    ensures forall a: SvDataKind, b: SvDataKind :: DataKindRepr(a) == DataKindRepr(b) ==> a == b
    ensures forall a: SvPortDirection, b: SvPortDirection :: PortDirectionRepr(a) == PortDirectionRepr(b) ==> a == b
    ensures forall a: SvParamType, b: SvParamType :: ParamTypeRepr(a) == ParamTypeRepr(b) ==> a == b
  {
    forall a: SvDataType, b: SvDataType | DataTypeRepr(a) == DataTypeRepr(b) ensures a == b {
      assert DataTypeFromRepr(DataTypeRepr(a)) == Some(a);
    }
    forall a: SvNetType, b: SvNetType | NetTypeRepr(a) == NetTypeRepr(b) ensures a == b {
      assert NetTypeFromRepr(NetTypeRepr(a)) == Some(a);
    }
    forall a: SvSignedness, b: SvSignedness | SignednessRepr(a) == SignednessRepr(b) ensures a == b {
      assert SignednessFromRepr(SignednessRepr(a)) == Some(a);
    }
    forall a: SvDataKind, b: SvDataKind | DataKindRepr(a) == DataKindRepr(b) ensures a == b {
      assert DataKindFromRepr(DataKindRepr(a)) == Some(a);
    }
    forall a: SvPortDirection, b: SvPortDirection | PortDirectionRepr(a) == PortDirectionRepr(b) ensures a == b {
      assert PortDirectionFromRepr(PortDirectionRepr(a)) == Some(a);
    }
    forall a: SvParamType, b: SvParamType | ParamTypeRepr(a) == ParamTypeRepr(b) ensures a == b {
      assert ParamTypeFromRepr(ParamTypeRepr(a)) == Some(a);
    }
  }

  // ---------------------------------------------------------------------
  // Rust `{:?}` of strings, lists and pairs.
  // ---------------------------------------------------------------------

  /** Whether a text holds no line break. */
  predicate OneLine(s: string) { '\n' !in s }

  predicate AllOneLine(xs: seq<string>) { forall i :: 0 <= i < |xs| ==> OneLine(xs[i]) }

  /** A control character: C0, DEL or C1. */
  predicate IsControl(c: char) { c as int < 0x20 || 0x7f <= c as int < 0xa0 }

  /** The controls `{:?}` writes as `\u{..}`: all but the four with a short escape. */
  predicate IsUnicodeEscaped(c: char) {
    IsControl(c) && c != '\0' && c != '\t' && c != '\n' && c != '\r'
  }

  predicate IsHexDigit(c: char) { '0' <= c <= '9' || 'a' <= c <= 'f' }

  predicate AllHexDigits(s: string) { forall i :: 0 <= i < |s| ==> IsHexDigit(s[i]) }

  function HexDigitValue(c: char): nat
    requires IsHexDigit(c)
  {
    if c <= '9' then c as int - 0x30 else c as int - 0x61 + 10
  }

  /** One lower-case hexadecimal digit. */
  function HexDigit(d: nat): (c: char)
    requires d < 16
    ensures IsHexDigit(c) && HexDigitValue(c) == d
  {
    if d < 10 then (0x30 + d) as char else (0x61 + d - 10) as char
  }

  /** The value of a string of hexadecimal digits. */
  function HexValue(s: string): nat
    requires AllHexDigits(s)
  {
    if s == [] then 0 else HexValue(s[..|s| - 1]) * 16 + HexDigitValue(s[|s| - 1])
  }

  /** `n` in lower-case hexadecimal without leading zeros, as `{:?}` writes a code point. */
  function LowerHex(n: nat): (s: string)
    ensures |s| >= 1 && AllHexDigits(s)
    ensures |s| > 1 ==> s[0] != '0'
  {
    if n < 16 then [HexDigit(n)] else LowerHex(n / 16) + [HexDigit(n % 16)]
  }

  /** The hexadecimal text reads back as the number. */
  lemma {:induction false} LowerHexValue(n: nat)
    ensures HexValue(LowerHex(n)) == n
  {
    if n >= 16 {
      LowerHexValue(n / 16);
      var s := LowerHex(n);
      assert s[..|s| - 1] == LowerHex(n / 16);
    }
  }

  /**
   * The escape Rust's `{:?}` writes for a character inside a string: a
   * backslash escape for `\`, `"`, `\0`, `\t`, `\n` and `\r`, the code
   * point in hexadecimal for the other controls, the character itself
   * otherwise.
   */
  function EscapeChar(c: char): (r: string)
    ensures |r| >= 1
    // copied exactly when it is neither a backslash, a quote nor a control
    ensures r == [c] <==> !(c == '\\' || c == '"' || IsControl(c))
    ensures |r| > 1 ==> r[0] == '\\' && (|r| == 2 <==> !IsUnicodeEscaped(c))
    ensures |r| == 2 ==> r[1] in "\\\"0tnr"
    ensures IsUnicodeEscaped(c) ==>
      && |r| >= 5 && r[..3] == "\\u{" && r[|r| - 1] == '}'
      && AllHexDigits(r[3..|r| - 1]) && HexValue(r[3..|r| - 1]) == c as int
    // the escaped text holds no control character
    ensures forall k :: 0 <= k < |r| ==> !IsControl(r[k])
  {
    if c == '\\' then "\\\\"
    else if c == '"' then "\\\""
    else if c == '\n' then "\\n"
    else if c == '\r' then "\\r"
    else if c == '\t' then "\\t"
    else if c == '\0' then "\\0"
    else if IsControl(c) then
      var h := LowerHex(c as int);
      LowerHexValue(c as int);
      assert ("\\u{" + h + "}")[3..|h| + 3] == h;
      "\\u{" + h + "}"
    else [c]
  }

  /** Start of heading, form feed and delete are written as their code points. */
  lemma EscapeCodePoints()
    ensures EscapeChar('\U{1}') == "\\u{1}"
    ensures EscapeChar('\U{c}') == "\\u{c}"
    ensures EscapeChar('\U{7f}') == "\\u{7f}"
  {
  }

  /** No character's escape is a proper prefix of another's. */
  lemma EscapeNotProperPrefix(a: char, b: char)
    ensures var ra, rb := EscapeChar(a), EscapeChar(b);
      |ra| < |rb| ==> rb[..|ra|] != ra
  {
    var ra, rb := EscapeChar(a), EscapeChar(b);
    if |ra| < |rb| {
      if |ra| == 1 {
        assert rb[..1][0] != ra[0];
      } else if !IsUnicodeEscaped(a) {
        assert rb[..|ra|][1] == 'u' != ra[1];
      } else {
        var k := |ra| - 1;
        assert rb[3..|rb| - 1][k - 3] == rb[k];
        assert rb[..|ra|][k] != ra[k];
      }
    }
  }

  /** Different characters have different escapes. */
  lemma EscapeCharInjective(a: char, b: char)
    requires EscapeChar(a) == EscapeChar(b)
    ensures a == b
  {
    if IsUnicodeEscaped(a) && IsUnicodeEscaped(b) {
      var r := EscapeChar(a);
      assert HexValue(r[3..|r| - 1]) == a as int == b as int;
    }
  }

  /** An escaped character followed by more text is read back first. */
  lemma EscapePrefixFree(a: char, b: char, x: string, y: string)
    requires EscapeChar(a) + x == EscapeChar(b) + y
    ensures a == b && x == y
  {
    var ra, rb := EscapeChar(a), EscapeChar(b);
    var s := ra + x;
    EscapeNotProperPrefix(a, b);
    EscapeNotProperPrefix(b, a);
    var n := if |ra| <= |rb| then |ra| else |rb|;
    assert ra[..n] == s[..n] == rb[..n];
    assert ra[..|ra|] == ra && rb[..|rb|] == rb;
    assert |ra| == |rb|;
    assert ra == s[..|ra|] == rb;
    EscapeCharInjective(a, b);
    assert x == s[|ra|..] == y;
  }

  function Escape(s: string): (r: string)
    ensures |r| >= |s|
    ensures forall k :: 0 <= k < |r| ==> !IsControl(r[k])
    // a text with nothing to escape is written as it is
    ensures (forall k :: 0 <= k < |s| ==> s[k] != '\\' && s[k] != '"' && !IsControl(s[k])) ==> r == s
  {
    if s == [] then "" else EscapeChar(s[0]) + Escape(s[1..])
  }

  /** Different texts have different escaped texts. */
  lemma {:induction false} EscapeInjective(s: string, t: string)
    requires Escape(s) == Escape(t)
    ensures s == t
  {
    if s != [] && t != [] {
      EscapePrefixFree(s[0], t[0], Escape(s[1..]), Escape(t[1..]));
      EscapeInjective(s[1..], t[1..]);
      assert s == [s[0]] + s[1..] && t == [t[0]] + t[1..];
    }
  }

  /** `{:?}` of a string: the escaped text between double quotes. */
  function DebugString(s: string): (r: string)
    ensures |r| >= |s| + 2 && r[0] == '"' && r[|r| - 1] == '"'
    ensures r[1..|r| - 1] == Escape(s)
    ensures OneLine(r)
  {
    var e := Escape(s);
    assert forall k :: 0 <= k < |e| ==> e[k] != '\n';
    "\"" + e + "\""
  }

  /** The `{:?}` text of a string gives the string back. */
  lemma DebugStringInjective(s: string, t: string)
    requires DebugString(s) == DebugString(t)
    ensures s == t
  {
    var r := DebugString(s);
    assert Escape(s) == r[1..|r| - 1] == Escape(t);
    EscapeInjective(s, t);
  }

  /** The items joined by ", ". */
  function Join(items: seq<string>): (r: string)
    ensures AllOneLine(items) ==> OneLine(r)
  {
    if items == [] then ""
    else if |items| == 1 then items[0]
    else items[0] + ", " + Join(items[1..])
  }

  function DebugStrings(xs: seq<string>): (r: seq<string>)
    ensures |r| == |xs| && AllOneLine(r)
  {
    if xs == [] then [] else [DebugString(xs[0])] + DebugStrings(xs[1..])
  }

  /** `{:?}` of a `Vec<String>`. */
  function DebugStringList(xs: seq<string>): (r: string)
    ensures |r| >= 2 && r[0] == '[' && r[|r| - 1] == ']' && OneLine(r)
  {
    "[" + Join(DebugStrings(xs)) + "]"
  }

  function DebugPairs(xs: seq<(string, string)>): (r: seq<string>)
    ensures |r| == |xs| && AllOneLine(r)
  {
    if xs == [] then []
    else ["(" + DebugString(xs[0].0) + ", " + DebugString(xs[0].1) + ")"] + DebugPairs(xs[1..])
  }

  /** `{:?}` of a `Vec<(String, String)>`. */
  function DebugPairList(xs: seq<(string, string)>): (r: string)
    ensures |r| >= 2 && r[0] == '[' && r[|r| - 1] == ']' && OneLine(r)
  {
    "[" + Join(DebugPairs(xs)) + "]"
  }

  function DebugLists(xs: seq<seq<string>>): (r: seq<string>)
    ensures |r| == |xs| && AllOneLine(r)
  {
    if xs == [] then [] else [DebugStringList(xs[0])] + DebugLists(xs[1..])
  }

  /** `{:?}` of a `Vec<Vec<String>>`. */
  function DebugListList(xs: seq<seq<string>>): (r: string)
    ensures |r| >= 2 && r[0] == '[' && r[|r| - 1] == ']' && OneLine(r)
  {
    "[" + Join(DebugLists(xs)) + "]"
  }

  function DebugBool(b: bool): string { if b then "true" else "false" }

  /** One `writeln!` line: the text followed by a newline. */
  function Line(s: string): string { s + "\n" }

  /** An optional value written `None` when absent, otherwise through `show`. */
  function OrNone<T>(o: Option<T>, show: T -> string): string {
    match o
    case None => "None"
    case Some(x) => show(x)
  }

  function Plain(s: string): string { s }

  // ---------------------------------------------------------------------
  // Display of the unpacked dimensions: a missing right bound shows as
  // the text "None".
  // ---------------------------------------------------------------------

  function UnpackedDisplayPair(d: SvUnpackedDimension): (string, string) {
    (d.0, if d.1.Some? then d.1.value else "None")
  }

  /** The list of pairs the unpacked-dimension display loop builds. */
  function UnpackedDisplay(dims: seq<SvUnpackedDimension>): (r: seq<(string, string)>)
    ensures |r| == |dims|
    ensures forall i :: 0 <= i < |dims| ==> r[i].0 == dims[i].0
    ensures forall i :: 0 <= i < |dims| ==> (dims[i].1.None? <==> r[i].1 == "None") || dims[i].1 == Some("None")
    ensures forall i :: 0 <= i < |dims| && dims[i].1.Some? ==> r[i].1 == dims[i].1.value
  {
    if dims == [] then [] else UnpackedDisplay(dims[..|dims| - 1]) + [UnpackedDisplayPair(dims[|dims| - 1])]
  }

  /** The display loop itself: one pair pushed per dimension, in order. */
  method UnpackedDimensionDisplay(dims: seq<SvUnpackedDimension>) returns (r: seq<(string, string)>)
    ensures r == UnpackedDisplay(dims)
    ensures |r| == |dims|
    ensures forall i :: 0 <= i < |dims| ==> r[i] == (dims[i].0, if dims[i].1.Some? then dims[i].1.value else "None")
  {
    r := [];
    var i := 0;
    while i < |dims|
      invariant 0 <= i <= |dims|
      invariant r == UnpackedDisplay(dims[..i])
    {
      var (u, l) := dims[i];
      match l {
        case Some(x) => r := r + [(u, x)];
        case None => r := r + [(u, "None")];
      }
      assert dims[..i + 1][..i] == dims[..i];
      i := i + 1;
    }
    assert dims[..i] == dims;
  }

  // ---------------------------------------------------------------------
  // Lines of text: what a run of `writeln!` writes, and the reading that
  // splits it back at the line breaks.
  // ---------------------------------------------------------------------

  /** The index of the first line break. */
  function FirstBreak(s: string): (i: nat)
    requires '\n' in s
    ensures i < |s| && s[i] == '\n' && OneLine(s[..i])
  {
    if s[0] == '\n' then 0
    else
      assert '\n' in s[1..] by {
        var k :| 0 <= k < |s| && s[k] == '\n';
        assert s[1..][k - 1] == '\n';
      }
      var j := FirstBreak(s[1..]);
      assert s[..j + 1] == [s[0]] + s[1..][..j];
      j + 1
  }

  /** The text split at its line breaks; a final break ends the last line. */
  function SplitLines(s: string): (r: seq<string>)
    ensures AllOneLine(r)
    decreases |s|
  {
    if s == [] then []
    else if '\n' in s then
      var i := FirstBreak(s);
      [s[..i]] + SplitLines(s[i + 1..])
    else [s]
  }

  lemma {:induction false} FirstBreakAfter(a: string, rest: string)
    requires OneLine(a)
    ensures '\n' in a + "\n" + rest && FirstBreak(a + "\n" + rest) == |a|
  {
    var s := a + "\n" + rest;
    assert s[|a|] == '\n';
    if a != [] {
      assert s[1..] == a[1..] + "\n" + rest;
      assert a[0] == s[0];
      FirstBreakAfter(a[1..], rest);
    }
  }

  /** A line without a break, then a break, is split off first. */
  lemma SplitLine(a: string, rest: string)
    ensures OneLine(a) ==> SplitLines(a + "\n" + rest) == [a] + SplitLines(rest)
  {
    if OneLine(a) {
      var s := a + "\n" + rest;
      FirstBreakAfter(a, rest);
      assert s[..|a|] == a && s[|a| + 1..] == rest;
    }
  }

  /** Lines written one `writeln!` after another. */
  function Block(lines: seq<string>): (r: string)
    ensures |r| >= |lines|
    ensures lines != [] ==> r[|r| - 1] == '\n'
  {
    if lines == [] then "" else Line(lines[0]) + Block(lines[1..])
  }

  /** Lines without breaks are read back by splitting their block at the breaks. */
  lemma {:induction false} SplitBlock(lines: seq<string>)
    ensures AllOneLine(lines) ==> SplitLines(Block(lines)) == lines
  {
    if lines != [] && AllOneLine(lines) {
      var first, later := lines[0], lines[1..];
      assert AllOneLine(later) by {
        forall i | 0 <= i < |later|
          ensures OneLine(later[i])
        {
          assert later[i] == lines[i + 1];
        }
      }
      SplitBlock(later);
      SplitLine(first, Block(later));
      assert Block(lines) == first + "\n" + Block(later);
      assert [first] + later == lines;
    }
  }

  /** Whether a text opens with the line `first` and its break. */
  predicate StartsWithLine(r: string, first: string) {
    |r| > |first| && r[..|first| + 1] == Line(first)
  }

  /** Whether a text ends with a line break. */
  predicate EndsWithBreak(r: string) { |r| > 0 && r[|r| - 1] == '\n' }

  /** The block of `n` lines opening with `first`: its start, its end, and its reading back. */
  lemma BlockOf(lines: seq<string>, first: string, n: nat)
    requires |lines| == n >= 1 && lines[0] == first
    ensures var r := Block(lines);
      && |r| >= |first| + n && StartsWithLine(r, first) && EndsWithBreak(r)
      && (AllOneLine(lines) ==> SplitLines(r) == lines)
  {
    BlockStart(lines);
    SplitBlock(lines);
  }

  /** A block starts with its first line and a break. */
  lemma BlockStart(lines: seq<string>)
    requires lines != []
    ensures var r := Block(lines); |r| >= |lines[0]| + |lines| && r[..|lines[0]| + 1] == lines[0] + "\n"
  {
    var r := Block(lines);
    assert r == Line(lines[0]) + Block(lines[1..]);
  }

  /** A text that ends with a line break splits into its first line and the rest, which is again empty or ends with a break. */
  lemma SplitFirst(s: string) returns (line: string, rest: string)
    requires s != [] && s[|s| - 1] == '\n'
    ensures s == line + "\n" + rest && SplitLines(s) == [line] + SplitLines(rest)
    ensures |rest| < |s| && (rest == [] || rest[|rest| - 1] == '\n')
  {
    assert '\n' in s by { assert s[|s| - 1] == '\n'; }
    var i := FirstBreak(s);
    line, rest := s[..i], s[i + 1..];
    assert rest == [] || rest[|rest| - 1] == s[|s| - 1];
    assert s == line + "\n" + rest;
  }

  /** A text that is empty or ends with a line break is the block of its split lines. */
  lemma {:induction false} BlockOfSplitLines(s: string)
    requires s == [] || s[|s| - 1] == '\n'
    ensures Block(SplitLines(s)) == s
    decreases |s|
  {
    if s != [] {
      var line, rest := SplitFirst(s);
      BlockOfSplitLines(rest);
      var later := SplitLines(rest);
      assert ([line] + later)[0] == line && ([line] + later)[1..] == later;
    }
  }

  lemma BlockOfFour(lines: seq<string>)
    requires |lines| == 4
    ensures Block(lines) == Line(lines[0]) + Line(lines[1]) + Line(lines[2]) + Line(lines[3])
  {
    assert Block(lines[3..]) == Line(lines[3]) by {
      assert lines[3..][0] == lines[3] && lines[3..][1..] == [];
    }
    assert Block(lines[2..]) == Line(lines[2]) + Block(lines[3..]) by {
      assert lines[2..][0] == lines[2] && lines[2..][1..] == lines[3..];
    }
    assert Block(lines[1..]) == Line(lines[1]) + Block(lines[2..]) by {
      assert lines[1..][0] == lines[1] && lines[1..][1..] == lines[2..];
    }
  }

  lemma {:induction false} BlockAppend(a: seq<string>, b: seq<string>)
    ensures Block(a + b) == Block(a) + Block(b)
  {
    if a == [] {
      assert a + b == b;
    } else {
      assert (a + b)[0] == a[0];
      assert (a + b)[1..] == a[1..] + b;
      BlockAppend(a[1..], b);
    }
  }

  /** The lines of the items in list order, one after the other. */
  function LinesOf<T>(xs: seq<T>, lines: T -> seq<string>): seq<string> {
    if xs == [] then [] else lines(xs[0]) + LinesOf(xs[1..], lines)
  }

  lemma AllOneLineAppend(a: seq<string>, b: seq<string>)
    ensures AllOneLine(a) && AllOneLine(b) ==> AllOneLine(a + b)
  {
    if AllOneLine(a) && AllOneLine(b) {
      forall i | 0 <= i < |a + b|
        ensures OneLine((a + b)[i])
      {
        if i < |a| {
          assert (a + b)[i] == a[i];
        } else {
          assert (a + b)[i] == b[i - |a|];
        }
      }
    }
  }

  /** Items whose lines have no break, when `ok` holds of them, give lines without breaks. */
  lemma {:induction false} LinesOfOneLine<T>(xs: seq<T>, lines: T -> seq<string>, ok: T -> bool)
    requires forall x :: ok(x) ==> AllOneLine(lines(x))
    ensures (forall i :: 0 <= i < |xs| ==> ok(xs[i])) ==> AllOneLine(LinesOf(xs, lines))
  {
    if xs != [] && forall i :: 0 <= i < |xs| ==> ok(xs[i]) {
      assert ok(xs[0]);
      assert forall i :: 0 <= i < |xs[1..]| ==> ok(xs[1..][i]) by {
        forall i | 0 <= i < |xs[1..]|
          ensures ok(xs[1..][i])
        {
          assert xs[1..][i] == xs[i + 1];
        }
      }
      LinesOfOneLine(xs[1..], lines, ok);
      AllOneLineAppend(lines(xs[0]), LinesOf(xs[1..], lines));
    }
  }

  /** Items that each have `k` lines have `k` lines apiece in all. */
  lemma {:induction false} LinesOfLength<T>(xs: seq<T>, lines: T -> seq<string>, k: nat)
    requires forall x :: |lines(x)| == k
    ensures |LinesOf(xs, lines)| == k * |xs|
  {
    if xs != [] {
      LinesOfLength(xs[1..], lines, k);
    }
  }

  /** Items that each have a line have at least one line apiece in all. */
  lemma {:induction false} LinesOfNonEmpty<T>(xs: seq<T>, lines: T -> seq<string>)
    requires forall x :: |lines(x)| >= 1
    ensures |LinesOf(xs, lines)| >= |xs|
  {
    if xs != [] {
      LinesOfNonEmpty(xs[1..], lines);
    }
  }

  /** The texts of the items in list order, written one after the other. */
  function ConcatMap<T>(xs: seq<T>, show: T -> string): string {
    if xs == [] then "" else show(xs[0]) + ConcatMap(xs[1..], show)
  }

  /** Writing the items' blocks one after another writes the block of all their lines. */
  lemma {:induction false} ConcatMapBlock<T>(xs: seq<T>, show: T -> string, lines: T -> seq<string>)
    requires forall x :: show(x) == Block(lines(x))
    ensures ConcatMap(xs, show) == Block(LinesOf(xs, lines))
  {
    if xs != [] {
      ConcatMapBlock(xs[1..], show, lines);
      BlockAppend(lines(xs[0]), LinesOf(xs[1..], lines));
    }
  }

  /** Writing a concatenation writes the first list and then the second. */
  lemma {:induction false} ConcatMapAppend<T>(a: seq<T>, b: seq<T>, show: T -> string)
    ensures ConcatMap(a + b, show) == ConcatMap(a, show) + ConcatMap(b, show)
  {
    if a == [] {
      assert a + b == b;
    } else {
      assert (a + b)[0] == a[0];
      assert (a + b)[1..] == a[1..] + b;
      ConcatMapAppend(a[1..], b, show);
    }
  }

  /** The i-th item's text sits between the texts of the items before and after it. */
  lemma {:induction false} ConcatMapAt<T>(xs: seq<T>, i: nat, show: T -> string)
    requires i < |xs|
    ensures ConcatMap(xs, show) == ConcatMap(xs[..i], show) + show(xs[i]) + ConcatMap(xs[i + 1..], show)
  {
    if i == 0 {
      assert xs[..0] == [];
    } else {
      var tail := xs[1..];
      ConcatMapAt(tail, i - 1, show);
      assert tail[..i - 1] == xs[1..i] && tail[i - 1] == xs[i] && tail[i..] == xs[i + 1..];
      var before := xs[..i];
      assert before[0] == xs[0] && before[1..] == xs[1..i];
    }
  }


  /** An optional value shown by an injective text that is never "None" is read back. */
  lemma OrNoneInjective<T>(o: Option<T>, o': Option<T>, show: T -> string, back: string -> Option<T>)
    requires forall x :: back(show(x)) == Some(x)
    requires back("None") == None
    requires OrNone(o, show) == OrNone(o', show)
    ensures o == o'
  {
    OrNoneRead(o, show, back);
    OrNoneRead(o', show, back);
  }

  /** "None" reads as no value, any other text through `back`. */
  lemma OrNoneRead<T>(o: Option<T>, show: T -> string, back: string -> Option<T>)
    requires forall x :: back(show(x)) == Some(x)
    requires back("None") == None
    ensures var s := OrNone(o, show); (if s == "None" then None else back(s)) == o
  {
    if o.Some? {
      assert back(show(o.value)) == Some(o.value);
    }
  }

  /** The text "None" names no value of the optional enums. */
  lemma NoneIsNoRepr()
    ensures NetTypeFromRepr("None") == None && SignednessFromRepr("None") == None
  {
  }

  lemma NoneIsNoDataType()
    ensures DataTypeFromRepr("None") == None
  {
  }

  /** Two texts that agree after the same prefix are the same. */
  lemma AfterPrefix(x: string, s: string, t: string)
    requires x + s == x + t
    ensures s == t
  {
    assert s == (x + s)[|x|..];
    assert t == (x + t)[|x|..];
  }

  // No enum's `{:?}` text holds a line break.

  lemma EnumReprOneLine()
    ensures forall t :: OneLine(ParamTypeRepr(t))
    ensures forall d :: OneLine(PortDirectionRepr(d))
    ensures forall k :: OneLine(DataKindRepr(k))
    ensures forall g :: OneLine(SignednessRepr(g))
  {
  }

  lemma DataTypeReprOneLine()
    ensures forall t :: OneLine(DataTypeRepr(t))
  {
  }

  lemma NetTypeReprOneLine()
    ensures forall n :: OneLine(NetTypeRepr(n))
  {
  }

  /** An optional value shown without breaks has no break. */
  lemma OrNoneOneLine<T>(o: Option<T>, show: T -> string)
    requires forall x :: OneLine(show(x))
    ensures OneLine(OrNone(o, show))
  {
    if o.Some? {
      assert OneLine(show(o.value));
    }
  }

  /** An optional text without breaks shows without breaks. */
  lemma OrNoneTextOneLine(o: Option<string>)
    ensures (o.Some? ==> OneLine(o.value)) ==> OneLine(OrNone(o, Plain))
  {
  }

  // ---------------------------------------------------------------------
  // Display of the records. Each line a record's `Display` writes is a
  // label followed by the text of one field; the display is the block of
  // those lines.
  // ---------------------------------------------------------------------

  /** Each label followed by the value at the same position. */
  function Labeled(labels: seq<string>, values: seq<string>): (r: seq<string>)
    requires |labels| == |values|
  {
    seq(|labels|, i requires 0 <= i < |labels| => labels[i] + values[i])
  }

  /** Labels and values without breaks give lines without breaks. */
  lemma LabeledOneLine(labels: seq<string>, values: seq<string>)
    requires |labels| == |values|
    ensures |Labeled(labels, values)| == |labels|
    ensures AllOneLine(labels) && AllOneLine(values) ==> AllOneLine(Labeled(labels, values))
  {
  }

  /** The same labels followed by different values give different lines. */
  lemma LabeledInjective(labels: seq<string>, a: seq<string>, b: seq<string>)
    requires |labels| == |a| == |b| && Labeled(labels, a) == Labeled(labels, b)
    ensures a == b
  {
    forall i | 0 <= i < |a|
      ensures a[i] == b[i]
    {
      assert Labeled(labels, a)[i] == Labeled(labels, b)[i];
      AfterPrefix(labels[i], a[i], b[i]);
    }
  }

  const PortLabels: seq<string> := [
    "  Port: ", "    Identifier: ", "    Direction: ", "    DataKind: ", "    DataType: ",
    "    ClassIdentifier: ", "    NetType: ", "    Signedness: ", "    PackedDimensions: ",
    "    UnpackedDimensions: ", "    Comment: "]

  lemma PortLabelsOneLine()
    ensures AllOneLine(PortLabels)
  {
  }

  /** The free text a port shows on a line of its own has no break. */
  predicate PortOneLine(p: SvPort) {
    OneLine(p.identifier) && (p.classId.Some? ==> OneLine(p.classId.value))
  }

  /** The texts of the dimension and comment lines that close a port's and a parameter's display. */
  function DimensionFields(packed: seq<SvPackedDimension>, unpacked: seq<SvUnpackedDimension>,
                           comment: Option<seq<string>>): (r: seq<string>)
    ensures |r| == 3 && AllOneLine(r)
  {
    OrNoneOneLine(comment, DebugStringList);
    [DebugPairList(packed), DebugPairList(UnpackedDisplay(unpacked)), OrNone(comment, DebugStringList)]
  }

  /** The texts of the lines a port's display opens with, before its dimensions. */
  function PortHeadFields(p: SvPort): (r: seq<string>)
    ensures |r| == 8
    ensures PortOneLine(p) ==> AllOneLine(r)
  {
    EnumReprOneLine();
    DataTypeReprOneLine();
    NetTypeReprOneLine();
    OrNoneTextOneLine(p.classId);
    OrNoneOneLine(p.netType, NetTypeRepr);
    OrNoneOneLine(p.signedness, SignednessRepr);
    ["", p.identifier, PortDirectionRepr(p.direction), DataKindRepr(p.dataKind), DataTypeRepr(p.dataType),
     OrNone(p.classId, Plain), OrNone(p.netType, NetTypeRepr), OrNone(p.signedness, SignednessRepr)]
  }

  /** The text after each label of a port's display, the first label standing alone. */
  function PortFields(p: SvPort): (r: seq<string>)
    ensures |r| == |PortLabels|
    ensures PortOneLine(p) ==> AllOneLine(r)
  {
    var h, d := PortHeadFields(p), DimensionFields(p.packedDimensions, p.unpackedDimensions, p.comment);
    AllOneLineAppend(h, d);
    h + d
  }

  /** The eleven lines a port's `Display` writes. */
  function PortLines(p: SvPort): (r: seq<string>)
    ensures |r| == 11 && r[0] == "  Port: "
    ensures PortOneLine(p) ==> AllOneLine(r)
  {
    PortLabelsOneLine();
    LabeledOneLine(PortLabels, PortFields(p));
    Labeled(PortLabels, PortFields(p))
  }

  function PortDisplay(p: SvPort): (r: string)
    ensures |r| >= 19 && StartsWithLine(r, "  Port: ") && EndsWithBreak(r)
    ensures PortOneLine(p) ==> SplitLines(r) == PortLines(p)
  {
    BlockOf(PortLines(p), "  Port: ", 11);
    Block(PortLines(p))
  }

  /**
   * A port's display gives back its identifier, direction, data kind, data
   * type, net type, signedness and whether it has a comment, and its class
   * identifier unless that is the text "None".
   */
  lemma PortDisplayDetermines(p: SvPort, q: SvPort)
    requires PortOneLine(p) && PortOneLine(q) && PortDisplay(p) == PortDisplay(q)
    ensures p.identifier == q.identifier && p.direction == q.direction && p.dataKind == q.dataKind
    ensures p.dataType == q.dataType && p.netType == q.netType && p.signedness == q.signedness
    ensures p.comment.None? <==> q.comment.None?
    ensures p.classId != Some("None") && q.classId != Some("None") ==> p.classId == q.classId
  {
    assert PortLines(p) == PortLines(q);
    LabeledInjective(PortLabels, PortFields(p), PortFields(q));
    var a, b := PortFields(p), PortFields(q);
    assert a[1] == b[1] && a[2] == b[2] && a[3] == b[3] && a[4] == b[4];
    assert a[5] == b[5] && a[6] == b[6] && a[7] == b[7] && a[10] == b[10];
    assert PortDirectionFromRepr(a[2]) == Some(q.direction);
    assert DataKindFromRepr(a[3]) == Some(q.dataKind);
    assert DataTypeFromRepr(a[4]) == Some(q.dataType);
    NoneIsNoRepr();
    OrNoneInjective(p.netType, q.netType, NetTypeRepr, NetTypeFromRepr);
    OrNoneInjective(p.signedness, q.signedness, SignednessRepr, SignednessFromRepr);
  }

  /** `NumBits` shown in decimal, or "None". */
  function NumBitsText(n: Option<U64>): (r: string)
    ensures OneLine(r)
  {
    if n.Some? then
      var s := Text.NatToDecimal(n.value);
      assert forall k :: 0 <= k < |s| ==> s[k] != '\n';
      s
    else "None"
  }

  /** The bit-width text gives the bit width back. */
  lemma NumBitsTextInjective(n: Option<U64>, m: Option<U64>)
    requires NumBitsText(n) == NumBitsText(m)
    ensures n == m
  {
    if n.Some? {
      Text.NatToDecimalValue(n.value);
      assert NumBitsText(n) != "None" by { assert Text.IsDigit(NumBitsText(n)[0]); }
    }
    if m.Some? {
      Text.NatToDecimalValue(m.value);
      assert NumBitsText(m) != "None" by { assert Text.IsDigit(NumBitsText(m)[0]); }
    }
  }

  const ParameterLabels: seq<string> := [
    "  Parameter: ", "    Identifier: ", "    Expression: ", "    ParameterType: ", "    DataType: ",
    "    DataTypeOverridable: ", "    ClassIdentifier: ", "    Signedness: ", "    SignednessOverridable: ",
    "    NumBits: ", "    PackedDimensions: ", "    UnpackedDimensions: ", "    Comment: "]

  lemma ParameterLabelsOneLine()
    ensures AllOneLine(ParameterLabels)
  {
  }

  /** The free text a parameter shows on a line of its own has no break. */
  predicate ParameterOneLine(p: SvParameter) {
    && OneLine(p.identifier)
    && (p.expression.Some? ==> OneLine(p.expression.value))
    && (p.classId.Some? ==> OneLine(p.classId.value))
  }

  /** The texts of a parameter's name, value and type lines. */
  function ParameterTypeFields(p: SvParameter): (r: seq<string>)
    ensures |r| == 5
    ensures ParameterOneLine(p) ==> AllOneLine(r)
  {
    EnumReprOneLine();
    DataTypeReprOneLine();
    OrNoneTextOneLine(p.expression);
    OrNoneOneLine(p.dataType, DataTypeRepr);
    ["", p.identifier, OrNone(p.expression, Plain), ParamTypeRepr(p.paramType), OrNone(p.dataType, DataTypeRepr)]
  }

  /** The texts of a parameter's overridable, class, signedness and width lines. */
  function ParameterFlagFields(p: SvParameter): (r: seq<string>)
    ensures |r| == 5
    ensures ParameterOneLine(p) ==> AllOneLine(r)
  {
    EnumReprOneLine();
    OrNoneTextOneLine(p.classId);
    OrNoneOneLine(p.signedness, SignednessRepr);
    assert OneLine("true") && OneLine("false");
    [DebugBool(p.dataTypeOverridable), OrNone(p.classId, Plain), OrNone(p.signedness, SignednessRepr),
     DebugBool(p.signednessOverridable), NumBitsText(p.numBits)]
  }

  /** The text after each label of a parameter's display, the first label standing alone. */
  function ParameterFields(p: SvParameter): (r: seq<string>)
    ensures |r| == |ParameterLabels|
    ensures ParameterOneLine(p) ==> AllOneLine(r)
  {
    var t, f := ParameterTypeFields(p), ParameterFlagFields(p);
    var d := DimensionFields(p.packedDimensions, p.unpackedDimensions, p.comment);
    AllOneLineAppend(t, f);
    AllOneLineAppend(t + f, d);
    t + f + d
  }

  /** The thirteen lines a parameter's `Display` writes. */
  function ParameterLines(p: SvParameter): (r: seq<string>)
    ensures |r| == 13 && r[0] == "  Parameter: "
    ensures ParameterOneLine(p) ==> AllOneLine(r)
  {
    ParameterLabelsOneLine();
    LabeledOneLine(ParameterLabels, ParameterFields(p));
    Labeled(ParameterLabels, ParameterFields(p))
  }

  function ParameterDisplay(p: SvParameter): (r: string)
    ensures |r| >= 26 && StartsWithLine(r, "  Parameter: ") && EndsWithBreak(r)
    ensures ParameterOneLine(p) ==> SplitLines(r) == ParameterLines(p)
  {
    BlockOf(ParameterLines(p), "  Parameter: ", 13);
    Block(ParameterLines(p))
  }

  /**
   * A parameter's display gives back its identifier, parameter type, data
   * type, signedness, bit width, both overridable flags and whether it has
   * a comment, and its expression and class identifier unless those are
   * the text "None".
   */
  lemma ParameterDisplayDetermines(p: SvParameter, q: SvParameter)
    requires ParameterOneLine(p) && ParameterOneLine(q) && ParameterDisplay(p) == ParameterDisplay(q)
    ensures p.identifier == q.identifier && p.paramType == q.paramType && p.dataType == q.dataType
    ensures p.signedness == q.signedness && p.numBits == q.numBits
    ensures p.dataTypeOverridable == q.dataTypeOverridable && p.signednessOverridable == q.signednessOverridable
    ensures p.comment.None? <==> q.comment.None?
    ensures p.expression != Some("None") && q.expression != Some("None") ==> p.expression == q.expression
    ensures p.classId != Some("None") && q.classId != Some("None") ==> p.classId == q.classId
  {
    assert ParameterLines(p) == ParameterLines(q);
    LabeledInjective(ParameterLabels, ParameterFields(p), ParameterFields(q));
    var t, f := ParameterTypeFields(p), ParameterFlagFields(p);
    var d := DimensionFields(p.packedDimensions, p.unpackedDimensions, p.comment);
    var t', f' := ParameterTypeFields(q), ParameterFlagFields(q);
    var d' := DimensionFields(q.packedDimensions, q.unpackedDimensions, q.comment);
    var all, all' := t + f + d, t' + f' + d';
    assert all == all';
    assert t == all[..5] && t' == all'[..5];
    assert f == all[5..10] && f' == all'[5..10];
    assert d[2] == all[12] && d'[2] == all'[12];
    ParameterTypeFieldsDetermine(p, q);
    ParameterFlagFieldsDetermine(p, q);
  }

  lemma ParameterTypeFieldsDetermine(p: SvParameter, q: SvParameter)
    requires ParameterTypeFields(p) == ParameterTypeFields(q)
    ensures p.identifier == q.identifier && p.paramType == q.paramType && p.dataType == q.dataType
    ensures p.expression != Some("None") && q.expression != Some("None") ==> p.expression == q.expression
  {
    var a, b := ParameterTypeFields(p), ParameterTypeFields(q);
    assert a[1] == b[1] && a[2] == b[2] && a[3] == b[3] && a[4] == b[4];
    assert ParamTypeFromRepr(a[3]) == Some(q.paramType);
    NoneIsNoDataType();
    OrNoneInjective(p.dataType, q.dataType, DataTypeRepr, DataTypeFromRepr);
  }

  lemma ParameterFlagFieldsDetermine(p: SvParameter, q: SvParameter)
    requires ParameterFlagFields(p) == ParameterFlagFields(q)
    ensures p.signedness == q.signedness && p.numBits == q.numBits
    ensures p.dataTypeOverridable == q.dataTypeOverridable && p.signednessOverridable == q.signednessOverridable
    ensures p.classId != Some("None") && q.classId != Some("None") ==> p.classId == q.classId
  {
    var a, b := ParameterFlagFields(p), ParameterFlagFields(q);
    assert a[0] == b[0] && a[1] == b[1] && a[2] == b[2] && a[3] == b[3] && a[4] == b[4];
    NoneIsNoRepr();
    OrNoneInjective(p.signedness, q.signedness, SignednessRepr, SignednessFromRepr);
    NumBitsTextInjective(p.numBits, q.numBits);
  }

  const InstanceLabels: seq<string> := [
    "  Instance: ", "    Module identifier: ", "    Hierarchical instance: ", "    Hierarchy: ",
    "    Connections: "]

  lemma InstanceLabelsOneLine()
    ensures AllOneLine(InstanceLabels)
  {
  }

  /** The free text an instance shows on a line of its own has no break. */
  predicate InstanceOneLine(i: SvInstance) {
    OneLine(i.moduleIdentifier) && OneLine(i.hierarchicalInstance)
  }

  /** The text after each label of an instance's display, the first label standing alone. */
  function InstanceFields(i: SvInstance): (r: seq<string>)
    ensures |r| == |InstanceLabels|
    ensures InstanceOneLine(i) ==> AllOneLine(r)
  {
    ["", i.moduleIdentifier, i.hierarchicalInstance, DebugStringList(i.hierarchy), DebugListList(i.connections)]
  }

  /** The five lines an instance's `Display` writes. */
  function InstanceLines(i: SvInstance): (r: seq<string>)
    ensures |r| == 5 && r[0] == "  Instance: "
    ensures InstanceOneLine(i) ==> AllOneLine(r)
  {
    InstanceLabelsOneLine();
    LabeledOneLine(InstanceLabels, InstanceFields(i));
    Labeled(InstanceLabels, InstanceFields(i))
  }

  function InstanceDisplay(i: SvInstance): (r: string)
    ensures |r| >= 17 && StartsWithLine(r, "  Instance: ") && EndsWithBreak(r)
    ensures InstanceOneLine(i) ==> SplitLines(r) == InstanceLines(i)
  {
    BlockOf(InstanceLines(i), "  Instance: ", 5);
    Block(InstanceLines(i))
  }

  /** An instance's display gives back its module identifier and hierarchical instance name. */
  lemma InstanceDisplayDetermines(i: SvInstance, j: SvInstance)
    requires InstanceOneLine(i) && InstanceOneLine(j) && InstanceDisplay(i) == InstanceDisplay(j)
    ensures i.moduleIdentifier == j.moduleIdentifier && i.hierarchicalInstance == j.hierarchicalInstance
  {
    assert InstanceLines(i) == InstanceLines(j);
    LabeledInjective(InstanceLabels, InstanceFields(i), InstanceFields(j));
    assert InstanceFields(i)[1] == InstanceFields(j)[1] && InstanceFields(i)[2] == InstanceFields(j)[2];
  }

  const ModuleLabels: seq<string> := ["Module:", "  Identifier: ", "  Filepath: ", "  Comments: "]

  const PackageLabels: seq<string> := ["Package:", "  Identifier: ", "  Filepath: "]

  lemma HeaderLabelsOneLine()
    ensures AllOneLine(ModuleLabels) && AllOneLine(PackageLabels) && OneLine("")
  {
  }

  /** The free text a module shows on lines of their own has no break, in it or in its items. */
  predicate ModuleOneLine(m: SvModuleDeclaration) {
    && OneLine(m.identifier) && OneLine(m.filepath)
    && (forall k :: 0 <= k < |m.ports| ==> PortOneLine(m.ports[k]))
    && (forall k :: 0 <= k < |m.parameters| ==> ParameterOneLine(m.parameters[k]))
    && (forall k :: 0 <= k < |m.instances| ==> InstanceOneLine(m.instances[k]))
  }

  /** The four lines that open a module's display. */
  function ModuleHeader(m: SvModuleDeclaration): (r: seq<string>)
    ensures |r| == 4 && r[0] == "Module:"
    ensures OneLine(m.identifier) && OneLine(m.filepath) ==> AllOneLine(r)
  {
    var values := ["", m.identifier, m.filepath, DebugStringList(m.comments)];
    HeaderLabelsOneLine();
    LabeledOneLine(ModuleLabels, values);
    Labeled(ModuleLabels, values)
  }

  /**
   * All lines of a module's display: its header, every port's lines, every
   * parameter's lines and every instance's lines in list order, and a
   * closing empty line.
   */
  function ModuleLines(m: SvModuleDeclaration): (r: seq<string>)
    ensures |r| == 5 + 11 * |m.ports| + 13 * |m.parameters| + 5 * |m.instances|
    ensures r[0] == "Module:" && r[|r| - 1] == ""
    ensures ModuleOneLine(m) ==> AllOneLine(r)
  {
    LinesOfLength(m.ports, PortLines, 11);
    LinesOfLength(m.parameters, ParameterLines, 13);
    LinesOfLength(m.instances, InstanceLines, 5);
    var h, ps, qs, ins := ModuleHeader(m), LinesOf(m.ports, PortLines),
      LinesOf(m.parameters, ParameterLines), LinesOf(m.instances, InstanceLines);
    LinesOfOneLine(m.ports, PortLines, PortOneLine);
    LinesOfOneLine(m.parameters, ParameterLines, ParameterOneLine);
    LinesOfOneLine(m.instances, InstanceLines, InstanceOneLine);
    AllOneLineAppend(h, ps);
    AllOneLineAppend(h + ps, qs);
    AllOneLineAppend(h + ps + qs, ins);
    AllOneLineAppend(h + ps + qs + ins, [""]);
    HeaderLabelsOneLine();
    h + ps + qs + ins + [""]
  }

  function ModuleDisplay(m: SvModuleDeclaration): (r: string)
    // the module's text is the block of its lines, read back by splitting
    ensures r == Block(ModuleLines(m))
    ensures ModuleOneLine(m) ==> SplitLines(r) == ModuleLines(m)
  {
    var h, ps, qs, ins := ModuleHeader(m), LinesOf(m.ports, PortLines),
      LinesOf(m.parameters, ParameterLines), LinesOf(m.instances, InstanceLines);
    ConcatMapBlock(m.ports, PortDisplay, PortLines);
    ConcatMapBlock(m.parameters, ParameterDisplay, ParameterLines);
    ConcatMapBlock(m.instances, InstanceDisplay, InstanceLines);
    BlockAppend(h + ps + qs + ins, [""]);
    BlockAppend(h + ps + qs, ins);
    BlockAppend(h + ps, qs);
    BlockAppend(h, ps);
    assert Block([""]) == Line("");
    SplitBlock(ModuleLines(m));
    Block(ModuleHeader(m))
    + ConcatMap(m.ports, PortDisplay)
    + ConcatMap(m.parameters, ParameterDisplay)
    + ConcatMap(m.instances, InstanceDisplay)
    + Line("")
  }

  /** Every module display is a block that starts with "Module:" and ends with a line break. */
  lemma ModuleDisplayShape(m: SvModuleDeclaration)
    ensures var s := ModuleDisplay(m); |s| >= 12 && StartsWithLine(s, "Module:") && EndsWithBreak(s)
  {
    var lines := ModuleLines(m);
    BlockOf(lines, "Module:", |lines|);
  }

  /** The free text a package shows on lines of their own has no break, in it or in its parameters. */
  predicate PackageOneLine(p: SvPackageDeclaration) {
    && OneLine(p.identifier) && OneLine(p.filepath)
    && (forall k :: 0 <= k < |p.parameters| ==> ParameterOneLine(p.parameters[k]))
  }

  /** The three lines that open a package's display. */
  function PackageHeader(p: SvPackageDeclaration): (r: seq<string>)
    ensures |r| == 3 && r[0] == "Package:"
    ensures OneLine(p.identifier) && OneLine(p.filepath) ==> AllOneLine(r)
  {
    var values := ["", p.identifier, p.filepath];
    HeaderLabelsOneLine();
    LabeledOneLine(PackageLabels, values);
    Labeled(PackageLabels, values)
  }

  /** All lines of a package's display: its header, every parameter's lines in list order, and a closing empty line. */
  function PackageLines(p: SvPackageDeclaration): (r: seq<string>)
    ensures |r| == 4 + 13 * |p.parameters|
    ensures r[0] == "Package:" && r[|r| - 1] == ""
    ensures PackageOneLine(p) ==> AllOneLine(r)
  {
    LinesOfLength(p.parameters, ParameterLines, 13);
    var h, qs := PackageHeader(p), LinesOf(p.parameters, ParameterLines);
    LinesOfOneLine(p.parameters, ParameterLines, ParameterOneLine);
    AllOneLineAppend(h, qs);
    AllOneLineAppend(h + qs, [""]);
    HeaderLabelsOneLine();
    h + qs + [""]
  }

  function PackageDisplay(p: SvPackageDeclaration): (r: string)
    ensures r == Block(PackageLines(p))
    ensures PackageOneLine(p) ==> SplitLines(r) == PackageLines(p)
  {
    var h, qs := PackageHeader(p), LinesOf(p.parameters, ParameterLines);
    ConcatMapBlock(p.parameters, ParameterDisplay, ParameterLines);
    BlockAppend(h + qs, [""]);
    BlockAppend(h, qs);
    assert Block([""]) == Line("");
    SplitBlock(PackageLines(p));
    Block(PackageHeader(p))
    + ConcatMap(p.parameters, ParameterDisplay)
    + Line("")
  }

  /** The free text of every module and package has no stray break. */
  predicate DataOneLine(d: SvData) {
    && (forall k :: 0 <= k < |d.modules| ==> ModuleOneLine(d.modules[k]))
    && (forall k :: 0 <= k < |d.packages| ==> PackageOneLine(d.packages[k]))
  }

  function SvDataDisplay(d: SvData): (r: string)
    // every module's lines in list order, then every package's lines in list order
    ensures r == Block(LinesOf(d.modules, ModuleLines) + LinesOf(d.packages, PackageLines))
    ensures DataOneLine(d) ==> SplitLines(r) == LinesOf(d.modules, ModuleLines) + LinesOf(d.packages, PackageLines)
    // nothing at all is written exactly when there is nothing to write
    ensures r == "" <==> d.modules == [] && d.packages == []
  {
    var ms, ps := LinesOf(d.modules, ModuleLines), LinesOf(d.packages, PackageLines);
    ConcatMapBlock(d.modules, ModuleDisplay, ModuleLines);
    ConcatMapBlock(d.packages, PackageDisplay, PackageLines);
    BlockAppend(ms, ps);
    LinesOfNonEmpty(d.modules, ModuleLines);
    LinesOfNonEmpty(d.packages, PackageLines);
    LinesOfOneLine(d.modules, ModuleLines, ModuleOneLine);
    LinesOfOneLine(d.packages, PackageLines, PackageOneLine);
    AllOneLineAppend(ms, ps);
    SplitBlock(ms + ps);
    ConcatMap(d.modules, ModuleDisplay) + ConcatMap(d.packages, PackageDisplay)
  }

  /** Two lists written one after the other, with the positions of one item of each. */
  lemma ConcatMapPairAt<A, B>(xs: seq<A>, i: nat, f: A -> string, ys: seq<B>, j: nat, g: B -> string)
    requires i < |xs| && j < |ys|
    ensures ConcatMap(xs, f) + ConcatMap(ys, g) ==
      (ConcatMap(xs[..i], f) + f(xs[i]) + ConcatMap(xs[i + 1..], f))
      + (ConcatMap(ys[..j], g) + g(ys[j]) + ConcatMap(ys[j + 1..], g))
  {
    ConcatMapAt(xs, i, f);
    ConcatMapAt(ys, j, g);
  }

  /**
   * SvData's display is every module's display in list order, then every
   * package's display in list order: the i-th module's text sits between
   * the texts of the modules before it and of those after it and all
   * package text, and likewise for the j-th package.
   */
  lemma SvDataDisplayOrder(d: SvData, i: nat, j: nat)
    requires i < |d.modules| && j < |d.packages|
    ensures SvDataDisplay(d) ==
      (ConcatMap(d.modules[..i], ModuleDisplay) + ModuleDisplay(d.modules[i]) + ConcatMap(d.modules[i + 1..], ModuleDisplay))
      + (ConcatMap(d.packages[..j], PackageDisplay) + PackageDisplay(d.packages[j]) + ConcatMap(d.packages[j + 1..], PackageDisplay))
  {
    ConcatMapPairAt(d.modules, i, ModuleDisplay, d.packages, j, PackageDisplay);
  }

  // ---------------------------------------------------------------------
  // Constructor defaults.
  // ---------------------------------------------------------------------

  /** `SvParamType::new()`. */
  function NewSvParamType(): (t: SvParamType)
    ensures ParamTypeRepr(t) == "Parameter"
  {
    Parameter
  }

  /** `SvData::new()`: no modules and no packages, so nothing is displayed. */
  function NewSvData(): (d: SvData)
    ensures |d.modules| == 0 && |d.packages| == 0
    ensures SvDataDisplay(d) == ""
  {
    SvData([], [])
  }

  /** `SvModuleDeclaration::new()`: empty identifier, path and lists. */
  function NewSvModuleDeclaration(): (m: SvModuleDeclaration)
    ensures m.identifier == "" && m.filepath == ""
    ensures m.parameters == [] && m.ports == [] && m.instances == [] && m.comments == []
  {
    SvModuleDeclaration("", [], [], [], "", [])
  }

  lemma EmptyPackageLines()
    ensures PackageLines(SvPackageDeclaration("", [], "")) == ["Package:", "  Identifier: ", "  Filepath: ", ""]
  {
    var p := SvPackageDeclaration("", [], "");
    var h := PackageHeader(p);
    assert h[1] == PackageLabels[1] + "" == "  Identifier: ";
    assert h[2] == PackageLabels[2] + "" == "  Filepath: ";
    assert h == ["Package:", "  Identifier: ", "  Filepath: "];
    assert LinesOf(p.parameters, ParameterLines) == [];
    assert PackageLines(p) == h + [] + [""];
  }

  /** `SvPackageDeclaration::new()`: empty identifier, path and parameter list. */
  function NewSvPackageDeclaration(): (p: SvPackageDeclaration)
    ensures p.identifier == "" && p.filepath == "" && p.parameters == []
    // only the header, with an empty identifier and path, and the closing empty line
    ensures PackageDisplay(p) == Line("Package:") + Line("  Identifier: ") + Line("  Filepath: ") + Line("")
  {
    var p := SvPackageDeclaration("", [], "");
    EmptyPackageLines();
    BlockOfFour(PackageLines(p));
    p
  }

  /**
   * `SvParameter::new()`: an untyped, unsized, non-overridable Parameter
   * with an empty name.
   */
  function NewSvParameter(): (p: SvParameter)
    ensures p.identifier == "" && p.paramType == Parameter
    ensures p.expression.None? && p.dataType.None? && p.classId.None? && p.signedness.None?
    ensures p.numBits.None? && p.comment.None?
    ensures !p.dataTypeOverridable && !p.signednessOverridable
    ensures p.packedDimensions == [] && p.unpackedDimensions == []
  {
    SvParameter("", None, NewSvParamType(), None, false, None, None, false, None, [], [], None)
  }
}
