/**
 * Sign and zero extension of integral literals, and the operators that
 * compare two literals: `<`, `<=`, `>`, `>=` (relational), `===` (case
 * equality) and `==` (logical equality), as sections 11.4.4 and 11.4.5 of
 * IEEE 1800-2017 define them. Each comparison first brings both operands to
 * one number of limbs; a signed pair is sign extended, any other pair is
 * compared unsigned.
 */
module PrimlitCompare {
  import opened Wrappers
  import opened Limbs
  import opened PrimlitCore
  import opened PrimlitShift

  // ---------------------------------------------------------------------
  // Sign filling of one plane.
  // ---------------------------------------------------------------------

  /** The inner loop of the sign fill: the leading zeros of a limb are set one at a time, from bit 63 down. */
  method FillLeading(v: Limb) returns (u: Limb)
    ensures u == v + BASE - Pow2(BitLength(v))
  {
    var leading := LeadingZeros(v);
    LeadingZerosMeaning(v, BITS - leading);
    Pow2Word();
    u := v;
    for y := 0 to leading
      invariant u == v + Pow2(BITS) - Pow2(BITS - y)
    {
      Pow2Monotone(BITS - leading, BITS - y - 1);
      u := u + Pow2(BITS - y - 1);
    }
  }

  /** While the fill runs down the top zero limbs: they are all ones, and nothing below them has changed. */
  ghost predicate FillState(ds: seq<Limb>, r: seq<Limb>, x: nat) {
    && x <= |ds| == |r|
    && r[..x] == ds[..x]
    && ValueOf(ds) == ValueOf(ds[..x])
    && ValueOf(r) == ValueOf(ds[..x]) + Weight(|ds|) - Weight(x)
  }

  /**
   * The rows of 1s a sign extension writes into one plane: from the top limb
   * down, every leading zero is set; the loop stops after the first limb that
   * has a set bit. Every bit above the highest set bit comes to be set.
   */
  method SignFill(ds: seq<Limb>) returns (r: seq<Limb>)
    ensures |r| == |ds|
    ensures ValueOf(r) == ValueOf(ds) + Weight(|ds|) - Pow2(BitLength(ValueOf(ds)))
  {
    r := ds;
    var x: nat := |ds|;
    assert ds[..x] == ds;
    while x > 0
      invariant FillState(ds, r, x)
      decreases x
    {
      x := x - 1;
      var lastElement;
      r, lastElement := FillAt(r, x, ds);
      if lastElement {
        return;
      }
    }
    assert ds[..0] == [];
    assert Weight(0) == 1;
  }

  /** One limb of the sign fill; `last` says that it had a set bit, so that the fill stops. */
  method FillAt(r: seq<Limb>, x: nat, ghost ds: seq<Limb>) returns (next: seq<Limb>, last: bool)
    requires x < |ds| && FillState(ds, r, x + 1)
    ensures last <==> ds[x] != 0
    ensures !last ==> FillState(ds, next, x)
    ensures last ==> |next| == |ds| && ValueOf(next) == ValueOf(ds) + Weight(|ds|) - Pow2(BitLength(ValueOf(ds)))
  {
    assert r[x] == r[..x + 1][x] == ds[x];
    var leading := LeadingZeros(r[x]);
    NoBitSet(r[x]);
    last := leading != BITS;
    var u := FillLeading(r[x]);
    next := r[x := u];
    FillStepValue(ds, r, x, u, next);
    if last {
      assert ds[x] == r[x];
      FillTopValue(ds, x);
    } else {
      assert next[..x] == ds[..x];
    }
  }

  /** The value after one limb of the fill, in terms of the limbs below it. */
  lemma FillStepValue(ds: seq<Limb>, r: seq<Limb>, x: nat, u: Limb, next: seq<Limb>)
    requires x < |ds| && FillState(ds, r, x + 1)
    requires u == ds[x] + BASE - Pow2(BitLength(ds[x])) && next == r[x := u]
    ensures ValueOf(next) == ValueOf(ds) + Weight(|ds|) - Pow2(BitLength(ds[x])) * Weight(x)
    ensures ValueOf(ds[..x + 1]) == ValueOf(ds[..x]) + ds[x] * Weight(x)
  {
    assert r[x] == r[..x + 1][x] == ds[x];
    ValueOfUpdate(r, x, u);
    ValueOfTop(ds[..x + 1]);
    assert ds[..x + 1][..x] == ds[..x];
    WeightNext(x);
    FillArith(ValueOf(next), ValueOf(r), ValueOf(ds), Weight(|ds|), Weight(x + 1), Weight(x), ds[x], u,
              Pow2(BitLength(ds[x])));
  }

  lemma FillArith(vn: int, vr: int, vd: int, wn: int, w1: int, w: int, t: int, u: int, pb: int)
    requires vn + t * w == vr + u * w && vr == vd + wn - w1 && w1 == w * BASE && u == t + BASE - pb
    ensures vn == vd + wn - pb * w
  {
    assert u * w == t * w + BASE * w - pb * w;
  }

  /** Where the fill stops: the value's bit length is that of the limb plus the limbs below it. */
  lemma FillTopValue(ds: seq<Limb>, x: nat)
    requires x < |ds| && ds[x] != 0 && ValueOf(ds) == ValueOf(ds[..x]) + ds[x] * Weight(x)
    ensures Pow2(BitLength(ValueOf(ds))) == Pow2(BitLength(ds[x])) * Weight(x)
  {
    var low, t, v := ValueOf(ds[..x]), ds[x], ValueOf(ds);
    ValueOfBound(ds[..x]);
    BitLengthBounds(t);
    FillTopBits(low, t, v, x, BitLength(t));
  }

  lemma FillTopBits(low: nat, t: nat, v: nat, x: nat, b: nat)
    requires b >= 1 && low < Weight(x) && Pow2(b - 1) <= t < Pow2(b) && v == low + t * Weight(x)
    ensures Pow2(BitLength(v)) == Pow2(b) * Weight(x)
  {
    Pow2Add(b, BITS * x);
    Pow2Add(b - 1, BITS * x);
    FillTopBounds(low, t, Weight(x), Pow2(b), Pow2(b - 1), v);
    BitLengthOf(v, b + BITS * x);
  }

  lemma FillTopBounds(low: nat, t: nat, w: nat, pb: nat, pb1: nat, v: nat)
    requires low < w && pb1 <= t < pb && v == low + t * w
    ensures v < pb * w && pb1 * w <= v
  {
    MulLe(t, pb - 1, w);
    MulLe(pb1, t, w);
  }

  // ---------------------------------------------------------------------
  // Comparing limb vectors.
  // ---------------------------------------------------------------------

  /** Limb `x` of the number `v`. */
  function LimbOf(v: int, x: nat): Limb {
    (v / Weight(x)) % BASE
  }

  /**
   * How the comparison loops decide that one vector is below another:
   * `AnyLimb` as the code does it, when some limb of the left vector is below
   * the same limb of the right one; `Lexicographic` by the highest limb in
   * which they differ.
   */
  datatype LimbOrder = AnyLimb | Lexicographic

  /** What the comparison loop finds for two numbers of `n` limbs. */
  ghost predicate Below(va: int, vb: int, n: nat, order: LimbOrder) {
    if order == AnyLimb then exists x :: 0 <= x < n && LimbOf(va, x) < LimbOf(vb, x)
    else va < vb
  }

  /**
   * The loop of `lt` and `gt` over two matched vectors, from the top limb
   * down. As written it answers 1 at the first limb of `ds` below that of
   * `es`; the lexicographic loop answers 0 as well at the first limb above.
   */
  method LimbsBelow(ds: seq<Limb>, es: seq<Limb>, order: LimbOrder) returns (b: bool)
    requires |ds| == |es|
    ensures b == Below(ValueOf(ds), ValueOf(es), |ds|, order)
  {
    var x := |ds|;
    while x > 0
      invariant 0 <= x <= |ds|
      invariant order == AnyLimb ==> forall j :: x <= j < |ds| ==> ds[j] >= es[j]
      invariant order == Lexicographic ==> ds[x..] == es[x..]
      decreases x
    {
      x := x - 1;
      if ds[x] < es[x] {
        if order == AnyLimb {
          LimbOfVector(ds, x);
          LimbOfVector(es, x);
        } else {
          LexicographicAt(ds, es, x);
        }
        return true;
      }
      if order == Lexicographic && ds[x] > es[x] {
        LexicographicAt(es, ds, x);
        return false;
      }
      assert order == Lexicographic ==> ds[x..] == [ds[x]] + ds[x + 1..] && es[x..] == [es[x]] + es[x + 1..];
    }
    if order == AnyLimb {
      forall j | 0 <= j < |ds|
        ensures LimbOf(ValueOf(ds), j) >= LimbOf(ValueOf(es), j)
      {
        LimbOfVector(ds, j);
        LimbOfVector(es, j);
      }
    } else {
      assert ds == ds[0..] && es == es[0..];
    }
    return false;
  }

  /** Limb `x` of a vector is limb `x` of the number it stands for. */
  lemma LimbOfVector(ds: seq<Limb>, x: nat)
    requires x < |ds|
    ensures ds[x] == LimbOf(ValueOf(ds), x)
  {
    var lo, hi := ds[..x], ds[x + 1..];
    var rest := [ds[x]] + hi;
    assert ds == lo + rest;
    ValueOfConcat(lo, rest);
    var c := ValueOf(rest);
    assert ValueOf(ds) == ValueOf(lo) + Weight(x) * c;
    ValueOfCons(ds[x], hi);
    ValueOfBound(lo);
    LimbOfArith(ValueOf(ds), ValueOf(lo), Weight(x), c, ds[x], ValueOf(hi));
  }

  lemma LimbOfArith(v: int, lo: int, w: int, c: int, t: int, h: int)
    requires v == lo + w * c && c == t + BASE * h && 0 <= lo < w && 0 <= t < BASE && h >= 0
    ensures (v / w) % BASE == t
  {
    assert v == c * w + lo;
    DivModUnique(v, w, c, lo);
    DivModUnique(c, BASE, h, t);
  }

  /** Vectors equal above limb `x` and with a lower limb `x` stand for a smaller number. */
  lemma LexicographicAt(ds: seq<Limb>, es: seq<Limb>, x: nat)
    requires x < |ds| == |es| && ds[x + 1..] == es[x + 1..] && ds[x] < es[x]
    ensures ValueOf(ds) < ValueOf(es)
  {
    var hi := ds[x + 1..];
    assert ds == ds[..x + 1] + hi && es == es[..x + 1] + hi;
    ValueOfConcat(ds[..x + 1], hi);
    ValueOfConcat(es[..x + 1], hi);
    ValueOfTop(ds[..x + 1]);
    ValueOfTop(es[..x + 1]);
    assert ds[..x + 1][..x] == ds[..x] && es[..x + 1][..x] == es[..x];
    LexArith(ValueOf(ds[..x]), ds[x], ValueOf(es[..x]), es[x], Weight(x));
  }

  lemma LexArith(ld: int, td: int, le: int, te: int, w: int)
    requires 0 <= ld < w && le >= 0 && 0 <= td < te
    ensures ld + td * w < le + te * w
  {
    MulLe(td + 1, te, w);
  }

  // ---------------------------------------------------------------------
  // Signs.
  // ---------------------------------------------------------------------

  /** Bit `size - 1` of the 0/1 plane, the sign of a signed 2-state literal. */
  ghost predicate SignBit01(p: SvPrimaryLiteralIntegral) {
    p.size >= 1 && ValueOf(p.data01) >= Pow2(p.size - 1)
  }

  /** Bit `size - 1` of the X/Z plane; never set in a 2-state literal. */
  ghost predicate SignBitXz(p: SvPrimaryLiteralIntegral) {
    p.size >= 1 && XzValue(p) >= Pow2(p.size - 1)
  }

  /** A plane of width `size` read in two's complement. */
  ghost function SPlane(v: nat, size: nat): int {
    if size >= 1 && v >= Pow2(size - 1) then v - Pow2(size) else v
  }

  /**
   * The number an operand stands for in a comparison: its 0/1 plane in two's
   * complement when both operands are signed, and unsigned otherwise.
   */
  ghost function Operand(p: SvPrimaryLiteralIntegral, bothSigned: bool): int {
    if bothSigned then SPlane(ValueOf(p.data01), p.size) else ValueOf(p.data01)
  }

  /** The signed zero the code compares against: `bit1b_0` with the signed flag set. */
  function SignedZero(): (z: SvPrimaryLiteralIntegral)
    ensures WF(z) && z.signed && !HasXz(z) && ValueOf(z.data01) == 0 && XzValue(z) == 0
  {
    Bit1b0().(signed := true)
  }

  /** On a well-formed literal the code's top-bit tests are the sign bits. */
  lemma MsbFacts(p: SvPrimaryLiteralIntegral)
    requires WF(p)
    ensures BITS * (|p.data01| - 1) <= p.size <= BITS * |p.data01|
    ensures IsSetMsb01(p) == SignBit01(p) && IsSetMsbXz(p) == SignBitXz(p)
    ensures SignBitXz(p) ==> HasXz(p)
  {
    IsSetMsb01Meaning(p);
    HasXzMeaning(p);
  }

  /** The 0/1 top-bit test alone. */
  lemma MsbSign(p: SvPrimaryLiteralIntegral)
    requires WF(p)
    ensures BITS * (|p.data01| - 1) <= p.size <= BITS * |p.data01|
    ensures IsSetMsb01(p) == SignBit01(p)
  {
    IsSetMsb01Meaning(p);
  }

  /** Both planes of a well-formed literal fit its width, and the width fits `n` limbs. */
  lemma SizeFacts(p: SvPrimaryLiteralIntegral, n: nat)
    requires WF(p) && n >= |p.data01|
    ensures ValueOf(p.data01) < Pow2(p.size) && XzValue(p) < Pow2(p.size) && Pow2(p.size) <= Weight(n)
  {
    LimbsForBounds(p.size);
    Pow2Monotone(p.size, BITS * n);
  }

  // ---------------------------------------------------------------------
  // Sign extension.
  // ---------------------------------------------------------------------

  /**
   * When the sign extension writes 1s above the 0/1 plane. As written
   * (`ByNegative`) a set top bit is extended only when the literal holds no X
   * or Z at all, or when the top bit itself is a Z; `ByMsb` extends every set
   * top bit, as a sign extension of the top bit does.
   */
  datatype SignRule = ByNegative | ByMsb

  ghost predicate Fill01(p: SvPrimaryLiteralIntegral, rule: SignRule) {
    SignBit01(p) && (rule == ByMsb || !HasXz(p) || SignBitXz(p))
  }

  /** A plane of width `size` widened to `n` limbs, with every new bit set when `fill`. */
  ghost function Widened(v: nat, fill: bool, size: nat, n: nat): int {
    if fill then v + Weight(n) - Pow2(size) else v
  }

  /** What a sign extension of `p` to `n` limbs leaves in `q`: both planes widened, the width that of the limbs. */
  ghost predicate SignExtended(p: SvPrimaryLiteralIntegral, q: SvPrimaryLiteralIntegral, n: nat, rule: SignRule) {
    && |q.data01| == n && q.size == BITS * n && q.signed == p.signed
    && q.dataXz.Some? == p.dataXz.Some?
    && (q.dataXz.Some? ==> |q.dataXz.value| == n)
    && ValueOf(q.data01) == Widened(ValueOf(p.data01), Fill01(p, rule), p.size, n)
    && XzValue(q) == Widened(XzValue(p), SignBitXz(p), p.size, n)
  }

  /** Which planes the extension fills. As written the 0/1 test goes through `is_negative`. */
  method SignFlags(p: SvPrimaryLiteralIntegral, rule: SignRule) returns (fill01: bool, fillXz: bool)
    requires WF(p) && p.signed
    ensures fill01 == Fill01(p, rule) && fillXz == SignBitXz(p)
    decreases 2, 1
  {
    MsbFacts(p);
    var msb01 := IsSetMsb01(p);
    var msbXz := IsSetMsbXz(p);
    var neg;
    if rule == ByNegative {
      neg := IsNegative(p);
    } else {
      neg := msb01;
    }
    var signX := !msb01 && msbXz;
    var signZ := msb01 && msbXz;
    fill01 := neg || signZ;
    fillXz := signZ || signX;
  }

  /** A plane after `SignFill` when `fill`, and untouched otherwise. */
  ghost function FillValue(ds: seq<Limb>, fill: bool): int {
    if fill then ValueOf(ds) + Weight(|ds|) - Pow2(BitLength(ValueOf(ds))) else ValueOf(ds)
  }

  /** The fill of the planes of one operand, already matched to its final length. */
  method ExtendPlanes(p: SvPrimaryLiteralIntegral, fill01: bool, fillXz: bool) returns (q: SvPrimaryLiteralIntegral)
    requires fillXz ==> p.dataXz.Some?
    ensures q.size == p.size && q.signed == p.signed && |q.data01| == |p.data01|
    ensures q.dataXz.Some? == p.dataXz.Some? && (p.dataXz.Some? ==> |q.dataXz.value| == |p.dataXz.value|)
    ensures ValueOf(q.data01) == FillValue(p.data01, fill01)
    ensures p.dataXz.Some? ==> ValueOf(q.dataXz.value) == FillValue(p.dataXz.value, fillXz)
  {
    q := p;
    if fill01 {
      var d := SignFill(p.data01);
      q := q.(data01 := d);
    }
    if fillXz {
      var x := SignFill(p.dataXz.value);
      q := q.(dataXz := Some(x));
    }
  }

  /** A filled plane whose top bit was set: every bit from the width up is set. */
  lemma FilledPlane(v: nat, size: nat, n: nat)
    requires size >= 1 && Pow2(size - 1) <= v < Pow2(size)
    ensures v + Weight(n) - Pow2(BitLength(v)) == Widened(v, true, size, n)
  {
    BitLengthOf(v, size);
  }

  /** One operand of a sign extension, given its planes padded to `n` limbs and the fill flags. */
  method ExtendOperand(p: SvPrimaryLiteralIntegral, padded: SvPrimaryLiteralIntegral, n: nat,
                       fill01: bool, fillXz: bool, ghost rule: SignRule) returns (q: SvPrimaryLiteralIntegral)
    requires WF(p) && n >= |p.data01| && padded == Padded(p, n - |p.data01|)
    requires fill01 == Fill01(p, rule) && fillXz == SignBitXz(p)
    ensures SignExtended(p, q, n, rule)
  {
    SizeFacts(p, n);
    PaddedKeepsValue(p, n - |p.data01|);
    q := ExtendPlanes(padded, fill01, fillXz);
    q := q.(size := BITS * |q.data01|);
    if fill01 {
      FilledPlane(ValueOf(p.data01), p.size, n);
    }
    if fillXz {
      FilledPlane(XzValue(p), p.size, n);
    }
  }

  /**
   * `_matched_sign_extend`: both operands are matched to the longer length
   * and sign extended there; both widths become 64 bits per limb.
   */
  method MatchedSignExtend(a: SvPrimaryLiteralIntegral, b: SvPrimaryLiteralIntegral, rule: SignRule)
    returns (l: SvPrimaryLiteralIntegral, r: SvPrimaryLiteralIntegral)
    requires WF(a) && WF(b) && a.signed && b.signed
    ensures SignExtended(a, l, MaxLen(a, b), rule) && SignExtended(b, r, MaxLen(a, b), rule)
    decreases 2, 2
  {
    var leftFill01, leftFillXz := SignFlags(a, rule);
    var rightFill01, rightFillXz := SignFlags(b, rule);
    var pl, pr := VecElmntMatch(a, b);
    l := ExtendOperand(a, pl, MaxLen(a, b), leftFill01, leftFillXz, rule);
    r := ExtendOperand(b, pr, MaxLen(a, b), rightFill01, rightFillXz, rule);
  }

  /** `_sign_extend`: the literal sign extended within its own limbs; the width becomes 64 bits per limb. */
  method SignExtend(p: SvPrimaryLiteralIntegral, rule: SignRule) returns (q: SvPrimaryLiteralIntegral)
    requires WF(p) && p.signed
    ensures SignExtended(p, q, |p.data01|, rule)
  {
    var fill01, fillXz := SignFlags(p, rule);
    PaddedNone(p);
    q := ExtendOperand(p, p, |p.data01|, fill01, fillXz, rule);
  }

  /** The number 2^k - 1 has exactly its low `k` bits set. */
  lemma {:induction false} AllOnesBits(k: nat, t: nat)
    ensures Bit(Pow2(k) - 1, t) == (t < k)
    decreases k
  {
    if k == 0 {
      BitOfZero(t);
    } else {
      var h := Pow2(k - 1) - 1;
      assert Pow2(k) - 1 == 2 * h + 1;
      BitDouble(h, 1, if t == 0 then 0 else t - 1);
      if t > 0 {
        AllOnesBits(k - 1, t - 1);
      }
    }
  }

  /** Adding 2^m - 2^size to a number below 2^size sets bits `size` to `m - 1` and keeps the rest. */
  lemma FilledBits(v: nat, size: nat, m: nat, i: nat)
    requires v < Pow2(size) && size <= m
    ensures Pow2(size) <= Pow2(m) && Bit(v + (Pow2(m) - Pow2(size)), i) == if i < size then Bit(v, i) else i < m
  {
    Pow2Monotone(size, m);
    Pow2Add(size, m - size);
    var c := Pow2(m - size) - 1;
    assert Pow2(m) - Pow2(size) == c * Pow2(size);
    BitOfSum(v, c, size, i);
    if i >= size {
      AllOnesBits(m - size, i - size);
    }
  }

  /** Every bit of a widened plane from the width up is a copy of its top bit. */
  lemma WidenedBits(v: nat, size: nat, n: nat, i: nat)
    requires size >= 1 && v < Pow2(size) && size <= BITS * n && i < BITS * n
    ensures var w := Widened(v, v >= Pow2(size - 1), size, n);
      w >= 0 && Bit(w, i) == Bit(v, if i < size then i else size - 1)
  {
    TopBit(v, size);
    Pow2Monotone(size, BITS * n);
    if v >= Pow2(size - 1) {
      FilledBits(v, size, BITS * n, i);
    } else if i >= size {
      BitAbove(v, size, i);
    }
  }

  /**
   * With the top bit extended, bit `i` of the sign extension is bit `i` of
   * the literal below its width and a copy of its top bit from there up, as
   * a sign extension is defined.
   */
  lemma SignExtendedBits(p: SvPrimaryLiteralIntegral, q: SvPrimaryLiteralIntegral, n: nat, i: nat)
    requires WF(p) && n >= |p.data01| && SignExtended(p, q, n, ByMsb) && i < BITS * n
    ensures LogicAt(q, i) == LogicAt(p, if i < p.size then i else p.size - 1)
  {
    SizeFacts(p, n);
    LimbsForBounds(p.size);
    WidenedBits(ValueOf(p.data01), p.size, n, i);
    WidenedBits(XzValue(p), p.size, n, i);
  }

  /** `_matched_zero_extend`: both operands matched to the longer length; both widths become 64 bits per limb. */
  method MatchedZeroExtend(a: SvPrimaryLiteralIntegral, b: SvPrimaryLiteralIntegral)
    returns (l: SvPrimaryLiteralIntegral, r: SvPrimaryLiteralIntegral)
    requires !a.signed && !b.signed
    ensures l == Padded(a, MaxLen(a, b) - |a.data01|).(size := BITS * MaxLen(a, b))
    ensures r == Padded(b, MaxLen(a, b) - |b.data01|).(size := BITS * MaxLen(a, b))
  {
    l, r := VecElmntMatch(a, b);
    l := l.(size := BITS * |l.data01|);
    r := r.(size := BITS * |r.data01|);
  }

  // ---------------------------------------------------------------------
  // Relational operators.
  // ---------------------------------------------------------------------

  /** A measure for the recursion through `is_negative`, whose signed zero ranks lowest. */
  ghost function NegRank(p: SvPrimaryLiteralIntegral): nat {
    if ValueOf(p.data01) == 0 then 1 else 3
  }

  /**
   * What `lt` finds for two 2-state operands: the signs decide between a
   * negative and a non-negative signed operand; otherwise the limb loop runs
   * over both 0/1 planes extended to `MaxLen(a, b)` limbs, sign extended when
   * both operands are signed.
   */
  ghost predicate LtHolds(a: SvPrimaryLiteralIntegral, b: SvPrimaryLiteralIntegral, order: LimbOrder) {
    var n := MaxLen(a, b);
    if a.signed && b.signed then
      if SignBit01(a) != SignBit01(b) then SignBit01(a)
      else Below(Widened(ValueOf(a.data01), SignBit01(a), a.size, n),
                 Widened(ValueOf(b.data01), SignBit01(b), b.size, n), n, order)
    else Below(ValueOf(a.data01), ValueOf(b.data01), n, order)
  }

  /** The 0/1 planes `_matched_sign_extend` leaves, which the relational loops compare. */
  method SignExtendedPlanes(a: SvPrimaryLiteralIntegral, b: SvPrimaryLiteralIntegral) returns (l: seq<Limb>, r: seq<Limb>)
    requires WF(a) && WF(b) && a.signed && b.signed && !HasXz(a) && !HasXz(b)
    ensures |l| == |r| == MaxLen(a, b)
    ensures ValueOf(l) == Widened(ValueOf(a.data01), SignBit01(a), a.size, MaxLen(a, b))
    ensures ValueOf(r) == Widened(ValueOf(b.data01), SignBit01(b), b.size, MaxLen(a, b))
    decreases 2, 3
  {
    var pl, pr := MatchedSignExtend(a, b, ByNegative);
    assert Fill01(a, ByNegative) == SignBit01(a) && Fill01(b, ByNegative) == SignBit01(b);
    l, r := pl.data01, pr.data01;
  }

  /** The 0/1 planes `_matched_zero_extend` leaves. */
  method ZeroExtendedPlanes(a: SvPrimaryLiteralIntegral, b: SvPrimaryLiteralIntegral) returns (l: seq<Limb>, r: seq<Limb>)
    requires !a.signed && !b.signed
    ensures |l| == |r| == MaxLen(a, b)
    ensures ValueOf(l) == ValueOf(a.data01) && ValueOf(r) == ValueOf(b.data01)
  {
    var pl, pr := MatchedZeroExtend(a, b);
    PaddedKeepsValue(a, MaxLen(a, b) - |a.data01|);
    PaddedKeepsValue(b, MaxLen(a, b) - |b.data01|);
    l, r := pl.data01, pr.data01;
  }

  /**
   * `lt`: X when either operand holds an X or a Z. Operands of mixed
   * signedness are compared unsigned; two signed operands by their signs,
   * two negative ones by their sign extended limbs, and two non-negative ones
   * unsigned.
   */
  method Lt(a: SvPrimaryLiteralIntegral, b: SvPrimaryLiteralIntegral, order: LimbOrder) returns (r: SvPrimaryLiteralIntegral)
    requires WF(a) && WF(b)
    ensures HasXz(a) || HasXz(b) ==> r == Logic1bX()
    ensures !HasXz(a) && !HasXz(b) ==> r == if LtHolds(a, b, order) then Logic1b1() else Logic1b0()
    decreases NegRank(b), if a.signed || b.signed then 1 else 0
  {
    var leftXz := ContainsXz(a);
    var rightXz := ContainsXz(b);
    if leftXz || rightXz {
      return Logic1bX();
    }
    if a.signed != b.signed {
      r := Lt(a.(signed := false), b.(signed := false), order);
      return;
    }
    if a.signed {
      MsbSign(a);
      MsbSign(b);
      var leftNeg := IsSetMsb01(a);
      var rightNeg := IsSetMsb01(b);
      if leftNeg && !rightNeg {
        return Logic1b1();
      } else if !leftNeg && rightNeg {
        return Logic1b0();
      } else if leftNeg {
        var l, rr := SignExtendedPlanes(a, b);
        var below := LimbsBelow(l, rr, order);
        return if below then Logic1b1() else Logic1b0();
      }
      r := Lt(a.(signed := false), b.(signed := false), order);
      return;
    }
    var l, rr := ZeroExtendedPlanes(a, b);
    var below := LimbsBelow(l, rr, order);
    return if below then Logic1b1() else Logic1b0();
  }

  /**
   * `gt`: as `lt` with the operands' roles exchanged, except that two signed
   * operands of one sign are always compared sign extended.
   */
  method Gt(a: SvPrimaryLiteralIntegral, b: SvPrimaryLiteralIntegral, order: LimbOrder) returns (r: SvPrimaryLiteralIntegral)
    requires WF(a) && WF(b)
    ensures HasXz(a) || HasXz(b) ==> r == Logic1bX()
    ensures !HasXz(a) && !HasXz(b) ==> r == if LtHolds(b, a, order) then Logic1b1() else Logic1b0()
    decreases if a.signed || b.signed then 1 else 0
  {
    var leftXz := ContainsXz(a);
    var rightXz := ContainsXz(b);
    if leftXz || rightXz {
      return Logic1bX();
    }
    if a.signed != b.signed {
      r := Gt(a.(signed := false), b.(signed := false), order);
      return;
    }
    if a.signed {
      MsbSign(a);
      MsbSign(b);
      var leftNeg := IsSetMsb01(a);
      var rightNeg := IsSetMsb01(b);
      if leftNeg && !rightNeg {
        return Logic1b0();
      } else if !leftNeg && rightNeg {
        return Logic1b1();
      }
      var l, rr := SignExtendedPlanes(a, b);
      var above := LimbsBelow(rr, l, order);
      return if above then Logic1b1() else Logic1b0();
    }
    var l, rr := ZeroExtendedPlanes(a, b);
    var above := LimbsBelow(rr, l, order);
    return if above then Logic1b1() else Logic1b0();
  }

  /** `is_negative`: `lt` against the signed zero answers 1. The limb loop
      as written cannot go wrong here, since no limb is below zero's. */
  method IsNegative(p: SvPrimaryLiteralIntegral) returns (b: bool)
    requires WF(p)
    ensures b == (p.signed && !HasXz(p) && SignBit01(p))
    decreases 2, 0
  {
    var r := Lt(p, SignedZero(), AnyLimb);
    LtZero(p);
    b := r == Logic1b1();
  }

  /** No number is found below zero, in either limb order. */
  lemma NothingBelowZero(v: nat, n: nat, order: LimbOrder)
    ensures !Below(v, 0, n, order)
  {
    if order == AnyLimb {
      forall x | 0 <= x < n
        ensures LimbOf(v, x) >= LimbOf(0, x)
      {
        assert LimbOf(0, x) == 0;
      }
    }
  }

  /** Against the signed zero, `lt` holds exactly for a signed literal whose top bit is set. */
  lemma LtZero(p: SvPrimaryLiteralIntegral)
    requires WF(p)
    ensures LtHolds(p, SignedZero(), AnyLimb) == (p.signed && SignBit01(p))
  {
    var z := SignedZero();
    var n := MaxLen(p, z);
    assert !SignBit01(z);
    if p.signed && !SignBit01(p) {
      NothingBelowZero(ValueOf(p.data01), n, AnyLimb);
      assert Widened(ValueOf(z.data01), SignBit01(z), z.size, n) == 0;
    } else if !p.signed {
      NothingBelowZero(ValueOf(p.data01), n, AnyLimb);
    }
  }

  /**
   * Two planes widened to one length are equal exactly when the two's
   * complement numbers they stand for are, and, for two planes of one sign,
   * ordered as those numbers are.
   */
  lemma WidenedOrder(va: nat, sa: nat, vb: nat, sb: nat, n: nat)
    requires sa >= 1 && sb >= 1 && va < Pow2(sa) && vb < Pow2(sb) && Pow2(sa) <= Weight(n) && Pow2(sb) <= Weight(n)
    ensures var wa, wb := Widened(va, va >= Pow2(sa - 1), sa, n), Widened(vb, vb >= Pow2(sb - 1), sb, n);
      && (wa == wb <==> SPlane(va, sa) == SPlane(vb, sb))
      && ((va >= Pow2(sa - 1)) == (vb >= Pow2(sb - 1)) ==> (wa < wb <==> SPlane(va, sa) < SPlane(vb, sb)))
  {
    assert Pow2(sa) == 2 * Pow2(sa - 1);
    assert Pow2(sb) == 2 * Pow2(sb - 1);
    WidenedArith(va, Pow2(sa - 1), vb, Pow2(sb - 1), Weight(n));
  }

  lemma WidenedArith(va: int, ha: int, vb: int, hb: int, w: int)
    requires 0 <= va < 2 * ha && 0 <= vb < 2 * hb && 2 * ha <= w && 2 * hb <= w
    ensures var wa, wb := (if va >= ha then va + w - 2 * ha else va), (if vb >= hb then vb + w - 2 * hb else vb);
      var sa, sb := (if va >= ha then va - 2 * ha else va), (if vb >= hb then vb - 2 * hb else vb);
      (wa == wb <==> sa == sb) && ((va >= ha) == (vb >= hb) ==> (wa < wb <==> sa < sb))
  {
    if va >= ha && vb < hb {
      assert va + w - 2 * ha > vb;
    } else if va < ha && vb >= hb {
      assert vb + w - 2 * hb > va;
    }
  }

  /** With the lexicographic loop, `lt` is the numeric order of the operands. */
  lemma LtMeaning(a: SvPrimaryLiteralIntegral, b: SvPrimaryLiteralIntegral)
    requires WF(a) && WF(b)
    ensures var s := a.signed && b.signed; LtHolds(a, b, Lexicographic) <==> Operand(a, s) < Operand(b, s)
  {
    SizeFacts(a, MaxLen(a, b));
    SizeFacts(b, MaxLen(a, b));
    if a.signed && b.signed {
      WidenedOrder(ValueOf(a.data01), a.size, ValueOf(b.data01), b.size, MaxLen(a, b));
    }
  }

  /** On one limb each, the loop as written agrees with the lexicographic one. */
  lemma BelowOneLimb(va: int, vb: int)
    requires 0 <= va < BASE && 0 <= vb < BASE
    ensures Below(va, vb, 1, AnyLimb) <==> va < vb
  {
    assert Weight(0) == 1;
    assert LimbOf(va, 0) == va && LimbOf(vb, 0) == vb;
  }

  /** For operands of at most 64 bits, `lt` as written is the numeric order. */
  lemma LtSingleLimb(a: SvPrimaryLiteralIntegral, b: SvPrimaryLiteralIntegral)
    requires WF(a) && WF(b) && |a.data01| == 1 && |b.data01| == 1
    ensures LtHolds(a, b, AnyLimb) <==> LtHolds(a, b, Lexicographic)
  {
    SizeFacts(a, 1);
    SizeFacts(b, 1);
    Pow2Word();
    assert Weight(1) == BASE;
    if a.signed && b.signed {
      BelowOneLimb(Widened(ValueOf(a.data01), SignBit01(a), a.size, 1), Widened(ValueOf(b.data01), SignBit01(b), b.size, 1));
    } else {
      BelowOneLimb(ValueOf(a.data01), ValueOf(b.data01));
    }
  }

  /**
   * On two limbs the loop as written finds 2^64 below 1: limb 0 of 2^64 is
   * below limb 0 of 1, and the larger upper limb is never looked at.
   */
  lemma LtAnyLimbCounterexample()
    ensures var a, b := SvPrimaryLiteralIntegral([0, 1], None, 65, false), SvPrimaryLiteralIntegral([1, 0], None, 65, false);
      && WF(a) && WF(b) && ValueOf(a.data01) == BASE && ValueOf(b.data01) == 1
      && LtHolds(a, b, AnyLimb) && !LtHolds(a, b, Lexicographic)
  {
    var a: seq<Limb>, b: seq<Limb> := [0, 1], [1, 0];
    Pow2Word();
    assert Weight(0) == 1;
    assert Weight(1) == BASE;
    Pow2Add(BITS, 1);
    assert ValueOf(a) == BASE by { assert a[..1] == [0]; assert [0][..0] == []; }
    assert ValueOf(b) == 1 by { assert b[..1] == [1]; assert [1][..0] == []; }
    assert LimbOf(BASE, 0) == 0 && LimbOf(1, 0) == 1;
  }

  /**
   * `le`: X for an X or a Z; otherwise 1 when `lt` or `logical_eq` answers 1,
   * so with the loop as written 1 also where that loop wrongly finds `a`
   * below `b`. With the lexicographic loop, the numeric order.
   */
  method Le(a: SvPrimaryLiteralIntegral, b: SvPrimaryLiteralIntegral, order: LimbOrder) returns (r: SvPrimaryLiteralIntegral)
    requires WF(a) && WF(b)
    ensures HasXz(a) || HasXz(b) ==> r == Logic1bX()
    ensures !HasXz(a) && !HasXz(b) ==>
      r == if LtHolds(a, b, order) || Operand(a, a.signed && b.signed) == Operand(b, a.signed && b.signed)
           then Logic1b1() else Logic1b0()
    ensures !HasXz(a) && !HasXz(b) && order == Lexicographic ==>
      r == if Operand(a, a.signed && b.signed) <= Operand(b, a.signed && b.signed) then Logic1b1() else Logic1b0()
  {
    var leftXz := ContainsXz(a);
    var rightXz := ContainsXz(b);
    if leftXz || rightXz {
      return Logic1bX();
    }
    var lt := Lt(a, b, order);
    var logicalEq := LogicalEq(a, b);
    LtMeaning(a, b);
    if lt == Logic1b1() || logicalEq == Logic1b1() {
      return Logic1b1();
    }
    return Logic1b0();
  }

  /**
   * `ge`: X for an X or a Z; otherwise 1 when `gt` or `logical_eq` answers 1,
   * with the same caveat for the loop as written as `le`.
   */
  method Ge(a: SvPrimaryLiteralIntegral, b: SvPrimaryLiteralIntegral, order: LimbOrder) returns (r: SvPrimaryLiteralIntegral)
    requires WF(a) && WF(b)
    ensures HasXz(a) || HasXz(b) ==> r == Logic1bX()
    ensures !HasXz(a) && !HasXz(b) ==>
      r == if LtHolds(b, a, order) || Operand(a, a.signed && b.signed) == Operand(b, a.signed && b.signed)
           then Logic1b1() else Logic1b0()
    ensures !HasXz(a) && !HasXz(b) && order == Lexicographic ==>
      r == if Operand(a, a.signed && b.signed) >= Operand(b, a.signed && b.signed) then Logic1b1() else Logic1b0()
  {
    var leftXz := ContainsXz(a);
    var rightXz := ContainsXz(b);
    if leftXz || rightXz {
      return Logic1bX();
    }
    var gt := Gt(a, b, order);
    var logicalEq := LogicalEq(a, b);
    LtMeaning(b, a);
    if gt == Logic1b1() || logicalEq == Logic1b1() {
      return Logic1b1();
    }
    return Logic1b0();
  }

  /**
   * With the loop as written, `le` answers 1 for 2^64 and 1 on 65 bits,
   * where 2^64 is the larger.
   */
  lemma LeAnyLimbCounterexample()
    ensures var a, b := SvPrimaryLiteralIntegral([0, 1], None, 65, false), SvPrimaryLiteralIntegral([1, 0], None, 65, false);
      && WF(a) && WF(b) && !HasXz(a) && !HasXz(b) && Operand(a, false) > Operand(b, false)
      && (LtHolds(a, b, AnyLimb) || Operand(a, false) == Operand(b, false))
  {
    LtAnyLimbCounterexample();
  }

  // ---------------------------------------------------------------------
  // Equality operators.
  // ---------------------------------------------------------------------

  /** The 0/1 plane an equality compares: sign extended to `n` limbs for two signed operands. */
  ghost function Cmp01(p: SvPrimaryLiteralIntegral, bothSigned: bool, n: nat, rule: SignRule): int {
    if bothSigned then Widened(ValueOf(p.data01), Fill01(p, rule), p.size, n) else ValueOf(p.data01)
  }

  /** The X/Z plane an equality compares, zero for a 2-state operand. */
  ghost function CmpXz(p: SvPrimaryLiteralIntegral, bothSigned: bool, n: nat): int {
    if bothSigned then Widened(XzValue(p), SignBitXz(p), p.size, n) else XzValue(p)
  }

  /**
   * What `case_eq` finds: the operands hold X or Z alike, agree in the
   * extended 0/1 planes, and, when they hold X or Z, in the X/Z planes too.
   */
  ghost predicate CaseEqHolds(a: SvPrimaryLiteralIntegral, b: SvPrimaryLiteralIntegral, rule: SignRule) {
    var s, n := a.signed && b.signed, MaxLen(a, b);
    Cmp01(a, s, n, rule) == Cmp01(b, s, n, rule) && XzAgree(a, b)
  }

  /** The X/Z half of `case_eq`: X or Z in both operands or in neither, and, when in both, the same X/Z planes. */
  ghost predicate XzAgree(a: SvPrimaryLiteralIntegral, b: SvPrimaryLiteralIntegral) {
    var s, n := a.signed && b.signed, MaxLen(a, b);
    HasXz(a) == HasXz(b) && (HasXz(a) ==> CmpXz(a, s, n) == CmpXz(b, s, n))
  }

  /** The extension the equality operators apply: sign extension for two signed operands, zero extension otherwise. */
  method MatchedExtend(a: SvPrimaryLiteralIntegral, b: SvPrimaryLiteralIntegral, rule: SignRule)
    returns (l: SvPrimaryLiteralIntegral, r: SvPrimaryLiteralIntegral)
    requires WF(a) && WF(b) && a.signed == b.signed
    ensures |l.data01| == |r.data01| == MaxLen(a, b)
    ensures WF(l) && WF(r) && l.size == r.size == BITS * MaxLen(a, b) && l.signed == a.signed && r.signed == b.signed
    ensures l.dataXz.Some? == a.dataXz.Some? && r.dataXz.Some? == b.dataXz.Some?
    ensures l.dataXz.Some? ==> |l.dataXz.value| == MaxLen(a, b)
    ensures r.dataXz.Some? ==> |r.dataXz.value| == MaxLen(a, b)
    ensures ValueOf(l.data01) == Cmp01(a, a.signed, MaxLen(a, b), rule) && XzValue(l) == CmpXz(a, a.signed, MaxLen(a, b))
    ensures ValueOf(r.data01) == Cmp01(b, b.signed, MaxLen(a, b), rule) && XzValue(r) == CmpXz(b, b.signed, MaxLen(a, b))
  {
    if a.signed {
      l, r := MatchedSignExtend(a, b, rule);
    } else {
      l, r := MatchedZeroExtend(a, b);
      PaddedKeepsValue(a, MaxLen(a, b) - |a.data01|);
      PaddedKeepsValue(b, MaxLen(a, b) - |b.data01|);
    }
    ExtendedWF(l);
    ExtendedWF(r);
  }

  /** A literal as wide as all its limbs is well formed. */
  lemma ExtendedWF(p: SvPrimaryLiteralIntegral)
    requires |p.data01| >= 1 && p.size == BITS * |p.data01|
    requires p.dataXz.Some? ==> |p.dataXz.value| == |p.data01|
    ensures WF(p)
  {
    var n := |p.data01|;
    DivModUnique(BITS * n + BITS - 1, BITS, n, BITS - 1);
    ValueOfBound(p.data01);
    if p.dataXz.Some? {
      ValueOfBound(p.dataXz.value);
    }
  }

  /** Vectors of one length are equal exactly when the numbers they stand for are. */
  lemma EqualPlanes(x: seq<Limb>, y: seq<Limb>)
    requires |x| == |y|
    ensures x == y <==> ValueOf(x) == ValueOf(y)
  {
    if ValueOf(x) == ValueOf(y) {
      ValueOfInjective(x, y);
    }
  }

  /**
   * `case_eq`: the 2-state bit 1 when both operands, extended to one length,
   * agree in the 0/1 plane and, when they hold X or Z, in the X/Z plane. An
   * operand holding an X or a Z never equals one that holds none.
   */
  method CaseEq(a: SvPrimaryLiteralIntegral, b: SvPrimaryLiteralIntegral, rule: SignRule) returns (r: SvPrimaryLiteralIntegral)
    requires WF(a) && WF(b)
    ensures r == if CaseEqHolds(a, b, rule) then Bit1b1() else Bit1b0()
    decreases if a.signed != b.signed then 1 else 0
  {
    if a.signed != b.signed {
      r := CaseEq(a.(signed := false), b.(signed := false), rule);
      return;
    }
    var leftXz := ContainsXz(a);
    var rightXz := ContainsXz(b);
    if leftXz != rightXz {
      return Bit1b0();
    }
    HasXzMeaning(a);
    HasXzMeaning(b);
    var l, rr := MatchedExtend(a, b, rule);
    EqualPlanes(l.data01, rr.data01);
    if leftXz && rightXz {
      var data01 := l.data01 == rr.data01;
      EqualPlanes(l.dataXz.value, rr.dataXz.value);
      var dataXz := l.dataXz.value == rr.dataXz.value;
      if data01 && dataXz {
        return Bit1b1();
      }
      return Bit1b0();
    }
    if l.data01 == rr.data01 {
      return Bit1b1();
    }
    return Bit1b0();
  }

  /**
   * With the top bit extended, `case_eq` is the equality of both planes read
   * in two's complement for two signed operands, and unsigned otherwise.
   */
  lemma CaseEqMeaning(a: SvPrimaryLiteralIntegral, b: SvPrimaryLiteralIntegral)
    requires WF(a) && WF(b)
    ensures CaseEqHolds(a, b, ByMsb) <==>
      if a.signed && b.signed then
        SPlane(ValueOf(a.data01), a.size) == SPlane(ValueOf(b.data01), b.size) && SPlane(XzValue(a), a.size) == SPlane(XzValue(b), b.size)
      else ValueOf(a.data01) == ValueOf(b.data01) && XzValue(a) == XzValue(b)
  {
    HasXzMeaning(a);
    HasXzMeaning(b);
    if a.signed && b.signed {
      CaseEqSignedMeaning(a, b);
    }
  }

  lemma CaseEqSignedMeaning(a: SvPrimaryLiteralIntegral, b: SvPrimaryLiteralIntegral)
    requires WF(a) && WF(b) && a.signed && b.signed
    ensures CaseEqHolds(a, b, ByMsb) <==>
      SPlane(ValueOf(a.data01), a.size) == SPlane(ValueOf(b.data01), b.size) && SPlane(XzValue(a), a.size) == SPlane(XzValue(b), b.size)
  {
    var n := MaxLen(a, b);
    SizeFacts(a, n);
    SizeFacts(b, n);
    PlanesEqual(ValueOf(a.data01), a.size, ValueOf(b.data01), b.size, n);
    XzAgreeSigned(a, b);
  }

  /** The 0/1 half of `case_eq` on two signed operands. */
  lemma PlanesEqual(va: nat, sa: nat, vb: nat, sb: nat, n: nat)
    requires sa >= 1 && sb >= 1 && va < Pow2(sa) && vb < Pow2(sb) && Pow2(sa) <= Weight(n) && Pow2(sb) <= Weight(n)
    ensures Widened(va, va >= Pow2(sa - 1), sa, n) == Widened(vb, vb >= Pow2(sb - 1), sb, n) <==> SPlane(va, sa) == SPlane(vb, sb)
  {
    WidenedOrder(va, sa, vb, sb, n);
  }

  /** The X/Z half of `case_eq` on two signed operands is the equality of their X/Z planes in two's complement. */
  lemma XzAgreeSigned(a: SvPrimaryLiteralIntegral, b: SvPrimaryLiteralIntegral)
    requires WF(a) && WF(b) && a.signed && b.signed
    ensures XzAgree(a, b) <==> SPlane(XzValue(a), a.size) == SPlane(XzValue(b), b.size)
  {
    var n := MaxLen(a, b);
    SizeFacts(a, n);
    SizeFacts(b, n);
    HasXzMeaning(a);
    HasXzMeaning(b);
    XzPlanesEqual(XzValue(a), a.size, XzValue(b), b.size, n);
  }

  /** The X/Z half on two X/Z planes, a plane of zero being no X or Z. */
  lemma XzPlanesEqual(xa: nat, sa: nat, xb: nat, sb: nat, n: nat)
    requires sa >= 1 && sb >= 1 && xa < Pow2(sa) && xb < Pow2(sb) && Pow2(sa) <= Weight(n) && Pow2(sb) <= Weight(n)
    ensures ((xa != 0) == (xb != 0) && (xa != 0 ==> Widened(xa, xa >= Pow2(sa - 1), sa, n) == Widened(xb, xb >= Pow2(sb - 1), sb, n)))
      <==> SPlane(xa, sa) == SPlane(xb, sb)
  {
    WidenedOrder(xa, sa, xb, sb, n);
  }

  /**
   * As written, `case_eq` finds the signed 4'sb1x00 different from 8'sb1111_1x00,
   * its own sign extension: a set top bit is not extended once an X or Z lies
   * anywhere in the literal. Both planes of the two stand for the same
   * numbers, so by `CaseEqMeaning` the extension of the set top bit finds them equal.
   */
  lemma SignFillDropsOnes()
    ensures var a, b := SvPrimaryLiteralIntegral([8], Some([4]), 4, true), SvPrimaryLiteralIntegral([248], Some([4]), 8, true);
      && WF(a) && WF(b)
      && SPlane(ValueOf(a.data01), a.size) == SPlane(ValueOf(b.data01), b.size) == -8
      && SPlane(XzValue(a), a.size) == SPlane(XzValue(b), b.size) == 4
      && !CaseEqHolds(a, b, ByNegative)
  {
    var a, b := SvPrimaryLiteralIntegral([8], Some([4]), 4, true), SvPrimaryLiteralIntegral([248], Some([4]), 8, true);
    Pow2Word();
    assert Pow2(3) == 8 && Pow2(4) == 16 && Pow2(7) == 128 && Pow2(8) == 256;
    assert ValueOf([8]) == 8 && ValueOf([4]) == 4 && ValueOf([248]) == 248 by { assert Weight(0) == 1; }
    assert a.dataXz.value[0] != 0 && b.dataXz.value[0] != 0;
    assert XzValue(a) == 4 && XzValue(b) == 4;
    assert !SignBitXz(a) && !SignBitXz(b);
  }

  /** `logical_eq`: X for an X or a Z; otherwise `case_eq` in 4-state form, the numeric equality of the operands. */
  method LogicalEq(a: SvPrimaryLiteralIntegral, b: SvPrimaryLiteralIntegral) returns (r: SvPrimaryLiteralIntegral)
    requires WF(a) && WF(b)
    ensures HasXz(a) || HasXz(b) ==> r == Logic1bX()
    ensures !HasXz(a) && !HasXz(b) ==>
      r == if Operand(a, a.signed && b.signed) == Operand(b, a.signed && b.signed) then Logic1b1() else Logic1b0()
    decreases if a.signed != b.signed then 1 else 0
  {
    var leftXz := ContainsXz(a);
    var rightXz := ContainsXz(b);
    if leftXz || rightXz {
      return Logic1bX();
    }
    if a.signed != b.signed {
      r := LogicalEq(a.(signed := false), b.(signed := false));
      return;
    }
    var c := CaseEq(a, b, ByNegative);
    SignRuleIrrelevant(a, b);
    CaseEqMeaning(a, b);
    HasXzMeaning(a);
    HasXzMeaning(b);
    r := ToFourState(c);
    assert Zeros(1) == [0];
  }

  /**
   * The sign-fill rule as written departs from the corrected one only on an
   * operand with X or Z; `case_eq` against an operand without X or Z then
   * fails under both rules.
   */
  lemma SignRuleIrrelevant(a: SvPrimaryLiteralIntegral, b: SvPrimaryLiteralIntegral)
    requires !HasXz(b)
    ensures CaseEqHolds(a, b, ByNegative) == CaseEqHolds(a, b, ByMsb)
  {
    if !HasXz(a) {
      assert Fill01(a, ByNegative) == Fill01(a, ByMsb);
      assert Fill01(b, ByNegative) == Fill01(b, ByMsb);
    } else {
      assert !XzAgree(a, b);
    }
  }

  /** `is_zero`: `case_eq` against the signed zero answers 1. */
  method IsZero(p: SvPrimaryLiteralIntegral) returns (b: bool)
    requires WF(p)
    ensures b == (!HasXz(p) && ValueOf(p.data01) == 0)
  {
    var r := CaseEq(p, SignedZero(), ByNegative);
    SignRuleIrrelevant(p, SignedZero());
    CaseEqMeaning(p, SignedZero());
    HasXzMeaning(p);
    SizeFacts(p, |p.data01|);
    b := r == Bit1b1();
  }
}
