/**
 * Multiplication of integral literals by shift and add. The product is as
 * wide as its two operands together and signed only when both are; an
 * operand that holds an X or a Z makes every bit of the product X.
 *
 * The partial products are added by `add_primlit`, so the product inherits
 * its carry rule: under `Intended` it is exact, under the rule as written a
 * lost carry leaves it no larger than the exact product.
 *
 * As written, a product narrower than the final width only has its width
 * set, so it can keep fewer limbs than the width needs (`MultLeavesTooFewLimbs`);
 * the rule `PadLimbs` pads the missing limbs with zeros.
 */
module PrimlitMult {
  import opened Wrappers
  import opened Limbs
  import opened PrimlitCore
  import opened PrimlitShift
  import opened PrimlitCompare
  import opened PrimlitAdd

  // ---------------------------------------------------------------------
  // `mul_unsigned`
  // ---------------------------------------------------------------------

  /** The sum of the 0/1 planes of a list of partial products. */
  ghost function SumValues(ts: seq<SvPrimaryLiteralIntegral>): nat {
    if ts == [] then 0 else SumValues(ts[..|ts| - 1]) + ValueOf(ts[|ts| - 1].data01)
  }

  /** A partial product: a left shift of `self`, with its signedness and its (zero) X/Z plane. */
  ghost predicate IsTerm(t: SvPrimaryLiteralIntegral, self: SvPrimaryLiteralIntegral) {
    && Loose(t) && t.signed == self.signed && t.dataXz.Some? == self.dataXz.Some? && XzValue(t) == 0
    && (WF(self) && self.signed ==> WF(t))
  }

  /** Partial products of `self`, widening strictly. */
  ghost predicate TermsShape(ts: seq<SvPrimaryLiteralIntegral>, self: SvPrimaryLiteralIntegral) {
    && (forall j :: 0 <= j < |ts| ==> IsTerm(ts[j], self) && ts[j].size >= self.size)
    && (forall j :: 0 < j < |ts| ==> ts[j - 1].size < ts[j].size)
  }

  /**
   * The partial products after the bits of `rv` below `x`: one per set bit,
   * adding up to `self` times those bits, the last as wide as `self` and the
   * bits up to the highest set one.
   */
  ghost predicate Terms(ts: seq<SvPrimaryLiteralIntegral>, self: SvPrimaryLiteralIntegral, rv: nat, x: nat) {
    && TermsShape(ts, self)
    && SumValues(ts) == ValueOf(self.data01) * (rv % Pow2(x))
    && (ts == [] <==> rv % Pow2(x) == 0)
    && (ts != [] ==> ts[|ts| - 1].size == self.size + BitLength(rv % Pow2(x)) - 1)
  }

  /** The remainder modulo 2^(x+1) adds bit `x` to the remainder modulo 2^x. */
  lemma ModNextBit(rv: nat, x: nat)
    ensures rv % Pow2(x + 1) == rv % Pow2(x) + (if (rv / Pow2(x)) % 2 == 1 then Pow2(x) else 0)
  {
    var p := Pow2(x);
    var a, q := rv % p, rv / p;
    var h, b := q / 2, q % 2;
    assert rv == a + q * p;
    assert q * p == h * (2 * p) + b * p;
    MulLe(b, 1, p);
    DivModUnique(rv, 2 * p, h, a + b * p);
  }

  /** The bit length of the remainder grows to `x + 1` exactly when bit `x` is set. */
  lemma BitLengthNextBit(rv: nat, x: nat)
    ensures BitLength(rv % Pow2(x)) <= x
    ensures BitLength(rv % Pow2(x + 1)) ==
      if (rv / Pow2(x)) % 2 == 1 then x + 1 else BitLength(rv % Pow2(x))
  {
    BitLengthAtMost(rv % Pow2(x), x);
    ModNextBit(rv, x);
    if (rv / Pow2(x)) % 2 == 1 {
      BitLengthOf(rv % Pow2(x + 1), x + 1);
    }
  }

  /** Adding the partial product of bit `x` adds `lv` times 2^x to the sum. */
  lemma AddTerm(lv: nat, a: nat, p: nat, s: nat)
    requires s == lv * a
    ensures s + lv * p == lv * (a + p)
  {
  }

  /** The sum after one more partial product. */
  lemma SumValuesNext(ts: seq<SvPrimaryLiteralIntegral>, t: SvPrimaryLiteralIntegral)
    ensures SumValues(ts + [t]) == SumValues(ts) + ValueOf(t.data01)
  {
    assert (ts + [t])[..|ts|] == ts;
  }

  /** The partial products once bit `x` of `rv` has been looked at. */
  lemma TermsNext(ts: seq<SvPrimaryLiteralIntegral>, self: SvPrimaryLiteralIntegral, rv: nat, x: nat,
                  isSet: bool, t: SvPrimaryLiteralIntegral)
    requires Terms(ts, self, rv, x) && isSet == ((rv / Pow2(x)) % 2 == 1)
    requires isSet ==> IsTerm(t, self) && t.size == self.size + x && ValueOf(t.data01) == ValueOf(self.data01) * Pow2(x)
    ensures Terms(if isSet then ts + [t] else ts, self, rv, x + 1)
  {
    var m, m' := rv % Pow2(x), rv % Pow2(x + 1);
    ModNextBit(rv, x);
    BitLengthNextBit(rv, x);
    if isSet {
      TermsAdd(ts, self, m, m', x, t);
      ShapeNext(ts, self, t, x, BitLength(m));
    } else {
      TermsSkip(ts, self, m, m');
    }
  }

  /** A clear bit adds no partial product. */
  lemma TermsSkip(ts: seq<SvPrimaryLiteralIntegral>, self: SvPrimaryLiteralIntegral, m: nat, m': nat)
    requires TermsShape(ts, self) && SumValues(ts) == ValueOf(self.data01) * m && (ts == [] <==> m == 0)
    requires ts != [] ==> ts[|ts| - 1].size == self.size + BitLength(m) - 1
    requires m' == m
    ensures TermsShape(ts, self) && SumValues(ts) == ValueOf(self.data01) * m' && (ts == [] <==> m' == 0)
    ensures ts != [] ==> ts[|ts| - 1].size == self.size + BitLength(m') - 1
  {
  }

  /** A set bit `x` adds the partial product `t` of `self` shifted to it. */
  lemma TermsAdd(ts: seq<SvPrimaryLiteralIntegral>, self: SvPrimaryLiteralIntegral, m: nat, m': nat, x: nat,
                 t: SvPrimaryLiteralIntegral)
    requires SumValues(ts) == ValueOf(self.data01) * m
    requires m' == m + Pow2(x) && BitLength(m') == x + 1
    requires t.size == self.size + x && ValueOf(t.data01) == ValueOf(self.data01) * Pow2(x)
    ensures SumValues(ts + [t]) == ValueOf(self.data01) * m'
    ensures (ts + [t])[|ts|].size == self.size + BitLength(m') - 1
  {
    SumValuesNext(ts, t);
    AddTerm(ValueOf(self.data01), m, Pow2(x), SumValues(ts));
  }

  /** One more partial product, wider than the last, keeps the shape. */
  lemma ShapeNext(ts: seq<SvPrimaryLiteralIntegral>, self: SvPrimaryLiteralIntegral, t: SvPrimaryLiteralIntegral, x: nat, b: nat)
    requires TermsShape(ts, self) && IsTerm(t, self) && t.size == self.size + x && b <= x
    requires ts != [] ==> ts[|ts| - 1].size == self.size + b - 1
    ensures TermsShape(ts + [t], self)
  {
    var ts' := ts + [t];
    assert forall j :: 0 <= j < |ts| ==> ts'[j] == ts[j];
  }

  /** All bits of `rv` looked at: the partial products add up to the product. */
  lemma TermsDone(ts: seq<SvPrimaryLiteralIntegral>, self: SvPrimaryLiteralIntegral, rv: nat, s: nat)
    requires Terms(ts, self, rv, s) && rv < Pow2(s)
    ensures SumValues(ts) == ValueOf(self.data01) * rv && (ts == [] <==> rv == 0)
    ensures ts != [] ==> ts[|ts| - 1].size == self.size + BitLength(rv) - 1
  {
    ModOfSmall(rv, Pow2(s));
  }

  /** `right_nu` after `x` passes of the first loop: `right` shifted right by `x`, its shape kept. */
  ghost predicate Shifted(rightNu: SvPrimaryLiteralIntegral, right: SvPrimaryLiteralIntegral, x: nat) {
    && rightNu.dataXz.Some? == right.dataXz.Some?
    && (rightNu.dataXz.Some? ==> |rightNu.dataXz.value| == |rightNu.data01|)
    && |rightNu.data01| == |right.data01|
    && ValueOf(rightNu.data01) == ValueOf(right.data01) / Pow2(x)
  }

  /** `left_nu` as the partial product of bit `k`: `self` shifted left by `k`. */
  ghost predicate TermAt(leftNu: SvPrimaryLiteralIntegral, self: SvPrimaryLiteralIntegral, k: nat) {
    IsTerm(leftNu, self) && leftNu.size == self.size + k && ValueOf(leftNu.data01) == ValueOf(self.data01) * Pow2(k)
  }

  /** The test of the first loop: the lowest bit of `right_nu` is bit `x` of `right`. */
  method LowBitSet(rightNu: SvPrimaryLiteralIntegral, ghost right: SvPrimaryLiteralIntegral, ghost x: nat)
    returns (isSet: bool)
    requires Shifted(rightNu, right, x) && right.data01 != []
    ensures isSet == ((ValueOf(right.data01) / Pow2(x)) % 2 == 1)
  {
    ValueOfParity(rightNu.data01);
    isSet := TrailingZeros(rightNu.data01[0]) == 0;
  }

  /** `right_nu = right_nu.lsr(1)`: one more bit of `right` looked at. */
  method ShiftRight(rightNu: SvPrimaryLiteralIntegral, ghost right: SvPrimaryLiteralIntegral, ghost x: nat)
    returns (r: SvPrimaryLiteralIntegral)
    requires Shifted(rightNu, right, x)
    ensures Shifted(r, right, x + 1)
  {
    r := Lsr(rightNu, 1);
    HalfOfQuotient(ValueOf(right.data01), x);
  }

  /**
   * The first loop of `mul_unsigned`: for each bit of `right`, from the
   * lowest, a copy of `self` shifted to that bit when the bit is set.
   */
  method PartialProducts(self: SvPrimaryLiteralIntegral, right: SvPrimaryLiteralIntegral)
    returns (addVer: seq<SvPrimaryLiteralIntegral>)
    requires Loose(self) && Loose(right) && XzValue(self) == 0
    ensures Terms(addVer, self, ValueOf(right.data01), right.size)
  {
    var leftNu := self;
    var rightNu := right;
    addVer := [];
    assert ValueOf(right.data01) % Pow2(0) == 0;
    assert Shifted(rightNu, right, 0) && TermAt(leftNu, self, 0);
    for x := 0 to right.size
      invariant ProductState(self, right, leftNu, rightNu, addVer, x)
    {
      leftNu, rightNu, addVer := ProductStep(self, right, leftNu, rightNu, addVer, x);
    }
  }

  /**
   * The variables of the first loop of `mul_unsigned` after `x` passes:
   * `right_nu` is `right` shifted right by `x`, `left_nu` the partial
   * product of bit `x - 1` (`self` itself before the first pass), and
   * `add_ver` the partial products of the bits below `x`.
   */
  ghost predicate ProductState(self: SvPrimaryLiteralIntegral, right: SvPrimaryLiteralIntegral, leftNu: SvPrimaryLiteralIntegral,
                               rightNu: SvPrimaryLiteralIntegral, addVer: seq<SvPrimaryLiteralIntegral>, x: nat)
  {
    && right.data01 != [] && Shifted(rightNu, right, x)
    && TermAt(leftNu, self, if x == 0 then 0 else x - 1)
    && Terms(addVer, self, ValueOf(right.data01), x)
  }

  /** One pass of the first loop of `mul_unsigned`: bit `x` of `right` looked at. */
  method ProductStep(self: SvPrimaryLiteralIntegral, right: SvPrimaryLiteralIntegral, leftNu: SvPrimaryLiteralIntegral,
                     rightNu: SvPrimaryLiteralIntegral, addVer: seq<SvPrimaryLiteralIntegral>, x: nat)
    returns (leftNu': SvPrimaryLiteralIntegral, rightNu': SvPrimaryLiteralIntegral, addVer': seq<SvPrimaryLiteralIntegral>)
    requires ProductState(self, right, leftNu, rightNu, addVer, x)
    ensures ProductState(self, right, leftNu', rightNu', addVer', x + 1)
  {
    var bitSet := LowBitSet(rightNu, right, x);
    leftNu', addVer' := leftNu, addVer;
    if bitSet {
      if x == 0 {
        addVer' := addVer + [leftNu];
      } else {
        leftNu' := ShiftTerm(leftNu, self, x);
        addVer' := addVer + [leftNu'];
      }
    } else if x != 0 {
      leftNu' := ShiftTerm(leftNu, self, x);
    }
    TermsNext(addVer, self, ValueOf(right.data01), x, bitSet, leftNu');
    rightNu' := ShiftRight(rightNu, right, x);
  }

  /** `left_nu.lsl(1)` on the partial product of bit `x - 1`. */
  method ShiftTerm(leftNu: SvPrimaryLiteralIntegral, ghost self: SvPrimaryLiteralIntegral, ghost x: nat)
    returns (r: SvPrimaryLiteralIntegral)
    requires x >= 1 && TermAt(leftNu, self, x - 1)
    ensures TermAt(r, self, x)
  {
    r := Lsl(leftNu, 1);
    DoubleTimesPow2(ValueOf(self.data01), x - 1);
    if leftNu.dataXz.Some? {
      assert ValueOf(r.dataXz.value) == 0;
    }
  }

  /**
   * `mul_unsigned`: the 0/1 plane of `self` times that of `right`, as an
   * unsigned sum of the partial products. The width is that of `self` and
   * the bits of `right` up to its highest set one; a zero product is the
   * 1-bit literal 0.
   */
  method MulUnsigned(self: SvPrimaryLiteralIntegral, right: SvPrimaryLiteralIntegral, carry: CarryRule)
    returns (r: SvPrimaryLiteralIntegral)
    requires Loose(self) && Loose(right) && XzValue(self) == 0
    ensures Loose(r) && !r.signed && XzValue(r) == 0
    ensures ValueOf(r.data01) <= ValueOf(self.data01) * ValueOf(right.data01)
    ensures carry == Intended ==> ValueOf(r.data01) == ValueOf(self.data01) * ValueOf(right.data01)
    ensures ValueOf(right.data01) == 0 ==> r == SvPrimaryLiteralIntegral([0], None, 1, false)
    ensures ValueOf(right.data01) != 0 ==>
      r.size == self.size + BitLength(ValueOf(right.data01)) && r.dataXz.Some? == self.dataXz.Some?
    ensures WF(self) && self.signed ==> WF(r)
  {
    var addVer := PartialProducts(self, right);
    TermsDone(addVer, self, ValueOf(right.data01), right.size);
    r := SumTerms(addVer, self, carry);
  }

  /**
   * `ret` after `y` passes of the second loop of `mul_unsigned`: the first
   * `y` partial products added to the 1-bit literal 0, their sum under the
   * exact carry and no more than it under the rule as written.
   */
  ghost predicate Summed(r: SvPrimaryLiteralIntegral, addVer: seq<SvPrimaryLiteralIntegral>, self: SvPrimaryLiteralIntegral,
                         y: nat, carry: CarryRule) {
    && y <= |addVer|
    && Loose(r) && !r.signed && XzValue(r) == 0
    && ValueOf(r.data01) <= SumValues(addVer[..y])
    && (carry == Intended ==> ValueOf(r.data01) == SumValues(addVer[..y]))
    && (y == 0 ==> r == SvPrimaryLiteralIntegral([0], None, 1, false))
    && (y > 0 ==> r.size == addVer[y - 1].size + 1 && r.dataXz.Some? == self.dataXz.Some?)
    && (WF(self) && self.signed ==> WF(r))
  }

  /** The second loop of `mul_unsigned`: the partial products added to the 1-bit literal 0. */
  method SumTerms(addVer: seq<SvPrimaryLiteralIntegral>, ghost self: SvPrimaryLiteralIntegral, carry: CarryRule)
    returns (r: SvPrimaryLiteralIntegral)
    requires TermsShape(addVer, self) && self.size >= 1
    ensures Loose(r) && !r.signed && XzValue(r) == 0 && ValueOf(r.data01) <= SumValues(addVer)
    ensures carry == Intended ==> ValueOf(r.data01) == SumValues(addVer)
    ensures addVer == [] ==> r == SvPrimaryLiteralIntegral([0], None, 1, false)
    ensures addVer != [] ==> r.size == addVer[|addVer| - 1].size + 1 && r.dataXz.Some? == self.dataXz.Some?
    ensures WF(self) && self.signed ==> WF(r)
  {
    r := SvPrimaryLiteralIntegral([0], None, 1, false);
    assert ValueOf([0]) == 0 by { ValueOfPush([], 0); }
    assert addVer[..0] == [];
    for y := 0 to |addVer|
      invariant Summed(r, addVer, self, y, carry)
    {
      r := SumStep(r, addVer, self, y, carry);
    }
    assert addVer[..|addVer|] == addVer;
  }

  /** One pass of the second loop: `ret = ret.add_primlit(add_ver[y])`. */
  method SumStep(r: SvPrimaryLiteralIntegral, addVer: seq<SvPrimaryLiteralIntegral>, ghost self: SvPrimaryLiteralIntegral, y: nat,
                 carry: CarryRule)
    returns (r': SvPrimaryLiteralIntegral)
    requires TermsShape(addVer, self) && self.size >= 1 && y < |addVer| && Summed(r, addVer, self, y, carry)
    ensures Summed(r', addVer, self, y + 1, carry)
  {
    TermOfShape(addVer, self, y);
    r' := AddTermTo(r, addVer[y], self, carry);
    SumValuesPrefix(addVer, y);
  }

  /** The partial product at `y` of a widening sequence, and its width against the one before. */
  lemma TermOfShape(ts: seq<SvPrimaryLiteralIntegral>, self: SvPrimaryLiteralIntegral, y: nat)
    requires TermsShape(ts, self) && y < |ts|
    ensures IsTerm(ts[y], self) && ts[y].size >= self.size && (y > 0 ==> ts[y - 1].size < ts[y].size)
  {
  }

  /** The sum of the first `y + 1` partial products. */
  lemma SumValuesPrefix(ts: seq<SvPrimaryLiteralIntegral>, y: nat)
    requires y < |ts|
    ensures SumValues(ts[..y + 1]) == SumValues(ts[..y]) + ValueOf(ts[y].data01)
  {
    assert ts[..y + 1] == ts[..y] + [ts[y]];
    SumValuesNext(ts[..y], ts[y]);
  }

  /** `ret.add_primlit(add_ver[y])`: the unsigned sum less the carries the rule loses. */
  method AddTermTo(ret: SvPrimaryLiteralIntegral, t: SvPrimaryLiteralIntegral, ghost self: SvPrimaryLiteralIntegral, carry: CarryRule)
    returns (r: SvPrimaryLiteralIntegral)
    requires Loose(ret) && !ret.signed && XzValue(ret) == 0 && IsTerm(t, self) && ret.size <= t.size
    requires WF(self) && self.signed ==> WF(ret)
    ensures Loose(r) && !r.signed && XzValue(r) == 0 && r.size == t.size + 1
    ensures r.dataXz.Some? == (ret.dataXz.Some? || self.dataXz.Some?)
    ensures ValueOf(r.data01) + AddLoss(ret, t, carry) == ValueOf(ret.data01) + ValueOf(t.data01)
    ensures carry == Intended ==> ValueOf(r.data01) == ValueOf(ret.data01) + ValueOf(t.data01)
    ensures WF(self) && self.signed ==> WF(r)
  {
    HasXzMeaning(ret);
    HasXzMeaning(t);
    r := AddPrimlit(ret, t, carry);
    HasXzMeaning(r);
  }

  // ---------------------------------------------------------------------
  // `mult`
  // ---------------------------------------------------------------------

  /**
   * What becomes of a product narrower than the final width. As written
   * (`KeepLimbs`) only the width is set and the limbs stay as they are;
   * `PadLimbs` also pads each plane with zero limbs up to the width.
   */
  datatype LimbRule = KeepLimbs | PadLimbs

  /** A literal widened to `size`, under the limb rule. */
  function Widen(p: SvPrimaryLiteralIntegral, size: nat, rule: LimbRule): (r: SvPrimaryLiteralIntegral)
    requires Loose(p) && p.size <= size
    ensures r.size == size && r.signed == p.signed && r.dataXz.Some? == p.dataXz.Some?
    ensures ValueOf(r.data01) == ValueOf(p.data01) && XzValue(r) == XzValue(p)
    ensures Loose(r) && (rule == PadLimbs ==> WF(r))
    ensures rule == KeepLimbs ==> r.data01 == p.data01
  {
    var q := p.(size := size);
    LimbsForMonotone(p.size, size);
    Pow2Monotone(p.size, size);
    PaddedKeepsValue(q, LimbsFor(size) - |q.data01|);
    if rule == KeepLimbs then q else Padded(q, LimbsFor(size) - |q.data01|)
  }

  /** `ret._truncate(final_num_bits)` for a product wider than the final width, `Widen` otherwise. */
  method Resize(ret: SvPrimaryLiteralIntegral, finalNumBits: nat, rule: LimbRule) returns (r: SvPrimaryLiteralIntegral)
    requires Loose(ret) && finalNumBits >= 1 && (ret.size > finalNumBits ==> WF(ret))
    ensures r.size == finalNumBits && r.signed == ret.signed
    ensures ValueOf(r.data01) == ValueOf(ret.data01) % Pow2(finalNumBits)
    ensures Loose(r) && (ret.size > finalNumBits || rule == PadLimbs ==> WF(r))
    ensures ret.size <= finalNumBits ==> r == Widen(ret, finalNumBits, rule)
  {
    if ret.size > finalNumBits {
      r := TruncateProduct(ret, finalNumBits);
    } else {
      r := Widen(ret, finalNumBits, rule);
      Pow2Monotone(ret.size, finalNumBits);
      ModOfSmall(ValueOf(ret.data01), Pow2(finalNumBits));
    }
  }

  /** A product wider than the final width cut to it. */
  method TruncateProduct(ret: SvPrimaryLiteralIntegral, finalNumBits: nat) returns (r: SvPrimaryLiteralIntegral)
    requires WF(ret) && 1 <= finalNumBits < ret.size
    ensures WF(r) && Loose(r) && r.size == finalNumBits && r.signed == ret.signed
    ensures ValueOf(r.data01) == ValueOf(ret.data01) % Pow2(finalNumBits)
  {
    LimbsForMonotone(finalNumBits, ret.size);
    var t := Truncate(ret, finalNumBits);
    r := t.value;
    TruncateIsWellFormed(ret, r, finalNumBits);
    WFIsLoose(r);
  }

  /** Two numbers within `hx` and `hy` of zero multiply to one within `hx * hy`. */
  lemma ProductBound(x: int, hx: int, y: int, hy: int)
    requires -hx <= x <= hx && -hy <= y <= hy
    ensures -(hx * hy) <= x * y <= hx * hy
  {
    if x >= 0 && y >= 0 {
      MulLe(x, hx, y);
      MulLe(y, hy, hx);
    } else if x < 0 && y < 0 {
      MulLe(-x, hx, -y);
      MulLe(-y, hy, hx);
    } else if x >= 0 {
      MulLe(x, hx, -y);
      MulLe(-y, hy, hx);
    } else {
      MulLe(-x, hx, y);
      MulLe(y, hy, hx);
    }
  }

  /** A sign-extended plane times another: the two's complement product plus a multiple of the weight `w`. */
  lemma ProductExpand(sa: int, ca: int, sb: int, cb: int, w: int, p: int, q: int)
    requires w == p * q
    ensures (sa + ca * w) * (sb + cb * w) == sa * sb + ((ca * sb + cb * sa + ca * cb * w) * q) * p
  {
    var k := ca * sb + cb * sa + ca * cb * w;
    assert (sa + ca * w) * (sb + cb * w) == sa * sb + k * w;
    assert k * w == (k * q) * p;
  }

  /**
   * The signed branch of the product: the planes sign extended to `n` limbs,
   * multiplied and cut to the final width read, in two's complement, as the
   * product of the operands.
   */
  lemma SignedProduct(va: nat, sa: nat, fa: bool, vb: nat, sb: nat, fb: bool, n: nat, u: nat, f: nat)
    requires sa >= 1 && sb >= 1 && va < Pow2(sa) && vb < Pow2(sb)
    requires f == sa + sb && f <= BITS * n
    requires fa == (va >= Pow2(sa - 1)) && fb == (vb >= Pow2(sb - 1))
    requires u == Widened(va, fa, sa, n) * Widened(vb, fb, sb, n)
    ensures SPlane(u % Pow2(f), f) == SPlane(va, sa) * SPlane(vb, sb)
  {
    var ha, hb, hf := Pow2(sa - 1), Pow2(sb - 1), Pow2(f - 1);
    var ta, tb := SPlane(va, sa), SPlane(vb, sb);
    assert Pow2(sa) == 2 * ha && Pow2(sb) == 2 * hb && Pow2(f) == 2 * hf;
    Pow2Add(sa - 1, sb - 1);
    assert sa - 1 + sb - 1 == f - 2;
    assert hf == 2 * (ha * hb);
    ProductBound(ta, ha, tb, hb);
    Pow2Divides(f, BITS * n);
    var w, p, q := Weight(n), Pow2(f), Pow2(BITS * n - f);
    var ca, cb := (if fa then 1 else 0), (if fb then 1 else 0);
    assert Widened(va, fa, sa, n) == ta + ca * w;
    assert Widened(vb, fb, sb, n) == tb + cb * w;
    ProductExpand(ta, ca, tb, cb, w, p, q);
    var m := Wrapped(u, ta * tb, (ca * tb + cb * ta + ca * cb * w) * q, p, hf);
  }

  /** `mul_unsigned` on the two signed operands, each sign extended to `n` limbs, the limbs of the two together. */
  method SignExtendedProduct(a: SvPrimaryLiteralIntegral, b: SvPrimaryLiteralIntegral, carry: CarryRule)
    returns (ret: SvPrimaryLiteralIntegral)
    requires WF(a) && WF(b) && a.signed && b.signed && XzValue(a) == 0 && XzValue(b) == 0
    ensures Loose(ret) && (ret.size > a.size + b.size ==> WF(ret))
    ensures var n := |a.data01| + |b.data01|;
      ValueOf(ret.data01) <= Widened(ValueOf(a.data01), SignBit01(a), a.size, n) * Widened(ValueOf(b.data01), SignBit01(b), b.size, n)
    ensures var n := |a.data01| + |b.data01|; carry == Intended ==>
      ValueOf(ret.data01) == Widened(ValueOf(a.data01), SignBit01(a), a.size, n) * Widened(ValueOf(b.data01), SignBit01(b), b.size, n)
    ensures ValueOf(b.data01) == 0 ==> ret == SvPrimaryLiteralIntegral([0], None, 1, false)
  {
    var n := |a.data01| + |b.data01|;
    HasXzMeaning(a);
    HasXzMeaning(b);
    var leftNu, rightNu := SignExtendBoth(a, b, n);
    ExtendedWF(leftNu);
    ExtendedWF(rightNu);
    WFIsLoose(leftNu);
    WFIsLoose(rightNu);
    ret := MulUnsigned(leftNu, rightNu, carry);
  }

  /**
   * The product of two signed literals without X or Z: both sign extended,
   * multiplied and cut to the final width; the two's complement product
   * under the exact carry.
   */
  method ProductSigned(a: SvPrimaryLiteralIntegral, b: SvPrimaryLiteralIntegral, rule: LimbRule, carry: CarryRule)
    returns (r: SvPrimaryLiteralIntegral)
    requires WF(a) && WF(b) && a.signed && b.signed && XzValue(a) == 0 && XzValue(b) == 0
    ensures r.size == a.size + b.size && r.signed && Loose(r) && (rule == PadLimbs ==> WF(r))
    ensures carry == Intended ==>
      SPlane(ValueOf(r.data01), r.size) == SPlane(ValueOf(a.data01), a.size) * SPlane(ValueOf(b.data01), b.size)
    ensures ValueOf(b.data01) == 0 && rule == KeepLimbs ==> |r.data01| == 1
  {
    var finalNumBits := a.size + b.size;
    var ret := SignExtendedProduct(a, b, carry);
    ghost var n := |a.data01| + |b.data01|;
    assert finalNumBits <= BITS * n by {
      LimbsForBounds(a.size);
      LimbsForBounds(b.size);
    }
    assert carry == Intended ==>
      SPlane(ValueOf(ret.data01) % Pow2(finalNumBits), finalNumBits) == SPlane(ValueOf(a.data01), a.size) * SPlane(ValueOf(b.data01), b.size) by {
      if carry == Intended {
      SizeFacts(a, n);
      SizeFacts(b, n);
      SignedProduct(ValueOf(a.data01), a.size, SignBit01(a), ValueOf(b.data01), b.size, SignBit01(b), n,
                    ValueOf(ret.data01), finalNumBits);
      }
    }
    r := Resize(ret, finalNumBits, rule);
    r := r.(signed := true);
  }

  /**
   * The product of two literals without X or Z, not both signed: the planes
   * multiplied as they are, exactly under the exact carry.
   */
  method ProductUnsigned(a: SvPrimaryLiteralIntegral, b: SvPrimaryLiteralIntegral, rule: LimbRule, carry: CarryRule)
    returns (r: SvPrimaryLiteralIntegral)
    requires WF(a) && WF(b) && XzValue(a) == 0
    ensures r.size == a.size + b.size && !r.signed && Loose(r) && (rule == PadLimbs ==> WF(r))
    ensures ValueOf(r.data01) <= ValueOf(a.data01) * ValueOf(b.data01)
    ensures carry == Intended ==> ValueOf(r.data01) == ValueOf(a.data01) * ValueOf(b.data01)
    ensures ValueOf(b.data01) == 0 && rule == KeepLimbs ==> |r.data01| == 1
  {
    var finalNumBits := a.size + b.size;
    WFIsLoose(a);
    WFIsLoose(b);
    var ret := MulUnsigned(a, b, carry);
    if ValueOf(b.data01) != 0 {
      BitLengthAtMost(ValueOf(b.data01), b.size);
    }
    r := Resize(ret, finalNumBits, rule);
    MulLe(ValueOf(a.data01), Pow2(a.size) - 1, ValueOf(b.data01));
    MulLe(ValueOf(b.data01), Pow2(b.size) - 1, Pow2(a.size) - 1);
    Pow2Add(a.size, b.size);
    ModOfSmall(ValueOf(ret.data01), Pow2(finalNumBits));
  }

  /** The branch of `mult` for operands without X or Z, 2-state alike or 4-state alike. */
  method MultTwoState(a: SvPrimaryLiteralIntegral, b: SvPrimaryLiteralIntegral, rule: LimbRule, carry: CarryRule)
    returns (r: SvPrimaryLiteralIntegral)
    requires WF(a) && WF(b) && !HasXz(a) && !HasXz(b)
    ensures r.size == a.size + b.size && r.signed == (a.signed && b.signed) && !HasXz(r)
    ensures Loose(r) && (rule == PadLimbs ==> WF(r))
    ensures !r.signed ==> ValueOf(r.data01) <= ValueOf(a.data01) * ValueOf(b.data01)
    ensures carry == Intended ==> Operand(r, r.signed) == Operand(a, r.signed) * Operand(b, r.signed)
    ensures ValueOf(b.data01) == 0 && rule == KeepLimbs ==> |r.data01| == 1
  {
    HasXzMeaning(a);
    HasXzMeaning(b);
    if a.signed && b.signed {
      r := ProductSigned(a, b, rule, carry);
    } else {
      r := ProductUnsigned(a, b, rule, carry);
      r := r.(signed := a.signed && b.signed);
    }
    r := ClearXz(r);
  }

  /**
   * `mult`: with neither operand holding X or Z, the product, as wide as
   * the two operands together and in two's complement when both are signed,
   * exact under the exact carry and at most the product of the planes when
   * unsigned; otherwise the all-X result of that width. A 2-state operand is
   * first made 4-state when the other is.
   */
  method Mult(self: SvPrimaryLiteralIntegral, right: SvPrimaryLiteralIntegral, rule: LimbRule, carry: CarryRule)
    returns (r: SvPrimaryLiteralIntegral)
    requires WF(self) && WF(right)
    ensures r.size == self.size + right.size && r.signed == (self.signed && right.signed)
    ensures Loose(r) && (rule == PadLimbs ==> WF(r))
    ensures HasXz(self) || HasXz(right) ==> IsAllX(r) && WF(r)
    ensures !HasXz(self) && !HasXz(right) ==> !HasXz(r)
    ensures !HasXz(self) && !HasXz(right) && !r.signed ==> ValueOf(r.data01) <= ValueOf(self.data01) * ValueOf(right.data01)
    ensures !HasXz(self) && !HasXz(right) && carry == Intended ==>
      Operand(r, r.signed) == Operand(self, r.signed) * Operand(right, r.signed)
    ensures !HasXz(self) && !HasXz(right) && ValueOf(right.data01) == 0 && rule == KeepLimbs ==> |r.data01| == 1
  {
    var leftNu := self;
    var rightNu := right;
    if Is4State(leftNu) != Is4State(rightNu) {
      if !Is4State(leftNu) {
        leftNu := ToFourState(leftNu);
        FourStateFacts(self);
      } else {
        rightNu := ToFourState(rightNu);
        FourStateFacts(right);
      }
    }
    var finalNumBits := leftNu.size + rightNu.size;
    var leftXz := ContainsXz(leftNu);
    var rightXz := ContainsXz(rightNu);
    if !leftXz && !rightXz {
      r := MultTwoState(leftNu, rightNu, rule, carry);
    } else {
      r := AllX(finalNumBits, !(leftNu.signed == false || rightNu.signed == false));
      WFIsLoose(r);
    }
  }

  /**
   * As written, a zero product keeps the single limb of the 1-bit zero:
   * `64'd5 * 1'b0` is 65 bits wide and has one limb, so it is not well formed
   * and the limb that would hold its top bit is past the end of its planes.
   */
  lemma MultLeavesTooFewLimbs(r: SvPrimaryLiteralIntegral)
    ensures var a := SvPrimaryLiteralIntegral([5], None, 64, false);
      WF(a) && WF(Bit1b0()) && !HasXz(a) && !HasXz(Bit1b0()) && ValueOf(Bit1b0().data01) == 0
      && a.size + Bit1b0().size == 65
    ensures r.size == 65 && |r.data01| == 1 ==> !WF(r) && (r.size - 1) / BITS >= |r.data01|
  {
    var a := SvPrimaryLiteralIntegral([5], None, 64, false);
    ValueOfPush([], 5);
    Pow2Word();
  }
}
