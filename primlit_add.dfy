/**
 * Concatenation and addition of integral literals. A sum is one bit wider
 * than its wider operand and signed only when both operands are. An operand
 * that holds an X or a Z makes every bit of the sum X.
 *
 * The additions take the carry rule as a parameter. The carry as written
 * loses a carry that comes into two all-ones limbs
 * (`PrimlitCore.AddAsWrittenLosesCarry`); the sums are stated less the
 * carries lost, which are none under `Intended`.
 */
module PrimlitAdd {
  import opened Wrappers
  import opened Limbs
  import opened PrimlitCore
  import opened PrimlitShift
  import opened PrimlitCompare

  // ---------------------------------------------------------------------
  // Facts about the pieces the arithmetic is built from.
  // ---------------------------------------------------------------------

  /** What `_unsigned_primlit_add` returns under the carry rule. */
  ghost function Summed(self: SvPrimaryLiteralIntegral, right: SvPrimaryLiteralIntegral, carry: CarryRule): SvPrimaryLiteralIntegral {
    var m := MaxLen(self, right);
    var l := Padded(self, m - |self.data01|);
    l.(data01 := AddLimbs(l.data01, Padded(right, m - |right.data01|).data01, carry))
  }

  /** The carries `_unsigned_primlit_add` loses under the rule, on the matched 0/1 planes. */
  ghost function UnsignedLoss(self: SvPrimaryLiteralIntegral, right: SvPrimaryLiteralIntegral, carry: CarryRule): nat {
    var m := MaxLen(self, right);
    Lost(self.data01 + Zeros(m - |self.data01|), right.data01 + Zeros(m - |right.data01|), m, carry)
  }

  /**
   * The unsigned addition leaves the sum of the 0/1 planes less the carries
   * lost, in the longer length and one limb more exactly when it reaches
   * that length's weight; the rest of `self` is kept, its X/Z plane padded.
   */
  lemma SummedFacts(self: SvPrimaryLiteralIntegral, right: SvPrimaryLiteralIntegral, carry: CarryRule)
    ensures var r, m := Summed(self, right, carry), MaxLen(self, right);
      && ValueOf(r.data01) + UnsignedLoss(self, right, carry) == ValueOf(self.data01) + ValueOf(right.data01)
      && |r.data01| == m + (if ValueOf(r.data01) >= Weight(m) then 1 else 0)
      && r.size == self.size && r.signed == self.signed && r.dataXz.Some? == self.dataXz.Some?
      && (self.dataXz.Some? ==> |r.dataXz.value| == |self.dataXz.value| + (m - |self.data01|)
                                && ValueOf(r.dataXz.value) == ValueOf(self.dataXz.value))
  {
    var m := MaxLen(self, right);
    SummedPlane(self, right, carry);
    SummedShape(self, right, carry);
    if self.dataXz.Some? {
      PaddedKeepsValue(self, m - |self.data01|);
    }
  }

  /** `Summed` keeps the width, the sign and the X/Z plane of `self`, padded to the longer length. */
  lemma SummedShape(self: SvPrimaryLiteralIntegral, right: SvPrimaryLiteralIntegral, carry: CarryRule)
    ensures var r, m := Summed(self, right, carry), MaxLen(self, right);
      && r.size == self.size && r.signed == self.signed && r.dataXz.Some? == self.dataXz.Some?
      && (self.dataXz.Some? ==> |r.dataXz.value| == |self.dataXz.value| + (m - |self.data01|))
  {
  }

  /** The 0/1 plane of `Summed`. */
  lemma SummedPlane(self: SvPrimaryLiteralIntegral, right: SvPrimaryLiteralIntegral, carry: CarryRule)
    ensures var r, m := Summed(self, right, carry), MaxLen(self, right);
      && ValueOf(r.data01) + UnsignedLoss(self, right, carry) == ValueOf(self.data01) + ValueOf(right.data01)
      && |r.data01| == m + (if ValueOf(r.data01) >= Weight(m) then 1 else 0)
  {
    var m := MaxLen(self, right);
    var pa, pb := self.data01 + Zeros(m - |self.data01|), right.data01 + Zeros(m - |right.data01|);
    assert Summed(self, right, carry).data01 == AddLimbs(pa, pb, carry);
    ValueOfZeros(self.data01, m - |self.data01|);
    ValueOfZeros(right.data01, m - |right.data01|);
    PaddedSum(ValueOf(self.data01), ValueOf(right.data01), pa, pb, m, carry);
  }

  /** Two planes of `m` limbs standing for `va` and `vb`, added: their sum less the carries lost. */
  lemma PaddedSum(va: nat, vb: nat, pa: seq<Limb>, pb: seq<Limb>, m: nat, carry: CarryRule)
    requires |pa| == m && |pb| == m && ValueOf(pa) == va && ValueOf(pb) == vb
    ensures ValueOf(AddLimbs(pa, pb, carry)) + Lost(pa, pb, m, carry) == va + vb
    ensures |AddLimbs(pa, pb, carry)| == m + (if ValueOf(AddLimbs(pa, pb, carry)) >= Weight(m) then 1 else 0)
  {
    AddLimbsLoss(pa, pb, carry);
  }

  /** A wider width never needs fewer limbs. */
  lemma LimbsForMonotone(a: nat, b: nat)
    requires a <= b
    ensures LimbsFor(a) <= LimbsFor(b)
  {
  }

  /** A number whose low `k` bits are clear, plus one below 2^k, stays below a power of two both are below. */
  lemma DisjointSum(a: nat, b: nat, k: nat, e: nat)
    requires a * Pow2(k) < Pow2(e) && b < Pow2(k) && b < Pow2(e)
    ensures a * Pow2(k) + b < Pow2(e)
  {
    if k <= e {
      Pow2Divides(k, e);
      BelowMultiple(a, b, Pow2(k), Pow2(e - k), Pow2(e));
    } else {
      Pow2Monotone(e, k);
      ZeroMultiple(a, Pow2(k), Pow2(e));
    }
  }

  lemma BelowMultiple(a: int, b: int, p: int, q: int, e: int)
    requires p > 0 && a >= 0 && e == p * q && a * p < e && 0 <= b < p
    ensures a * p + b < e
  {
    if a >= q {
      MulLe(q, a, p);
    }
    MulLe(a, q - 1, p);
    assert (q - 1) * p == q * p - p;
  }

  lemma ZeroMultiple(a: int, p: int, e: int)
    requires a >= 0 && p > 0 && a * p < e <= p
    ensures a == 0
  {
    if a >= 1 {
      MulLe(1, a, p);
    }
  }

  /** A number below 2^s shifted by `k`, plus one below 2^k, is below 2^(s + k). */
  lemma ShiftedSumBound(a: nat, b: nat, s: nat, k: nat)
    requires a < Pow2(s) && b < Pow2(k)
    ensures a * Pow2(k) + b < Pow2(s + k)
  {
    Pow2Add(s, k);
    ShiftedBound(a, b, Pow2(s), Pow2(k));
  }

  lemma ShiftedBound(a: int, b: int, ps: int, pk: int)
    requires 0 <= a < ps && 0 <= b < pk
    ensures a * pk + b < ps * pk
  {
    MulLe(a + 1, ps, pk);
    assert (a + 1) * pk == a * pk + pk;
  }

  /** A loose literal whose X/Z plane reaches the top bit has all the limbs its width needs. */
  lemma LooseTopSetIsWF(p: SvPrimaryLiteralIntegral)
    requires Loose(p) && p.dataXz.Some? && ValueOf(p.dataXz.value) >= Pow2(p.size - 1)
    ensures WF(p)
  {
    ValueOfBound(p.dataXz.value);
    if p.size - 1 >= BITS * |p.data01| {
      Pow2Monotone(BITS * |p.data01|, p.size - 1);
    }
    LimbsForBounds(p.size);
  }

  /** The 4-state form of a 2-state literal holds no X or Z and keeps the shape of the literal. */
  lemma FourStateFacts(p: SvPrimaryLiteralIntegral)
    requires p.dataXz.None?
    ensures !HasXz(FourState(p)) && XzValue(FourState(p)) == 0
    ensures Loose(p) ==> Loose(FourState(p))
    ensures WF(p) ==> WF(FourState(p))
  {
    ZerosValue(|p.data01|);
    HasXzMeaning(FourState(p));
  }

  /** A zero X/Z plane as long as the 0/1 plane holds no X or Z. */
  lemma ZeroPlaneFacts(p: SvPrimaryLiteralIntegral)
    requires p.dataXz == Some(Zeros(|p.data01|))
    ensures !HasXz(p) && XzValue(p) == 0
  {
    ZerosValue(|p.data01|);
    HasXzMeaning(p);
  }

  // ---------------------------------------------------------------------
  // `cat`
  // ---------------------------------------------------------------------

  /**
   * `cat`: `self` is shifted left by the width of `right` and `right` is
   * added in below it, plane by plane; the widths add up and the sign of
   * `self` is kept. The code unwraps both X/Z planes as soon as one operand
   * is 4-state, so the two are 2-state alike or 4-state alike.
   */
  method Cat(self: SvPrimaryLiteralIntegral, right: SvPrimaryLiteralIntegral) returns (r: SvPrimaryLiteralIntegral)
    requires Loose(self) && WF(right) && self.dataXz.Some? == right.dataXz.Some?
    ensures Loose(r) && r.size == self.size + right.size && r.signed == self.signed
    ensures r.dataXz.Some? == self.dataXz.Some?
    ensures ValueOf(r.data01) == ValueOf(self.data01) * Pow2(right.size) + ValueOf(right.data01)
    ensures XzValue(r) == XzValue(self) * Pow2(right.size) + XzValue(right)
  {
    var ret := Lsl(self, right.size);
    var leftNu := ret;
    var xzPlane := CatXzPlane(leftNu, right, self);
    var sum := CatAdd(ret, right, ValueOf(self.data01), self.size);
    r := SvPrimaryLiteralIntegral(sum.data01, xzPlane, self.size + right.size, sum.signed);
  }

  /** The X/Z plane `cat` leaves: present when the operands are 4-state, and then the concatenation of theirs. */
  method CatXzPlane(leftNu: SvPrimaryLiteralIntegral, right: SvPrimaryLiteralIntegral, ghost self: SvPrimaryLiteralIntegral)
    returns (plane: Option<seq<Limb>>)
    requires Loose(self) && WF(right) && self.dataXz.Some? == right.dataXz.Some?
    requires Loose(leftNu) && leftNu.dataXz.Some? == self.dataXz.Some? && leftNu.size == self.size + right.size
    requires self.dataXz.Some? ==> ValueOf(leftNu.dataXz.value) == ValueOf(self.dataXz.value) * Pow2(right.size)
    ensures plane.Some? == self.dataXz.Some?
    ensures plane.Some? ==> |plane.value| == MaxLen(leftNu, right) && Fits(plane.value, self.size + right.size)
    ensures (if plane.Some? then ValueOf(plane.value) else 0) == XzValue(self) * Pow2(right.size) + XzValue(right)
  {
    plane := leftNu.dataXz;
    if Is4State(leftNu) || Is4State(right) {
      var xz := CatXz(leftNu, right, self);
      plane := Some(xz);
    }
  }

  /** The X/Z half of `cat`: the shifted X/Z plane of `self` plus that of `right`, added as 2-state literals. */
  method CatXz(leftNu: SvPrimaryLiteralIntegral, right: SvPrimaryLiteralIntegral, ghost self: SvPrimaryLiteralIntegral)
    returns (xz: seq<Limb>)
    requires Loose(self) && WF(right) && self.dataXz.Some? && right.dataXz.Some?
    requires Loose(leftNu) && leftNu.dataXz.Some? && leftNu.size == self.size + right.size
    requires ValueOf(leftNu.dataXz.value) == ValueOf(self.dataXz.value) * Pow2(right.size)
    ensures |xz| == MaxLen(leftNu, right)
    ensures ValueOf(xz) == ValueOf(self.dataXz.value) * Pow2(right.size) + ValueOf(right.dataXz.value) < Pow2(self.size + right.size)
  {
    var leftXz := SvPrimaryLiteralIntegral(leftNu.dataXz.value, None, leftNu.size, false);
    var rightXz := SvPrimaryLiteralIntegral(right.dataXz.value, None, right.size, false);
    leftXz := CatAdd(leftXz, rightXz, ValueOf(self.dataXz.value), self.size);
    xz := leftXz.data01;
  }

  /**
   * The `_unsigned_primlit_add` of `cat`, with the carry as written: the
   * planes share no set bit, so no carry arises at all, none is lost and the
   * sum keeps the longer length.
   */
  method CatAdd(hi: SvPrimaryLiteralIntegral, lo: SvPrimaryLiteralIntegral, ghost a: nat, ghost s: nat)
    returns (r: SvPrimaryLiteralIntegral)
    requires ValueOf(hi.data01) == a * Pow2(lo.size) && a < Pow2(s) && 1 <= |hi.data01| <= LimbsFor(s + lo.size)
    requires lo.size >= 1 && |lo.data01| == LimbsFor(lo.size) && ValueOf(lo.data01) < Pow2(lo.size)
    ensures ValueOf(r.data01) == ValueOf(hi.data01) + ValueOf(lo.data01) < Pow2(s + lo.size)
    ensures 1 <= |r.data01| <= LimbsFor(s + lo.size) && |r.data01| == MaxLen(hi, lo)
    ensures r.size == hi.size && r.signed == hi.signed && r.dataXz.Some? == hi.dataXz.Some?
  {
    r := UnsignedPrimlitAdd(hi, lo, AsWritten);
    assert r == Summed(hi, lo, AsWritten);
    CatSummed(hi, lo, a, s);
  }

  /** The addition in `cat`, on the matched planes: no carry is lost and the sum keeps the limbs of the wider plane. */
  lemma CatSummed(hi: SvPrimaryLiteralIntegral, lo: SvPrimaryLiteralIntegral, a: nat, s: nat)
    requires ValueOf(hi.data01) == a * Pow2(lo.size) && a < Pow2(s) && 1 <= |hi.data01| <= LimbsFor(s + lo.size)
    requires lo.size >= 1 && |lo.data01| == LimbsFor(lo.size) && ValueOf(lo.data01) < Pow2(lo.size)
    ensures var r := Summed(hi, lo, AsWritten);
      && ValueOf(r.data01) == ValueOf(hi.data01) + ValueOf(lo.data01) < Pow2(s + lo.size)
      && 1 <= |r.data01| <= LimbsFor(s + lo.size) && |r.data01| == MaxLen(hi, lo)
      && r.size == hi.size && r.signed == hi.signed && r.dataXz.Some? == hi.dataXz.Some?
  {
    var m, r := MaxLen(hi, lo), Summed(hi, lo, AsWritten);
    var vh: int, vl: int, vr: int, w: int := ValueOf(hi.data01), ValueOf(lo.data01), ValueOf(r.data01), Weight(m);
    CatPlane(hi.data01, lo.data01, a, lo.size, s);
    assert vh + vl < w && m <= LimbsFor(s + lo.size) && vh + vl < Pow2(s + lo.size);
    assert UnsignedLoss(hi, lo, AsWritten) == 0 by {
      CatNoLoss(hi.data01, lo.data01, a, lo.size, m);
    }
    SummedPlane(hi, lo, AsWritten);
    assert vr == vh + vl;
    assert |r.data01| == m;
    SummedShape(hi, lo, AsWritten);
  }

  /**
   * A shifted plane and a plane below the shift, padded to `m` limbs: every
   * prefix of the two adds up below its weight, so no carry arises and the
   * carry as written loses nothing.
   */
  lemma CatNoLoss(hi: seq<Limb>, lo: seq<Limb>, a: nat, k: nat, m: nat)
    requires ValueOf(hi) == a * Pow2(k) && ValueOf(lo) < Pow2(k) && |hi| <= m && |lo| <= m
    ensures Lost(hi + Zeros(m - |hi|), lo + Zeros(m - |lo|), m, AsWritten) == 0
  {
    var pa, pb := hi + Zeros(m - |hi|), lo + Zeros(m - |lo|);
    ValueOfZeros(hi, m - |hi|);
    ValueOfZeros(lo, m - |lo|);
    forall i | 0 <= i <= m
      ensures PrefixFits(pa, pb, i)
    {
      PrefixMod(pa, i);
      PrefixMod(pb, i);
      DisjointPrefix(a, ValueOf(lo), k, i);
    }
    NoCarryNoLoss(pa, pb, m);
  }

  /** The first `i` limbs stand for the value modulo their weight. */
  lemma PrefixMod(ds: seq<Limb>, i: nat)
    requires i <= |ds|
    ensures ValueOf(ds[..i]) == ValueOf(ds) % Weight(i)
  {
    var lo, hi := ds[..i], ds[i..];
    assert ds == lo + hi;
    ValueOfConcat(lo, hi);
    ValueOfBound(lo);
    var w: int, vl: int, vh: int := Weight(|lo|), ValueOf(lo), ValueOf(hi);
    assert ValueOf(ds) == vl + w * vh;
    MulComm(w, vh);
    DivModUnique(ValueOf(ds), w, vh, vl);
  }

  lemma MulComm(a: int, b: int)
    ensures a * b == b * a
  {
  }

  /** `a` shifted by `k` and a number below 2^k, both taken modulo a weight, add up below it. */
  lemma DisjointPrefix(a: nat, b: nat, k: nat, i: nat)
    requires b < Pow2(k)
    ensures (a * Pow2(k)) % Weight(i) + b % Weight(i) < Weight(i)
  {
    var w: int, pk: int := Weight(i), Pow2(k);
    if BITS * i <= k {
      var e: int := Pow2(k - BITS * i);
      Pow2Add(BITS * i, k - BITS * i);
      var x: int := a * e;
      assert a * pk == x * w by {
        assert pk == w * e;
        MulAssoc(a, w, e);
      }
      DivModUnique(a * pk, w, x, 0);
    } else {
      var q: int := Pow2(BITS * i - k);
      Pow2Add(k, BITS * i - k);
      ShiftedMod(a, pk, q, w);
      Pow2Monotone(k, BITS * i);
      ModOfSmall(b, w);
    }
  }

  lemma MulAssoc(a: int, w: int, e: int)
    ensures a * (w * e) == (a * e) * w
  {
  }

  /** A multiple of `p` taken modulo `w = p q` is the multiplier modulo `q`, times `p`, at most `w - p`. */
  lemma ShiftedMod(a: nat, p: int, q: int, w: int)
    requires p > 0 && q > 0 && w == p * q
    ensures (a * p) % w == (a % q) * p <= w - p
  {
    var d: int, r: int := a / q, a % q;
    assert a * p == d * w + r * p by {
      assert a == d * q + r;
      assert a * p == d * (q * p) + r * p;
    }
    MulLe(r, q - 1, p);
    assert (q - 1) * p == w - p;
    DivModUnique(a * p, w, d, r * p);
  }

  /** The first `i` limbs of the two add up below their weight. */
  ghost predicate PrefixFits(a: seq<Limb>, b: seq<Limb>, i: nat)
    requires i <= |a| && i <= |b|
  {
    ValueOf(a[..i]) + ValueOf(b[..i]) < Weight(i)
  }

  /** Prefixes that never reach their weight make no carry, so none is lost. */
  lemma {:induction false} NoCarryNoLoss(a: seq<Limb>, b: seq<Limb>, n: nat)
    requires n <= |a| && n <= |b|
    requires forall i :: 0 <= i <= n ==> PrefixFits(a, b, i)
    ensures Lost(a, b, n, AsWritten) == 0
    decreases n
  {
    if n > 0 {
      NoCarryNoLoss(a, b, n - 1);
      AddPrefixValue(a, b, n - 1, AsWritten);
      var prev := AddPrefix(a, b, n - 1, AsWritten);
      var w: int, v: int, va: int, vb: int := Weight(n - 1), ValueOf(prev.0), ValueOf(a[..n - 1]), ValueOf(b[..n - 1]);
      assert PrefixFits(a, b, n - 1);
      assert v + (if prev.1 then w else 0) == va + vb;
      assert !LosesCarryAt(a, b, n - 1, AsWritten);
    }
  }

  /**
   * One plane of `cat`: a shifted plane plus a plane below the shift needs
   * no carry, so the sum keeps the longer length, stays within the limbs of
   * the joint width and below it.
   */
  lemma CatPlane(hi: seq<Limb>, lo: seq<Limb>, a: nat, k: nat, s: nat)
    requires ValueOf(hi) == a * Pow2(k) && a < Pow2(s) && 1 <= |hi| <= LimbsFor(s + k)
    requires k >= 1 && |lo| == LimbsFor(k) && ValueOf(lo) < Pow2(k)
    ensures var m := if |hi| >= |lo| then |hi| else |lo|;
      ValueOf(hi) + ValueOf(lo) < Weight(m) && m <= LimbsFor(s + k) && ValueOf(hi) + ValueOf(lo) < Pow2(s + k)
  {
    var m := if |hi| >= |lo| then |hi| else |lo|;
    ValueOfBound(hi);
    ValueOfBound(lo);
    Pow2Monotone(BITS * |hi|, BITS * m);
    Pow2Monotone(BITS * |lo|, BITS * m);
    DisjointSum(a, ValueOf(lo), k, BITS * m);
    LimbsForMonotone(k, s + k);
    ShiftedSumBound(a, ValueOf(lo), s, k);
  }

  /**
   * The bits of a concatenation, as section 11.4.12 of IEEE 1800-2017
   * defines them: those of `right` below its width and those of `self` above.
   */
  lemma CatLogic(self: SvPrimaryLiteralIntegral, right: SvPrimaryLiteralIntegral, r: SvPrimaryLiteralIntegral, i: nat)
    requires WF(right) && self.dataXz.Some? == right.dataXz.Some? == r.dataXz.Some?
    requires ValueOf(r.data01) == ValueOf(self.data01) * Pow2(right.size) + ValueOf(right.data01)
    requires XzValue(r) == XzValue(self) * Pow2(right.size) + XzValue(right)
    ensures LogicAt(r, i) == if i < right.size then LogicAt(right, i) else LogicAt(self, i - right.size)
  {
    BitOfSum(ValueOf(right.data01), ValueOf(self.data01), right.size, i);
    BitOfSum(XzValue(right), XzValue(self), right.size, i);
  }

  // ---------------------------------------------------------------------
  // The all-X result.
  // ---------------------------------------------------------------------

  /** The result the arithmetic gives for an operand with X or Z: a zero 0/1 plane and every X/Z bit below the width set. */
  ghost predicate IsAllX(p: SvPrimaryLiteralIntegral) {
    p.dataXz.Some? && ValueOf(p.data01) == 0 && ValueOf(p.dataXz.value) == Pow2(p.size) - 1
  }

  /** Every bit of the all-X result below its width is X. */
  lemma AllXLogic(p: SvPrimaryLiteralIntegral, i: nat)
    requires IsAllX(p)
    ensures LogicAt(p, i) == if i < p.size then LX else L0
  {
    BitOfZero(i);
    AllOnesBits(p.size, i);
  }

  /** The X of `width` bits the code builds: an X bit concatenated with further X bits. */
  method AllX(width: nat, signed: bool) returns (r: SvPrimaryLiteralIntegral)
    requires width >= 1
    ensures WF(r) && IsAllX(r) && r.size == width && r.signed == signed
  {
    r := SvPrimaryLiteralIntegral([0], Some([1]), 1, signed);
    var xPrimlit := SvPrimaryLiteralIntegral([0], Some([1]), 1, r.signed);
    assert ValueOf([0]) == 0 && ValueOf([1]) == 1 by {
      ValueOfPush([], 0);
      ValueOfPush([], 1);
    }
    for k := 0 to width - 1
      invariant Loose(r) && IsAllX(r) && r.size == k + 1 && r.signed == signed
    {
      r := Cat(r, xPrimlit);
    }
    LooseTopSetIsWF(r);
  }

  // ---------------------------------------------------------------------
  // `add_primlit`
  // ---------------------------------------------------------------------

  function Max(a: nat, b: nat): nat {
    if a >= b then a else b
  }

  /** `bit1b_0` made signed and pushed to `n` zero limbs, as wide as the limbs. */
  method MatchedZero(n: nat) returns (z: SvPrimaryLiteralIntegral)
    requires n >= 1
    ensures z == SvPrimaryLiteralIntegral(Zeros(n), None, BITS * n, true)
  {
    z := Bit1b0();
    z := z.(signed := true);
    assert Zeros(1) == [0];
    for k := 0 to n - 1
      invariant z == SvPrimaryLiteralIntegral(Zeros(k + 1), None, 1, true)
    {
      z := z.(data01 := z.data01 + [0]);
    }
    z := z.(size := n * BITS);
  }

  /**
   * The carries the signed branch of `add_primlit` loses under the rule:
   * those of the addition of both operands sign extended to one limb more
   * than the wider one.
   */
  ghost function SignedLoss(self: SvPrimaryLiteralIntegral, right: SvPrimaryLiteralIntegral, carry: CarryRule): nat {
    var n := (if self.size > right.size then |self.data01| else |right.data01|) + 1;
    Lost(LimbsOf(Widened(ValueOf(self.data01), Fill01(self, ByMsb), self.size, n), n),
         LimbsOf(Widened(ValueOf(right.data01), Fill01(right, ByMsb), right.size, n), n), n, carry)
  }

  /** The carries `add_primlit` loses under the rule on operands without X or Z; none under `Intended`. */
  ghost function AddLoss(self: SvPrimaryLiteralIntegral, right: SvPrimaryLiteralIntegral, carry: CarryRule): nat {
    if self.signed && right.signed then SignedLoss(self, right, carry) else UnsignedLoss(self, right, carry)
  }

  /** The lost carries depend on the 0/1 planes, the widths and the signs alone. */
  lemma LossIgnoresXz(p: SvPrimaryLiteralIntegral, p': SvPrimaryLiteralIntegral,
                      q: SvPrimaryLiteralIntegral, q': SvPrimaryLiteralIntegral, carry: CarryRule)
    requires p.data01 == p'.data01 && p.size == p'.size && p.signed == p'.signed
    requires q.data01 == q'.data01 && q.size == q'.size && q.signed == q'.signed
    ensures AddLoss(p, q, carry) == AddLoss(p', q', carry)
  {
    assert Fill01(p, ByMsb) == Fill01(p', ByMsb) && Fill01(q, ByMsb) == Fill01(q', ByMsb);
  }

  /**
   * `add_primlit`: with neither operand holding X or Z, the sum less the
   * carries the rule loses, in two's complement and modulo the final width
   * when both are signed; so the exact sum when no carry is lost. Otherwise
   * the all-X result. A 2-state operand is first made 4-state when the other
   * is.
   */
  method AddPrimlit(self: SvPrimaryLiteralIntegral, right: SvPrimaryLiteralIntegral, carry: CarryRule)
    returns (r: SvPrimaryLiteralIntegral)
    requires Loose(self) && Loose(right)
    requires self.signed && right.signed ==> WF(self) && WF(right)
    ensures r.size == Max(self.size, right.size) + 1 && r.signed == (self.signed && right.signed)
    ensures r.dataXz.Some? == (self.dataXz.Some? || right.dataXz.Some?)
    ensures Loose(r) && (WF(self) && WF(right) ==> WF(r))
    ensures HasXz(self) || HasXz(right) ==> IsAllX(r)
    ensures !HasXz(self) && !HasXz(right) ==> !HasXz(r)
    ensures !HasXz(self) && !HasXz(right) && !r.signed ==>
      ValueOf(r.data01) + AddLoss(self, right, carry) == ValueOf(self.data01) + ValueOf(right.data01)
    ensures !HasXz(self) && !HasXz(right) && r.signed ==>
      ValueOf(r.data01) == (Operand(self, true) + Operand(right, true) - AddLoss(self, right, carry)) % Pow2(r.size)
    ensures !HasXz(self) && !HasXz(right) && (carry == Intended || AddLoss(self, right, carry) == 0) ==>
      Operand(r, r.signed) == Operand(self, r.signed) + Operand(right, r.signed)
  {
    var ret := self;
    var rightNu := right;
    if Is4State(ret) != Is4State(rightNu) {
      if !Is4State(ret) {
        ret := ToFourState(ret);
        FourStateFacts(self);
      } else {
        rightNu := ToFourState(rightNu);
        FourStateFacts(right);
      }
    }
    var leftXz := ContainsXz(ret);
    var rightXz := ContainsXz(rightNu);
    if !leftXz && !rightXz {
      LossIgnoresXz(ret, self, rightNu, right, carry);
      r := AddTwoState(ret, rightNu, carry);
    } else {
      if ret.size < rightNu.size {
        ret := ret.(size := rightNu.size);
      }
      var finalNumBits := ret.size + 1;
      r := AllX(finalNumBits, !(ret.signed == false || rightNu.signed == false));
      WFIsLoose(r);
    }
  }

  /** The limbs of an unsigned sum `u`: the longer length, one more on a carry, one more pushed when still short of the width. */
  lemma UnsignedSumLength(la: nat, lb: nat, sa: nat, sb: nat, va: nat, vb: nat, u: nat, len1: nat, len2: nat)
    requires 1 <= la <= LimbsFor(sa) && 1 <= lb <= LimbsFor(sb) && va < Pow2(sa) && vb < Pow2(sb) && u <= va + vb
    requires len1 == Max(la, lb) + (if u >= Weight(Max(la, lb)) then 1 else 0)
    requires len2 == len1 + (if BITS * len1 < Max(sa, sb) + 1 then 1 else 0)
    ensures u < Pow2(Max(sa, sb) + 1)
    ensures 1 <= len2 <= LimbsFor(Max(sa, sb) + 1)
    ensures la == LimbsFor(sa) && lb == LimbsFor(sb) ==> len2 == LimbsFor(Max(sa, sb) + 1)
  {
    var m, f := Max(la, lb), Max(sa, sb) + 1;
    Pow2Monotone(sa, f - 1);
    Pow2Monotone(sb, f - 1);
    if f <= BITS * m {
      Pow2Monotone(f, BITS * m);
    }
    LimbsForBounds(f);
    if sa >= 1 { LimbsForBounds(sa); }
    if sb >= 1 { LimbsForBounds(sb); }
  }

  /** The branch of `add_primlit` for operands without X or Z, 2-state alike or 4-state alike. */
  method AddTwoState(self: SvPrimaryLiteralIntegral, right: SvPrimaryLiteralIntegral, carry: CarryRule)
    returns (r: SvPrimaryLiteralIntegral)
    requires Loose(self) && Loose(right) && !HasXz(self) && !HasXz(right)
    requires self.dataXz.Some? == right.dataXz.Some?
    requires self.signed && right.signed ==> WF(self) && WF(right)
    ensures r.size == Max(self.size, right.size) + 1 && r.signed == (self.signed && right.signed)
    ensures r.dataXz.Some? == self.dataXz.Some? && !HasXz(r)
    ensures Loose(r) && (WF(self) && WF(right) ==> WF(r))
    ensures !r.signed ==> ValueOf(r.data01) + AddLoss(self, right, carry) == ValueOf(self.data01) + ValueOf(right.data01)
    ensures r.signed ==>
      ValueOf(r.data01) == (Operand(self, true) + Operand(right, true) - AddLoss(self, right, carry)) % Pow2(r.size)
    ensures carry == Intended || AddLoss(self, right, carry) == 0 ==>
      Operand(r, r.signed) == Operand(self, r.signed) + Operand(right, r.signed)
  {
    var ret := self;
    var rightNu := right;
    var finalNumBits: nat;
    var elmntsSignExtension: nat;
    if ret.size > rightNu.size {
      finalNumBits := ret.size + 1;
      elmntsSignExtension := |ret.data01| + 1;
    } else {
      finalNumBits := rightNu.size + 1;
      elmntsSignExtension := |rightNu.data01| + 1;
    }
    if ret.signed == false || rightNu.signed == false {
      ret := ret.(signed := false);
      ret := AddUnsigned(ret, rightNu, finalNumBits, carry, self);
    } else {
      if self.size > right.size {
        LimbsForMonotone(right.size, self.size);
      } else {
        LimbsForMonotone(self.size, right.size);
      }
      ret, rightNu := SignExtendBoth(ret, rightNu, elmntsSignExtension);
      ret := AddSigned(ret, rightNu, finalNumBits, carry, self, right, elmntsSignExtension);
    }
    r := ClearXz(ret);
  }

  /** The unsigned sum: `_unsigned_primlit_add`, then a limb pushed when the width outgrows the limbs. */
  method AddUnsigned(l: SvPrimaryLiteralIntegral, right: SvPrimaryLiteralIntegral, finalNumBits: nat, carry: CarryRule,
                     ghost self: SvPrimaryLiteralIntegral)
    returns (r: SvPrimaryLiteralIntegral)
    requires Loose(self) && Loose(right) && finalNumBits == Max(self.size, right.size) + 1
    requires l == self.(signed := false)
    ensures r.size == finalNumBits && !r.signed && r.dataXz.Some? == self.dataXz.Some?
    ensures 1 <= |r.data01| <= LimbsFor(finalNumBits)
    ensures ValueOf(r.data01) + UnsignedLoss(self, right, carry) == ValueOf(self.data01) + ValueOf(right.data01)
    ensures Fits(r.data01, finalNumBits)
    ensures WF(self) && WF(right) ==> |r.data01| == LimbsFor(finalNumBits)
  {
    var ret := UnsignedPrimlitAdd(l, right, carry);
    assert ret == Summed(l, right, carry);
    SummedPlane(l, right, carry);
    SummedShape(l, right, carry);
    r := WidenSum(ret, finalNumBits, self, right);
  }

  /** The signed sum of the sign-extended operands, truncated to the final width. */
  method AddSigned(l: SvPrimaryLiteralIntegral, rightNu: SvPrimaryLiteralIntegral, finalNumBits: nat, carry: CarryRule,
                   ghost self: SvPrimaryLiteralIntegral, ghost right: SvPrimaryLiteralIntegral, ghost n: nat)
    returns (r: SvPrimaryLiteralIntegral)
    requires WF(self) && WF(right) && finalNumBits == Max(self.size, right.size) + 1
    requires n == (if self.size > right.size then |self.data01| else |right.data01|) + 1
    requires SignExtended(self, l, n, ByMsb) && SignExtended(right, rightNu, n, ByMsb) && l.signed
    ensures WF(r) && r.size == finalNumBits && r.signed && r.dataXz.Some? == self.dataXz.Some?
    ensures ValueOf(r.data01) == (SPlane(ValueOf(self.data01), self.size) + SPlane(ValueOf(right.data01), right.size)
                                  - SignedLoss(self, right, carry)) % Pow2(r.size)
    ensures carry == Intended || SignedLoss(self, right, carry) == 0 ==>
      SPlane(ValueOf(r.data01), r.size) == SPlane(ValueOf(self.data01), self.size) + SPlane(ValueOf(right.data01), right.size)
  {
    var ret := UnsignedPrimlitAdd(l, rightNu, carry);
    assert ret == Summed(l, rightNu, carry);
    ExtendedSummed(self, right, l, rightNu, n, carry);
    r := TruncateSum(ret, finalNumBits, self, right, l, rightNu, n, SignedLoss(self, right, carry));
  }

  /** The sign-extended planes added: the sum less the signed loss, in at least `n` limbs of the extended width. */
  lemma ExtendedSummed(self: SvPrimaryLiteralIntegral, right: SvPrimaryLiteralIntegral,
                       l: SvPrimaryLiteralIntegral, rightNu: SvPrimaryLiteralIntegral, n: nat, carry: CarryRule)
    requires n == (if self.size > right.size then |self.data01| else |right.data01|) + 1
    requires SignExtended(self, l, n, ByMsb) && SignExtended(right, rightNu, n, ByMsb) && l.signed
    ensures var ret := Summed(l, rightNu, carry);
      && ValueOf(ret.data01) + SignedLoss(self, right, carry) == ValueOf(l.data01) + ValueOf(rightNu.data01)
      && |ret.data01| >= n && ret.size == BITS * n && ret.signed
      && ret.dataXz.Some? == self.dataXz.Some? && (ret.dataXz.Some? ==> |ret.dataXz.value| >= n)
  {
    SummedPlane(l, rightNu, carry);
    SummedShape(l, rightNu, carry);
    ExtendedLoss(self, right, l, rightNu, n, carry);
  }

  /** The carries lost adding the sign-extended planes are those `SignedLoss` names. */
  lemma ExtendedLoss(self: SvPrimaryLiteralIntegral, right: SvPrimaryLiteralIntegral,
                     l: SvPrimaryLiteralIntegral, rightNu: SvPrimaryLiteralIntegral, n: nat, carry: CarryRule)
    requires n == (if self.size > right.size then |self.data01| else |right.data01|) + 1
    requires SignExtended(self, l, n, ByMsb) && SignExtended(right, rightNu, n, ByMsb)
    ensures UnsignedLoss(l, rightNu, carry) == SignedLoss(self, right, carry)
  {
    assert MaxLen(l, rightNu) == n;
    assert l.data01 + Zeros(0) == l.data01 && rightNu.data01 + Zeros(0) == rightNu.data01;
    LimbsOfValue(l.data01);
    LimbsOfValue(rightNu.data01);
  }

  /** `if ret.is_4state() { ret.data_xz = ret.to_4state().data_xz }`: a 4-state result gets a zero X/Z plane. */
  method ClearXz(ret: SvPrimaryLiteralIntegral) returns (r: SvPrimaryLiteralIntegral)
    requires |ret.data01| >= 1
    ensures r.data01 == ret.data01 && r.size == ret.size && r.signed == ret.signed
    ensures r.dataXz == if ret.dataXz.Some? then Some(Zeros(|ret.data01|)) else None
    ensures !HasXz(r) && XzValue(r) == 0
    ensures Loose(ret) ==> Loose(r)
    ensures WF(ret) ==> WF(r)
  {
    r := ret;
    if Is4State(r) {
      var four := ToFourState(r);
      r := r.(dataXz := four.dataXz);
      ZeroPlaneFacts(r);
    }
  }

  /** The unsigned end of `add_primlit`: the width set to the final width, and a zero limb pushed if the limbs fall short of it. */
  method WidenSum(ret: SvPrimaryLiteralIntegral, finalNumBits: nat,
                  ghost self: SvPrimaryLiteralIntegral, ghost right: SvPrimaryLiteralIntegral)
    returns (r: SvPrimaryLiteralIntegral)
    requires Loose(self) && Loose(right) && finalNumBits == Max(self.size, right.size) + 1
    requires !ret.signed && ret.dataXz.Some? == self.dataXz.Some?
    requires ValueOf(ret.data01) <= ValueOf(self.data01) + ValueOf(right.data01)
    requires var m := Max(|self.data01|, |right.data01|);
      |ret.data01| == m + (if ValueOf(ret.data01) >= Weight(m) then 1 else 0)
    ensures r.size == finalNumBits && !r.signed && r.dataXz.Some? == self.dataXz.Some?
    ensures 1 <= |r.data01| <= LimbsFor(finalNumBits) && ValueOf(r.data01) == ValueOf(ret.data01)
    ensures Fits(r.data01, finalNumBits)
    ensures WF(self) && WF(right) ==> |r.data01| == LimbsFor(finalNumBits)
  {
    r := ret;
    r := r.(size := finalNumBits);
    var d := PushIfShort(r.data01, finalNumBits);
    r := r.(data01 := d);
    UnsignedSumLength(|self.data01|, |right.data01|, self.size, right.size, ValueOf(self.data01),
                      ValueOf(right.data01), ValueOf(ret.data01), |ret.data01|, |r.data01|);
  }

  /** The zero limb `add_primlit` pushes when the sum's limbs hold fewer bits than its width. */
  method PushIfShort(d: seq<Limb>, finalNumBits: nat) returns (r: seq<Limb>)
    ensures ValueOf(r) == ValueOf(d) && |r| == if |d| * BITS < finalNumBits then |d| + 1 else |d|
  {
    r := d;
    if |r| * BITS < finalNumBits {
      ValueOfPush(r, 0);
      r := r + [0];
    }
  }

  /** The signed sum cut to the final width: the two's complement sum less the lost carries, modulo the width. */
  method TruncateSum(ret: SvPrimaryLiteralIntegral, finalNumBits: nat,
                     ghost self: SvPrimaryLiteralIntegral, ghost right: SvPrimaryLiteralIntegral,
                     ghost l: SvPrimaryLiteralIntegral, ghost rightNu: SvPrimaryLiteralIntegral, ghost n: nat, ghost loss: nat)
    returns (r: SvPrimaryLiteralIntegral)
    requires WF(self) && WF(right) && finalNumBits == Max(self.size, right.size) + 1
    requires n == (if self.size > right.size then |self.data01| else |right.data01|) + 1
    requires SignExtended(self, l, n, ByMsb) && SignExtended(right, rightNu, n, ByMsb)
    requires ValueOf(ret.data01) + loss == ValueOf(l.data01) + ValueOf(rightNu.data01) && ret.signed
    requires |ret.data01| >= n && ret.size == BITS * n
    requires ret.dataXz.Some? == self.dataXz.Some? && (ret.dataXz.Some? ==> |ret.dataXz.value| >= n)
    ensures WF(r) && r.size == finalNumBits && r.signed && r.dataXz.Some? == self.dataXz.Some?
    ensures ValueOf(r.data01) == (SPlane(ValueOf(self.data01), self.size) + SPlane(ValueOf(right.data01), right.size) - loss)
                                 % Pow2(r.size)
    ensures loss == 0 ==>
      SPlane(ValueOf(r.data01), r.size) == SPlane(ValueOf(self.data01), self.size) + SPlane(ValueOf(right.data01), right.size)
  {
    assert LimbsFor(finalNumBits) <= n && finalNumBits <= BITS * n by {
      LimbsForBounds(self.size);
      LimbsForBounds(right.size);
      LimbsForBounds(finalNumBits);
    }
    var t := Truncate(ret, finalNumBits);
    r := t.value;
    TruncateIsWellFormed(ret, r, finalNumBits);
    assert 1 <= finalNumBits && ValueOf(r.data01) == ValueOf(ret.data01) % Pow2(finalNumBits);
    ExtendedSum(self, right, l, rightNu, n, ValueOf(ret.data01), loss, finalNumBits);
  }

  /** `SignedSum` for two sign-extended literals. */
  lemma ExtendedSum(self: SvPrimaryLiteralIntegral, right: SvPrimaryLiteralIntegral,
                    l: SvPrimaryLiteralIntegral, rightNu: SvPrimaryLiteralIntegral, n: nat, u: nat, loss: nat, f: nat)
    requires WF(self) && WF(right) && f == Max(self.size, right.size) + 1
    requires n == (if self.size > right.size then |self.data01| else |right.data01|) + 1
    requires SignExtended(self, l, n, ByMsb) && SignExtended(right, rightNu, n, ByMsb)
    requires u + loss == ValueOf(l.data01) + ValueOf(rightNu.data01)
    ensures u % Pow2(f) == (SPlane(ValueOf(self.data01), self.size) + SPlane(ValueOf(right.data01), right.size) - loss) % Pow2(f)
    ensures loss == 0 ==> SPlane(u % Pow2(f), f) == SPlane(ValueOf(self.data01), self.size) + SPlane(ValueOf(right.data01), right.size)
  {
    ExtendedBounds(self, right, n, f);
    FillByMsb(self);
    FillByMsb(right);
    SignedSum(ValueOf(self.data01), self.size, Fill01(self, ByMsb), ValueOf(right.data01), right.size, Fill01(right, ByMsb),
              n, u, loss, f);
  }

  /** The widths and values of two literals against the `n` limbs and the final width `f` of their sum. */
  lemma ExtendedBounds(self: SvPrimaryLiteralIntegral, right: SvPrimaryLiteralIntegral, n: nat, f: nat)
    requires WF(self) && WF(right) && f == Max(self.size, right.size) + 1
    requires n == (if self.size > right.size then |self.data01| else |right.data01|) + 1
    ensures ValueOf(self.data01) < Pow2(self.size) && Pow2(self.size) <= Weight(n)
    ensures ValueOf(right.data01) < Pow2(right.size) && Pow2(right.size) <= Weight(n)
    ensures f <= BITS * n
  {
    LimbsForBounds(self.size);
    LimbsForBounds(right.size);
    SizeFacts(self, n);
    SizeFacts(right, n);
  }

  /** Under `ByMsb` the 0/1 plane is filled exactly when its top bit is set. */
  lemma FillByMsb(p: SvPrimaryLiteralIntegral)
    requires p.size >= 1
    ensures Fill01(p, ByMsb) == (ValueOf(p.data01) >= Pow2(p.size - 1))
  {
  }

  /** Both signed operands sign extended against a signed zero of `n` limbs, as the code matches them. */
  method SignExtendBoth(a: SvPrimaryLiteralIntegral, b: SvPrimaryLiteralIntegral, n: nat)
    returns (l: SvPrimaryLiteralIntegral, r: SvPrimaryLiteralIntegral)
    requires WF(a) && WF(b) && a.signed && b.signed && !HasXz(a) && !HasXz(b) && n > |a.data01| && n > |b.data01|
    ensures SignExtended(a, l, n, ByMsb) && SignExtended(b, r, n, ByMsb) && l.signed && r.signed
  {
    var matched := MatchedZero(n);
    ExtendedWF(matched);
    l, matched := MatchedSignExtend(a, matched, ByNegative);
    ExtendedWF(matched);
    r, matched := MatchedSignExtend(b, matched, ByNegative);
    assert Fill01(a, ByNegative) == Fill01(a, ByMsb) && Fill01(b, ByNegative) == Fill01(b, ByMsb);
  }

  /**
   * The signed branch of the addition: the two sign-extended planes added,
   * less the carries lost, and cut to the final width are, modulo that
   * width, the sum of the operands in two's complement less the loss; with
   * nothing lost they read as that sum.
   */
  lemma SignedSum(va: nat, sa: nat, fa: bool, vb: nat, sb: nat, fb: bool, n: nat, u: nat, loss: nat, f: nat)
    requires sa >= 1 && sb >= 1 && va < Pow2(sa) && vb < Pow2(sb) && Pow2(sa) <= Weight(n) && Pow2(sb) <= Weight(n)
    requires f == Max(sa, sb) + 1 && f <= BITS * n
    requires fa == (va >= Pow2(sa - 1)) && fb == (vb >= Pow2(sb - 1))
    requires u + loss == Widened(va, fa, sa, n) + Widened(vb, fb, sb, n)
    ensures u % Pow2(f) == (SPlane(va, sa) + SPlane(vb, sb) - loss) % Pow2(f)
    ensures loss == 0 ==> SPlane(u % Pow2(f), f) == SPlane(va, sa) + SPlane(vb, sb)
  {
    var w: int := Widened(va, fa, sa, n) + Widened(vb, fb, sb, n);
    var t: int := SPlane(va, sa) + SPlane(vb, sb);
    var m := SignedResidue(va, sa, fa, vb, sb, fb, n, f);
    var p: int := Pow2(f);
    ModShift(w, t, loss, p);
    assert u == w - loss;
  }

  /** The sum of the widened planes and the sum in two's complement share one residue modulo 2^f, which reads as the latter. */
  lemma SignedResidue(va: nat, sa: nat, fa: bool, vb: nat, sb: nat, fb: bool, n: nat, f: nat) returns (m: nat)
    requires sa >= 1 && sb >= 1 && va < Pow2(sa) && vb < Pow2(sb) && Pow2(sa) <= Weight(n) && Pow2(sb) <= Weight(n)
    requires f == Max(sa, sb) + 1 && f <= BITS * n
    requires fa == (va >= Pow2(sa - 1)) && fb == (vb >= Pow2(sb - 1))
    ensures (Widened(va, fa, sa, n) + Widened(vb, fb, sb, n)) % Pow2(f) == m
    ensures (SPlane(va, sa) + SPlane(vb, sb)) % Pow2(f) == m
    ensures SPlane(m, f) == SPlane(va, sa) + SPlane(vb, sb)
  {
    var ha: int, hb: int, hf: int, p: int := Pow2(sa - 1), Pow2(sb - 1), Pow2(f - 1), Pow2(f);
    Pow2Monotone(sa, f - 1);
    Pow2Monotone(sb, f - 1);
    assert Pow2(sa) == 2 * ha && Pow2(sb) == 2 * hb && p == 2 * hf;
    Pow2Divides(f, BITS * n);
    var m' := WrappedSum(va, ha, vb, hb, hf, Weight(n), p, Pow2(BITS * n - f));
    m := m';
    var t: int := SPlane(va, sa) + SPlane(vb, sb);
    assert (if m >= hf then m - p else m) == t;
    TwosComplementMod(m, t, p, hf);
  }

  /** A remainder read in two's complement is congruent to it. */
  lemma TwosComplementMod(m: int, t: int, p: int, hf: int)
    requires p == 2 * hf && 0 <= m < p && (if m >= hf then m - p else m) == t
    ensures t % p == m
  {
    if m >= hf {
      DivModUnique(t, p, -1, m);
    } else {
      DivModUnique(t, p, 0, m);
    }
  }

  /** Congruent numbers stay congruent when the same amount is taken from both. */
  lemma ModShift(x: int, y: int, d: int, p: int)
    requires p > 0 && x % p == y % p
    ensures (x - d) % p == (y - d) % p
  {
    var k := (y - d) / p + x / p - y / p;
    assert x - d == k * p + (y - d) % p;
    DivModUnique(x - d, p, k, (y - d) % p);
  }

  /** `SignedSum` over plain integers: `h` halves, `w` the weight of the limbs, `q` the number of `2 hf` in it. */
  lemma WrappedSum(va: int, ha: int, vb: int, hb: int, hf: int, w: int, p: int, q: int) returns (m: int)
    requires 0 <= va < 2 * ha && 0 <= vb < 2 * hb && 1 <= ha && 2 * ha <= hf && 1 <= hb && 2 * hb <= hf
    requires q >= 1 && p == 2 * hf && w == p * q
    ensures var wa, wb := (if va >= ha then va + w - 2 * ha else va), (if vb >= hb then vb + w - 2 * hb else vb);
      var t := (if va >= ha then va - 2 * ha else va) + (if vb >= hb then vb - 2 * hb else vb);
      m == (wa + wb) % p && (if m >= hf then m - p else m) == t
  {
    var wa, wb := (if va >= ha then va + w - 2 * ha else va), (if vb >= hb then vb + w - 2 * hb else vb);
    var t := (if va >= ha then va - 2 * ha else va) + (if vb >= hb then vb - 2 * hb else vb);
    assert -hf <= t < hf;
    if va >= ha && vb >= hb {
      assert wa + wb == t + 2 * w;
      assert 2 * w == (2 * q) * p;
      m := Wrapped(wa + wb, t, 2 * q, p, hf);
    } else if va >= ha || vb >= hb {
      assert wa + wb == t + w;
      assert w == q * p;
      m := Wrapped(wa + wb, t, q, p, hf);
    } else {
      assert wa + wb == t + 0 * p;
      m := Wrapped(wa + wb, t, 0, p, hf);
    }
  }

  /** A number `t` in [-hf, hf) plus a multiple of `p = 2 hf`: its remainder read in two's complement gives `t` back. */
  lemma Wrapped(x: int, t: int, cq: int, p: int, hf: int) returns (m: int)
    requires p == 2 * hf && hf >= 1 && x == t + cq * p && -hf <= t < hf
    ensures m == x % p && (if m >= hf then m - p else m) == t
  {
    if t >= 0 {
      DivModUnique(x, p, cq, t);
      m := t;
    } else {
      DivModUnique(x, p, cq - 1, t + p);
      m := t + p;
    }
  }
}
