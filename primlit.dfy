/**
 * Integral primary literals of any width: a 2-state or 4-state value held
 * in little-endian vectors of 64-bit limbs. `data01` holds the 0/1 plane and
 * `dataXz`, when present, the X/Z plane; bit i of the literal is
 * (0,0) = 0, (1,0) = 1, (0,1) = X and (1,1) = Z. `size` is the width in bits.
 *
 * This module holds the representation, the constructors, the queries, the
 * limb matching, the unsigned limb addition and truncation.
 */
module PrimlitCore {
  import opened Wrappers
  import opened Limbs

  datatype SvPrimaryLiteralIntegral = SvPrimaryLiteralIntegral(
    data01: seq<Limb>,
    dataXz: Option<seq<Limb>>,
    size: nat,
    signed: bool)

  /** The four values of one bit of a 4-state literal. */
  datatype Logic = L0 | L1 | LX | LZ

  /** One bit from its 0/1 and X/Z planes. */
  function LogicOf(b01: bool, bxz: bool): Logic {
    if !bxz then (if b01 then L1 else L0) else (if b01 then LZ else LX)
  }

  /** Bit `i` of the literal. A 2-state literal has no X/Z plane. */
  function LogicAt(p: SvPrimaryLiteralIntegral, i: nat): Logic {
    LogicOf(Bit(ValueOf(p.data01), i), p.dataXz.Some? && Bit(ValueOf(p.dataXz.value), i))
  }

  /** The limbs a width of `n` bits needs. */
  function LimbsFor(n: nat): nat {
    (n + BITS - 1) / BITS
  }

  /** Every bit of a plane at or above the width is clear. */
  ghost predicate Fits(ds: seq<Limb>, size: nat) {
    ValueOf(ds) < Pow2(size)
  }

  /**
   * A well-formed literal: a positive width, exactly the limbs that width
   * needs in each plane, and nothing set above the width.
   */
  ghost predicate WF(p: SvPrimaryLiteralIntegral) {
    && p.size >= 1
    && |p.data01| == LimbsFor(p.size)
    && Fits(p.data01, p.size)
    && (p.dataXz.Some? ==> |p.dataXz.value| == |p.data01| && Fits(p.dataXz.value, p.size))
  }

  /** A width needs one more limb than the limbs below its top bit. */
  lemma LimbsForBounds(n: nat)
    requires n >= 1
    ensures LimbsFor(n) >= 1
    ensures BITS * (LimbsFor(n) - 1) < n <= BITS * LimbsFor(n)
  {
  }

  // ---------------------------------------------------------------------
  // The constructors of one-bit literals.
  // ---------------------------------------------------------------------

  /** `bit1b_0`: the unsigned 2-state bit 0. */
  function Bit1b0(): (p: SvPrimaryLiteralIntegral)
    ensures WF(p) && p.size == 1 && !p.signed && p.dataXz.None? && LogicAt(p, 0) == L0
  {
    SvPrimaryLiteralIntegral([0], None, 1, false)
  }

  /** `bit1b_1`: the unsigned 2-state bit 1. */
  function Bit1b1(): (p: SvPrimaryLiteralIntegral)
    ensures WF(p) && p.size == 1 && !p.signed && p.dataXz.None? && LogicAt(p, 0) == L1
  {
    SvPrimaryLiteralIntegral([1], None, 1, false)
  }

  /** `logic1b_0`: the unsigned 4-state bit 0. */
  function Logic1b0(): (p: SvPrimaryLiteralIntegral)
    ensures WF(p) && p.size == 1 && !p.signed && p.dataXz.Some? && LogicAt(p, 0) == L0
  {
    SvPrimaryLiteralIntegral([0], Some([0]), 1, false)
  }

  /** `logic1b_1`: the unsigned 4-state bit 1. */
  function Logic1b1(): (p: SvPrimaryLiteralIntegral)
    ensures WF(p) && p.size == 1 && !p.signed && p.dataXz.Some? && LogicAt(p, 0) == L1
  {
    SvPrimaryLiteralIntegral([1], Some([0]), 1, false)
  }

  /** `logic1b_x`: the unsigned 4-state bit X. */
  function Logic1bX(): (p: SvPrimaryLiteralIntegral)
    ensures WF(p) && p.size == 1 && !p.signed && p.dataXz.Some? && LogicAt(p, 0) == LX
  {
    SvPrimaryLiteralIntegral([0], Some([1]), 1, false)
  }

  /** `_logic1b_z`: the unsigned 4-state bit Z. */
  function Logic1bZ(): (p: SvPrimaryLiteralIntegral)
    ensures WF(p) && p.size == 1 && !p.signed && p.dataXz.Some? && LogicAt(p, 0) == LZ
  {
    SvPrimaryLiteralIntegral([1], Some([1]), 1, false)
  }

  /** The six one-bit literals are pairwise distinct, so a result compared against them is one at most. */
  lemma OneBitLiteralsDistinct()
    ensures |{Bit1b0(), Bit1b1(), Logic1b0(), Logic1b1(), Logic1bX(), Logic1bZ()}| == 6
  {
  }

  // ---------------------------------------------------------------------
  // Queries.
  // ---------------------------------------------------------------------

  /** `is_4state`: the literal has an X/Z plane. */
  predicate Is4State(p: SvPrimaryLiteralIntegral) {
    p.dataXz.Some?
  }

  /** Some limb of the X/Z plane is not zero. */
  ghost predicate HasXz(p: SvPrimaryLiteralIntegral) {
    p.dataXz.Some? && exists i :: 0 <= i < |p.dataXz.value| && p.dataXz.value[i] != 0
  }

  /** `contains_xz`: the limbs of the X/Z plane are visited until one has a set bit. */
  method ContainsXz(p: SvPrimaryLiteralIntegral) returns (b: bool)
    ensures b == HasXz(p)
  {
    if !Is4State(p) {
      return false;
    }
    var xs := p.dataXz.value;
    for i := 0 to |xs|
      invariant forall j :: 0 <= j < i ==> xs[j] == 0
    {
      NoBitSet(xs[i]);
      if LeadingZeros(xs[i]) != BITS {
        return true;
      }
    }
    return false;
  }

  /** A vector stands for zero exactly when all its limbs are zero. */
  lemma {:induction false} ValueOfZeroIff(ds: seq<Limb>)
    ensures ValueOf(ds) == 0 <==> forall i :: 0 <= i < |ds| ==> ds[i] == 0
    decreases |ds|
  {
    if ds != [] {
      var n := |ds| - 1;
      ValueOfZeroIff(ds[..n]);
      assert ValueOf(ds) == ValueOf(ds[..n]) + ds[n] * Weight(n);
      if ds[n] != 0 {
        MulLe(1, ds[n], Weight(n));
      }
    }
  }

  /** A literal holds an X or a Z exactly when some bit of its X/Z plane is set. */
  lemma HasXzMeaning(p: SvPrimaryLiteralIntegral)
    ensures HasXz(p) <==> p.dataXz.Some? && ValueOf(p.dataXz.value) != 0
  {
    if p.dataXz.Some? {
      ValueOfZeroIff(p.dataXz.value);
    }
  }

  /** The literal with a zero X/Z plane as long as its 0/1 plane. */
  function FourState(p: SvPrimaryLiteralIntegral): SvPrimaryLiteralIntegral {
    p.(dataXz := Some(Zeros(|p.data01|)))
  }

  /** `to_4state`: an X/Z plane of one zero limb, grown one push at a time to the 0/1 plane's length. */
  method ToFourState(p: SvPrimaryLiteralIntegral) returns (r: SvPrimaryLiteralIntegral)
    requires |p.data01| >= 1
    ensures r == FourState(p)
  {
    r := p.(dataXz := Some([0]));
    assert Zeros(1) == [0];
    if |r.data01| != |r.dataXz.value| {
      for k := 0 to |r.data01| - |r.dataXz.value|
        invariant r == p.(dataXz := Some(Zeros(k + 1)))
      {
        var newVec := r.dataXz.value + [0];
        r := r.(dataXz := Some(newVec));
      }
    }
  }

  /** A 2-state literal and its 4-state form have the same bits, none of them X or Z. */
  lemma FourStateKeepsBits(p: SvPrimaryLiteralIntegral, i: nat)
    requires p.dataXz.None?
    ensures LogicAt(FourState(p), i) == LogicAt(p, i)
    ensures LogicAt(p, i) in {L0, L1}
    ensures !HasXz(FourState(p))
  {
    ZerosValue(|p.data01|);
    BitOfZero(i);
  }

  /** The width of the top limb's used part, when the width lies in the top limb. */
  function TopBits(size: nat, limbs: nat): nat
    requires limbs >= 1 && BITS * (limbs - 1) <= size <= BITS * limbs
  {
    size - BITS * (limbs - 1)
  }

  /** `is_set_msb_01`: the top set bit of the top limb is the bit at `size - 1`. */
  function IsSetMsb01(p: SvPrimaryLiteralIntegral): bool
    requires |p.data01| >= 1 && BITS * (|p.data01| - 1) <= p.size <= BITS * |p.data01|
  {
    LeadingZeros(p.data01[|p.data01| - 1]) == BITS - TopBits(p.size, |p.data01|)
  }

  /** `is_set_msb_xz`: the same test on the X/Z plane; false for a 2-state literal. */
  function IsSetMsbXz(p: SvPrimaryLiteralIntegral): bool
    requires p.dataXz.Some? ==>
      |p.dataXz.value| >= 1 && BITS * (|p.dataXz.value| - 1) <= p.size <= BITS * |p.dataXz.value|
  {
    if p.dataXz.Some? then
      var xs := p.dataXz.value;
      LeadingZeros(xs[|xs| - 1]) == BITS - TopBits(p.size, |xs|)
    else false
  }

  /** On a plane that fits its width, the top-bit test is the test of bit `size - 1`. */
  lemma MsbMeaning(ds: seq<Limb>, size: nat)
    requires size >= 1 && |ds| == LimbsFor(size) && Fits(ds, size)
    ensures LeadingZeros(ds[|ds| - 1]) == BITS - TopBits(size, |ds|) <==> ValueOf(ds) >= Pow2(size - 1)
  {
    var n := |ds| - 1;
    var k := TopBits(size, |ds|);
    var t := ds[n];
    var w := Weight(n);
    ValueOfTop(ds);
    Pow2Add(BITS * n, k);
    Pow2Add(BITS * n, k - 1);
    assert Pow2(size) == w * Pow2(k);
    assert Pow2(size - 1) == w * Pow2(k - 1);
    TopLimbBounds(ValueOf(ds[..n]), t, w, Pow2(k), Pow2(k - 1));
    LeadingZerosMeaning(t, k);
  }

  /** Arithmetic behind `MsbMeaning`: below the top limb the value is less than one top-limb unit. */
  lemma TopLimbBounds(low: nat, t: nat, w: nat, pk: nat, pk1: nat)
    requires low < w && low + t * w < w * pk
    ensures t < pk
    ensures low + t * w >= w * pk1 <==> t >= pk1
  {
    if t >= pk {
      MulLe(pk, t, w);
    }
    if t >= pk1 {
      MulLe(pk1, t, w);
    } else {
      MulLe(t, pk1 - 1, w);
    }
  }

  /** For a well-formed literal, `is_set_msb_01` tests the bit at `size - 1`. */
  lemma IsSetMsb01Meaning(p: SvPrimaryLiteralIntegral)
    requires WF(p)
    ensures BITS * (|p.data01| - 1) <= p.size <= BITS * |p.data01|
    ensures IsSetMsb01(p) <==> ValueOf(p.data01) >= Pow2(p.size - 1)
    ensures p.dataXz.Some? ==> (IsSetMsbXz(p) <==> ValueOf(p.dataXz.value) >= Pow2(p.size - 1))
    ensures p.dataXz.None? ==> !IsSetMsbXz(p)
  {
    MsbMeaning(p.data01, p.size);
    if p.dataXz.Some? {
      MsbMeaning(p.dataXz.value, p.size);
    }
  }

  // ---------------------------------------------------------------------
  // `_primlit_vec_elmnt_match`
  // ---------------------------------------------------------------------

  /** `n` zero limbs on top of each plane present. */
  function Padded(p: SvPrimaryLiteralIntegral, n: nat): SvPrimaryLiteralIntegral {
    p.(data01 := p.data01 + Zeros(n),
       dataXz := if p.dataXz.Some? then Some(p.dataXz.value + Zeros(n)) else None)
  }

  lemma PaddedNone(p: SvPrimaryLiteralIntegral)
    ensures Padded(p, 0) == p
  {
    assert p.data01 + Zeros(0) == p.data01;
    if p.dataXz.Some? {
      assert p.dataXz.value + Zeros(0) == p.dataXz.value;
    }
  }

  /** One more zero limb is one more push on each plane. */
  lemma PaddedNext(p: SvPrimaryLiteralIntegral, k: nat)
    ensures Padded(p, k + 1).data01 == Padded(p, k).data01 + [0]
    ensures p.dataXz.Some? ==> Padded(p, k + 1).dataXz.value == Padded(p, k).dataXz.value + [0]
    ensures Padded(p, k + 1).dataXz.Some? == p.dataXz.Some?
    ensures Padded(p, k + 1).size == p.size && Padded(p, k + 1).signed == p.signed
  {
    assert p.data01 + Zeros(k + 1) == p.data01 + Zeros(k) + [0];
    if p.dataXz.Some? {
      assert p.dataXz.value + Zeros(k + 1) == p.dataXz.value + Zeros(k) + [0];
    }
  }

  /** Zero high limbs change no value and no bit. */
  lemma PaddedKeepsValue(p: SvPrimaryLiteralIntegral, n: nat)
    ensures ValueOf(Padded(p, n).data01) == ValueOf(p.data01)
    ensures p.dataXz.Some? ==> ValueOf(Padded(p, n).dataXz.value) == ValueOf(p.dataXz.value)
  {
    ValueOfZeros(p.data01, n);
    if p.dataXz.Some? {
      ValueOfZeros(p.dataXz.value, n);
    }
  }

  /** A padded literal has the bits of the original and a zero X/Z plane exactly when it had one. */
  lemma PaddedKeepsLogic(p: SvPrimaryLiteralIntegral, n: nat, i: nat)
    ensures LogicAt(Padded(p, n), i) == LogicAt(p, i)
    ensures HasXz(Padded(p, n)) == HasXz(p)
  {
    PaddedKeepsValue(p, n);
    HasXzMeaning(p);
    HasXzMeaning(Padded(p, n));
  }

  /** The longer of two 0/1 planes. */
  function MaxLen(a: SvPrimaryLiteralIntegral, b: SvPrimaryLiteralIntegral): nat {
    if |a.data01| >= |b.data01| then |a.data01| else |b.data01|
  }

  /** `_primlit_vec_elmnt_match`: the shorter 0/1 plane, and its X/Z plane, get zero limbs pushed up to the longer length. */
  method VecElmntMatch(self: SvPrimaryLiteralIntegral, right: SvPrimaryLiteralIntegral)
    returns (l: SvPrimaryLiteralIntegral, r: SvPrimaryLiteralIntegral)
    ensures l == Padded(self, MaxLen(self, right) - |self.data01|)
    ensures r == Padded(right, MaxLen(self, right) - |right.data01|)
    ensures |l.data01| == |r.data01| == MaxLen(self, right)
  {
    l, r := self, right;
    PaddedNone(self);
    PaddedNone(right);
    var leftSize := |l.data01|;
    var rightSize := |r.data01|;
    if leftSize > rightSize {
      var diff := leftSize - rightSize;
      for k := 0 to diff
        invariant r == Padded(right, k)
      {
        PaddedNext(right, k);
        r := r.(data01 := r.data01 + [0]);
        if Is4State(r) {
          r := r.(dataXz := Some(r.dataXz.value + [0]));
        }
      }
    } else if leftSize < rightSize {
      var diff := rightSize - leftSize;
      for k := 0 to diff
        invariant l == Padded(self, k)
      {
        PaddedNext(self, k);
        l := l.(data01 := l.data01 + [0]);
        if Is4State(l) {
          l := l.(dataXz := Some(l.dataXz.value + [0]));
        }
      }
    }
  }

  // ---------------------------------------------------------------------
  // `_unsigned_primlit_add`
  // ---------------------------------------------------------------------

  /** How a limb's carry-out is decided. */
  datatype CarryRule =
    | AsWritten  // carry when the sum is below either operand, decided after the carry-in was added
    | Intended   // carry when the exact limb sum reaches 2^64

  /** One limb of the addition: the wrapped sum with the carry-in, and the carry-out. */
  function LimbAdd(l: Limb, r: Limb, c: bool, rule: CarryRule): (Limb, bool) {
    var s := WrappingAdd(l, r);
    var s' := if c then WrappingAdd(s, 1) else s;
    (s', if rule == AsWritten then !(s' >= l && s' >= r) else l + r + (if c then 1 else 0) >= BASE)
  }

  /** The limbs of the sum of the first `n` limbs, and the carry out of them. */
  function AddPrefix(a: seq<Limb>, b: seq<Limb>, n: nat, rule: CarryRule): (seq<Limb>, bool)
    requires n <= |a| && n <= |b|
  {
    if n == 0 then ([], false)
    else
      var (ds, c) := AddPrefix(a, b, n - 1, rule);
      var (s, c') := LimbAdd(a[n - 1], b[n - 1], c, rule);
      (ds + [s], c')
  }

  /** The sum of two limb vectors of one length: the limbs, and a limb 1 pushed on a final carry. */
  function AddLimbs(a: seq<Limb>, b: seq<Limb>, rule: CarryRule): seq<Limb>
    requires |a| == |b|
  {
    var (ds, c) := AddPrefix(a, b, |a|, rule);
    if c then ds + [1] else ds
  }

  /**
   * `_unsigned_primlit_add`: the 0/1 planes are matched, then added limb by
   * limb from the bottom with a carry, and a limb 1 is pushed on a final
   * carry. The width, the sign and the (matched) X/Z plane of `self` are
   * kept.
   */
  method UnsignedPrimlitAdd(self: SvPrimaryLiteralIntegral, right: SvPrimaryLiteralIntegral, rule: CarryRule)
    returns (r: SvPrimaryLiteralIntegral)
    ensures var m := MaxLen(self, right);
            var l := Padded(self, m - |self.data01|);
            r == l.(data01 := AddLimbs(l.data01, Padded(right, m - |right.data01|).data01, rule))
  {
    var l, rightNu := VecElmntMatch(self, right);
    var d := l.data01;
    var carryFlag := false;
    for x := 0 to |d|
      invariant |d| == |l.data01|
      invariant (d[..x], carryFlag) == AddPrefix(l.data01, rightNu.data01, x, rule)
      invariant d[x..] == l.data01[x..]
    {
      d, carryFlag := AddLimbAt(d, x, carryFlag, rightNu.data01[x], rule, l.data01, rightNu.data01);
    }
    assert d[..|d|] == d;
    if carryFlag {
      d := d + [1];
    }
    r := l.(data01 := d);
  }

  /** Limb `x` of the sum written over limb `x` of the left vector, with the carry out of limb `x - 1` coming in. */
  method AddLimbAt(d: seq<Limb>, x: nat, carryFlag: bool, rightLimb: Limb, rule: CarryRule,
                   ghost a: seq<Limb>, ghost b: seq<Limb>)
    returns (next: seq<Limb>, carry: bool)
    requires x < |a| == |d| && |a| <= |b| && rightLimb == b[x]
    requires (d[..x], carryFlag) == AddPrefix(a, b, x, rule) && d[x..] == a[x..]
    ensures |next| == |d|
    ensures (next[..x + 1], carry) == AddPrefix(a, b, x + 1, rule) && next[x + 1..] == a[x + 1..]
  {
    var leftNu := d[x];
    assert leftNu == a[x] by { assert d[x..][0] == a[x..][0]; }
    next := d[x := WrappingAdd(leftNu, rightLimb)];
    if carryFlag {
      next := next[x := WrappingAdd(next[x], 1)];
    }
    if rule == AsWritten {
      if next[x] >= leftNu && next[x] >= rightLimb {
        carry := false;
      } else {
        carry := true;
      }
    } else {
      carry := leftNu + rightLimb + (if carryFlag then 1 else 0) >= BASE;
    }
    assert next[..x + 1] == d[..x] + [next[x]];
  }

  /** The carry test as written agrees with the exact carry except when a carry comes into two all-ones limbs. */
  lemma CarryAsWritten(l: Limb, r: Limb, c: bool)
    ensures LimbAdd(l, r, c, AsWritten).0 == LimbAdd(l, r, c, Intended).0
    ensures LimbAdd(l, r, c, AsWritten).1 != LimbAdd(l, r, c, Intended).1 <==> c && l == BASE - 1 && r == BASE - 1
  {
  }

  /**
   * Whether the rule loses the carry coming into limb `i`: as written, a
   * carry into two all-ones limbs leaves an all-ones limb and no carry out.
   */
  ghost predicate LosesCarryAt(a: seq<Limb>, b: seq<Limb>, i: nat, rule: CarryRule)
    requires i < |a| && i < |b|
  {
    rule == AsWritten && AddPrefix(a, b, i, rule).1 && a[i] == BASE - 1 && b[i] == BASE - 1
  }

  /** The carries the rule loses in the first `n` limbs, each at the weight of the limb above the one it came into. */
  ghost function Lost(a: seq<Limb>, b: seq<Limb>, n: nat, rule: CarryRule): nat
    requires n <= |a| && n <= |b|
  {
    if n == 0 || rule == Intended then 0
    else Lost(a, b, n - 1, rule) + (if LosesCarryAt(a, b, n - 1, rule) then Weight(n) else 0)
  }

  /** The limbs so far plus the carry out stand for the sum of the prefixes, less the carries the rule lost. */
  lemma {:induction false} AddPrefixValue(a: seq<Limb>, b: seq<Limb>, n: nat, rule: CarryRule)
    requires n <= |a| && n <= |b|
    ensures |AddPrefix(a, b, n, rule).0| == n
    ensures ValueOf(AddPrefix(a, b, n, rule).0) + (if AddPrefix(a, b, n, rule).1 then Weight(n) else 0) + Lost(a, b, n, rule)
            == ValueOf(a[..n]) + ValueOf(b[..n])
    decreases n
  {
    if n > 0 {
      AddPrefixValue(a, b, n - 1, rule);
      AddPrefixValueStep(a, b, n, rule);
    }
  }

  /** The inductive step of `AddPrefixValue`. */
  lemma AddPrefixValueStep(a: seq<Limb>, b: seq<Limb>, n: nat, rule: CarryRule)
    requires 0 < n <= |a| && n <= |b|
    requires |AddPrefix(a, b, n - 1, rule).0| == n - 1
    requires ValueOf(AddPrefix(a, b, n - 1, rule).0) + (if AddPrefix(a, b, n - 1, rule).1 then Weight(n - 1) else 0)
             + Lost(a, b, n - 1, rule) == ValueOf(a[..n - 1]) + ValueOf(b[..n - 1])
    ensures |AddPrefix(a, b, n, rule).0| == n
    ensures ValueOf(AddPrefix(a, b, n, rule).0) + (if AddPrefix(a, b, n, rule).1 then Weight(n) else 0) + Lost(a, b, n, rule)
            == ValueOf(a[..n]) + ValueOf(b[..n])
  {
    var prev, cur := AddPrefix(a, b, n - 1, rule), AddPrefix(a, b, n, rule);
    var step := LimbAdd(a[n - 1], b[n - 1], prev.1, rule);
    assert cur == (prev.0 + [step.0], step.1);
    var w: int, wn: int := Weight(n - 1), Weight(n);
    WeightNext(n - 1);
    var lw: int := if LosesCarryAt(a, b, n - 1, rule) then wn else 0;
    var cw: int, cw': int := (if prev.1 then w else 0), (if cur.1 then wn else 0);
    var lost: int, lost': int := Lost(a, b, n - 1, rule), Lost(a, b, n, rule);
    assert lost' == lost + lw;
    var sw: int, aw: int, bw: int := step.0 * w, a[n - 1] * w, b[n - 1] * w;
    LimbAddValue(a[n - 1], b[n - 1], prev.1, rule, w);
    assert sw + cw' + lw == aw + bw + cw;
    ValueOfPush(prev.0, step.0);
    PrefixPush(a, n);
    PrefixPush(b, n);
    var vds: int, va: int, vb: int := ValueOf(prev.0), ValueOf(a[..n - 1]), ValueOf(b[..n - 1]);
    AddStep(vds, sw, cw, cw', lost, lw, va, aw, vb, bw);
  }

  /** One limb more of a prefix, at its weight. */
  lemma PrefixPush(a: seq<Limb>, n: nat)
    requires 0 < n <= |a|
    ensures ValueOf(a[..n]) == ValueOf(a[..n - 1]) + a[n - 1] * Weight(n - 1)
  {
    assert a[..n] == a[..n - 1] + [a[n - 1]];
    ValueOfPush(a[..n - 1], a[n - 1]);
  }

  /** The linear step of `AddPrefixValue`, with every product named. */
  lemma AddStep(vds: int, sw: int, cw: int, cw': int, lost: int, lw: int, va: int, aw: int, vb: int, bw: int)
    requires vds + cw + lost == va + vb
    requires sw + cw' + lw == aw + bw + cw
    ensures (vds + sw) + cw' + (lost + lw) == (va + aw) + (vb + bw)
  {
  }

  /**
   * One limb addition, weighted: the wrapped sum plus the carry out at the
   * next weight is the exact sum, less a carry the rule lost.
   */
  lemma LimbAddValue(l: Limb, r: Limb, c: bool, rule: CarryRule, w: nat)
    ensures LimbAdd(l, r, c, rule).0 * w + (if LimbAdd(l, r, c, rule).1 then w * BASE else 0)
            + (if rule == AsWritten && c && l == BASE - 1 && r == BASE - 1 then w * BASE else 0)
            == l * w + r * w + (if c then w else 0)
  {
    CarryAsWritten(l, r, c);
    var s := LimbAdd(l, r, c, Intended).0;
    var c' := LimbAdd(l, r, c, Intended).1;
    var ci := if c then 1 else 0;
    var co := if c' then 1 else 0;
    assert s + co * BASE == l + r + ci;
    assert (s + co * BASE) * w == (l + r + ci) * w;
    assert (if c' then w * BASE else 0) == co * BASE * w;
  }

  /**
   * The sum under the rule stands for the sum of the values less the carries
   * it lost, and has one limb more exactly when it reaches their weight.
   */
  lemma AddLimbsLoss(a: seq<Limb>, b: seq<Limb>, rule: CarryRule)
    requires |a| == |b|
    ensures ValueOf(AddLimbs(a, b, rule)) + Lost(a, b, |a|, rule) == ValueOf(a) + ValueOf(b)
    ensures |AddLimbs(a, b, rule)| == |a| + (if ValueOf(AddLimbs(a, b, rule)) >= Weight(|a|) then 1 else 0)
  {
    AddPrefixValue(a, b, |a|, rule);
    var (ds, c) := AddPrefix(a, b, |a|, rule);
    assert a[..|a|] == a && b[..|b|] == b;
    ValueOfBound(ds);
    if c {
      ValueOfPush(ds, 1);
    }
  }

  /** The addition with the exact carry is the sum of the values. */
  lemma AddLimbsValue(a: seq<Limb>, b: seq<Limb>)
    requires |a| == |b|
    ensures ValueOf(AddLimbs(a, b, Intended)) == ValueOf(a) + ValueOf(b)
  {
    AddLimbsLoss(a, b, Intended);
  }

  /** The sum as written is the exact one exactly when it loses no carry. */
  lemma AsWrittenExactIff(a: seq<Limb>, b: seq<Limb>)
    requires |a| == |b|
    ensures AddLimbs(a, b, AsWritten) == AddLimbs(a, b, Intended) <==> Lost(a, b, |a|, AsWritten) == 0
  {
    AddLimbsLoss(a, b, AsWritten);
    AddLimbsLoss(a, b, Intended);
    if Lost(a, b, |a|, AsWritten) == 0 {
      ValueOfInjective(AddLimbs(a, b, AsWritten), AddLimbs(a, b, Intended));
    }
  }

  /** An addend with no all-ones limb above its lowest loses no carry: none comes into its lowest limb. */
  lemma {:induction false} NoLossAboveLowLimb(a: seq<Limb>, b: seq<Limb>, n: nat, rule: CarryRule)
    requires n <= |a| && n <= |b|
    requires forall i :: 1 <= i < n ==> b[i] != BASE - 1
    ensures Lost(a, b, n, rule) == 0
    decreases n
  {
    if n > 0 && rule == AsWritten {
      NoLossAboveLowLimb(a, b, n - 1, rule);
      assert AddPrefix(a, b, 0, rule).1 == false;
    }
  }

  /** The `n` limbs of `v` in two's complement: `v` modulo 2^(64 n), limb by limb. */
  function LimbsOf(v: int, n: nat): (ds: seq<Limb>)
    ensures |ds| == n
    decreases n
  {
    if n == 0 then [] else [v % BASE] + LimbsOf(v / BASE, n - 1)
  }

  /** A vector is the limbs of its own value. */
  lemma {:induction false} LimbsOfValue(ds: seq<Limb>)
    ensures LimbsOf(ValueOf(ds), |ds|) == ds
    decreases |ds|
  {
    if ds != [] {
      var rest := ds[1..];
      assert ds == [ds[0]] + rest;
      ValueOfCons(ds[0], rest);
      DivModUnique(ValueOf(ds), BASE, ValueOf(rest), ds[0]);
      LimbsOfValue(rest);
    }
  }

  /** The limbs of a number below one limb are zero above the lowest. */
  lemma {:induction false} LimbsOfSmall(v: int, n: nat)
    requires 0 <= v < BASE
    ensures forall i :: 1 <= i < n ==> LimbsOf(v, n)[i] == 0
    decreases n
  {
    if n > 1 {
      DivModUnique(v, BASE, 0, v);
      LimbsOfSmall(0, n - 1);
    }
  }

  /** The carry as written loses the carry out of the top limb of 2^128 - 1 plus 2^128 - 2^64 + 1. */
  lemma AddAsWrittenLosesCarry()
    ensures var a, b := [BASE - 1, BASE - 1], [1, BASE - 1];
            AddLimbs(a, b, AsWritten) == [0, BASE - 1]
            && AddLimbs(a, b, Intended) == [0, BASE - 1, 1]
            && ValueOf(AddLimbs(a, b, AsWritten)) != ValueOf(a) + ValueOf(b)
  {
    var a: seq<Limb>, b: seq<Limb> := [BASE - 1, BASE - 1], [1, BASE - 1];
    var w1, i1 := AddPrefix(a, b, 1, AsWritten), AddPrefix(a, b, 1, Intended);
    var w2, i2 := AddPrefix(a, b, 2, AsWritten), AddPrefix(a, b, 2, Intended);
    var lw1, li1 := LimbAdd(a[0], b[0], false, AsWritten), LimbAdd(a[0], b[0], false, Intended);
    assert lw1 == (0, true) && li1 == (0, true);
    assert AddPrefix(a, b, 0, AsWritten) == ([], false) && AddPrefix(a, b, 0, Intended) == ([], false);
    assert w1.0 == [] + [lw1.0] && w1.1 == lw1.1 && i1.0 == [] + [li1.0] && i1.1 == li1.1;
    var lw2, li2 := LimbAdd(a[1], b[1], true, AsWritten), LimbAdd(a[1], b[1], true, Intended);
    assert lw2 == (BASE - 1, false) && li2 == (BASE - 1, true);
    assert w2.0 == w1.0 + [lw2.0] && w2.1 == lw2.1 && i2.0 == i1.0 + [li2.0] && i2.1 == li2.1;
    assert AddLimbs(a, b, AsWritten) == [0, BASE - 1];
    assert AddLimbs(a, b, Intended) == [0, BASE - 1, 1];
    AddLimbsValue(a, b);
    assert AddLimbs(a, b, Intended) != AddLimbs(a, b, AsWritten);
    assert |AddLimbs(a, b, Intended)| == 3;
    ShorterValueDiffers(AddLimbs(a, b, AsWritten), AddLimbs(a, b, Intended));
  }

  /** A vector without a top zero limb stands for at least its top weight; a shorter one for less. */
  lemma ShorterValueDiffers(a: seq<Limb>, b: seq<Limb>)
    requires |a| < |b| && b[|b| - 1] != 0
    ensures ValueOf(a) != ValueOf(b)
  {
    ValueOfBound(a);
    ValueOfTop(b);
    Pow2Monotone(BITS * |a|, BITS * (|b| - 1));
    MulLe(1, b[|b| - 1], Weight(|b| - 1));
  }

  // ---------------------------------------------------------------------
  // `_truncate`
  // ---------------------------------------------------------------------

  /** Why truncation stops. */
  datatype TruncateError = ToZeroBits | WiderThanLiteral

  /**
   * One plane of `_truncate`: the limbs above the new width are removed one
   * at a time from the top, then the bits of the new top limb above the
   * width are cleared from the highest down.
   */
  method TruncateLimbs(ds: seq<Limb>, size: nat) returns (r: seq<Limb>)
    requires size >= 1 && |ds| >= LimbsFor(size)
    ensures |r| == LimbsFor(size)
    ensures ValueOf(r) == ValueOf(ds) % Pow2(size)
  {
    var elmntsToBeRm, bitsToBeRm := TruncateCounts(|ds|, size);
    var m := LimbsFor(size);
    LimbsForBounds(size);
    r := ds;
    for k := 0 to elmntsToBeRm
      invariant r == ds[..|ds| - k]
    {
      var lastIndex := |r| - 1;
      r := r[..lastIndex];
    }
    var keep := size - BITS * (m - 1);
    var lastIndex := |r| - 1;
    var top := r[lastIndex];
    if bitsToBeRm != 0 {
      var cleared := ClearHighBits(top, keep);
      r := r[lastIndex := cleared];
    } else {
      Pow2Word();
      ModOfSmall(top, Pow2(keep));
    }
    assert r == ds[..lastIndex] + [LowBits(top, keep)];
    TruncatedValue(ds, m, keep);
  }

  /** How many whole limbs `truncate` drops from `n` limbs, and how many bits of the new top limb it clears. */
  method TruncateCounts(n: nat, size: nat) returns (elmntsToBeRm: nat, bitsToBeRm: nat)
    requires size >= 1 && n >= LimbsFor(size)
    ensures elmntsToBeRm == n - LimbsFor(size)
    ensures bitsToBeRm == BITS - (size - BITS * (LimbsFor(size) - 1))
  {
    LimbsForBounds(size);
    if size % BITS == 0 {
      elmntsToBeRm := n - size / BITS;
      bitsToBeRm := 0;
    } else {
      elmntsToBeRm := n - size / BITS - 1;
      bitsToBeRm := BITS - size % BITS;
    }
  }

  /** The bits of a limb from bit 63 down to bit `keep` are cleared one at a time, each when it is the top set bit. */
  method ClearHighBits(t: Limb, keep: nat) returns (u: Limb)
    requires 1 <= keep <= BITS
    ensures u == LowBits(t, keep)
  {
    var pk := Pow2(keep);
    u := t;
    var x := BITS;
    Pow2Word();
    while x > keep
      invariant keep <= x <= BITS
      invariant u < Pow2(x)
      invariant u % pk == t % pk
    {
      LeadingZerosMeaning(u, x);
      ClearStep(u, t, keep, x);
      if LeadingZeros(u) == BITS - x {
        u := u - Pow2(x - 1);
      }
      x := x - 1;
    }
    ModOfSmall(u, pk);
  }

  /** Clearing bit `x - 1` when it is the top set bit leaves the bits below `x - 1`, and the low `keep` bits. */
  lemma ClearStep(u: Limb, t: Limb, keep: nat, x: nat)
    requires keep < x <= BITS && u < Pow2(x) && u % Pow2(keep) == t % Pow2(keep)
    ensures var u' := if Pow2(x - 1) <= u then u - Pow2(x - 1) else u;
            u' < Pow2(x - 1) && u' % Pow2(keep) == t % Pow2(keep)
  {
    if Pow2(x - 1) <= u {
      var pk, big := Pow2(keep), Pow2(x - 1);
      var q := Pow2(x - 1 - keep);
      Pow2Divides(keep, x - 1);
      assert Pow2(x) == 2 * big;
      SubMultipleMod(u, t, q, pk, big);
    }
  }

  /** The low `k` bits of a limb. */
  function LowBits(t: Limb, k: nat): (r: Limb)
    ensures r == t % Pow2(k)
  {
    ModBelow(t, Pow2(k));
    t % Pow2(k)
  }

  lemma ModBelow(v: nat, d: nat)
    requires d > 0
    ensures v % d <= v
  {
    if v < d {
      ModOfSmall(v, d);
    } else {
      assert v == (v / d) * d + v % d;
      MulLe(1, v / d, d);
    }
  }

  lemma SubMultipleMod(u: nat, t: nat, q: nat, pk: nat, big: nat)
    requires pk > 0 && pk * q == big && big <= u && u % pk == t % pk
    ensures (u - big) % pk == t % pk
  {
    assert q * pk == pk * q;
    ModSubMultiple(u, q, pk);
  }

  lemma ModOfSmall(v: nat, d: nat)
    requires v < d
    ensures v % d == v
  {
    DivModUnique(v, d, 0, v);
  }

  /** Taking away a multiple of `d` keeps the remainder. */
  lemma ModSubMultiple(v: nat, q: nat, d: nat)
    requires d > 0 && q * d <= v
    ensures (v - q * d) % d == v % d
  {
    DivModUnique(v - q * d, d, v / d - q, v % d);
  }

  /**
   * Keeping the limbs below limb `m - 1` and the low `keep` bits of limb
   * `m - 1` leaves the value modulo 2^(64 (m - 1) + keep).
   */
  lemma TruncatedValue(ds: seq<Limb>, m: nat, keep: nat)
    requires 1 <= m <= |ds| && 1 <= keep <= BITS
    ensures ValueOf(ds[..m - 1] + [LowBits(ds[m - 1], keep)]) == ValueOf(ds) % Pow2(BITS * (m - 1) + keep)
  {
    var t := ds[m - 1];
    var pk := Pow2(keep);
    var w := Weight(m - 1);
    var P := Pow2(BITS * (m - 1) + keep);
    var v, low := ValueOf(ds), ValueOf(ds[..m - 1]);
    var R := Pow2(BITS - keep) * ValueOf(ds[m..]);
    var t' := LowBits(t, keep);
    var tw: int, t'w: int, PR: int := t * w, t' * w, P * R;
    assert v == low + tw + PR && P == w * pk by { ValueOfCut(ds, m, keep); }
    assert ValueOf(ds[..m - 1] + [t']) == low + t'w by { ValueOfPush(ds[..m - 1], t'); }
    assert low < w by { ValueOfBound(ds[..m - 1]); }
    TruncMod(v, low, t, w, pk, R, tw, t'w, PR, P);
  }

  /** A vector read as the limbs below `m - 1`, limb `m - 1` and what lies `keep` bits into limb `m - 1` and above. */
  lemma ValueOfCut(ds: seq<Limb>, m: nat, keep: nat)
    requires 1 <= m <= |ds| && keep <= BITS
    ensures ValueOf(ds) == ValueOf(ds[..m - 1]) + ds[m - 1] * Weight(m - 1)
                           + Pow2(BITS * (m - 1) + keep) * (Pow2(BITS - keep) * ValueOf(ds[m..]))
    ensures Pow2(BITS * (m - 1) + keep) == Weight(m - 1) * Pow2(keep)
  {
    var w, wb, pk, pr, rest := Weight(m - 1), Weight(m), Pow2(keep), Pow2(BITS - keep), ValueOf(ds[m..]);
    var P := Pow2(BITS * (m - 1) + keep);
    assert wb == w * (pk * pr) && P == w * pk by { TopWeights(m, keep); }
    Regroup(w, pk, pr, rest, wb, P);
    ValueOfSplit(ds, m);
  }

  lemma Regroup(w: int, pk: int, pr: int, rest: int, wb: int, P: int)
    requires wb == w * (pk * pr) && P == w * pk
    ensures wb * rest == P * (pr * rest)
  {
  }

  /** A vector read as the limbs below `m - 1`, limb `m - 1` and the limbs above. */
  lemma ValueOfSplit(ds: seq<Limb>, m: nat)
    requires 1 <= m <= |ds|
    ensures ValueOf(ds) == ValueOf(ds[..m - 1]) + ds[m - 1] * Weight(m - 1) + Weight(m) * ValueOf(ds[m..])
  {
    var top := ds[..m];
    assert ds == top + ds[m..];
    ValueOfConcat(top, ds[m..]);
    assert top[..m - 1] == ds[..m - 1];
    assert top[m - 1] == ds[m - 1];
  }

  /** The weights around a cut `keep` bits into limb `m - 1`. */
  lemma TopWeights(m: nat, keep: nat)
    requires 1 <= m && keep <= BITS
    ensures Weight(m) == Weight(m - 1) * (Pow2(keep) * Pow2(BITS - keep))
    ensures Pow2(BITS * (m - 1) + keep) == Weight(m - 1) * Pow2(keep)
  {
    WeightNext(m - 1);
    Pow2Word();
    Pow2Add(keep, BITS - keep);
    Pow2Add(BITS * (m - 1), keep);
  }

  /** Arithmetic behind `TruncatedValue`: a top limb cut to its low bits, in a weighted sum. */
  lemma TruncMod(v: nat, low: nat, t: nat, w: nat, pk: nat, R: nat, tw: int, t'w: int, PR: int, P: int)
    requires low < w && pk >= 1 && tw == t * w && t'w == (t % pk) * w && P == w * pk && PR == P * R
    requires v == low + tw + PR
    ensures v % P == low + t'w
  {
    var h, t' := t / pk, t % pk;
    MulLe(t', pk - 1, w);
    assert t * w == h * pk * w + t' * w;
    assert v == P * (h + R) + (low + t'w);
    DivModUnique(v, P, h + R, low + t'w);
  }

  /**
   * `_truncate(size)`: the literal cut down to its low `size` bits; the sign
   * is kept. Zero bits and a wider width stop with an error, as the code
   * panics on them.
   */
  method Truncate(p: SvPrimaryLiteralIntegral, size: nat) returns (r: Result<SvPrimaryLiteralIntegral, TruncateError>)
    requires |p.data01| >= LimbsFor(size) && (p.dataXz.Some? ==> |p.dataXz.value| >= LimbsFor(size))
    ensures size == 0 <==> r == Err(ToZeroBits)
    ensures size > p.size >= 0 && size != 0 <==> r == Err(WiderThanLiteral)
    ensures r.Ok? <==> 1 <= size <= p.size
    ensures r.Ok? ==> r.value.size == size && r.value.signed == p.signed
                      && |r.value.data01| == LimbsFor(size)
                      && ValueOf(r.value.data01) == ValueOf(p.data01) % Pow2(size)
                      && r.value.dataXz.Some? == p.dataXz.Some?
                      && (p.dataXz.Some? ==>
                            |r.value.dataXz.value| == LimbsFor(size)
                            && ValueOf(r.value.dataXz.value) == ValueOf(p.dataXz.value) % Pow2(size))
  {
    if size == 0 {
      return Err(ToZeroBits);
    } else if p.size >= size {
      var d := TruncateLimbs(p.data01, size);
      var ret := p.(data01 := d);
      if Is4State(ret) {
        var xz := TruncateLimbs(p.dataXz.value, size);
        ret := ret.(dataXz := Some(xz));
      }
      return Ok(ret.(size := size));
    } else {
      return Err(WiderThanLiteral);
    }
  }

  /** Truncating within the limbs a width needs leaves a well-formed literal with the low bits. */
  lemma TruncateIsWellFormed(p: SvPrimaryLiteralIntegral, r: SvPrimaryLiteralIntegral, size: nat)
    requires size >= 1
    requires r.size == size && |r.data01| == LimbsFor(size) && ValueOf(r.data01) == ValueOf(p.data01) % Pow2(size)
    requires r.dataXz.Some? ==> p.dataXz.Some? && |r.dataXz.value| == LimbsFor(size)
                                && ValueOf(r.dataXz.value) == ValueOf(p.dataXz.value) % Pow2(size)
    ensures WF(r)
  {
  }
}
