/**
 * The narrowest width of a literal (`_minimum_width`), the conversion of a
 * machine word (`usize_to_primlit`), two's complement negation (`negate`)
 * and the operators built on them (`+ usize`, unary `-`).
 *
 * `_minimum_width` keeps the value: an unsigned literal gets its bit length,
 * a signed one the narrowest two's complement width of its number. As
 * written, the surplus X/Z limbs are removed at the index of the top 0/1
 * limb rather than at the top of the X/Z plane, so the top X/Z limb takes
 * the place of one the 0/1 plane keeps (`TrimXzLosesX`); the rule `AtXzTop`
 * removes them from the top.
 */
module PrimlitWidth {
  import opened Wrappers
  import opened Limbs
  import opened PrimlitCore
  import opened PrimlitShift
  import opened PrimlitCompare
  import opened PrimlitAdd

  // ---------------------------------------------------------------------
  // Widths.
  // ---------------------------------------------------------------------

  /** The width `_minimum_width` gives an unsigned value: its bit length, and one bit for zero. */
  function UnsignedWidth(v: nat): nat {
    if v == 0 then 1 else BitLength(v)
  }

  /** `x` is a number of `s` bits of two's complement. */
  ghost predicate FitsSigned(x: int, s: nat) {
    s >= 1 && -(Pow2(s - 1) as int) <= x < Pow2(s - 1)
  }

  /** The narrowest two's complement width of `x`. */
  ghost function SignedWidth(x: int): nat {
    if x >= 0 then BitLength(x) + 1 else BitLength(-x - 1) + 1
  }

  /** An unsigned value fits its width, and no narrower width. */
  lemma UnsignedWidthNarrowest(v: nat, s: nat)
    ensures UnsignedWidth(v) >= 1 && v < Pow2(UnsignedWidth(v))
    ensures s >= 1 && v < Pow2(s) ==> UnsignedWidth(v) <= s
  {
    BitLengthBounds(v);
    if v != 0 && v < Pow2(s) {
      BitLengthAtMost(v, s);
    }
  }

  /** A number fits its signed width, and no narrower width. */
  lemma SignedWidthNarrowest(x: int, s: nat)
    ensures FitsSigned(x, SignedWidth(x))
    ensures FitsSigned(x, s) ==> SignedWidth(x) <= s
  {
    var y: nat := if x >= 0 then x else -x - 1;
    BitLengthBounds(y);
    if FitsSigned(x, s) {
      BitLengthAtMost(y, s - 1);
    }
  }

  // ---------------------------------------------------------------------
  // Limb facts.
  // ---------------------------------------------------------------------

  /** A width strictly above `m - 1` limbs and within `m` needs `m` limbs. */
  lemma LimbsForIn(n: nat, m: nat)
    requires m >= 1 && BITS * (m - 1) < n <= BITS * m
    ensures LimbsFor(n) == m
  {
    DivModUnique(n + BITS - 1, BITS, m, n + BITS - 1 - BITS * m);
  }

  /** A low part below `w` plus `t` times `w` is compared with `c` times `w` as `t` is with `c`. */
  lemma ScaledCompare(low: int, t: int, c: int, w: int)
    requires 0 <= low < w
    ensures low + t * w >= c * w <==> t >= c
  {
    if t >= c {
      MulLe(c, t, w);
    } else {
      MulLe(t + 1, c, w);
    }
  }

  /** Limbs from `m` on in a vector below the weight of limb `m` are zero, and dropping them keeps the value. */
  lemma HighLimbsZero(ds: seq<Limb>, m: nat)
    requires m <= |ds| && ValueOf(ds) < Weight(m)
    ensures ValueOf(ds[..m]) == ValueOf(ds)
  {
    assert ds == ds[..m] + ds[m..];
    ValueOfConcat(ds[..m], ds[m..]);
    NoHighPart(ValueOf(ds[..m]), ValueOf(ds[m..]), Weight(m));
  }

  /** The low `m` limbs keep every bit below limb `m`. */
  lemma PrefixBits(ds: seq<Limb>, m: nat, i: nat)
    requires m <= |ds| && i < BITS * m
    ensures Bit(ValueOf(ds[..m]), i) == Bit(ValueOf(ds), i)
  {
    assert ds == ds[..m] + ds[m..];
    ValueOfConcat(ds[..m], ds[m..]);
    ValueOfBound(ds[..m]);
    BitOfScaled(ValueOf(ds[..m]), ValueOf(ds[m..]), m, i);
  }

  /** A number below `w` with a multiple of `w` added has no multiple of `w` in it unless that multiple is zero. */
  lemma NoHighPart(low: nat, high: nat, w: nat)
    requires low + w * high < w
    ensures high == 0
  {
    if high >= 1 {
      MulLe(1, high, w);
    }
  }

  /** The bits of a low part and a high part at the weight of limb `m`. */
  lemma BitOfScaled(a: nat, c: nat, m: nat, i: nat)
    requires a < Weight(m)
    ensures Bit(a + Weight(m) * c, i) == if i < BITS * m then Bit(a, i) else Bit(c, i - BITS * m)
  {
    assert Weight(m) * c == c * Pow2(BITS * m);
    BitOfSum(a, c, BITS * m, i);
  }

  /** Multiplication distributes over a sum and a difference. */
  lemma DistributeBoth(a: int, b: int, w: int)
    ensures (a + b) * w == a * w + b * w && (a - b) * w == a * w - b * w
  {
  }

  /** A low part below `w` plus `t` times `w`, for `t` in [a, b), lies in [a w, b w). */
  lemma ScaledRange(low: int, t: int, w: int, a: int, b: int)
    requires 0 <= low < w && a <= t < b
    ensures a * w <= low + t * w < b * w
  {
    ScaledCompare(low, t, a, w);
    ScaledCompare(low, t, b, w);
  }

  /** The width `_minimum_width` reads off a vector whose top limb is not zero is its bit length. */
  lemma TopLimbWidth(ds: seq<Limb>)
    requires |ds| >= 1 && ds[|ds| - 1] != 0
    ensures BITS - LeadingZeros(ds[|ds| - 1]) + (|ds| - 1) * BITS == BitLength(ValueOf(ds))
    ensures BITS * (|ds| - 1) < BitLength(ValueOf(ds)) <= BITS * |ds|
  {
    var n := |ds| - 1;
    var t := ds[n];
    var k := BitLength(t);
    BitLengthBounds(t);
    Pow2Word();
    BitLengthAtMost(t, BITS);
    ValueOfTop(ds);
    var v, low, w := ValueOf(ds), ValueOf(ds[..n]), Weight(n);
    assert v == low + t * w;
    ScaledRange(low, t, w, Pow2(k - 1), Pow2(k));
    Pow2Add(BITS * n, k - 1);
    Pow2Add(BITS * n, k);
    var e := BITS * n + k;
    assert Pow2(e - 1) == w * Pow2(k - 1) && Pow2(e) == w * Pow2(k);
    BitLengthOf(v, e);
  }

  // ---------------------------------------------------------------------
  // The loops of `_minimum_width`.
  // ---------------------------------------------------------------------

  /** `n` times `remove(last_index)`: the top `n` limbs dropped. */
  method DropTopLimbs(ds: seq<Limb>, n: nat) returns (r: seq<Limb>)
    requires n <= |ds|
    ensures r == ds[..|ds| - n]
  {
    r := ds;
    for k := 0 to n
      invariant r == ds[..|ds| - k]
    {
      var lastIndex := |r| - 1;
      r := r[..lastIndex];
    }
  }

  /** The loop that, once per limb, removes the top limb when it is zero. */
  method TrimZeroLimbs(ds: seq<Limb>) returns (r: seq<Limb>)
    requires |ds| >= 1
    ensures |r| <= |ds| && r == ds[..|r|] && ValueOf(r) == ValueOf(ds)
    ensures |r| >= 1 <==> ValueOf(ds) != 0
    ensures |r| >= 1 ==> r[|r| - 1] != 0
  {
    r := ds;
    for k := 0 to |ds|
      invariant |ds| - k <= |r| <= |ds| && r == ds[..|r|] && ValueOf(r) == ValueOf(ds)
      invariant |r| > |ds| - k ==> r[|r| - 1] != 0
    {
      var lastIndex := |r| - 1;
      if r[lastIndex] == 0 {
        ValueOfTop(r);
        r := r[..lastIndex];
      }
    }
    if |r| >= 1 {
      ValueOfTop(r);
      MulLe(1, r[|r| - 1], Weight(|r| - 1));
    }
  }

  /** A plane of width `size` whose top bit is set: a negative number. */
  ghost predicate NegativePlane(v: nat, size: nat) {
    size >= 1 && Pow2(size - 1) <= v < Pow2(size)
  }

  /** The top bit of a negative plane is redundant: the bit below it is set too. */
  ghost predicate RedundantSign(v: nat, size: nat) {
    size >= 2 && v >= Pow2(size - 1) + Pow2(size - 2)
  }

  /** Bit `e` of a vector, for `e` bit `k` of limb `x`, weighs 2^k times the weight of limb `x`. */
  lemma WeightSplit(e: nat, x: nat, k: nat)
    requires e == BITS * x + k
    ensures Pow2(e) == Pow2(k) * Weight(x)
  {
    Pow2Add(BITS * x, k);
  }

  /** A vector below the weight of limb `x + 1` read as the limbs below `x` and limb `x`. */
  lemma LimbView(ds: seq<Limb>, x: nat)
    requires x < |ds| && ValueOf(ds) < Weight(x + 1)
    ensures ValueOf(ds) == ValueOf(ds[..x]) + ds[x] * Weight(x) && ValueOf(ds[..x]) < Weight(x)
  {
    HighLimbsZero(ds, x + 1);
    var top := ds[..x + 1];
    assert top[..x] == ds[..x] && top[x] == ds[x];
    ValueOfTop(top);
  }

  /**
   * The top set bit of a negative plane is in limb `x`: that limb lies in
   * [2^k, 2^(k+1)) for `k` the top bit's place in it.
   */
  lemma ShedBounds(ds: seq<Limb>, size: nat, x: nat)
    requires x < |ds| && NegativePlane(ValueOf(ds), size) && BITS * x < size <= BITS * (x + 1)
    ensures Pow2(size - 1 - BITS * x) <= ds[x] < Pow2(size - BITS * x)
  {
    var k := size - 1 - BITS * x;
    Pow2Monotone(size, BITS * (x + 1));
    LimbView(ds, x);
    var low, w := ValueOf(ds[..x]), Weight(x);
    WeightSplit(size - 1, x, k);
    WeightSplit(size, x, k + 1);
    ScaledCompare(low, ds[x], Pow2(k), w);
    ScaledCompare(low, ds[x], Pow2(k + 1), w);
  }

  /** Clearing a redundant top bit in limb `x` leaves the same number as a negative plane one bit narrower. */
  lemma ShedUpdate(ds: seq<Limb>, size: nat, x: nat, t': Limb)
    requires x < |ds| && NegativePlane(ValueOf(ds), size) && BITS * x < size <= BITS * (x + 1)
    requires RedundantSign(ValueOf(ds), size) && t' == ds[x] - Pow2(size - 1 - BITS * x)
    ensures NegativePlane(ValueOf(ds[x := t']), size - 1)
    ensures ValueOf(ds[x := t']) - Pow2(size - 1) == ValueOf(ds) - Pow2(size)
  {
    var k := size - 1 - BITS * x;
    var w := Weight(x);
    WeightSplit(size - 1, x, k);
    ValueOfUpdate(ds, x, t');
    DistributeBoth(ds[x], Pow2(k), w);
    assert ValueOf(ds[x := t']) == ValueOf(ds) - Pow2(size - 1);
    ShedKeepsNumber(ValueOf(ds), size);
  }

  /** Within limb `x`, the bit below the top bit is the next bit of the limb. */
  lemma ShedWithinLimb(ds: seq<Limb>, size: nat, x: nat)
    requires x < |ds| && NegativePlane(ValueOf(ds), size) && BITS * x + 1 < size <= BITS * (x + 1)
    ensures var k := size - 1 - BITS * x;
      RedundantSign(ValueOf(ds), size) <==> ds[x] >= Pow2(k) + Pow2(k - 1)
  {
    var k := size - 1 - BITS * x;
    Pow2Monotone(size, BITS * (x + 1));
    LimbView(ds, x);
    var low, w := ValueOf(ds[..x]), Weight(x);
    WeightSplit(size - 1, x, k);
    WeightSplit(size - 2, x, k - 1);
    DistributeBoth(Pow2(k), Pow2(k - 1), w);
    ScaledCompare(low, ds[x], Pow2(k) + Pow2(k - 1), w);
  }

  /** When the top bit is bit 0 of limb `x`, the bit below it is the top bit of limb `x - 1`. */
  lemma ShedAcrossLimbs(ds: seq<Limb>, size: nat, x: nat)
    requires 1 <= x < |ds| && NegativePlane(ValueOf(ds), size) && size == BITS * x + 1
    ensures RedundantSign(ValueOf(ds), size) <==> ds[x - 1] >= BASE / 2
  {
    Pow2Monotone(size, BITS * (x + 1));
    LimbView(ds, x);
    var low, w := ValueOf(ds[..x]), Weight(x);
    WeightSplit(size - 1, x, 0);
    WeightSplit(size, x, 1);
    ScaledCompare(low, ds[x], 1, w);
    ScaledCompare(low, ds[x], 2, w);
    assert ds[x] == 1;
    var below := ds[..x];
    assert below[..x - 1] == ds[..x - 1] && below[x - 1] == ds[x - 1];
    ValueOfTop(below);
    Pow2Word();
    WeightSplit(size - 2, x - 1, BITS - 1);
    assert low == ValueOf(ds[..x - 1]) + ds[x - 1] * Weight(x - 1);
    ScaledCompare(ValueOf(ds[..x - 1]), ds[x - 1], BASE / 2, Weight(x - 1));
  }

  /** Clearing a redundant top bit keeps the number a negative plane of one bit less. */
  lemma ShedKeepsNumber(v: nat, size: nat)
    requires NegativePlane(v, size) && RedundantSign(v, size)
    ensures NegativePlane(v - Pow2(size - 1), size - 1)
    ensures v - Pow2(size - 1) - Pow2(size - 1) == v - Pow2(size)
  {
    assert Pow2(size) == 2 * Pow2(size - 1);
    assert Pow2(size - 1) == 2 * Pow2(size - 2);
  }

  /**
   * One pass of the inner loop of the negative branch: the top bit of limb
   * `x` is cleared when the bit below it is set as well; otherwise, or at
   * bit 0 of the literal, the narrowest width is found.
   */
  method ShedStep(ds: seq<Limb>, size: nat, x: nat) returns (found: bool, toNext: bool, ds': seq<Limb>, size': nat)
    requires x < |ds| && NegativePlane(ValueOf(ds), size) && BITS * x < size <= BITS * (x + 1)
    ensures found == !RedundantSign(ValueOf(ds), size)
    ensures found ==> ds' == ds && size' == size && !toNext
    ensures !found ==> |ds'| == |ds| && size' == size - 1 && NegativePlane(ValueOf(ds'), size')
                       && ValueOf(ds') - Pow2(size') == ValueOf(ds) - Pow2(size)
                       && toNext == (size' == BITS * x)
  {
    ghost var k := size - 1 - BITS * x;
    ShedBounds(ds, size, x);
    if k >= 1 {
      ShedWithinLimb(ds, size, x);
    } else if x >= 1 {
      ShedAcrossLimbs(ds, size, x);
    }
    LeadingZerosMeaning(ds[x], k + 1);
    ds', size', toNext := ds, size, false;
    var preLeading := LeadingZeros(ds[x]);
    var minimizedValue := ds[x] - Pow2(BITS - preLeading - 1);
    assert minimizedValue == ds[x] - Pow2(k);
    var postLeading := LeadingZeros(minimizedValue);
    NoBitSet(minimizedValue);
    LeadingZerosMeaning(minimizedValue, k);
    if postLeading == BITS {
      if x == 0 || LeadingZeros(ds[x - 1]) != 0 {
        if x > 0 {
          TopBitSet(ds[x - 1]);
        }
        found := true;
        return;
      }
      TopBitSet(ds[x - 1]);
    }
    if postLeading != preLeading + 1 {
      found := true;
    } else {
      found := false;
      ShedUpdate(ds, size, x, minimizedValue);
      ds' := ds[x := minimizedValue];
      size' := size - 1;
      if postLeading == BITS {
        toNext := true;
      }
    }
  }

  /**
   * The negative branch of `_minimum_width`: from the top limb down, the top
   * bit is cleared and the width cut by one while the bit below it is set
   * too; each limb emptied this way is counted for removal.
   */
  method ShedSignBits(d0: seq<Limb>, size0: nat) returns (ds: seq<Limb>, size: nat, vecElementsToRm: nat)
    requires |d0| == LimbsFor(size0) && NegativePlane(ValueOf(d0), size0)
    ensures |ds| == |d0| && NegativePlane(ValueOf(ds), size) && !RedundantSign(ValueOf(ds), size)
    ensures ValueOf(ds) - Pow2(size) == ValueOf(d0) - Pow2(size0)
    ensures vecElementsToRm + LimbsFor(size) == |d0|
  {
    ds, size := d0, size0;
    var minNumFound := false;
    vecElementsToRm := 0;
    LimbsForBounds(size0);
    var x := |d0|;
    while x > 0
      invariant 0 <= x <= |d0| && |ds| == |d0|
      invariant NegativePlane(ValueOf(ds), size) && ValueOf(ds) - Pow2(size) == ValueOf(d0) - Pow2(size0)
      invariant minNumFound ==> !RedundantSign(ValueOf(ds), size) && vecElementsToRm + LimbsFor(size) == |d0|
      invariant !minNumFound ==> x >= 1 && BITS * (x - 1) < size <= BITS * x && vecElementsToRm == |d0| - x
    {
      x := x - 1;
      while !minNumFound
        invariant |ds| == |d0|
        invariant NegativePlane(ValueOf(ds), size) && ValueOf(ds) - Pow2(size) == ValueOf(d0) - Pow2(size0)
        invariant minNumFound ==> !RedundantSign(ValueOf(ds), size) && vecElementsToRm + LimbsFor(size) == |d0|
        invariant !minNumFound ==> BITS * x < size <= BITS * (x + 1) && vecElementsToRm == |d0| - 1 - x
        decreases size
      {
        var found, toNext;
        found, toNext, ds, size := ShedStep(ds, size, x);
        if found {
          LimbsForIn(size, x + 1);
          minNumFound := true;
          break;
        }
        if toNext {
          vecElementsToRm := vecElementsToRm + 1;
          break;
        }
      }
    }
  }

  /** A negative plane with no redundant top bit has the narrowest width of its number. */
  lemma NegativeMinimal(v: nat, size: nat)
    requires NegativePlane(v, size) && !RedundantSign(v, size)
    ensures size == SignedWidth(v - Pow2(size))
  {
    var y: nat := Pow2(size) - 1 - v;
    assert Pow2(size) == 2 * Pow2(size - 1);
    if size >= 2 {
      assert Pow2(size - 1) == 2 * Pow2(size - 2);
      assert Pow2(size - 2) <= y < Pow2(size - 1);
    } else {
      assert y == 0 && Pow2(0) == 1;
    }
    BitLengthOf(y, size - 1);
    assert -(v - Pow2(size)) - 1 == y;
  }

  // ---------------------------------------------------------------------
  // The branches of `_minimum_width` on the 0/1 plane.
  // ---------------------------------------------------------------------

  /** Zero: every limb removed, one zero limb pushed, width 1. */
  method ZeroWidth(p: SvPrimaryLiteralIntegral) returns (r: SvPrimaryLiteralIntegral)
    requires |p.data01| >= 1
    ensures r == p.(data01 := [0], size := 1)
  {
    var ds := DropTopLimbs(p.data01, |p.data01|);
    r := p.(data01 := ds + [0], size := 1);
  }

  /** A nonzero unsigned literal: the zero limbs on top removed, the width cut to the bit length. */
  method MinimizeUnsigned(p: SvPrimaryLiteralIntegral) returns (r: SvPrimaryLiteralIntegral)
    requires WF(p) && ValueOf(p.data01) != 0
    ensures r.dataXz == p.dataXz && r.signed == p.signed
    ensures ValueOf(r.data01) == ValueOf(p.data01) && r.size == BitLength(ValueOf(p.data01))
    ensures 1 <= |r.data01| == LimbsFor(r.size) <= |p.data01|
  {
    var ds := TrimZeroLimbs(p.data01);
    TopLimbWidth(ds);
    LimbsForIn(BitLength(ValueOf(ds)), |ds|);
    r := p.(data01 := ds,
            size := (BITS - LeadingZeros(ds[|ds| - 1])) + (|ds| - 1) * BITS);
  }

  /**
   * A positive signed literal: the zero limbs on top removed, a zero limb
   * pushed when the top limb has its top bit set, and the width cut to the
   * bit length plus a sign bit.
   */
  method MinimizePositive(p: SvPrimaryLiteralIntegral) returns (r: SvPrimaryLiteralIntegral)
    requires WF(p) && ValueOf(p.data01) != 0
    ensures r.dataXz == p.dataXz && r.signed == p.signed
    ensures ValueOf(r.data01) == ValueOf(p.data01) && r.size == BitLength(ValueOf(p.data01)) + 1
    ensures 1 <= |r.data01| == LimbsFor(r.size) <= |p.data01| + 1
    ensures !SignBit01(p) ==> |r.data01| <= |p.data01|
  {
    var ds := TrimZeroLimbs(p.data01);
    TopLimbWidth(ds);
    var lastIndex := |ds| - 1;
    TopBitSet(ds[lastIndex]);
    if LeadingZeros(ds[lastIndex]) == 0 {
      FullTopLimb(p, ds);
      ds := ds + [0];
    }
    var size := (BITS - LeadingZeros(ds[|ds| - 1]) + 1) + (|ds| - 1) * BITS;
    LimbsForIn(size, |ds|);
    r := p.(data01 := ds, size := size);
  }

  /** The trimmed limbs of a positive literal with the top bit of the top limb set: a zero limb on top keeps the value. */
  lemma FullTopLimb(p: SvPrimaryLiteralIntegral, ds: seq<Limb>)
    requires WF(p) && 1 <= |ds| <= |p.data01| && ValueOf(ds) == ValueOf(p.data01)
    requires ds[|ds| - 1] >= BASE / 2
    requires BITS - LeadingZeros(ds[|ds| - 1]) + (|ds| - 1) * BITS == BitLength(ValueOf(ds))
    ensures ValueOf(ds + [0]) == ValueOf(p.data01) && LeadingZeros(0) == BITS
    ensures BitLength(ValueOf(p.data01)) == BITS * |ds|
    ensures !SignBit01(p) ==> |ds| < |p.data01|
  {
    assert ValueOf(ds + [0]) == ValueOf(ds) by { ValueOfPush(ds, 0); }
    assert LeadingZeros(0) == BITS by { NoBitSet(0); }
    assert LeadingZeros(ds[|ds| - 1]) == 0 by { TopBitSet(ds[|ds| - 1]); }
    assert BitLength(ValueOf(p.data01)) == BITS * |ds|;
    if !SignBit01(p) {
      assert BITS * |ds| <= p.size - 1 by {
        BitLengthAtMost(ValueOf(ds), p.size - 1);
      }
      assert p.size <= BITS * |p.data01| by {
        LimbsForBounds(p.size);
      }
    }
  }

  /**
   * A negative signed literal: the redundant sign bits shed, and the limbs
   * emptied by that removed; the number is kept and the width is its
   * narrowest.
   */
  method MinimizeNegative(p: SvPrimaryLiteralIntegral) returns (r: SvPrimaryLiteralIntegral)
    requires WF(p) && SignBit01(p)
    ensures r.dataXz == p.dataXz && r.signed == p.signed
    ensures NegativePlane(ValueOf(r.data01), r.size)
    ensures ValueOf(r.data01) - Pow2(r.size) == ValueOf(p.data01) - Pow2(p.size)
    ensures r.size == SignedWidth(ValueOf(p.data01) - Pow2(p.size))
    ensures 1 <= |r.data01| == LimbsFor(r.size) <= |p.data01|
  {
    var ds, size, vecElementsToRm := ShedSignBits(p.data01, p.size);
    NegativeMinimal(ValueOf(ds), size);
    LimbsForBounds(size);
    Pow2Monotone(size, BITS * LimbsFor(size));
    HighLimbsZero(ds, LimbsFor(size));
    ds := DropTopLimbs(ds, vecElementsToRm);
    r := p.(data01 := ds, size := size);
  }

  // ---------------------------------------------------------------------
  // Removing the surplus X/Z limbs.
  // ---------------------------------------------------------------------

  /**
   * Where the surplus X/Z limbs are removed: at the index of the top 0/1
   * limb, as written, or from the top of the X/Z plane.
   */
  datatype XzTrim = AtDataTop | AtXzTop

  /** The X/Z plane left when the 0/1 plane has `m` limbs. */
  function XzAfterTrim(xz: seq<Limb>, m: nat, rule: XzTrim): (t: seq<Limb>)
    requires m >= 1
    ensures |t| == if |xz| <= m then |xz| else m
  {
    if |xz| <= m then xz
    else if rule == AtDataTop then xz[..m - 1] + [xz[|xz| - 1]]
    else xz[..m]
  }

  /** Trimming keeps a zero plane zero, and from the top it keeps the low limbs. */
  lemma XzAfterTrimFacts(xz: seq<Limb>, m: nat, rule: XzTrim)
    requires m >= 1
    ensures (forall i | 0 <= i < |xz| :: xz[i] == 0) ==>
              forall i | 0 <= i < |XzAfterTrim(xz, m, rule)| :: XzAfterTrim(xz, m, rule)[i] == 0
    ensures rule == AtXzTop && m <= |xz| ==> XzAfterTrim(xz, m, rule) == xz[..m]
  {
  }

  /** `len(xz) - m` times, the X/Z limb at index `m - 1` (or the top one) removed. */
  method TrimXz(xz: seq<Limb>, m: nat, rule: XzTrim) returns (r: seq<Limb>)
    requires 1 <= m < |xz|
    ensures r == XzAfterTrim(xz, m, rule)
  {
    r := xz;
    for k := 0 to |xz| - m
      invariant r == if rule == AtDataTop then xz[..m - 1] + xz[m - 1 + k..] else xz[..|xz| - k]
    {
      var lastIndex := m - 1;
      if rule == AtDataTop {
        assert xz[m - 1 + k..][1..] == xz[m - 1 + (k + 1)..];
        r := r[..lastIndex] + r[lastIndex + 1..];
      } else {
        r := r[..|r| - 1];
      }
    }
    if rule == AtDataTop {
      assert xz[m - 1 + (|xz| - m)..] == [xz[|xz| - 1]];
    }
  }

  // ---------------------------------------------------------------------
  // `_minimum_width`
  // ---------------------------------------------------------------------

  /**
   * The 0/1 plane at its narrowest width: an unsigned literal at its bit
   * length (one bit for zero), a signed one at the narrowest two's
   * complement width of its number. A literal with X/Z whose 0/1 plane is
   * zero is excluded: the trimming loop empties the vector and the width
   * then reads below index 0.
   */
  method MinimizeData(p: SvPrimaryLiteralIntegral) returns (r: SvPrimaryLiteralIntegral)
    requires WF(p) && !(ValueOf(p.data01) == 0 && HasXz(p))
    ensures r.dataXz == p.dataXz && r.signed == p.signed
    ensures 1 <= |r.data01| == LimbsFor(r.size) && Fits(r.data01, r.size)
    ensures !p.signed ==> ValueOf(r.data01) == ValueOf(p.data01) && r.size == UnsignedWidth(ValueOf(p.data01))
    ensures p.signed && !HasXz(p) ==>
              && SPlane(ValueOf(r.data01), r.size) == SPlane(ValueOf(p.data01), p.size)
              && r.size == SignedWidth(SPlane(ValueOf(p.data01), p.size))
    ensures p.signed && HasXz(p) ==> ValueOf(r.data01) == ValueOf(p.data01) && r.size == BitLength(ValueOf(p.data01)) + 1
    ensures !HasXz(p) ==> |r.data01| <= |p.data01|
  {
    ghost var v := ValueOf(p.data01);
    BitLengthBounds(v);
    if !p.signed {
      var zero := IsZero(p);
      if zero {
        r := ZeroWidth(p);
      } else {
        r := MinimizeUnsigned(p);
      }
    } else {
      var negative := IsNegative(p);
      if negative {
        r := MinimizeNegative(p);
      } else {
        var zero := IsZero(p);
        if zero {
          r := ZeroWidth(p);
        } else {
          r := MinimizePositive(p);
        }
      }
    }
  }

  /**
   * `_minimum_width`: the 0/1 plane at its narrowest width, then, when the
   * X/Z plane is longer, its surplus limbs removed by `rule`.
   */
  method MinimumWidth(p: SvPrimaryLiteralIntegral, rule: XzTrim) returns (r: SvPrimaryLiteralIntegral)
    requires WF(p) && !(ValueOf(p.data01) == 0 && HasXz(p))
    ensures r.signed == p.signed && r.dataXz.Some? == p.dataXz.Some?
    ensures 1 <= |r.data01| == LimbsFor(r.size) && Fits(r.data01, r.size)
    ensures r.dataXz.Some? ==> r.dataXz.value == XzAfterTrim(p.dataXz.value, |r.data01|, rule)
    ensures !p.signed ==> ValueOf(r.data01) == ValueOf(p.data01) && r.size == UnsignedWidth(ValueOf(p.data01))
    ensures p.signed && !HasXz(p) ==>
              && SPlane(ValueOf(r.data01), r.size) == SPlane(ValueOf(p.data01), p.size)
              && r.size == SignedWidth(SPlane(ValueOf(p.data01), p.size))
    ensures p.signed && HasXz(p) ==> ValueOf(r.data01) == ValueOf(p.data01) && r.size == BitLength(ValueOf(p.data01)) + 1
    ensures !HasXz(p) ==> WF(r) && !HasXz(r)
    ensures rule == AtXzTop && (!p.signed || HasXz(p)) ==> forall i | 0 <= i < r.size :: LogicAt(r, i) == LogicAt(p, i)
  {
    var q := MinimizeData(p);
    r := q;
    if Is4State(q) && |q.data01| < |q.dataXz.value| {
      var xz := TrimXz(q.dataXz.value, |q.data01|, rule);
      r := q.(dataXz := Some(xz));
    }
    if !HasXz(p) && r.dataXz.Some? {
      XzAfterTrimFacts(p.dataXz.value, |r.data01|, rule);
      ValueOfZeroIff(r.dataXz.value);
    }
    if rule == AtXzTop && (!p.signed || HasXz(p)) {
      LimbsForBounds(r.size);
      TrimmedBits(p, r);
    }
  }

  /**
   * A literal that keeps the 0/1 value and whose X/Z plane lost only limbs
   * from the top keeps every bit below its width.
   */
  lemma TrimmedBits(p: SvPrimaryLiteralIntegral, r: SvPrimaryLiteralIntegral)
    requires 1 <= |r.data01| && r.size <= BITS * |r.data01| && ValueOf(r.data01) == ValueOf(p.data01)
    requires r.dataXz.Some? == p.dataXz.Some?
    requires r.dataXz.Some? ==> r.dataXz.value == XzAfterTrim(p.dataXz.value, |r.data01|, AtXzTop)
    ensures forall i | 0 <= i < r.size :: LogicAt(r, i) == LogicAt(p, i)
  {
    if r.dataXz.Some? && |r.data01| <= |p.dataXz.value| {
      forall i | 0 <= i < r.size
        ensures Bit(ValueOf(r.dataXz.value), i) == Bit(ValueOf(p.dataXz.value), i)
      {
        PrefixBits(p.dataXz.value, |r.data01|, i);
      }
    }
  }

  /**
   * Removing the surplus X/Z limbs at the index of the top 0/1 limb loses an
   * X: `65'b1x` has its X in bit 0 of limb 0, its 0/1 plane narrows to one
   * limb, and the trim as written keeps the top X/Z limb (zero) in place of
   * limb 0. Removing from the top keeps the X.
   */
  lemma TrimXzLosesX(r: SvPrimaryLiteralIntegral)
    ensures var p := SvPrimaryLiteralIntegral([2, 0], Some([1, 0]), 65, false);
      && WF(p) && HasXz(p) && ValueOf(p.data01) == 2 && UnsignedWidth(2) == 2 && LimbsFor(2) == 1
      && LogicAt(p, 0) == LX
    ensures r.dataXz == Some(XzAfterTrim([1, 0], 1, AtDataTop)) ==> LogicAt(r, 0) != LX
    ensures r.dataXz == Some(XzAfterTrim([1, 0], 1, AtXzTop)) ==> LogicAt(r, 0) == LX || LogicAt(r, 0) == LZ
  {
    TwoLimbExample();
    assert XzAfterTrim([1, 0], 1, AtDataTop) == [0] && XzAfterTrim([1, 0], 1, AtXzTop) == [1];
    ValueOfPush([], 0);
    ValueOfPush([], 1);
  }

  /** `65'b1x`: two limbs in each plane, 2 in the 0/1 plane and an X in bit 0. */
  lemma TwoLimbExample()
    ensures var p := SvPrimaryLiteralIntegral([2, 0], Some([1, 0]), 65, false);
      && WF(p) && HasXz(p) && ValueOf(p.data01) == 2 && UnsignedWidth(2) == 2 && LimbsFor(2) == 1
      && LogicAt(p, 0) == LX
  {
    var p := SvPrimaryLiteralIntegral([2, 0], Some([1, 0]), 65, false);
    TwoLimbValue(2);
    TwoLimbValue(1);
    LimbsForIn(65, 2);
    LimbsForIn(2, 1);
    Pow2Monotone(2, 65);
    assert Pow2(2) == 4;
    assert p.dataXz.value[0] != 0;
  }

  /** A two-limb vector with a zero top limb stands for its low limb. */
  lemma TwoLimbValue(t: Limb)
    ensures ValueOf([t, 0]) == t
  {
    ValueOfPush([], t);
    ValueOfPush([t], 0);
    assert [t] + [0] == [t, 0];
  }

  // ---------------------------------------------------------------------
  // `usize_to_primlit` and `+ usize`
  // ---------------------------------------------------------------------

  /** A plane below 2^size is its two's complement number modulo 2^size. */
  lemma SPlaneMod(v: nat, size: nat)
    requires size >= 1 && v < Pow2(size)
    ensures v == SPlane(v, size) % Pow2(size)
  {
    if v >= Pow2(size - 1) {
      DivModUnique(v - Pow2(size), Pow2(size), -1, v);
    } else {
      DivModUnique(v, Pow2(size), 0, v);
    }
  }

  /** What `usize_to_primlit` returns: the word's signed 64-bit number at its narrowest width, in two's complement. */
  ghost function UsizeLiteral(value: Limb): SvPrimaryLiteralIntegral {
    var x := SPlane(value, BITS);
    var size := SignedWidth(x);
    SvPrimaryLiteralIntegral(LimbsOf(x % Pow2(size), LimbsFor(size)), None, size, true)
  }

  /**
   * `usize_to_primlit`: a machine word read as a signed 64-bit number, at
   * the narrowest width of that number.
   */
  method UsizeToPrimlit(value: Limb) returns (r: SvPrimaryLiteralIntegral)
    ensures WF(r) && r.signed && r.dataXz.None?
    ensures SPlane(ValueOf(r.data01), r.size) == SPlane(value, BITS)
    ensures r.size == SignedWidth(SPlane(value, BITS))
    ensures r == UsizeLiteral(value)
  {
    var ret := SvPrimaryLiteralIntegral([value], None, BITS, true);
    ValueOfPush([], value);
    Pow2Word();
    r := MinimumWidth(ret, AtXzTop);
    SPlaneMod(ValueOf(r.data01), r.size);
    LimbsOfValue(r.data01);
  }

  /** The literal for 1 is two bits wide, a zero sign bit above the one. */
  lemma UsizeOne()
    ensures SPlane(1, BITS) == 1 && SignedWidth(1) == 2
  {
    Pow2Word();
    assert BitLength(1) == 1 + BitLength(0);
  }

  /**
   * `+ usize`: the word converted by `usize_to_primlit` and added, less the
   * carries the rule loses. To an unsigned literal the addend is the
   * converted literal's 0/1 plane, so a word of 2^63 or more adds its signed
   * number modulo its narrowest width.
   */
  method AddUsize(self: SvPrimaryLiteralIntegral, rhs: Limb, carry: CarryRule) returns (r: SvPrimaryLiteralIntegral)
    requires Loose(self) && (self.signed ==> WF(self))
    ensures r.size == Max(self.size, SignedWidth(SPlane(rhs, BITS))) + 1 && r.signed == self.signed
    ensures r.dataXz.Some? == self.dataXz.Some?
    ensures Loose(r) && (WF(self) ==> WF(r))
    ensures HasXz(self) ==> IsAllX(r)
    ensures !HasXz(self) ==> !HasXz(r)
    ensures !HasXz(self) && self.signed ==>
              ValueOf(r.data01) == (SPlane(ValueOf(self.data01), self.size) + SPlane(rhs, BITS)
                                    - AddLoss(self, UsizeLiteral(rhs), carry)) % Pow2(r.size)
    ensures !HasXz(self) && !self.signed ==>
              ValueOf(r.data01) + AddLoss(self, UsizeLiteral(rhs), carry)
              == ValueOf(self.data01) + SPlane(rhs, BITS) % Pow2(SignedWidth(SPlane(rhs, BITS)))
    ensures !HasXz(self) && self.signed && (carry == Intended || AddLoss(self, UsizeLiteral(rhs), carry) == 0) ==>
              SPlane(ValueOf(r.data01), r.size) == SPlane(ValueOf(self.data01), self.size) + SPlane(rhs, BITS)
  {
    var rhsLit := UsizeToPrimlit(rhs);
    WFIsLoose(rhsLit);
    SPlaneMod(ValueOf(rhsLit.data01), rhsLit.size);
    r := AddPrimlit(self, rhsLit, carry);
  }

  /**
   * Adding 1 loses no carry under either rule: above its low limb the
   * sign-extended 1 has no all-ones limb for a carry to be lost into.
   */
  lemma AddOneLosesNothing(p: SvPrimaryLiteralIntegral, carry: CarryRule)
    requires p.signed
    ensures AddLoss(p, UsizeLiteral(1), carry) == 0
  {
    var one := UsizeLiteral(1);
    UsizeOne();
    assert Pow2(2) == 4 && Pow2(1) == 2;
    assert one.data01 == [1] by {
      assert LimbsFor(2) == 1;
      assert LimbsOf(1, 1) == [1] + LimbsOf(0, 0);
    }
    ValueOfPush([], 1);
    assert [] + [1] == [1];
    assert !SignBit01(one);
    var n := (if p.size > one.size then |p.data01| else |one.data01|) + 1;
    LimbsOfSmall(1, n);
    NoLossAboveLowLimb(LimbsOf(Widened(ValueOf(p.data01), Fill01(p, ByMsb), p.size, n), n), LimbsOf(1, n), n, carry);
  }

  // ---------------------------------------------------------------------
  // `negate` and unary `-`
  // ---------------------------------------------------------------------

  /** Bit `i` of the complement of `v` within `s` bits is the opposite of bit `i` of `v`. */
  lemma {:induction false} ComplementBits(v: nat, s: nat, i: nat)
    requires v < Pow2(s) && i < s
    ensures Bit(Pow2(s) - 1 - v, i) == !Bit(v, i)
    decreases s
  {
    var h, b := v / 2, v % 2;
    assert v == 2 * h + b;
    assert Pow2(s) == 2 * Pow2(s - 1);
    var c: nat := Pow2(s - 1) - 1 - h;
    assert Pow2(s) - 1 - v == 2 * c + (1 - b);
    BitDouble(h, b, if i == 0 then 0 else i - 1);
    BitDouble(c, 1 - b, if i == 0 then 0 else i - 1);
    if i > 0 {
      ComplementBits(h, s - 1, i - 1);
    }
  }

  /** The inverted plane of a 2-state literal is its complement within the width. */
  lemma InvValue(p: SvPrimaryLiteralIntegral, u: nat)
    requires WF(p) && !HasXz(p) && u < Pow2(p.size)
    requires forall i :: 0 <= i < p.size ==> Bit(u, i) == (!XzBit(p, i) && !Bit(ValueOf(p.data01), i))
    ensures u == Pow2(p.size) - 1 - ValueOf(p.data01)
    ensures SPlane(u, p.size) == -1 - SPlane(ValueOf(p.data01), p.size)
  {
    var v := ValueOf(p.data01);
    HasXzMeaning(p);
    forall i | 0 <= i < p.size
      ensures Bit(u, i) == Bit(Pow2(p.size) - 1 - v, i)
    {
      XzBitValue(p, i);
      BitOfZero(i);
      ComplementBits(v, p.size, i);
    }
    BitsEqual(u, Pow2(p.size) - 1 - v, p.size);
    assert Pow2(p.size) == 2 * Pow2(p.size - 1);
  }

  /** `ret.inv() + 1` on a nonzero 2-state signed literal: its negation, one bit wider than the wider of it and 2. */
  method NegatedSum(p: SvPrimaryLiteralIntegral) returns (r: SvPrimaryLiteralIntegral)
    requires WF(p) && !HasXz(p) && p.signed
    ensures WF(r) && r.signed && !HasXz(r) && r.dataXz.Some? == p.dataXz.Some?
    ensures r.size == Max(p.size, 2) + 1
    ensures SPlane(ValueOf(r.data01), r.size) == -SPlane(ValueOf(p.data01), p.size)
  {
    var ret := Inv(p);
    InvValue(p, ValueOf(ret.data01));
    UsizeOne();
    AddOneLosesNothing(ret, AsWritten);
    ret := AddUsize(ret, 1, AsWritten);
    r := ret;
  }

  /** A vector below 2^(64 |ds| - 1) has the top bit of its top limb clear. */
  lemma TopLimbBelowHalf(ds: seq<Limb>)
    requires |ds| >= 1 && ValueOf(ds) < Pow2(BITS * |ds| - 1)
    ensures ds[|ds| - 1] < BASE / 2
  {
    var n := |ds| - 1;
    ValueOfTop(ds);
    Pow2Word();
    WeightSplit(BITS * |ds| - 1, n, BITS - 1);
    ScaledCompare(ValueOf(ds[..n]), ds[n], BASE / 2, Weight(n));
  }

  /** A vector of at least the weight of its top limb has a nonzero top limb. */
  lemma TopLimbNonzero(ds: seq<Limb>)
    requires |ds| >= 1 && ValueOf(ds) >= Weight(|ds| - 1)
    ensures ds[|ds| - 1] != 0
  {
    ValueOfTop(ds);
  }

  /**
   * A positive sum of at most half its width: its top limb has the top bit
   * clear, and the width read off that limb plus a sign bit holds it as the
   * same positive number in as many limbs.
   */
  lemma PositiveSumWidth(q: SvPrimaryLiteralIntegral, x: int)
    requires WF(q) && q.size >= 2
    requires SPlane(ValueOf(q.data01), q.size) == x && 0 < x <= Pow2(q.size - 2)
    ensures var top := q.data01[|q.data01| - 1];
      var size := (BITS - LeadingZeros(top) + 1) + (|q.data01| - 1) * BITS;
      && LeadingZeros(top) != 0
      && LimbsFor(size) == |q.data01| && size >= 1 && ValueOf(q.data01) < Pow2(size - 1)
      && ValueOf(q.data01) == x
  {
    var v, n := ValueOf(q.data01), |q.data01| - 1;
    var top := q.data01[n];
    var size := (BITS - LeadingZeros(top) + 1) + n * BITS;
    assert v == x && v < Pow2(q.size - 1) by {
      assert Pow2(q.size - 1) == 2 * Pow2(q.size - 2);
    }
    assert q.size <= BITS * |q.data01| by {
      LimbsForBounds(q.size);
    }
    assert top < BASE / 2 by {
      Pow2Monotone(q.size - 1, BITS * |q.data01| - 1);
      TopLimbBelowHalf(q.data01);
    }
    assert LeadingZeros(top) != 0 by {
      TopBitSet(top);
    }
    TopLimbReach(q.data01);
    LimbsForIn(size, |q.data01|);
  }

  /** The limbs read below 2 to the power of the bits up to the highest set one of the top limb. */
  lemma TopLimbReach(ds: seq<Limb>)
    requires |ds| >= 1
    ensures var top := ds[|ds| - 1];
      var size := (BITS - LeadingZeros(top) + 1) + (|ds| - 1) * BITS;
      BITS * (|ds| - 1) < size && ValueOf(ds) < Pow2(size - 1)
  {
    var v, n := ValueOf(ds), |ds| - 1;
    var top := ds[n];
    var e := (BITS - LeadingZeros(top)) + n * BITS;
    if top != 0 {
      TopLimbWidth(ds);
      BitLengthBounds(v);
    } else {
      NoBitSet(0);
      ValueOfTop(ds);
    }
    assert v < Pow2(e);
  }

  /** A negative sum fills its top limb: the width read off that limb is its width. */
  lemma NegativeSumWidth(q: SvPrimaryLiteralIntegral, x: int)
    requires WF(q) && SPlane(ValueOf(q.data01), q.size) == x && x < 0
    ensures var top := q.data01[|q.data01| - 1];
      (BITS - LeadingZeros(top)) + (|q.data01| - 1) * BITS == q.size
  {
    var v, n := ValueOf(q.data01), |q.data01| - 1;
    LimbsForBounds(q.size);
    assert v >= Pow2(q.size - 1);
    Pow2Monotone(BITS * n, q.size - 1);
    TopLimbNonzero(q.data01);
    TopLimbWidth(q.data01);
    BitLengthOf(v, q.size);
  }

  /**
   * The width `negate` sets after `inv() + 1`: from a negative literal the
   * positive result gets its bit length plus a sign bit; from a positive
   * one the negative result keeps its width. The pushed zero limb the code
   * adds when the top bit of the top limb is set never happens: the sum is
   * at most half its width.
   */
  method NegatedWidth(q: SvPrimaryLiteralIntegral, fromNegative: bool, ghost x: int) returns (r: SvPrimaryLiteralIntegral)
    requires WF(q) && q.signed && !HasXz(q) && q.size >= 2
    requires SPlane(ValueOf(q.data01), q.size) == x && x != 0 && -(Pow2(q.size - 2) as int) <= x <= Pow2(q.size - 2)
    requires fromNegative == (x > 0)
    ensures WF(r) && r.signed && !HasXz(r) && r.dataXz == q.dataXz
    ensures SPlane(ValueOf(r.data01), r.size) == x
  {
    var ret := q;
    var lastIndex := |ret.data01| - 1;
    HasXzMeaning(q);
    if fromNegative {
      PositiveSumWidth(q, x);
      ret := ret.(size := (BITS - LeadingZeros(ret.data01[lastIndex]) + 1) + lastIndex * BITS);
      Pow2Monotone(ret.size - 1, ret.size);
      if LeadingZeros(ret.data01[lastIndex]) == 0 {
        assert false;
      }
    } else {
      NegativeSumWidth(q, x);
      ret := ret.(size := (BITS - LeadingZeros(ret.data01[lastIndex])) + lastIndex * BITS);
    }
    r := ret;
  }

  /**
   * `negate` of a 2-state literal: zero is returned as it is; otherwise the
   * literal must be signed, and the result is its two's complement negation
   * at the narrowest width. A literal with X/Z is excluded: its sum is all X
   * with a zero 0/1 plane, on which `_minimum_width` reads below index 0.
   */
  method Negate(p: SvPrimaryLiteralIntegral) returns (r: SvPrimaryLiteralIntegral)
    requires WF(p) && !HasXz(p)
    requires p.signed || ValueOf(p.data01) == 0
    ensures ValueOf(p.data01) == 0 ==> r == p
    ensures ValueOf(p.data01) != 0 ==>
              && WF(r) && r.signed && !HasXz(r) && r.dataXz.Some? == p.dataXz.Some?
              && SPlane(ValueOf(r.data01), r.size) == -SPlane(ValueOf(p.data01), p.size)
              && r.size == SignedWidth(-SPlane(ValueOf(p.data01), p.size))
  {
    var ret := p;
    var zero := IsZero(ret);
    if zero {
      return ret;
    }
    ghost var x := -SPlane(ValueOf(p.data01), p.size);
    var fromNegative := IsNegative(ret);
    ret := NegatedSum(ret);
    assert Pow2(p.size) == 2 * Pow2(p.size - 1);
    Pow2Monotone(p.size - 1, ret.size - 2);
    ret := NegatedWidth(ret, fromNegative, x);
    ret := MinimumWidth(ret, AtXzTop);
    ret := ClearXz(ret);
    r := ret;
  }

  /** Unary `-`: one X bit for a literal with X/Z, the negation otherwise. */
  method Neg(self: SvPrimaryLiteralIntegral) returns (r: SvPrimaryLiteralIntegral)
    requires WF(self) && (HasXz(self) || self.signed || ValueOf(self.data01) == 0)
    ensures HasXz(self) ==> r == Logic1bX()
    ensures !HasXz(self) && ValueOf(self.data01) == 0 ==> r == self
    ensures !HasXz(self) && ValueOf(self.data01) != 0 ==>
              && WF(r) && r.signed && !HasXz(r)
              && SPlane(ValueOf(r.data01), r.size) == -SPlane(ValueOf(self.data01), self.size)
              && r.size == SignedWidth(-SPlane(ValueOf(self.data01), self.size))
  {
    var xz := ContainsXz(self);
    if xz {
      r := Logic1bX();
    } else {
      r := Negate(self);
    }
  }
}
