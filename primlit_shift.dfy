/**
 * The shifts, the rotations and the bitwise inversion of integral literals.
 * Each works on the two planes of a literal together: `lsl` and `lsr` move
 * every bit by one position per step, `rol` and `ror` rotate the low `size`
 * bits, and `inv` complements the 0/1 plane below the width.
 */
module PrimlitShift {
  import opened Wrappers
  import opened Limbs
  import opened PrimlitCore

  /**
   * A literal whose planes hold at most the limbs its width needs, at least
   * one, and nothing above the width: what a left shift of a well-formed
   * literal can leave, since an unsigned shift only pushes a limb on a carry.
   */
  ghost predicate Loose(p: SvPrimaryLiteralIntegral) {
    && p.size >= 1
    && 1 <= |p.data01| <= LimbsFor(p.size)
    && Fits(p.data01, p.size)
    && (p.dataXz.Some? ==> |p.dataXz.value| == |p.data01| && Fits(p.dataXz.value, p.size))
  }

  lemma WFIsLoose(p: SvPrimaryLiteralIntegral)
    requires WF(p)
    ensures Loose(p)
  {
    LimbsForBounds(p.size);
  }

  /** Bit `i` of the X/Z plane; a 2-state literal has none set. */
  ghost function XzBit(p: SvPrimaryLiteralIntegral, i: nat): bool {
    p.dataXz.Some? && Bit(ValueOf(p.dataXz.value), i)
  }

  /** The value of the X/Z plane, zero for a 2-state literal. */
  ghost function XzValue(p: SvPrimaryLiteralIntegral): nat {
    if p.dataXz.Some? then ValueOf(p.dataXz.value) else 0
  }

  // ---------------------------------------------------------------------
  // `lsl`
  // ---------------------------------------------------------------------

  /** One limb of a left shift by one: the shifted limb with the incoming bit, and the bit shifted out. */
  function ShlLimb(v: Limb, cin: bool): (Limb, bool) {
    (if cin then Shl1(v) + 1 else Shl1(v), LeadingZeros(v) == 0)
  }

  /** The first `n` limbs shifted left by one, and the bit out of limb `n - 1`. */
  function ShlPrefix(ds: seq<Limb>, n: nat): (seq<Limb>, bool)
    requires n <= |ds|
  {
    if n == 0 then ([], false)
    else
      var pre := ShlPrefix(ds, n - 1);
      var st := ShlLimb(ds[n - 1], pre.1);
      (pre.0 + [st.0], st.1)
  }

  lemma ShlLimbValue(v: Limb, cin: bool)
    ensures ShlLimb(v, cin).0 + (if ShlLimb(v, cin).1 then BASE else 0) == 2 * v + (if cin then 1 else 0)
  {
    TopBitSet(v);
  }

  /** Shifting the limbs is doubling the number they stand for, with the bit out at the next weight. */
  lemma {:induction false} ShlPrefixValue(ds: seq<Limb>, n: nat)
    requires n <= |ds|
    ensures |ShlPrefix(ds, n).0| == n
    ensures ValueOf(ShlPrefix(ds, n).0) + (if ShlPrefix(ds, n).1 then Weight(n) else 0) == 2 * ValueOf(ds[..n])
    decreases n
  {
    if n > 0 {
      ShlPrefixValue(ds, n - 1);
      var pre := ShlPrefix(ds, n - 1);
      var st := ShlLimb(ds[n - 1], pre.1);
      var w := Weight(n - 1);
      var cin := if pre.1 then 1 else 0;
      var cout := if st.1 then 1 else 0;
      assert ShlPrefix(ds, n) == (pre.0 + [st.0], st.1);
      assert ValueOf(pre.0) + cin * w == 2 * ValueOf(ds[..n - 1]);
      assert st.0 + cout * BASE == 2 * ds[n - 1] + cin by {
        ShlLimbValue(ds[n - 1], pre.1);
      }
      assert ValueOf(ShlPrefix(ds, n).0) == ValueOf(pre.0) + st.0 * w by {
        ValueOfPush(pre.0, st.0);
      }
      assert ValueOf(ds[..n]) == ValueOf(ds[..n - 1]) + ds[n - 1] * w by {
        assert ds[..n] == ds[..n - 1] + [ds[n - 1]];
        ValueOfPush(ds[..n - 1], ds[n - 1]);
      }
      assert (if ShlPrefix(ds, n).1 then Weight(n) else 0) == cout * (w * BASE) by {
        WeightNext(n - 1);
      }
      ShiftStep(ValueOf(pre.0), cin, st.0, cout, ds[n - 1], ValueOf(ds[..n - 1]), w, st.0 * w, ds[n - 1] * w);
    }
  }

  /** The linear step of `ShlPrefixValue`, with the products named. */
  lemma ShiftStep(vp: int, cin: int, s: int, cout: int, t: int, vo: int, w: int, sw: int, tw: int)
    requires vp + cin * w == 2 * vo
    requires s + cout * BASE == 2 * t + cin
    requires sw == s * w && tw == t * w
    ensures vp + sw + cout * (w * BASE) == 2 * (vo + tw)
  {
    assert (s + cout * BASE) * w == (2 * t + cin) * w;
  }

  /** The limb loop of one `lsl` shift position: every limb of both planes shifted up one bit, with the bits out of the top limbs. */
  method LslLimbs(p: SvPrimaryLiteralIntegral) returns (r: SvPrimaryLiteralIntegral, leadingOne: bool, leadingOneXz: bool)
    requires p.dataXz.Some? ==> |p.dataXz.value| == |p.data01|
    ensures r.size == p.size && r.signed == p.signed && r.dataXz.Some? == p.dataXz.Some?
    ensures (r.data01, leadingOne) == ShlPrefix(p.data01, |p.data01|)
    ensures r.dataXz.None? ==> !leadingOneXz
    ensures r.dataXz.Some? ==> (r.dataXz.value, leadingOneXz) == ShlPrefix(p.dataXz.value, |p.data01|)
  {
    leadingOne := false;
    leadingOneXz := false;
    r := p;
    for y := 0 to |r.data01|
      invariant r.size == p.size && r.signed == p.signed && |r.data01| == |p.data01|
      invariant (r.data01[..y], leadingOne) == ShlPrefix(p.data01, y) && r.data01[y..] == p.data01[y..]
      invariant r.dataXz.Some? == p.dataXz.Some?
      invariant r.dataXz.None? ==> !leadingOneXz
      invariant r.dataXz.Some? ==>
        |r.dataXz.value| == |p.data01|
        && (r.dataXz.value[..y], leadingOneXz) == ShlPrefix(p.dataXz.value, y)
        && r.dataXz.value[y..] == p.dataXz.value[y..]
    {
      var d, c := ShlLimbAt(r.data01, y, leadingOne, p.data01);
      r, leadingOne := r.(data01 := d), c;
      if Is4State(r) {
        var xs, cx := ShlLimbAt(r.dataXz.value, y, leadingOneXz, p.dataXz.value);
        r, leadingOneXz := r.(dataXz := Some(xs)), cx;
      }
    }
    assert r.data01[..|r.data01|] == r.data01;
    if r.dataXz.Some? {
      assert r.dataXz.value[..|r.data01|] == r.dataXz.value;
    }
  }

  /** Limb `y` of one plane shifted up one bit in place, taking in the bit out of limb `y - 1`. */
  method ShlLimbAt(cur: seq<Limb>, y: nat, leadingOne: bool, ghost orig: seq<Limb>) returns (next: seq<Limb>, carry: bool)
    requires y < |orig| == |cur|
    requires (cur[..y], leadingOne) == ShlPrefix(orig, y) && cur[y..] == orig[y..]
    ensures |next| == |cur|
    ensures (next[..y + 1], carry) == ShlPrefix(orig, y + 1) && next[y + 1..] == orig[y + 1..]
  {
    var preMod := cur[y];
    carry := leadingOne;
    if carry {
      next := cur[y := Shl1(cur[y]) + 1];
      carry := false;
    } else {
      next := cur[y := Shl1(cur[y])];
    }
    if LeadingZeros(preMod) == 0 {
      carry := true;
    }
    ShlPrefixNext(cur, next, orig, y, leadingOne, carry);
  }

  /** One limb of a plane shifted in place extends the shifted prefix by one. */
  lemma ShlPrefixNext(cur: seq<Limb>, next: seq<Limb>, orig: seq<Limb>, y: nat, cin: bool, cout: bool)
    requires y < |orig| == |cur|
    requires (cur[..y], cin) == ShlPrefix(orig, y) && cur[y..] == orig[y..]
    requires next == cur[y := ShlLimb(orig[y], cin).0] && cout == ShlLimb(orig[y], cin).1
    ensures (next[..y + 1], cout) == ShlPrefix(orig, y + 1) && next[y + 1..] == orig[y + 1..]
  {
    assert next[..y + 1] == cur[..y] + [next[y]];
    assert cur[y] == orig[y] by { assert cur[y..][0] == orig[y..][0]; }
  }

  /** One shift position of `lsl`: both planes shifted up one bit, the width one bigger, a limb pushed on a carry out. */
  method LslStep(p: SvPrimaryLiteralIntegral) returns (r: SvPrimaryLiteralIntegral)
    requires Loose(p)
    ensures r.size == p.size + 1 && r.signed == p.signed && r.dataXz.Some? == p.dataXz.Some?
    ensures ValueOf(r.data01) == 2 * ValueOf(p.data01)
    ensures p.dataXz.Some? ==> ValueOf(r.dataXz.value) == 2 * ValueOf(p.dataXz.value)
    ensures Loose(r) && |r.data01| >= |p.data01|
    ensures WF(p) && p.signed ==> WF(r)
  {
    var leadingOne, leadingOneXz;
    r := p.(size := p.size + 1);
    r, leadingOne, leadingOneXz := LslLimbs(r);
    var len := |p.data01|;
    ShlPrefixValue(p.data01, len);
    assert p.data01[..len] == p.data01;
    if r.dataXz.Some? {
      assert p.dataXz.value[..len] == p.dataXz.value;
      ShlPrefixValue(p.dataXz.value, len);
    }
    ghost var d0 := r.data01;
    ghost var x0 := r.dataXz;
    var t01, txz := LslTails(leadingOne, leadingOneXz, Is4State(r), r.signed && r.size > BITS * |r.data01|);
    r := r.(data01 := r.data01 + t01, dataXz := if Is4State(r) then Some(r.dataXz.value + txz) else r.dataXz);
    LslPushed(p, d0, x0, leadingOne, leadingOneXz, t01, txz, r);
  }

  /**
   * The limbs pushed at the end of one `lsl` shift position: a 1 onto each
   * plane with a bit out of its top limb, a 0 onto the other plane of a
   * 4-state literal, and a 0 onto both when a signed literal outgrows its limbs.
   */
  method LslTails(leadingOne: bool, leadingOneXz: bool, is4State: bool, widen: bool) returns (t01: seq<Limb>, txz: seq<Limb>)
    requires !is4State ==> !leadingOneXz
    ensures t01 == [] || t01 == [0] || t01 == [1]
    ensures txz == [] || txz == [0] || txz == [1]
    ensures (leadingOne <==> t01 == [1]) && (leadingOneXz <==> txz == [1])
    ensures is4State ==> |t01| == |txz|
    ensures !is4State ==> txz == []
    ensures |t01| == 1 <==> (leadingOne || leadingOneXz || widen)
  {
    t01, txz := [], [];
    if leadingOne && leadingOneXz {
      t01, txz := [1], [1];
    } else if leadingOne {
      t01 := [1];
      if is4State {
        txz := [0];
      }
    } else if leadingOneXz {
      t01, txz := [0], [1];
    } else if widen {
      t01 := [0];
      if is4State {
        txz := [0];
      }
    }
  }

  /** What the pushes at the end of one `lsl` shift position leave. */
  lemma LslPushed(p: SvPrimaryLiteralIntegral, d0: seq<Limb>, x0: Option<seq<Limb>>, c: bool, cx: bool,
                  t01: seq<Limb>, txz: seq<Limb>, r: SvPrimaryLiteralIntegral)
    requires Loose(p) && |d0| == |p.data01|
    requires ValueOf(d0) + (if c then Weight(|d0|) else 0) == 2 * ValueOf(p.data01)
    requires x0.Some? == p.dataXz.Some?
    requires x0.Some? ==> |x0.value| == |d0| && ValueOf(x0.value) + (if cx then Weight(|d0|) else 0) == 2 * ValueOf(p.dataXz.value)
    requires x0.None? ==> !cx && txz == []
    requires t01 == [] || t01 == [0] || t01 == [1]
    requires txz == [] || txz == [0] || txz == [1]
    requires (c <==> t01 == [1]) && (cx <==> txz == [1])
    requires x0.Some? ==> |t01| == |txz|
    requires |t01| == 1 <==> (c || cx || (p.signed && p.size + 1 > BITS * |d0|))
    requires r.size == p.size + 1 && r.signed == p.signed && r.data01 == d0 + t01
    requires r.dataXz == if x0.Some? then Some(x0.value + txz) else None
    ensures r.size == p.size + 1 && r.signed == p.signed && r.dataXz.Some? == p.dataXz.Some?
    ensures ValueOf(r.data01) == 2 * ValueOf(p.data01)
    ensures p.dataXz.Some? ==> ValueOf(r.dataXz.value) == 2 * ValueOf(p.dataXz.value)
    ensures Loose(r) && |r.data01| >= |p.data01|
    ensures WF(p) && p.signed ==> WF(r)
  {
    LslStepPlane(p.data01, d0, c, t01, p.size);
    if x0.Some? {
      LslStepPlane(p.dataXz.value, x0.value, cx, txz, p.size);
    }
    LslStepLength(p, d0, r, c, cx);
  }

  /** The value of one plane after the pushes of `LslStep`, and how a carry out bounds the width. */
  lemma LslStepPlane(old01: seq<Limb>, shifted: seq<Limb>, carry: bool, tail: seq<Limb>, size: nat)
    requires |shifted| == |old01| && Fits(old01, size)
    requires ValueOf(shifted) + (if carry then Weight(|old01|) else 0) == 2 * ValueOf(old01)
    requires tail == [] || tail == [0] || tail == [1]
    requires carry <==> tail == [1]
    ensures ValueOf(shifted + tail) == 2 * ValueOf(old01)
    ensures Fits(shifted + tail, size + 1)
    ensures carry ==> BITS * |old01| <= size
  {
    PushedValue(shifted, carry, tail);
    assert Pow2(size + 1) == 2 * Pow2(size);
    if carry {
      CarryNeedsWidth(ValueOf(old01), ValueOf(shifted), |old01|, size);
    }
  }

  /** Pushing the bit out of the top limb as a new limb adds it at the next weight. */
  lemma PushedValue(shifted: seq<Limb>, carry: bool, tail: seq<Limb>)
    requires tail == [] || tail == [0] || tail == [1]
    requires carry <==> tail == [1]
    ensures ValueOf(shifted + tail) == ValueOf(shifted) + (if carry then Weight(|shifted|) else 0)
  {
    if tail == [] {
      assert shifted + tail == shifted;
    } else if tail == [1] {
      ValueOfPush(shifted, 1);
    } else {
      ValueOfPush(shifted, 0);
    }
  }

  /** A bit out of the top of `n` limbs leaves a doubled value of at least 2^(64 n), so the width covers them. */
  lemma CarryNeedsWidth(v: nat, vs: nat, n: nat, size: nat)
    requires v < Pow2(size) && vs + Weight(n) == 2 * v
    ensures BITS * n <= size
  {
    assert Pow2(size + 1) == 2 * Pow2(size);
    if size < BITS * n {
      Pow2Monotone(size + 1, BITS * n);
    }
  }

  /** The limb counts after `LslStep`: never more than the width needs, and exactly that for a signed well-formed literal. */
  lemma LslStepLength(p: SvPrimaryLiteralIntegral, d0: seq<Limb>, r: SvPrimaryLiteralIntegral, c: bool, cx: bool)
    requires Loose(p) && |d0| == |p.data01|
    requires r.size == p.size + 1 && r.signed == p.signed
    requires c ==> BITS * |p.data01| <= p.size
    requires cx ==> BITS * |p.data01| <= p.size
    requires |r.data01| == if c || cx || (r.signed && r.size > BITS * |d0|) then |d0| + 1 else |d0|
    ensures |r.data01| <= LimbsFor(r.size) && |r.data01| >= 1
    ensures WF(p) && p.signed ==> |r.data01| == LimbsFor(r.size)
  {
  }

  /**
   * `lsl(n)`: `n` shift positions to the left; the width grows by `n` and each
   * plane is multiplied by 2^n.
   */
  method Lsl(p: SvPrimaryLiteralIntegral, n: nat) returns (r: SvPrimaryLiteralIntegral)
    requires Loose(p)
    ensures r.size == p.size + n && r.signed == p.signed && r.dataXz.Some? == p.dataXz.Some?
    ensures ValueOf(r.data01) == ValueOf(p.data01) * Pow2(n)
    ensures p.dataXz.Some? ==> ValueOf(r.dataXz.value) == ValueOf(p.dataXz.value) * Pow2(n)
    ensures Loose(r) && |r.data01| >= |p.data01|
    ensures WF(p) && p.signed ==> WF(r)
  {
    r := p;
    for k := 0 to n
      invariant r.size == p.size + k && r.signed == p.signed && r.dataXz.Some? == p.dataXz.Some?
      invariant ValueOf(r.data01) == ValueOf(p.data01) * Pow2(k)
      invariant p.dataXz.Some? ==> ValueOf(r.dataXz.value) == ValueOf(p.dataXz.value) * Pow2(k)
      invariant Loose(r) && |r.data01| >= |p.data01|
      invariant WF(p) && p.signed ==> WF(r)
    {
      r := LslStep(r);
      DoubleTimesPow2(ValueOf(p.data01), k);
      if p.dataXz.Some? {
        DoubleTimesPow2(ValueOf(p.dataXz.value), k);
      }
    }
  }

  lemma DoubleTimesPow2(v: nat, k: nat)
    ensures 2 * (v * Pow2(k)) == v * Pow2(k + 1)
  {
  }

  // ---------------------------------------------------------------------
  // `lsr`
  // ---------------------------------------------------------------------

  /** One limb of a right shift by one: the shifted limb with the incoming bit at the top. */
  function ShrLimb(v: Limb, cin: bool): Limb {
    if cin then Shr1(v) + BASE / 2 else Shr1(v)
  }

  /** The limbs from `y` up shifted right by one, and the bit shifted out of limb `y`. */
  function ShrFrom(ds: seq<Limb>, y: nat): (seq<Limb>, bool)
    requires y <= |ds|
    decreases |ds| - y
  {
    if y == |ds| then ([], false)
    else
      var up := ShrFrom(ds, y + 1);
      ([ShrLimb(ds[y], up.1)] + up.0, TrailingZeros(ds[y]) == 0)
  }

  /** Shifting the limbs from `y` up is halving the number they stand for, the bit out being its parity. */
  lemma {:induction false} ShrFromValue(ds: seq<Limb>, y: nat)
    requires y <= |ds|
    ensures |ShrFrom(ds, y).0| == |ds| - y
    ensures 2 * ValueOf(ShrFrom(ds, y).0) + (if ShrFrom(ds, y).1 then 1 else 0) == ValueOf(ds[y..])
    decreases |ds| - y
  {
    if y == |ds| {
      assert ds[y..] == [];
    } else {
      ShrFromValue(ds, y + 1);
      var up := ShrFrom(ds, y + 1);
      var h := ShrLimb(ds[y], up.1);
      assert ds[y..] == [ds[y]] + ds[y + 1..];
      ValueOfCons(h, up.0);
      ValueOfCons(ds[y], ds[y + 1..]);
    }
  }

  /** Limb `y` of one plane shifted down one bit in place, taking in the bit out of limb `y + 1`. */
  method ShrLimbAt(cur: seq<Limb>, y: nat, trailingOne: bool, ghost orig: seq<Limb>) returns (next: seq<Limb>, carry: bool)
    requires y < |orig| == |cur|
    requires cur[y + 1..] == ShrFrom(orig, y + 1).0 && trailingOne == ShrFrom(orig, y + 1).1 && cur[..y + 1] == orig[..y + 1]
    ensures |next| == |cur|
    ensures next[y..] == ShrFrom(orig, y).0 && carry == ShrFrom(orig, y).1 && next[..y] == orig[..y]
  {
    var preMod := cur[y];
    assert preMod == orig[y] by { assert cur[..y + 1][y] == orig[..y + 1][y]; }
    carry := trailingOne;
    if carry {
      next := cur[y := Shr1(cur[y]) + BASE / 2];
      carry := false;
    } else {
      next := cur[y := Shr1(cur[y])];
    }
    if TrailingZeros(preMod) == 0 {
      carry := true;
    }
    ShrFromNext(cur, next, orig, y, trailingOne, carry);
  }

  /** One limb of a plane shifted in place, from the top down, extends the shifted suffix by one. */
  lemma ShrFromNext(cur: seq<Limb>, next: seq<Limb>, orig: seq<Limb>, y: nat, cin: bool, cout: bool)
    requires y < |orig| == |cur|
    requires cur[y + 1..] == ShrFrom(orig, y + 1).0 && cin == ShrFrom(orig, y + 1).1 && cur[..y + 1] == orig[..y + 1]
    requires next == cur[y := ShrLimb(orig[y], cin)] && cout == (TrailingZeros(orig[y]) == 0)
    ensures next[y..] == ShrFrom(orig, y).0 && cout == ShrFrom(orig, y).1 && next[..y] == orig[..y]
  {
    assert next[y..] == [next[y]] + cur[y + 1..];
    assert next[..y] == cur[..y + 1][..y];
  }

  /** One shift position of `lsr`: both planes shifted down one bit, from the top limb down. */
  method LsrStep(p: SvPrimaryLiteralIntegral) returns (r: SvPrimaryLiteralIntegral)
    requires p.dataXz.Some? ==> |p.dataXz.value| == |p.data01|
    ensures r.size == p.size && r.signed == p.signed && r.dataXz.Some? == p.dataXz.Some?
    ensures |r.data01| == |p.data01| && (r.dataXz.Some? ==> |r.dataXz.value| == |p.data01|)
    ensures ValueOf(r.data01) == ValueOf(p.data01) / 2
    ensures p.dataXz.Some? ==> ValueOf(r.dataXz.value) == ValueOf(p.dataXz.value) / 2
  {
    var trailingOne := false;
    var trailingOneXz := false;
    r := p;
    var y := |r.data01|;
    while y > 0
      invariant 0 <= y <= |p.data01|
      invariant r.size == p.size && r.signed == p.signed && |r.data01| == |p.data01|
      invariant r.data01[y..] == ShrFrom(p.data01, y).0 && trailingOne == ShrFrom(p.data01, y).1
      invariant r.data01[..y] == p.data01[..y]
      invariant r.dataXz.Some? == p.dataXz.Some?
      invariant r.dataXz.Some? ==>
        |r.dataXz.value| == |p.data01|
        && r.dataXz.value[y..] == ShrFrom(p.dataXz.value, y).0 && trailingOneXz == ShrFrom(p.dataXz.value, y).1
        && r.dataXz.value[..y] == p.dataXz.value[..y]
    {
      y := y - 1;
      var d, c := ShrLimbAt(r.data01, y, trailingOne, p.data01);
      r, trailingOne := r.(data01 := d), c;
      if Is4State(r) {
        var xs, cx := ShrLimbAt(r.dataXz.value, y, trailingOneXz, p.dataXz.value);
        r, trailingOneXz := r.(dataXz := Some(xs)), cx;
      }
    }
    ShrFromValue(p.data01, 0);
    assert r.data01[0..] == r.data01 && p.data01[0..] == p.data01;
    HalfOf(ValueOf(r.data01), if trailingOne then 1 else 0, ValueOf(p.data01));
    if r.dataXz.Some? {
      ShrFromValue(p.dataXz.value, 0);
      assert r.dataXz.value[0..] == r.dataXz.value && p.dataXz.value[0..] == p.dataXz.value;
      HalfOf(ValueOf(r.dataXz.value), if trailingOneXz then 1 else 0, ValueOf(p.dataXz.value));
    }
  }

  lemma HalfOf(h: nat, b: nat, v: nat)
    requires b < 2 && 2 * h + b == v
    ensures h == v / 2
  {
  }

  /** `lsr(n)`: `n` shift positions to the right; the width is kept and each plane is divided by 2^n. */
  method Lsr(p: SvPrimaryLiteralIntegral, n: nat) returns (r: SvPrimaryLiteralIntegral)
    requires p.dataXz.Some? ==> |p.dataXz.value| == |p.data01|
    ensures r.size == p.size && r.signed == p.signed && r.dataXz.Some? == p.dataXz.Some?
    ensures |r.data01| == |p.data01| && (r.dataXz.Some? ==> |r.dataXz.value| == |p.data01|)
    ensures ValueOf(r.data01) == ValueOf(p.data01) / Pow2(n)
    ensures p.dataXz.Some? ==> ValueOf(r.dataXz.value) == ValueOf(p.dataXz.value) / Pow2(n)
  {
    r := p;
    for k := 0 to n
      invariant r.size == p.size && r.signed == p.signed && r.dataXz.Some? == p.dataXz.Some?
      invariant |r.data01| == |p.data01| && (r.dataXz.Some? ==> |r.dataXz.value| == |p.data01|)
      invariant ValueOf(r.data01) == ValueOf(p.data01) / Pow2(k)
      invariant p.dataXz.Some? ==> ValueOf(r.dataXz.value) == ValueOf(p.dataXz.value) / Pow2(k)
    {
      r := LsrStep(r);
      HalfOfQuotient(ValueOf(p.data01), k);
      if p.dataXz.Some? {
        HalfOfQuotient(ValueOf(p.dataXz.value), k);
      }
    }
  }

  lemma HalfOfQuotient(v: nat, k: nat)
    ensures (v / Pow2(k)) / 2 == v / Pow2(k + 1)
  {
    var q, r := v / Pow2(k), v % Pow2(k);
    var q2, r2 := q / 2, q % 2;
    assert v == q * Pow2(k) + r;
    assert q == q2 * 2 + r2;
    assert v == q2 * Pow2(k + 1) + (r2 * Pow2(k) + r) by {
      assert q * Pow2(k) == q2 * (2 * Pow2(k)) + r2 * Pow2(k);
    }
    MulLe(r2, 1, Pow2(k));
    DivModUnique(v, Pow2(k + 1), q2, r2 * Pow2(k) + r);
  }

  /** A left shift followed by a right shift by the same count gives back the value. */
  lemma LslThenLsr(v: nat, n: nat)
    ensures (v * Pow2(n)) / Pow2(n) == v
  {
    MulDivExact(v, Pow2(n));
  }

  // ---------------------------------------------------------------------
  // Rotations of the low `s` bits of a number.
  // ---------------------------------------------------------------------

  /** One rotation left of the low `s` bits: bit `s - 1` comes round to bit 0. */
  function RolValue(v: nat, s: nat): nat
    requires s >= 1
  {
    (2 * v) % Pow2(s) + (if v >= Pow2(s - 1) then 1 else 0)
  }

  /** One rotation right of the low `s` bits: bit 0 comes round to bit `s - 1`. */
  function RorValue(v: nat, s: nat): nat
    requires s >= 1
  {
    v / 2 + (v % 2) * Pow2(s - 1)
  }

  /** A left rotation doubles the bits below the top one and brings the top one round. */
  lemma RolHalf(v: nat, s: nat) returns (h: nat, c: nat)
    requires s >= 1 && v < Pow2(s)
    ensures RolValue(v, s) == 2 * h + c && c < 2 && h < Pow2(s - 1)
    ensures c == 1 <==> Bit(v, s - 1)
    ensures h == v % Pow2(s - 1)
  {
    var p := Pow2(s - 1);
    assert Pow2(s) == 2 * p;
    var a, q := SplitAt(v, s - 1);
    SmallQuotient(v, a, q, p);
    TopBit(v, s);
    if q == 0 {
      DivModUnique(v, p, 0, a);
      DivModUnique(2 * v, 2 * p, 0, 2 * a);
    } else {
      DivModUnique(v, p, 1, a);
      DivModUnique(2 * v, 2 * p, 1, 2 * a);
    }
    h := a;
    c := if v >= p then 1 else 0;
  }

  lemma RolBits(v: nat, s: nat, i: nat)
    requires s >= 1 && v < Pow2(s)
    ensures RolValue(v, s) < Pow2(s)
    ensures i < s ==> Bit(RolValue(v, s), i) == if i == 0 then Bit(v, s - 1) else Bit(v, i - 1)
  {
    var h, c := RolHalf(v, s);
    assert Pow2(s) == 2 * Pow2(s - 1);
    BitDouble(h, c, 0);
    if 0 < i < s {
      BitDouble(h, c, i - 1);
      BitMod(v, s - 1, i - 1);
    }
  }

  lemma RorBits(v: nat, s: nat, i: nat)
    requires s >= 1 && v < Pow2(s)
    ensures RorValue(v, s) < Pow2(s)
    ensures i < s ==> Bit(RorValue(v, s), i) == if i == s - 1 then Bit(v, 0) else Bit(v, i + 1)
  {
    var a := v / 2;
    assert Pow2(s) == 2 * Pow2(s - 1);
    assert a < Pow2(s - 1);
    MulLe(v % 2, 1, Pow2(s - 1));
    BitOfSum(a, v % 2, s - 1, i);
  }

  /** Two numbers below 2^s with the same low `s` bits are equal. */
  lemma {:induction false} BitsEqual(a: nat, b: nat, s: nat)
    requires a < Pow2(s) && b < Pow2(s)
    requires forall i :: 0 <= i < s ==> Bit(a, i) == Bit(b, i)
    ensures a == b
    decreases s
  {
    if s == 0 {
    } else {
      assert Bit(a, 0) == Bit(b, 0);
      forall i | 0 <= i < s - 1
        ensures Bit(a / 2, i) == Bit(b / 2, i)
      {
        assert Bit(a, i + 1) == Bit(b, i + 1);
      }
      BitsEqual(a / 2, b / 2, s - 1);
    }
  }

  /** Rotating `n` times to the left. */
  function RotateLeft(v: nat, s: nat, n: nat): nat
    requires s >= 1
  {
    if n == 0 then v else RolValue(RotateLeft(v, s, n - 1), s)
  }

  /** Rotating `n` times to the right. */
  function RotateRight(v: nat, s: nat, n: nat): nat
    requires s >= 1
  {
    if n == 0 then v else RorValue(RotateRight(v, s, n - 1), s)
  }

  lemma ModShift(x: int, s: int)
    requires s > 0
    ensures (x + s) % s == x % s
  {
    DivModUnique(x + s, s, x / s + 1, x % s);
  }

  /** After `n` rotations left, bit `i` holds the bit that was `n` places below it, counted round the width. */
  lemma {:induction false} RotateLeftBits(v: nat, s: nat, n: nat, i: nat)
    requires s >= 1 && v < Pow2(s) && i < s
    ensures RotateLeft(v, s, n) < Pow2(s)
    ensures Bit(RotateLeft(v, s, n), i) == Bit(v, (i - n) % s)
    decreases n
  {
    if n == 0 {
      DivModUnique(i, s, 0, i);
    } else {
      var w := RotateLeft(v, s, n - 1);
      var src: nat := if i == 0 then s - 1 else i - 1;
      RotateLeftBits(v, s, n - 1, src);
      RolBits(w, s, i);
      RolIndex(i, n, s);
    }
  }

  /** The position a rotation left reads from, counted round the width. */
  lemma RolIndex(i: int, n: int, s: int)
    requires s >= 1 && 0 <= i < s && n >= 1
    ensures ((if i == 0 then s - 1 else i - 1) - (n - 1)) % s == (i - n) % s
  {
    if i == 0 {
      ModShift(-n, s);
    }
  }

  /** After `n` rotations right, bit `i` holds the bit that was `n` places above it, counted round the width. */
  lemma {:induction false} RotateRightBits(v: nat, s: nat, n: nat, i: nat)
    requires s >= 1 && v < Pow2(s) && i < s
    ensures RotateRight(v, s, n) < Pow2(s)
    ensures Bit(RotateRight(v, s, n), i) == Bit(v, (i + n) % s)
    decreases n
  {
    if n == 0 {
      DivModUnique(i, s, 0, i);
    } else {
      var w := RotateRight(v, s, n - 1);
      if i == s - 1 {
        RotateRightBits(v, s, n - 1, 0);
        RorBits(w, s, i);
        ModShift(n - 1, s);
        assert i + n == n - 1 + s;
      } else {
        RotateRightBits(v, s, n - 1, i + 1);
        RorBits(w, s, i);
      }
    }
  }

  lemma ModUndo(i: int, n: int, s: int)
    requires s > 0 && 0 <= i < s
    ensures ((i + n) % s - n) % s == i
  {
    var q := (i + n) / s;
    assert (i + n) % s - n == i - q * s;
    DivModUnique(i - q * s, s, -q, i);
  }

  /** Rotating right undoes rotating left by the same count. */
  lemma RotateRightUndoesLeft(v: nat, s: nat, n: nat)
    requires s >= 1 && v < Pow2(s)
    ensures RotateRight(RotateLeft(v, s, n), s, n) == v
  {
    var l := RotateLeft(v, s, n);
    RotateLeftBits(v, s, n, 0);
    RotateRightBits(l, s, n, 0);
    forall i | 0 <= i < s
      ensures Bit(RotateRight(l, s, n), i) == Bit(v, i)
    {
      RotateRightBits(l, s, n, i);
      RotateLeftBits(v, s, n, (i + n) % s);
      ModUndo(i, n, s);
    }
    BitsEqual(RotateRight(l, s, n), v, s);
  }

  /** A full turn of rotations left gives back the value. */
  lemma RotateLeftFullTurn(v: nat, s: nat)
    requires s >= 1 && v < Pow2(s)
    ensures RotateLeft(v, s, s) == v
  {
    RotateLeftBits(v, s, s, 0);
    forall i | 0 <= i < s
      ensures Bit(RotateLeft(v, s, s), i) == Bit(v, i)
    {
      RotateLeftBits(v, s, s, i);
      DivModUnique(i - s, s, -1, i);
    }
    BitsEqual(RotateLeft(v, s, s), v, s);
  }

  /** Rotating zero gives zero. */
  lemma {:induction false} RotateLeftZero(s: nat, n: nat)
    requires s >= 1
    ensures RotateLeft(0, s, n) == 0
  {
    if n > 0 {
      RotateLeftZero(s, n - 1);
      assert RotateLeft(0, s, n) == RolValue(0, s);
      DivModUnique(0, Pow2(s), 0, 0);
    }
  }

  /** A full turn of rotations right gives back the value. */
  lemma RotateRightFullTurn(v: nat, s: nat)
    requires s >= 1 && v < Pow2(s)
    ensures RotateRight(v, s, s) == v
  {
    RotateRightBits(v, s, s, 0);
    forall i | 0 <= i < s
      ensures Bit(RotateRight(v, s, s), i) == Bit(v, i)
    {
      RotateRightBits(v, s, s, i);
      ModShift(i, s);
      DivModUnique(i, s, 0, i);
    }
    BitsEqual(RotateRight(v, s, s), v, s);
  }

  // ---------------------------------------------------------------------
  // `rol` and `ror`
  // ---------------------------------------------------------------------

  /** `rol(n)`: `n` rotations left of the low `size` bits of each plane; the width and the limbs are kept. */
  method Rol(p: SvPrimaryLiteralIntegral, n: nat) returns (r: SvPrimaryLiteralIntegral)
    requires WF(p)
    ensures WF(r) && r.size == p.size && r.signed == p.signed && r.dataXz.Some? == p.dataXz.Some?
    ensures ValueOf(r.data01) == RotateLeft(ValueOf(p.data01), p.size, n)
    ensures p.dataXz.Some? ==> ValueOf(r.dataXz.value) == RotateLeft(ValueOf(p.dataXz.value), p.size, n)
  {
    r := p;
    for k := 0 to n
      invariant WF(r) && r.size == p.size && r.signed == p.signed && r.dataXz.Some? == p.dataXz.Some?
      invariant ValueOf(r.data01) == RotateLeft(ValueOf(p.data01), p.size, k)
      invariant p.dataXz.Some? ==> ValueOf(r.dataXz.value) == RotateLeft(ValueOf(p.dataXz.value), p.size, k)
    {
      r := RolStep(r);
    }
  }

  /** One rotation of `rol`: the top bits noted, a shift left by one, a truncation back to the width, the top bits put in at bit 0. */
  method RolStep(p: SvPrimaryLiteralIntegral) returns (r: SvPrimaryLiteralIntegral)
    requires WF(p)
    ensures WF(r) && r.size == p.size && r.signed == p.signed && r.dataXz.Some? == p.dataXz.Some?
    ensures ValueOf(r.data01) == RolValue(ValueOf(p.data01), p.size)
    ensures p.dataXz.Some? ==> ValueOf(r.dataXz.value) == RolValue(ValueOf(p.dataXz.value), p.size)
  {
    var previousSize := p.size;
    IsSetMsb01Meaning(p);
    var leadingOne := IsSetMsb01(p);
    var leadingOneXz := IsSetMsbXz(p);
    r := LslTruncate(p);
    RolPlaneCut(ValueOf(p.data01), p.size, r.data01);
    if leadingOne {
      r := r.(data01 := r.data01[0 := r.data01[0] + 1]);
    }
    if p.dataXz.Some? {
      RolPlaneCut(ValueOf(p.dataXz.value), p.size, r.dataXz.value);
    }
    if leadingOneXz {
      r := r.(dataXz := Some(r.dataXz.value[0 := r.dataXz.value[0] + 1]));
    }
  }

  /** `lsl(1)` then `_truncate` back to the previous width: each plane doubled modulo 2^size. */
  method LslTruncate(p: SvPrimaryLiteralIntegral) returns (r: SvPrimaryLiteralIntegral)
    requires WF(p)
    ensures r.size == p.size && r.signed == p.signed && r.dataXz.Some? == p.dataXz.Some?
    ensures |r.data01| == LimbsFor(p.size) && ValueOf(r.data01) == (ValueOf(p.data01) * Pow2(1)) % Pow2(p.size)
    ensures p.dataXz.Some? ==>
      |r.dataXz.value| == LimbsFor(p.size) && ValueOf(r.dataXz.value) == (ValueOf(p.dataXz.value) * Pow2(1)) % Pow2(p.size)
  {
    var previousSize := p.size;
    WFIsLoose(p);
    var shifted := Lsl(p, 1);
    var t := Truncate(shifted, previousSize);
    assert 1 <= previousSize <= shifted.size;
    r := t.value;
  }

  /** The plane of a well-formed literal, doubled and cut back to `s` bits, has an even bottom limb, and the rotation adds the old top bit there. */
  lemma RolPlaneCut(v: nat, s: nat, c: seq<Limb>)
    requires s >= 1 && v < Pow2(s) && c != [] && ValueOf(c) == (v * Pow2(1)) % Pow2(s)
    ensures c[0] + 1 < BASE
    ensures v >= Pow2(s - 1) ==> ValueOf(c[0 := c[0] + 1]) == RolValue(v, s)
    ensures v < Pow2(s - 1) ==> ValueOf(c) == RolValue(v, s)
    ensures RolValue(v, s) < Pow2(s)
  {
    RolPlane(v, s);
    ValueOfParity(c);
    ValueOfUpdate(c, 0, c[0] + 1);
    RolBits(v, s, 0);
  }

  /** The doubled value cut to `s` bits is even, and the rotation is it plus the old top bit. */
  lemma RolPlane(v: nat, s: nat)
    requires s >= 1
    ensures ((v * Pow2(1)) % Pow2(s)) % 2 == 0
    ensures (v * Pow2(1)) % Pow2(s) + (if v >= Pow2(s - 1) then 1 else 0) == RolValue(v, s)
  {
    assert v * Pow2(1) == 2 * v;
    BitMod(2 * v, s, 0);
    BitDouble(v, 0, 0);
  }

  /** The bits of the width held in the top limb: the `msb` of `ror` and the `first_elmnt_bits` of `inv`. */
  function TopLimbBits(size: nat): (r: nat)
    requires size >= 1
    ensures 1 <= r <= BITS && size == BITS * (LimbsFor(size) - 1) + r
  {
    if size % BITS == 0 then BITS else size % BITS
  }

  /** `ror(n)`: `n` rotations right of the low `size` bits of each plane; the width and the limbs are kept. */
  method Ror(p: SvPrimaryLiteralIntegral, n: nat) returns (r: SvPrimaryLiteralIntegral)
    requires WF(p)
    ensures WF(r) && r.size == p.size && r.signed == p.signed && r.dataXz.Some? == p.dataXz.Some?
    ensures |r.data01| == |p.data01|
    ensures ValueOf(r.data01) == RotateRight(ValueOf(p.data01), p.size, n)
    ensures p.dataXz.Some? ==> ValueOf(r.dataXz.value) == RotateRight(ValueOf(p.dataXz.value), p.size, n)
  {
    r := p;
    var lastIndex := |r.data01| - 1;
    var msb := TopLimbBits(r.size);
    LimbsForBounds(p.size);
    assert p.size == BITS * lastIndex + msb;
    for k := 0 to n
      invariant WF(r) && r.size == p.size && r.signed == p.signed && r.dataXz.Some? == p.dataXz.Some?
      invariant |r.data01| == |p.data01|
      invariant ValueOf(r.data01) == RotateRight(ValueOf(p.data01), p.size, k)
      invariant p.dataXz.Some? ==> ValueOf(r.dataXz.value) == RotateRight(ValueOf(p.dataXz.value), p.size, k)
    {
      r := RorOnce(r, lastIndex, msb);
    }
  }

  /** One pass of the loop of `ror`: shift right by one and put the bit shifted out back on top, in both planes. */
  method RorOnce(p: SvPrimaryLiteralIntegral, lastIndex: nat, msb: nat) returns (r: SvPrimaryLiteralIntegral)
    requires WF(p) && lastIndex == |p.data01| - 1 && 1 <= msb <= BITS && p.size == BITS * lastIndex + msb
    ensures WF(r) && r.size == p.size && r.signed == p.signed && r.dataXz.Some? == p.dataXz.Some?
    ensures |r.data01| == |p.data01|
    ensures ValueOf(r.data01) == RorValue(ValueOf(p.data01), p.size)
    ensures p.dataXz.Some? ==> ValueOf(r.dataXz.value) == RorValue(ValueOf(p.dataXz.value), p.size)
  {
    var trailingOne := TrailingZeros(p.data01[0]) == 0;
    var trailingOneXz := false;
    if Is4State(p) {
      trailingOneXz := TrailingZeros(p.dataXz.value[0]) == 0;
    }
    r := Lsr(p, 1);
    ghost var halved := r;
    var top := Pow2(msb - 1);
    RorTop(r.data01, ValueOf(p.data01), lastIndex, msb, p.size);
    if trailingOne {
      r := r.(data01 := r.data01[lastIndex := r.data01[lastIndex] + top]);
    }
    RorPlane(p.data01, halved.data01, r.data01, trailingOne, lastIndex, msb, p.size);
    if Is4State(r) {
      RorTop(r.dataXz.value, ValueOf(p.dataXz.value), lastIndex, msb, p.size);
      if trailingOneXz {
        r := r.(dataXz := Some(r.dataXz.value[lastIndex := r.dataXz.value[lastIndex] + top]));
      }
      RorPlane(p.dataXz.value, halved.dataXz.value, r.dataXz.value, trailingOneXz, lastIndex, msb, p.size);
    }
  }

  /**
   * `2usize.pow(msb - 1)`, the weight within the top limb of bit `size - 1`,
   * and why adding it to the top limb of a halved plane stays within a limb.
   */
  lemma RorTop(halved: seq<Limb>, v: nat, lastIndex: nat, msb: nat, size: nat)
    requires 1 <= msb <= BITS && size == BITS * lastIndex + msb && |halved| == lastIndex + 1
    requires v < Pow2(size) && ValueOf(halved) == v / 2
    ensures halved[lastIndex] + Pow2(msb - 1) < BASE
    ensures Pow2(msb - 1) * Weight(lastIndex) == Pow2(size - 1)
  {
    Pow2Word();
    Pow2Monotone(msb - 1, BITS - 1);
    RorTopWeight(lastIndex, msb, size);
    ValueOfTop(halved);
    TopRoom(halved[lastIndex], Pow2(msb - 1), Weight(lastIndex), ValueOf(halved), v, Pow2(size - 1));
  }

  /** Bit `size - 1` sits at weight 2^(msb - 1) within limb `lastIndex`. */
  lemma RorTopWeight(lastIndex: nat, msb: nat, size: nat)
    requires 1 <= msb && size == BITS * lastIndex + msb
    ensures Pow2(msb - 1) * Weight(lastIndex) == Pow2(size - 1)
    ensures Pow2(size) == 2 * Pow2(size - 1)
  {
    var top, w := Pow2(msb - 1), Weight(lastIndex);
    Pow2Add(BITS * lastIndex, msb - 1);
    assert BITS * lastIndex + (msb - 1) == size - 1;
    assert w * top == top * w;
  }

  /** A top digit `t` of weight `w` in a number below `top * w` is below `top`. */
  lemma TopRoom(t: nat, top: nat, w: nat, h: nat, v: nat, half: nat)
    requires w >= 1 && h >= t * w && h == v / 2 && v < 2 * half && half == top * w
    ensures t < top
  {
    if t >= top {
      MulLe(top, t, w);
    }
  }

  /** The value of one plane after one rotation of `ror`. */
  lemma RorPlane(before: seq<Limb>, halved: seq<Limb>, fin: seq<Limb>, odd: bool, lastIndex: nat, msb: nat, size: nat)
    requires 1 <= msb <= BITS && size == BITS * lastIndex + msb && |halved| == |before| == lastIndex + 1
    requires ValueOf(before) < Pow2(size) && ValueOf(halved) == ValueOf(before) / 2
    requires odd == (TrailingZeros(before[0]) == 0)
    requires halved[lastIndex] + Pow2(msb - 1) < BASE
    requires Pow2(msb - 1) * Weight(lastIndex) == Pow2(size - 1)
    requires fin == if odd then halved[lastIndex := halved[lastIndex] + Pow2(msb - 1)] else halved
    ensures |fin| == |before| && ValueOf(fin) == RorValue(ValueOf(before), size)
    ensures Fits(fin, size)
  {
    var v := ValueOf(before);
    ValueOfParity(before);
    if odd {
      ValueOfUpdate(halved, lastIndex, halved[lastIndex] + Pow2(msb - 1));
      AddMul(halved[lastIndex], Pow2(msb - 1), Weight(lastIndex));
    }
    RorArith(v, ValueOf(halved), ValueOf(fin), odd, Pow2(size - 1), size);
    RorBits(v, size, 0);
  }

  lemma AddMul(t: int, a: int, w: int)
    ensures (t + a) * w == t * w + a * w
  {
  }

  /** The arithmetic of one rotation right, on plain numbers. */
  lemma RorArith(v: nat, vh: nat, vf: nat, odd: bool, half: nat, size: nat)
    requires size >= 1 && half == Pow2(size - 1)
    requires vh == v / 2 && odd == (v % 2 == 1)
    requires vf == vh + (if odd then half else 0)
    ensures vf == RorValue(v, size)
  {
  }

  // ---------------------------------------------------------------------
  // `inv`
  // ---------------------------------------------------------------------

  /** The effect of `~` on one bit: 0 and 1 swap, X stays X and Z becomes X. */
  function LogicNot(b: Logic): Logic {
    match b
    case L0 => L1
    case L1 => L0
    case LX => LX
    case LZ => LX
  }

  /** The position whose bit sits at `i` after `k` rotations right of `s` bits, `k` at most `s`. */
  function RotIndex(i: nat, k: nat, s: nat): nat {
    if i + k < s then i + k else i + k - s
  }

  /**
   * Bit `i` of the 0/1 plane after `k` steps of `inv`: the plane has turned
   * `k` places right, and the bits at original positions `s - 1`, `0`, ...,
   * `k - 2` have been complemented, X/Z positions giving 0.
   */
  ghost function InvExpected(d: nat, x: nat, s: nat, k: nat, i: nat): bool
    requires k <= s && i < s
  {
    var j := RotIndex(i, k, s);
    if (k >= 1 && j == s - 1) || j + 1 < k then !Bit(x, j) && !Bit(d, j) else Bit(d, j)
  }

  /** The index of the bit at the top after `k` rotations right. */
  function InvTop(s: nat, k: nat): nat
    requires 1 <= s && k < s
  {
    if k == 0 then s - 1 else k - 1
  }

  /** One step of `inv` on the bits: the top bit complemented from the X/Z rule, then one rotation right. */
  lemma InvStepBits(d: nat, x: nat, s: nat, k: nat, cur: nat, modified: nat, next: nat, xcur: nat, xnext: nat)
    requires 1 <= s && k < s
    requires forall i :: 0 <= i < s ==> Bit(cur, i) == InvExpected(d, x, s, k, i)
    requires forall i :: 0 <= i < s ==> Bit(xcur, i) == Bit(x, RotIndex(i, k, s))
    requires forall i :: 0 <= i < s ==>
      Bit(modified, i) == if i == s - 1 then !Bit(x, InvTop(s, k)) && !Bit(d, InvTop(s, k)) else Bit(cur, i)
    requires forall i :: 0 <= i < s ==> Bit(next, i) == if i == s - 1 then Bit(modified, 0) else Bit(modified, i + 1)
    requires forall i :: 0 <= i < s ==> Bit(xnext, i) == if i == s - 1 then Bit(xcur, 0) else Bit(xcur, i + 1)
    ensures forall i :: 0 <= i < s ==> Bit(next, i) == InvExpected(d, x, s, k + 1, i)
    ensures forall i :: 0 <= i < s ==> Bit(xnext, i) == Bit(x, RotIndex(i, k + 1, s))
  {
    forall i | 0 <= i < s
      ensures Bit(next, i) == InvExpected(d, x, s, k + 1, i)
    {
      if i == s - 1 {
        assert Bit(next, i) == Bit(modified, 0);
        if s == 1 {
          assert Bit(modified, 0) == (!Bit(x, InvTop(s, k)) && !Bit(d, InvTop(s, k)));
        } else {
          assert Bit(modified, 0) == Bit(cur, 0) == InvExpected(d, x, s, k, 0);
        }
      } else {
        assert Bit(next, i) == Bit(modified, i + 1);
        if i + 1 == s - 1 {
          assert Bit(modified, i + 1) == (!Bit(x, InvTop(s, k)) && !Bit(d, InvTop(s, k)));
        } else {
          assert Bit(modified, i + 1) == Bit(cur, i + 1) == InvExpected(d, x, s, k, i + 1);
        }
      }
    }
    forall i | 0 <= i < s
      ensures Bit(xnext, i) == Bit(x, RotIndex(i, k + 1, s))
    {
      if i == s - 1 {
        assert Bit(xnext, i) == Bit(xcur, 0);
      } else {
        assert Bit(xnext, i) == Bit(xcur, i + 1);
      }
    }
  }

  /** The X/Z bit of a literal is the bit of its X/Z value. */
  lemma XzBitValue(p: SvPrimaryLiteralIntegral, i: nat)
    ensures XzBit(p, i) == Bit(XzValue(p), i)
  {
    if p.dataXz.None? {
      BitOfZero(i);
    }
  }

  /** The top limb of a well-formed plane holds bit `s - 1` at weight `top`, and has no bit above it. */
  lemma InvTopLimb(ds: seq<Limb>, s: nat, top: nat)
    requires s >= 1 && |ds| == LimbsFor(s) && Fits(ds, s)
    requires BITS * (|ds| - 1) < s <= BITS * |ds|
    requires top == Pow2(TopBits(s, |ds|) - 1)
    ensures ds[|ds| - 1] >= top <==> ValueOf(ds) >= Pow2(s - 1)
    ensures ds[|ds| - 1] < 2 * top && 2 * top <= BASE
    ensures top * Weight(|ds| - 1) == Pow2(s - 1)
  {
    var n := |ds| - 1;
    var k := TopBits(s, |ds|);
    var w := Weight(n);
    Pow2Add(BITS * n, k - 1);
    assert top * w == Pow2(s - 1);
    Pow2Add(BITS * n, k);
    assert Pow2(s) == w * Pow2(k);
    ValueOfTop(ds);
    TopLimbBounds(ValueOf(ds[..n]), ds[n], w, Pow2(k), top);
    assert Pow2(k) == 2 * top;
    Pow2Monotone(k, BITS);
    Pow2Word();
  }

  /** Clearing bit `s - 1` of a well-formed plane where it is set. */
  lemma InvClearTop(ds: seq<Limb>, s: nat, top: nat)
    requires s >= 1 && |ds| == LimbsFor(s) && Fits(ds, s)
    requires BITS * (|ds| - 1) < s <= BITS * |ds|
    requires top == Pow2(TopBits(s, |ds|) - 1)
    requires Bit(ValueOf(ds), s - 1)
    ensures ds[|ds| - 1] >= top
    ensures Fits(ds[|ds| - 1 := ds[|ds| - 1] - top], s)
    ensures forall i :: 0 <= i < s ==>
      Bit(ValueOf(ds[|ds| - 1 := ds[|ds| - 1] - top]), i) == (i != s - 1 && Bit(ValueOf(ds), i))
  {
    var n := |ds| - 1;
    TopBit(ValueOf(ds), s);
    InvTopLimb(ds, s, top);
    ValueOfUpdate(ds, n, ds[n] - top);
    AddMul(ds[n] - top, top, Weight(n));
    forall i | 0 <= i < s
      ensures Bit(ValueOf(ds) - Pow2(s - 1), i) == (i != s - 1 && Bit(ValueOf(ds), i))
    {
      BitClear(ValueOf(ds), s - 1, i);
    }
  }

  /** Setting bit `s - 1` of a well-formed plane where it is clear. */
  lemma InvSetTop(ds: seq<Limb>, s: nat, top: nat)
    requires s >= 1 && |ds| == LimbsFor(s) && Fits(ds, s)
    requires BITS * (|ds| - 1) < s <= BITS * |ds|
    requires top == Pow2(TopBits(s, |ds|) - 1)
    requires !Bit(ValueOf(ds), s - 1)
    ensures ds[|ds| - 1] + top < BASE
    ensures Fits(ds[|ds| - 1 := ds[|ds| - 1] + top], s)
    ensures forall i :: 0 <= i < s ==>
      Bit(ValueOf(ds[|ds| - 1 := ds[|ds| - 1] + top]), i) == (i == s - 1 || Bit(ValueOf(ds), i))
  {
    var n := |ds| - 1;
    TopBit(ValueOf(ds), s);
    InvTopLimb(ds, s, top);
    ValueOfUpdate(ds, n, ds[n] + top);
    AddMul(ds[n], top, Weight(n));
    assert Pow2(s) == 2 * Pow2(s - 1);
    forall i | 0 <= i < s
      ensures Bit(ValueOf(ds) + Pow2(s - 1), i) == (i == s - 1 || Bit(ValueOf(ds), i))
    {
      BitSet(ValueOf(ds), s - 1, i);
    }
  }

  /** The two tests of an `inv` step are the tests of bit `size - 1` of each plane. */
  lemma InvTests(r: SvPrimaryLiteralIntegral, lastIndex: nat, remainingBits: nat)
    requires WF(r) && lastIndex == |r.data01| - 1
    requires BITS * lastIndex < r.size <= BITS * (lastIndex + 1)
    requires remainingBits == BITS - TopBits(r.size, |r.data01|)
    ensures (LeadingZeros(r.data01[lastIndex]) == remainingBits) == Bit(ValueOf(r.data01), r.size - 1)
    ensures (Is4State(r) && LeadingZeros(r.dataXz.value[lastIndex]) == remainingBits) == XzBit(r, r.size - 1)
  {
    IsSetMsb01Meaning(r);
    TopBit(ValueOf(r.data01), r.size);
    if r.dataXz.Some? {
      TopBit(ValueOf(r.dataXz.value), r.size);
    }
  }

  /**
   * `q` is `r` with bit `size - 1` of the 0/1 plane replaced by the complement
   * of the old bit, or by 0 where the X/Z plane has its top bit set.
   */
  ghost predicate TopBitFlipped(r: SvPrimaryLiteralIntegral, q: SvPrimaryLiteralIntegral) {
    WF(q) && q.size == r.size && q.signed == r.signed && q.dataXz == r.dataXz && |q.data01| == |r.data01|
    && forall i :: 0 <= i < r.size ==>
      Bit(ValueOf(q.data01), i) == if i == r.size - 1 then !XzBit(r, r.size - 1) && !Bit(ValueOf(r.data01), r.size - 1) else Bit(ValueOf(r.data01), i)
  }

  /**
   * The top-bit update of one `inv` step: bit `size - 1` of the 0/1 plane
   * becomes the complement of the old bit, or 0 where the X/Z plane has its
   * top bit set; every other bit and the X/Z plane stay.
   */
  method InvTopBit(r: SvPrimaryLiteralIntegral, lastIndex: nat, remainingBits: nat, top: nat) returns (q: SvPrimaryLiteralIntegral)
    requires WF(r) && lastIndex == |r.data01| - 1
    requires BITS * lastIndex < r.size <= BITS * (lastIndex + 1)
    requires remainingBits == BITS - TopBits(r.size, |r.data01|) && top == Pow2(TopBits(r.size, |r.data01|) - 1)
    ensures TopBitFlipped(r, q)
  {
    var s := r.size;
    InvTests(r, lastIndex, remainingBits);
    q := r;
    if Is4State(q) && LeadingZeros(q.dataXz.value[lastIndex]) == remainingBits {
      if LeadingZeros(q.data01[lastIndex]) == remainingBits {
        InvClearTop(q.data01, s, top);
        q := q.(data01 := q.data01[lastIndex := q.data01[lastIndex] - top]);
      }
    } else if LeadingZeros(q.data01[lastIndex]) == remainingBits {
      InvClearTop(q.data01, s, top);
      q := q.(data01 := q.data01[lastIndex := q.data01[lastIndex] - top]);
    } else {
      InvSetTop(q.data01, s, top);
      q := q.(data01 := q.data01[lastIndex := q.data01[lastIndex] + top]);
    }
  }

  /** One step of `inv` on the plane values: the top-bit update, then one rotation right, moves the invariant from `k` to `k + 1`. */
  lemma InvLoopStep(d: nat, x: nat, s: nat, k: nat, cv: nat, cx: nat, mv: nat, nv: nat, nx: nat)
    requires 1 <= s && k < s && cv < Pow2(s) && cx < Pow2(s) && mv < Pow2(s)
    requires PlanesState(cv, cx, d, x, s, k)
    requires forall i :: 0 <= i < s ==>
      Bit(mv, i) == if i == s - 1 then !Bit(cx, s - 1) && !Bit(cv, s - 1) else Bit(cv, i)
    requires nv == RorValue(mv, s) && nx == RorValue(cx, s)
    ensures nv < Pow2(s) && nx < Pow2(s)
    ensures PlanesState(nv, nx, d, x, s, k + 1)
  {
    assert Bit(cv, s - 1) == InvExpected(d, x, s, k, s - 1);
    assert Bit(cx, s - 1) == Bit(x, InvTop(s, k));
    forall i | 0 <= i < s
      ensures Bit(mv, i) == if i == s - 1 then !Bit(x, InvTop(s, k)) && !Bit(d, InvTop(s, k)) else Bit(cv, i)
    {
    }
    forall i | 0 <= i < s
      ensures Bit(nv, i) == if i == s - 1 then Bit(mv, 0) else Bit(mv, i + 1)
      ensures Bit(nx, i) == if i == s - 1 then Bit(cx, 0) else Bit(cx, i + 1)
    {
      RorBits(mv, s, i);
      RorBits(cx, s, i);
    }
    RorBits(mv, s, 0);
    RorBits(cx, s, 0);
    InvStepBits(d, x, s, k, cv, mv, nv, cx, nx);
  }

  /** After the full turn of `inv`, every bit has been treated once. */
  lemma InvDone(d: nat, x: nat, s: nat, i: nat)
    requires 1 <= s && i < s
    ensures InvExpected(d, x, s, s, i) == (!Bit(x, i) && !Bit(d, i))
  {
  }

  /**
   * `inv`: `size` times, the top bit of the 0/1 plane is complemented (cleared
   * where the X/Z plane is set) and the literal is rotated right by one.
   * After the full turn every 0/1 bit below the width has been treated once.
   */
  method Inv(p: SvPrimaryLiteralIntegral) returns (r: SvPrimaryLiteralIntegral)
    requires WF(p)
    ensures WF(r) && r.size == p.size && r.signed == p.signed && r.dataXz == p.dataXz
    ensures |r.data01| == |p.data01|
    ensures forall i :: 0 <= i < p.size ==>
      Bit(ValueOf(r.data01), i) == (!XzBit(p, i) && !Bit(ValueOf(p.data01), i))
  {
    var lastIndex, remainingBits, top := InvSetup(p);
    InvStart(p);
    r := InvLoop(p, lastIndex, remainingBits, top);
    InvFinish(p, r, ValueOf(p.data01), XzValue(p));
  }

  /** The loop of `inv`, from the literal itself through `size` treated bits. */
  method InvLoop(p: SvPrimaryLiteralIntegral, lastIndex: nat, remainingBits: nat, top: nat)
    returns (r: SvPrimaryLiteralIntegral)
    requires InvState(p, p, ValueOf(p.data01), XzValue(p), 0) && lastIndex == |p.data01| - 1
    requires BITS * lastIndex < p.size <= BITS * (lastIndex + 1)
    requires remainingBits == BITS - TopBits(p.size, |p.data01|) && top == Pow2(TopBits(p.size, |p.data01|) - 1)
    ensures InvState(p, r, ValueOf(p.data01), XzValue(p), p.size)
  {
    r := p;
    ghost var d := ValueOf(p.data01);
    ghost var x := XzValue(p);
    for k := 0 to p.size
      invariant InvState(p, r, d, x, k)
    {
      r := InvStep(r, lastIndex, remainingBits, top, p, d, x, k);
    }
  }

  /** The constants `inv` fixes before its loop: the index of the top limb, its unused bits and the weight of the top bit in it. */
  method InvSetup(p: SvPrimaryLiteralIntegral) returns (lastIndex: nat, remainingBits: nat, top: nat)
    requires WF(p)
    ensures lastIndex == |p.data01| - 1
    ensures BITS * lastIndex < p.size <= BITS * (lastIndex + 1)
    ensures remainingBits == BITS - TopBits(p.size, |p.data01|) && top == Pow2(TopBits(p.size, |p.data01|) - 1)
  {
    var firstElmntBits := TopLimbBits(p.size);
    remainingBits := BITS - firstElmntBits;
    lastIndex := |p.data01| - 1;
    LimbsForBounds(p.size);
    assert TopBits(p.size, |p.data01|) == firstElmntBits;
    top := Pow2(firstElmntBits - 1);
  }

  /** The loop invariant of `inv` after `k` passes, with `d` and `x` the planes of the original literal `p`. */
  ghost predicate InvState(p: SvPrimaryLiteralIntegral, r: SvPrimaryLiteralIntegral, d: nat, x: nat, k: nat)
  {
    WF(r) && r.size == p.size && r.signed == p.signed && r.dataXz.Some? == p.dataXz.Some? && |r.data01| == |p.data01|
    && PlanesState(ValueOf(r.data01), XzValue(r), d, x, p.size, k)
  }

  /**
   * The invariant of `inv` on the plane values `cv` and `cx` of width `s`
   * after `k` passes: the X/Z plane is the original one rotated right by `k`,
   * and the 0/1 bits that have passed the top are complemented.
   */
  ghost predicate PlanesState(cv: nat, cx: nat, d: nat, x: nat, s: nat, k: nat) {
    k <= s
    && (forall i :: 0 <= i < s ==> Bit(cv, i) == InvExpected(d, x, s, k, i))
    && (forall i :: 0 <= i < s ==> Bit(cx, i) == Bit(x, RotIndex(i, k, s)))
  }

  /** Before the first pass the invariant holds of the literal itself. */
  lemma InvStart(p: SvPrimaryLiteralIntegral)
    requires WF(p)
    ensures InvState(p, p, ValueOf(p.data01), XzValue(p), 0)
  {
  }

  /** One pass of the `inv` loop: the top-bit update, then `ror(1)`. */
  method InvStep(r: SvPrimaryLiteralIntegral, lastIndex: nat, remainingBits: nat, top: nat,
                 ghost p: SvPrimaryLiteralIntegral, ghost d: nat, ghost x: nat, ghost k: nat)
    returns (q: SvPrimaryLiteralIntegral)
    requires InvState(p, r, d, x, k) && k < p.size && lastIndex == |p.data01| - 1
    requires BITS * lastIndex < p.size <= BITS * (lastIndex + 1)
    requires remainingBits == BITS - TopBits(p.size, |p.data01|) && top == Pow2(TopBits(p.size, |p.data01|) - 1)
    ensures InvState(p, q, d, x, k + 1)
  {
    var mid := InvTopBit(r, lastIndex, remainingBits, top);
    q := Ror(mid, 1);
    InvStepFacts(p, r, mid, q, d, x, k);
  }

  /** The top-bit update followed by one rotation right moves the invariant of `inv` from `k` to `k + 1`. */
  lemma InvStepFacts(p: SvPrimaryLiteralIntegral, r: SvPrimaryLiteralIntegral, mid: SvPrimaryLiteralIntegral,
                     q: SvPrimaryLiteralIntegral, d: nat, x: nat, k: nat)
    requires InvState(p, r, d, x, k) && k < p.size && TopBitFlipped(r, mid)
    requires WF(q) && q.size == mid.size && q.signed == mid.signed && q.dataXz.Some? == mid.dataXz.Some? && |q.data01| == |mid.data01|
    requires ValueOf(q.data01) == RotateRight(ValueOf(mid.data01), mid.size, 1)
    requires mid.dataXz.Some? ==> ValueOf(q.dataXz.value) == RotateRight(ValueOf(mid.dataXz.value), mid.size, 1)
    ensures InvState(p, q, d, x, k + 1)
  {
    var s := p.size;
    InvXzAfterRor(mid, q);
    TopBitFlippedValues(r, mid);
    InvLoopStep(d, x, s, k, ValueOf(r.data01), XzValue(r), ValueOf(mid.data01), ValueOf(q.data01), XzValue(q));
  }

  /** `TopBitFlipped` on the plane values. */
  lemma TopBitFlippedValues(r: SvPrimaryLiteralIntegral, mid: SvPrimaryLiteralIntegral)
    requires WF(r) && TopBitFlipped(r, mid)
    ensures ValueOf(mid.data01) < Pow2(r.size) && XzValue(r) < Pow2(r.size) && ValueOf(r.data01) < Pow2(r.size)
    ensures forall i :: 0 <= i < r.size ==>
      Bit(ValueOf(mid.data01), i) == if i == r.size - 1 then !Bit(XzValue(r), r.size - 1) && !Bit(ValueOf(r.data01), r.size - 1) else Bit(ValueOf(r.data01), i)
  {
    XzBitValue(r, r.size - 1);
  }

  /** After the full turn of `inv`: the 0/1 bits are the complements, the X/Z plane is back where it was. */
  lemma InvFinish(p: SvPrimaryLiteralIntegral, r: SvPrimaryLiteralIntegral, d: nat, x: nat)
    requires WF(p) && InvState(p, r, d, x, p.size)
    requires d == ValueOf(p.data01) && x == XzValue(p)
    ensures WF(r) && r.size == p.size && r.signed == p.signed && r.dataXz == p.dataXz
    ensures |r.data01| == |p.data01|
    ensures forall i :: 0 <= i < p.size ==> Bit(ValueOf(r.data01), i) == (!XzBit(p, i) && !Bit(ValueOf(p.data01), i))
  {
    var s := p.size;
    forall i | 0 <= i < s
      ensures Bit(ValueOf(r.data01), i) == (!XzBit(p, i) && !Bit(ValueOf(p.data01), i))
    {
      InvDone(d, x, s, i);
      XzBitValue(p, i);
    }
    if p.dataXz.Some? {
      forall i | 0 <= i < s
        ensures Bit(ValueOf(r.dataXz.value), i) == Bit(ValueOf(p.dataXz.value), i)
      {
        assert Bit(XzValue(r), i) == Bit(x, i);
      }
      BitsEqual(ValueOf(r.dataXz.value), ValueOf(p.dataXz.value), s);
      ValueOfInjective(r.dataXz.value, p.dataXz.value);
    }
  }

  /** The X/Z value after one rotation of a literal that fits, 2-state literals included. */
  lemma InvXzAfterRor(mid: SvPrimaryLiteralIntegral, r: SvPrimaryLiteralIntegral)
    requires WF(mid) && r.dataXz.Some? == mid.dataXz.Some?
    requires mid.dataXz.Some? ==> ValueOf(r.dataXz.value) == RotateRight(ValueOf(mid.dataXz.value), mid.size, 1)
    ensures XzValue(mid) < Pow2(mid.size)
    ensures XzValue(r) == RorValue(XzValue(mid), mid.size)
  {
  }

  /** On each bit, `inv` is the `~` of a 4-state bit. */
  lemma InvLogic(p: SvPrimaryLiteralIntegral, r: SvPrimaryLiteralIntegral, i: nat)
    requires r.dataXz == p.dataXz
    requires Bit(ValueOf(r.data01), i) == (!XzBit(p, i) && !Bit(ValueOf(p.data01), i))
    ensures LogicAt(r, i) == LogicNot(LogicAt(p, i))
  {
  }
}
