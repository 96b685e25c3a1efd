/**
 * `wildcard_eq`, the `==?` operator: the X and Z bits of the right operand
 * match any bit of the left. The code extends both operands to one length,
 * then walks the bits from the top: `size` times the top bit of the right
 * operand, when it is an X or a Z, takes the value of the left's top bit,
 * and both operands are rotated left by one. The rotated operands are then
 * compared with `logical_eq`.
 */
module PrimlitWildcard {
  import opened Wrappers
  import opened Limbs
  import opened PrimlitCore
  import opened PrimlitShift
  import opened PrimlitCompare

  /** On planes of width `s`: every bit of the right operand that is not an X or a Z equals the left's. */
  ghost predicate WildcardMatch(va: nat, d: nat, x: nat, s: nat) {
    forall i :: 0 <= i < s ==> Bit(x, i) || Bit(d, i) == Bit(va, i)
  }

  /**
   * What `wildcard_eq` finds for a 2-state left operand `a`: on the operands
   * extended to one length, the right operand `b` matches `a` bit by bit.
   */
  ghost predicate WildcardHolds(a: SvPrimaryLiteralIntegral, b: SvPrimaryLiteralIntegral, rule: SignRule)
    requires WF(a) && WF(b)
  {
    var s, n := a.signed && b.signed, MaxLen(a, b);
    SizeFacts(a, n);
    SizeFacts(b, n);
    WildcardMatch(Cmp01(a, s, n, rule), Cmp01(b, s, n, rule), CmpXz(b, s, n), BITS * n)
  }

  /**
   * `wildcard_eq`: X when the left operand holds an X or a Z; `logical_eq`
   * when the right holds none; otherwise 1 exactly when the right operand
   * matches the left outside its X and Z bits.
   */
  method WildcardEq(a: SvPrimaryLiteralIntegral, b: SvPrimaryLiteralIntegral, rule: SignRule) returns (r: SvPrimaryLiteralIntegral)
    requires WF(a) && WF(b)
    ensures HasXz(a) ==> r == Logic1bX()
    ensures !HasXz(a) && !HasXz(b) ==>
      r == if Operand(a, a.signed && b.signed) == Operand(b, a.signed && b.signed) then Logic1b1() else Logic1b0()
    ensures !HasXz(a) && HasXz(b) ==> r == if WildcardHolds(a, b, rule) then Logic1b1() else Logic1b0()
    decreases if a.signed != b.signed then 1 else 0
  {
    if a.signed != b.signed {
      r := WildcardEq(a.(signed := false), b.(signed := false), rule);
      return;
    }
    var rightXz := ContainsXz(b);
    if !rightXz {
      r := LogicalEq(a, b);
      return;
    }
    var l, q := MatchedExtend(a, b, rule);
    HasXzMeaning(b);
    var lc, qc := WildcardLoop(l, q);
    r := LogicalEq(lc, qc);
    WildcardResult(a, b, rule, l, q, lc, qc);
  }

  // ---------------------------------------------------------------------
  // The loop over the bits.
  // ---------------------------------------------------------------------

  /** The position a bit held before `k` rotations left of `s` bits. */
  function Src(j: nat, k: nat, s: nat): nat
    requires s >= 1
  {
    (j - k) % s
  }

  lemma SrcValue(j: nat, k: nat, s: nat)
    requires s >= 1 && j < s && k <= s
    ensures Src(j, k, s) == if j >= k then j - k else j + s - k
  {
    if j >= k {
      DivModUnique(j - k, s, 0, j - k);
    } else {
      DivModUnique(j - k, s, -1, j + s - k);
    }
  }

  /**
   * Bit `i` of a right plane `own` after `k` passes: the positions that have
   * passed the top, `s - k` and up, take the left's bit from `lv` where the
   * right operand's X/Z plane `x` is set.
   */
  ghost function Masked(own: nat, x: nat, lv: nat, s: nat, k: nat, i: nat): bool {
    if i + k >= s && Bit(x, i) then Bit(lv, i) else Bit(own, i)
  }

  /**
   * The right operand after `k` passes, on its plane values `cv` and `cx`:
   * the masked planes of the right operand (`d`, `x`), with the bits of the
   * left (`l0`, `l1`) put in, rotated left by `k`.
   */
  ghost predicate RightState(cv: nat, cx: nat, d: nat, x: nat, l0: nat, l1: nat, s: nat, k: nat)
    requires s >= 1
  {
    k <= s && forall j :: 0 <= j < s ==>
      Bit(cv, j) == Masked(d, x, l0, s, k, Src(j, k, s)) && Bit(cx, j) == Masked(x, x, l1, s, k, Src(j, k, s))
  }

  /** One pass on the plane values: the top-bit update, then one rotation left, moves the invariant from `k` to `k + 1`. */
  lemma WildLoopStep(d: nat, x: nat, l0: nat, l1: nat, s: nat, k: nat, cv: nat, cx: nat, mv: nat, mx: nat, nv: nat, nx: nat)
    requires 1 <= s && k < s && l0 < Pow2(s) && l1 < Pow2(s) && mv < Pow2(s) && mx < Pow2(s)
    requires RightState(cv, cx, d, x, l0, l1, s, k)
    requires forall j :: 0 <= j < s ==>
      Bit(mv, j) == if j == s - 1 && Bit(cx, s - 1) then Bit(RotateLeft(l0, s, k), s - 1) else Bit(cv, j)
    requires forall j :: 0 <= j < s ==>
      Bit(mx, j) == if j == s - 1 && Bit(cx, s - 1) then Bit(RotateLeft(l1, s, k), s - 1) else Bit(cx, j)
    requires nv == RolValue(mv, s) && nx == RolValue(mx, s)
    ensures RightState(nv, nx, d, x, l0, l1, s, k + 1)
  {
    var t := s - 1 - k;
    SrcValue(s - 1, k, s);
    RotateLeftBits(l0, s, k, s - 1);
    RotateLeftBits(l1, s, k, s - 1);
    assert Bit(cx, s - 1) == Bit(x, t);
    forall j | 0 <= j < s
      ensures Bit(nv, j) == Masked(d, x, l0, s, k + 1, Src(j, k + 1, s))
      ensures Bit(nx, j) == Masked(x, x, l1, s, k + 1, Src(j, k + 1, s))
    {
      RolBits(mv, s, j);
      RolBits(mx, s, j);
      var p: nat := if j == 0 then s - 1 else j - 1;
      RolIndex(j, k + 1, s);
      assert Src(p, k, s) == Src(j, k + 1, s);
      SrcValue(p, k, s);
    }
  }

  ghost predicate WildState(l: SvPrimaryLiteralIntegral, q: SvPrimaryLiteralIntegral,
                            lc: SvPrimaryLiteralIntegral, qc: SvPrimaryLiteralIntegral, k: nat)
    requires l.size >= 1
  {
    && WF(l) && WF(lc) && WF(qc) && lc.size == qc.size == l.size
    && |lc.data01| == |qc.data01| == |l.data01| && l.size == BITS * |l.data01|
    && lc.signed == l.signed && qc.signed == q.signed
    && lc.dataXz.Some? == l.dataXz.Some? && qc.dataXz.Some?
    && ValueOf(lc.data01) == RotateLeft(ValueOf(l.data01), l.size, k)
    && XzValue(lc) == RotateLeft(XzValue(l), l.size, k)
    && RightState(ValueOf(qc.data01), XzValue(qc), ValueOf(q.data01), XzValue(q), ValueOf(l.data01), XzValue(l), l.size, k)
  }

  /** Before the first pass the invariant holds of the extended operands themselves. */
  lemma WildStart(l: SvPrimaryLiteralIntegral, q: SvPrimaryLiteralIntegral)
    requires WF(l) && WF(q) && l.size == q.size == BITS * |l.data01| && |q.data01| == |l.data01| && q.dataXz.Some?
    ensures WildState(l, q, l, q, 0)
  {
    forall j | 0 <= j < l.size
      ensures Src(j, 0, l.size) == j
    {
      SrcValue(j, 0, l.size);
    }
  }

  /** The loop of `wildcard_eq`, `size` passes over the extended operands. */
  method WildcardLoop(l: SvPrimaryLiteralIntegral, q: SvPrimaryLiteralIntegral)
    returns (lc: SvPrimaryLiteralIntegral, qc: SvPrimaryLiteralIntegral)
    requires WF(l) && WF(q) && l.size == q.size == BITS * |l.data01| && |q.data01| == |l.data01| && q.dataXz.Some?
    ensures WildState(l, q, lc, qc, l.size)
  {
    WildStart(l, q);
    lc, qc := l, q;
    for k := 0 to l.size
      invariant WildState(l, q, lc, qc, k)
    {
      lc, qc := WildStep(lc, qc, l, q, k);
    }
  }

  /** One pass: the right operand's top bit taken from the left where it is an X or a Z, then `rol(1)` of both. */
  method WildStep(lc: SvPrimaryLiteralIntegral, qc: SvPrimaryLiteralIntegral,
                  ghost l: SvPrimaryLiteralIntegral, ghost q: SvPrimaryLiteralIntegral, ghost k: nat)
    returns (ln: SvPrimaryLiteralIntegral, qn: SvPrimaryLiteralIntegral)
    requires l.size >= 1 && WildState(l, q, lc, qc, k) && k < l.size
    ensures WildState(l, q, ln, qn, k + 1)
  {
    var mid := WildTopBit(lc, qc);
    ln := Rol(lc, 1);
    qn := Rol(mid, 1);
    WildStepFacts(l, q, lc, qc, mid, ln, qn, k);
  }

  /** `mid` is `rgt` with its top bit replaced by the top bit of `lft` where `rgt`'s is an X or a Z. */
  ghost predicate TopTaken(lft: SvPrimaryLiteralIntegral, rgt: SvPrimaryLiteralIntegral, mid: SvPrimaryLiteralIntegral) {
    forall i :: 0 <= i < rgt.size ==>
      && Bit(ValueOf(mid.data01), i) == (if i == rgt.size - 1 && XzBit(rgt, i) then Bit(ValueOf(lft.data01), i) else Bit(ValueOf(rgt.data01), i))
      && XzBit(mid, i) == (if i == rgt.size - 1 && XzBit(rgt, i) then XzBit(lft, i) else XzBit(rgt, i))
  }

  /**
   * The top-bit update of one pass: when the right operand's top bit is an X
   * or a Z, 2^63 is added to or taken from the top limbs of its planes so
   * that the bit becomes the left operand's top bit.
   */
  method WildTopBit(lft: SvPrimaryLiteralIntegral, rgt: SvPrimaryLiteralIntegral) returns (mid: SvPrimaryLiteralIntegral)
    requires WF(lft) && WF(rgt) && lft.size == rgt.size == BITS * |rgt.data01| && rgt.dataXz.Some?
    ensures WF(mid) && mid.size == rgt.size && mid.signed == rgt.signed && mid.dataXz.Some? && |mid.data01| == |rgt.data01|
    ensures TopTaken(lft, rgt, mid)
  {
    var s := rgt.size;
    var top := Pow2(BITS - 1);
    MsbTests(lft);
    MsbTests(rgt);
    var leftMsbX := !IsSetMsb01(lft) && IsSetMsbXz(lft);
    var leftMsbZ := IsSetMsb01(lft) && IsSetMsbXz(lft);
    var leftMsb0 := !IsSetMsb01(lft) && !IsSetMsbXz(lft);
    var leftMsb1 := IsSetMsb01(lft) && !IsSetMsbXz(lft);
    var rightMsbX := !IsSetMsb01(rgt) && IsSetMsbXz(rgt);
    var rightMsbZ := IsSetMsb01(rgt) && IsSetMsbXz(rgt);
    var d01, dXz := rgt.data01, rgt.dataXz.value;
    XzBitValue(rgt, s - 1);
    if rightMsbX {
      if leftMsbZ {
        d01 := RaiseTop(d01, s, top);
      } else if leftMsb1 {
        d01 := RaiseTop(d01, s, top);
        dXz := LowerTop(dXz, s, top);
      } else if leftMsb0 {
        dXz := LowerTop(dXz, s, top);
      }
    } else if rightMsbZ {
      if leftMsbX {
        d01 := LowerTop(d01, s, top);
      } else if leftMsb1 {
        dXz := LowerTop(dXz, s, top);
      } else if leftMsb0 {
        d01 := LowerTop(d01, s, top);
        dXz := LowerTop(dXz, s, top);
      }
    }
    mid := rgt.(data01 := d01, dataXz := Some(dXz));
    TopTakenFacts(lft, rgt, mid);
  }

  /** The bit-by-bit reading of the top-bit update. */
  lemma TopTakenFacts(lft: SvPrimaryLiteralIntegral, rgt: SvPrimaryLiteralIntegral, mid: SvPrimaryLiteralIntegral)
    requires rgt.size >= 1 && rgt.dataXz.Some? && mid.dataXz.Some?
    requires forall i :: 0 <= i < rgt.size ==>
      Bit(ValueOf(mid.data01), i) == (if i == rgt.size - 1 && XzBit(rgt, i) then Bit(ValueOf(lft.data01), i) else Bit(ValueOf(rgt.data01), i))
    requires forall i :: 0 <= i < rgt.size ==>
      Bit(ValueOf(mid.dataXz.value), i) == (if i == rgt.size - 1 && XzBit(rgt, i) then XzBit(lft, i) else Bit(ValueOf(rgt.dataXz.value), i))
    ensures TopTaken(lft, rgt, mid)
  {
  }

  /** On a literal as wide as its limbs, the code's top-bit tests read bit `size - 1` of each plane. */
  lemma MsbTests(p: SvPrimaryLiteralIntegral)
    requires WF(p) && p.size == BITS * |p.data01|
    ensures IsSetMsb01(p) == Bit(ValueOf(p.data01), p.size - 1) && IsSetMsbXz(p) == XzBit(p, p.size - 1)
  {
    MsbFacts(p);
    SizeFacts(p, |p.data01|);
    TopBit(ValueOf(p.data01), p.size);
    TopBit(XzValue(p), p.size);
    XzBitValue(p, p.size - 1);
  }

  /** A plane as wide as its limbs, `|ds|` of them. */
  ghost predicate FullPlane(ds: seq<Limb>, s: nat) {
    |ds| >= 1 && s == BITS * |ds| && Fits(ds, s)
  }

  /** Adding 2^63 to the top limb sets the clear top bit, and no other. */
  method RaiseTop(ds: seq<Limb>, s: nat, top: nat) returns (es: seq<Limb>)
    requires FullPlane(ds, s) && top == Pow2(BITS - 1) && !Bit(ValueOf(ds), s - 1)
    ensures FullPlane(es, s) && |es| == |ds|
    ensures forall i :: 0 <= i < s ==> Bit(ValueOf(es), i) == (i == s - 1 || Bit(ValueOf(ds), i))
  {
    FullPlaneLimbs(ds, s);
    InvSetTop(ds, s, top);
    es := ds[|ds| - 1 := ds[|ds| - 1] + top];
  }

  /** Taking 2^63 from the top limb clears the set top bit, and no other. */
  method LowerTop(ds: seq<Limb>, s: nat, top: nat) returns (es: seq<Limb>)
    requires FullPlane(ds, s) && top == Pow2(BITS - 1) && Bit(ValueOf(ds), s - 1)
    ensures FullPlane(es, s) && |es| == |ds|
    ensures forall i :: 0 <= i < s ==> Bit(ValueOf(es), i) == (i != s - 1 && Bit(ValueOf(ds), i))
  {
    FullPlaneLimbs(ds, s);
    InvClearTop(ds, s, top);
    es := ds[|ds| - 1 := ds[|ds| - 1] - top];
  }

  lemma FullPlaneLimbs(ds: seq<Limb>, s: nat)
    requires |ds| >= 1 && s == BITS * |ds|
    ensures |ds| == LimbsFor(s) && TopBits(s, |ds|) == BITS
  {
    DivModUnique(s + BITS - 1, BITS, |ds|, BITS - 1);
  }

  /** The top-bit update followed by `rol(1)` of both operands moves the invariant from `k` to `k + 1`. */
  lemma WildStepFacts(l: SvPrimaryLiteralIntegral, q: SvPrimaryLiteralIntegral, lc: SvPrimaryLiteralIntegral,
                      qc: SvPrimaryLiteralIntegral, mid: SvPrimaryLiteralIntegral, ln: SvPrimaryLiteralIntegral,
                      qn: SvPrimaryLiteralIntegral, k: nat)
    requires l.size >= 1 && WildState(l, q, lc, qc, k) && k < l.size
    requires WF(mid) && mid.size == qc.size && mid.signed == qc.signed && mid.dataXz.Some? && |mid.data01| == |qc.data01|
    requires TopTaken(lc, qc, mid)
    requires WF(ln) && ln.size == lc.size && ln.signed == lc.signed && ln.dataXz.Some? == lc.dataXz.Some?
    requires ValueOf(ln.data01) == RotateLeft(ValueOf(lc.data01), lc.size, 1)
    requires lc.dataXz.Some? ==> ValueOf(ln.dataXz.value) == RotateLeft(ValueOf(lc.dataXz.value), lc.size, 1)
    requires WF(qn) && qn.size == mid.size && qn.signed == mid.signed && qn.dataXz.Some?
    requires ValueOf(qn.data01) == RotateLeft(ValueOf(mid.data01), mid.size, 1)
    requires ValueOf(qn.dataXz.value) == RotateLeft(ValueOf(mid.dataXz.value), mid.size, 1)
    ensures WildState(l, q, ln, qn, k + 1)
  {
    var s := l.size;
    var l0, l1 := ValueOf(l.data01), XzValue(l);
    SizeFacts(l, |l.data01|);
    SizeFacts(mid, |mid.data01|);
    LeftStep(l0, l1, lc, ln, k);
    var cv, cx := ValueOf(qc.data01), XzValue(qc);
    TopTakenValues(lc, qc, mid);
    WildLoopStep(ValueOf(q.data01), XzValue(q), l0, l1, s, k, cv, cx, ValueOf(mid.data01), XzValue(mid), ValueOf(qn.data01), XzValue(qn));
  }

  /** One `rol(1)` of the left operand turns its planes one place further. */
  lemma LeftStep(l0: nat, l1: nat, lc: SvPrimaryLiteralIntegral, ln: SvPrimaryLiteralIntegral, k: nat)
    requires lc.size >= 1 && ValueOf(lc.data01) == RotateLeft(l0, lc.size, k) && XzValue(lc) == RotateLeft(l1, lc.size, k)
    requires lc.dataXz.None? ==> l1 == 0
    requires ln.dataXz.Some? == lc.dataXz.Some?
    requires ValueOf(ln.data01) == RotateLeft(ValueOf(lc.data01), lc.size, 1)
    requires lc.dataXz.Some? ==> ValueOf(ln.dataXz.value) == RotateLeft(ValueOf(lc.dataXz.value), lc.size, 1)
    ensures ValueOf(ln.data01) == RotateLeft(l0, lc.size, k + 1) && XzValue(ln) == RotateLeft(l1, lc.size, k + 1)
  {
    if lc.dataXz.None? {
      RotateLeftZero(lc.size, k + 1);
    }
  }

  /** `TopTaken` on the plane values. */
  lemma TopTakenValues(lc: SvPrimaryLiteralIntegral, qc: SvPrimaryLiteralIntegral, mid: SvPrimaryLiteralIntegral)
    requires qc.size >= 1 && TopTaken(lc, qc, mid)
    ensures forall j :: 0 <= j < qc.size ==>
      Bit(ValueOf(mid.data01), j) == if j == qc.size - 1 && Bit(XzValue(qc), qc.size - 1) then Bit(ValueOf(lc.data01), qc.size - 1) else Bit(ValueOf(qc.data01), j)
    ensures forall j :: 0 <= j < qc.size ==>
      Bit(XzValue(mid), j) == if j == qc.size - 1 && Bit(XzValue(qc), qc.size - 1) then Bit(XzValue(lc), qc.size - 1) else Bit(XzValue(qc), j)
  {
    var s := qc.size;
    XzBitValue(qc, s - 1);
    XzBitValue(lc, s - 1);
    forall j | 0 <= j < s
      ensures Bit(XzValue(mid), j) == if j == s - 1 && Bit(XzValue(qc), s - 1) then Bit(XzValue(lc), s - 1) else Bit(XzValue(qc), j)
    {
      XzBitValue(mid, j);
      XzBitValue(qc, j);
    }
  }

  /**
   * After the full turn: the left operand is back as it was, and each bit of
   * the right operand that was an X or a Z is now the left's bit.
   */
  lemma WildFinish(l: SvPrimaryLiteralIntegral, q: SvPrimaryLiteralIntegral, lc: SvPrimaryLiteralIntegral, qc: SvPrimaryLiteralIntegral)
    requires WF(l) && WildState(l, q, lc, qc, l.size)
    ensures ValueOf(lc.data01) == ValueOf(l.data01) && XzValue(lc) == XzValue(l)
    ensures forall j :: 0 <= j < l.size ==>
      Bit(ValueOf(qc.data01), j) == if Bit(XzValue(q), j) then Bit(ValueOf(l.data01), j) else Bit(ValueOf(q.data01), j)
    ensures forall j :: 0 <= j < l.size ==> Bit(XzValue(qc), j) == (Bit(XzValue(q), j) && Bit(XzValue(l), j))
  {
    var s := l.size;
    SizeFacts(l, |l.data01|);
    RotateLeftFullTurn(ValueOf(l.data01), s);
    RotateLeftFullTurn(XzValue(l), s);
    forall j | 0 <= j < s
      ensures Src(j, s, s) == j
    {
      SrcValue(j, s, s);
    }
  }

  // ---------------------------------------------------------------------
  // The comparison after the loop.
  // ---------------------------------------------------------------------

  /** Two's complement readings of one width are equal exactly when the planes are. */
  lemma SPlaneInjective(u: nat, v: nat, size: nat)
    requires size >= 1 && u < Pow2(size) && v < Pow2(size)
    ensures SPlane(u, size) == SPlane(v, size) <==> u == v
  {
    assert Pow2(size) == 2 * Pow2(size - 1);
  }

  /** The plane `cv` the loop leaves equals the left plane exactly when the right operand matches. */
  lemma MatchIff(l0: nat, d: nat, x: nat, cv: nat, s: nat)
    requires l0 < Pow2(s) && cv < Pow2(s)
    requires forall j :: 0 <= j < s ==> Bit(cv, j) == if Bit(x, j) then Bit(l0, j) else Bit(d, j)
    ensures cv == l0 <==> WildcardMatch(l0, d, x, s)
  {
    if WildcardMatch(l0, d, x, s) {
      forall j | 0 <= j < s
        ensures Bit(cv, j) == Bit(l0, j)
      {
      }
      BitsEqual(cv, l0, s);
    }
  }

  /** A plane of width `s` with no bit set is zero. */
  lemma NoBitsZero(v: nat, s: nat)
    requires v < Pow2(s) && forall j :: 0 <= j < s ==> !Bit(v, j)
    ensures v == 0
  {
    forall j | 0 <= j < s
      ensures Bit(v, j) == Bit(0, j)
    {
      BitOfZero(j);
    }
    BitsEqual(v, 0, s);
  }

  /**
   * What the comparison after the loop sees: an X or a Z in the left operand
   * survives; without one neither operand holds an X or a Z, and they are
   * equal exactly when the right operand matches the left.
   */
  lemma WildcardResult(a: SvPrimaryLiteralIntegral, b: SvPrimaryLiteralIntegral, rule: SignRule,
                       l: SvPrimaryLiteralIntegral, q: SvPrimaryLiteralIntegral, lc: SvPrimaryLiteralIntegral, qc: SvPrimaryLiteralIntegral)
    requires WF(a) && WF(b) && a.signed == b.signed && b.dataXz.Some?
    requires WF(l) && WF(q) && |l.data01| == |q.data01| == MaxLen(a, b) && l.size == q.size == BITS * MaxLen(a, b)
    requires l.signed == a.signed && q.signed == b.signed && l.dataXz.Some? == a.dataXz.Some?
    requires ValueOf(l.data01) == Cmp01(a, a.signed, MaxLen(a, b), rule) && XzValue(l) == CmpXz(a, a.signed, MaxLen(a, b))
    requires ValueOf(q.data01) == Cmp01(b, b.signed, MaxLen(a, b), rule) && XzValue(q) == CmpXz(b, b.signed, MaxLen(a, b))
    requires WildState(l, q, lc, qc, l.size)
    ensures HasXz(a) ==> HasXz(lc)
    ensures !HasXz(a) ==> !HasXz(lc) && !HasXz(qc)
    ensures !HasXz(a) ==> (Operand(lc, lc.signed && qc.signed) == Operand(qc, lc.signed && qc.signed) <==> WildcardHolds(a, b, rule))
  {
    var n := MaxLen(a, b);
    var s := l.size;
    WildFinish(l, q, lc, qc);
    SizeFacts(a, n);
    SizeFacts(lc, n);
    SizeFacts(qc, n);
    HasXzMeaning(a);
    HasXzMeaning(lc);
    HasXzMeaning(qc);
    if !HasXz(a) {
      assert XzValue(a) == 0;
      assert XzValue(l) == 0;
      forall j | 0 <= j < s
        ensures !Bit(XzValue(qc), j)
      {
        BitOfZero(j);
      }
      NoBitsZero(XzValue(qc), s);
      SPlaneInjective(ValueOf(lc.data01), ValueOf(qc.data01), s);
      MatchIff(ValueOf(l.data01), ValueOf(q.data01), XzValue(q), ValueOf(qc.data01), s);
    }
  }

  /**
   * A right operand without X or Z matches as `logical_eq` compares: the
   * wildcard agreement is then the numeric equality of the operands.
   */
  lemma WildcardWithoutXz(a: SvPrimaryLiteralIntegral, b: SvPrimaryLiteralIntegral)
    requires WF(a) && WF(b) && !HasXz(b)
    ensures WildcardHolds(a, b, ByMsb) <==> Operand(a, a.signed && b.signed) == Operand(b, a.signed && b.signed)
  {
    var sg, n := a.signed && b.signed, MaxLen(a, b);
    SizeFacts(a, n);
    SizeFacts(b, n);
    HasXzMeaning(b);
    var va, vb := Cmp01(a, sg, n, ByMsb), Cmp01(b, sg, n, ByMsb);
    assert va < Weight(n) && vb < Weight(n);
    assert CmpXz(b, sg, n) == 0;
    forall j | 0 <= j < BITS * n
      ensures !Bit(0, j)
    {
      BitOfZero(j);
    }
    if WildcardHolds(a, b, ByMsb) {
      BitsEqual(vb, va, BITS * n);
    }
    if sg {
      PlanesEqual(ValueOf(a.data01), a.size, ValueOf(b.data01), b.size, n);
    }
  }
}
