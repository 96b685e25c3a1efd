/**
 * Machine words as the integral literal code uses them: `usize` limbs of
 * 64 bits, little-endian vectors of limbs read as one number, and the few
 * word operations the code calls (`leading_zeros`, `wrapping_add`, shifts by
 * one, powers of two).
 */
module Limbs {

  /** `usize::BITS`: the literal code is written for 64-bit limbs. */
  const BITS: nat := 64

  /** 2^64, one more than the largest limb. */
  const BASE: nat := 0x1_0000_0000_0000_0000

  /** A `usize`. */
  type Limb = x: int | 0 <= x < 0x1_0000_0000_0000_0000

  // ---------------------------------------------------------------------
  // Powers of two.
  // ---------------------------------------------------------------------

  /** `2usize.pow(k)` without the word bound. */
  function Pow2(k: nat): (r: nat)
    ensures r >= 1
  {
    if k == 0 then 1 else 2 * Pow2(k - 1)
  }

  lemma {:induction false} Pow2Add(a: nat, b: nat)
    ensures Pow2(a + b) == Pow2(a) * Pow2(b)
    decreases a
  {
    if a > 0 {
      Pow2Add(a - 1, b);
      assert Pow2(a + b) == 2 * Pow2(a - 1 + b);
    }
  }

  /** The two powers the code spells out: 2^63, the top bit of a limb, and 2^64. */
  lemma Pow2Word()
    ensures Pow2(BITS) == BASE && Pow2(BITS - 1) == BASE / 2
  {
    assert Pow2(8) == 256;
    assert Pow2(7) == 128;
    Pow2Add(8, 8);
    Pow2Add(16, 16);
    Pow2Add(32, 32);
    Pow2Add(8, 7);
    Pow2Add(16, 15);
    Pow2Add(32, 31);
  }

  lemma {:induction false} Pow2Monotone(a: nat, b: nat)
    requires a <= b
    ensures Pow2(a) <= Pow2(b)
    decreases b
  {
    if a < b {
      Pow2Monotone(a, b - 1);
    }
  }

  /** A power of two below 2^k divides it. */
  lemma Pow2Divides(a: nat, b: nat)
    requires a <= b
    ensures Pow2(b) == Pow2(a) * Pow2(b - a)
    ensures Pow2(b) % Pow2(a) == 0 && Pow2(b) / Pow2(a) == Pow2(b - a)
  {
    var x, y := Pow2(a), Pow2(b - a);
    Pow2Add(a, b - a);
    assert a + (b - a) == b;
    MulDivExact(y, x);
    assert y * x == x * y;
  }

  lemma MulDivExact(q: nat, d: nat)
    requires d > 0
    ensures (q * d) % d == 0 && (q * d) / d == q
  {
    DivModUnique(q * d, d, q, 0);
  }

  /** Products grow with their factors. */
  lemma MulLe(a: int, b: int, c: nat)
    requires a <= b
    ensures a * c <= b * c
  {
    assert b * c - a * c == (b - a) * c;
  }

  /** A multiple of `d` strictly between -d and d is zero. */
  lemma MultipleSmall(k: int, d: int)
    requires d > 0 && -d < k * d < d
    ensures k == 0
  {
    if k >= 1 {
      MulLe(1, k, d);
    } else if k <= -1 {
      MulLe(k, -1, d);
    }
  }

  /** Quotient and remainder are the unique pair that rebuilds `a`. */
  lemma DivModUnique(a: int, d: int, q: int, r: int)
    requires d > 0 && a == q * d + r && 0 <= r < d
    ensures a / d == q && a % d == r
  {
    var q', r' := a / d, a % d;
    assert a == q' * d + r';
    assert (q - q') * d == r' - r;
    MultipleSmall(q - q', d);
  }

  /** The weight of limb `k`: 2^(64 k). */
  function Weight(k: nat): nat {
    Pow2(BITS * k)
  }

  lemma WeightNext(k: nat)
    ensures Weight(k + 1) == Weight(k) * BASE
  {
    Pow2Add(BITS * k, BITS);
    Pow2Word();
  }

  // ---------------------------------------------------------------------
  // Vectors of limbs.
  // ---------------------------------------------------------------------

  /** The number a little-endian vector of limbs stands for: Σ ds[i]·2^(64 i). */
  function ValueOf(ds: seq<Limb>): nat {
    if ds == [] then 0
    else ValueOf(ds[..|ds| - 1]) + ds[|ds| - 1] * Weight(|ds| - 1)
  }

  /** `n` zero limbs. */
  function Zeros(n: nat): (z: seq<Limb>)
    ensures |z| == n && forall i :: 0 <= i < n ==> z[i] == 0
  {
    if n == 0 then [] else Zeros(n - 1) + [0]
  }

  /** Pushing a limb adds it at the next weight. */
  lemma ValueOfPush(ds: seq<Limb>, v: Limb)
    ensures ValueOf(ds + [v]) == ValueOf(ds) + v * Weight(|ds|)
  {
    assert (ds + [v])[..|ds|] == ds;
  }

  /** A vector of `n` limbs stands for less than 2^(64 n). */
  lemma {:induction false} ValueOfBound(ds: seq<Limb>)
    ensures ValueOf(ds) < Weight(|ds|)
    decreases |ds|
  {
    if ds == [] {
    } else {
      var n := |ds| - 1;
      ValueOfBound(ds[..n]);
      WeightNext(n);
      MulLe(ds[n], BASE - 1, Weight(n));
      assert (BASE - 1) * Weight(n) == BASE * Weight(n) - Weight(n);
    }
  }

  /** The limbs of `a` come below those of `b`. */
  lemma {:induction false} ValueOfConcat(a: seq<Limb>, b: seq<Limb>)
    ensures ValueOf(a + b) == ValueOf(a) + Weight(|a|) * ValueOf(b)
    decreases |b|
  {
    if b == [] {
      assert a + b == a;
    } else {
      var n := |b| - 1;
      ValueOfConcat(a, b[..n]);
      assert (a + b)[..|a + b| - 1] == a + b[..n];
      assert (a + b)[|a + b| - 1] == b[n];
      Pow2Add(BITS * |a|, BITS * n);
      var wa, wn, x, t := Weight(|a|), Weight(n), ValueOf(b[..n]), b[n];
      var top := Weight(|a| + n);
      assert top == wa * wn;
      assert ValueOf(a + b) == ValueOf(a + b[..n]) + t * top;
      assert ValueOf(b) == x + t * wn;
      Distribute(wa, x, t, wn);
    }
  }

  lemma Distribute(w: int, x: int, t: int, v: int)
    ensures w * (x + t * v) == w * x + t * (w * v)
  {
  }

  /** Zero high limbs do not change the value. */
  lemma ValueOfZeros(ds: seq<Limb>, n: nat)
    ensures ValueOf(ds + Zeros(n)) == ValueOf(ds)
  {
    ValueOfConcat(ds, Zeros(n));
    ZerosValue(n);
  }

  lemma {:induction false} ZerosValue(n: nat)
    ensures ValueOf(Zeros(n)) == 0
    decreases n
  {
    if n > 0 {
      ZerosValue(n - 1);
      var z := Zeros(n);
      assert z[..n - 1] == Zeros(n - 1);
      assert z[n - 1] * Weight(n - 1) == 0;
    }
  }

  /** The vector with the top limb dropped, and what that limb adds. */
  lemma ValueOfTop(ds: seq<Limb>)
    requires ds != []
    ensures ValueOf(ds) == ValueOf(ds[..|ds| - 1]) + ds[|ds| - 1] * Weight(|ds| - 1)
    ensures ValueOf(ds[..|ds| - 1]) < Weight(|ds| - 1)
  {
    ValueOfBound(ds[..|ds| - 1]);
  }

  /** The bottom limb comes below the rest. */
  lemma ValueOfCons(t: Limb, rest: seq<Limb>)
    ensures ValueOf([t] + rest) == t + BASE * ValueOf(rest)
  {
    ValueOfConcat([t], rest);
    assert [t][..0] == [];
    WeightNext(0);
  }

  /** Replacing limb `i` changes the value by the difference at that limb's weight. */
  lemma ValueOfUpdate(ds: seq<Limb>, i: nat, v: Limb)
    requires i < |ds|
    ensures ValueOf(ds[i := v]) + ds[i] * Weight(i) == ValueOf(ds) + v * Weight(i)
  {
    var e := ds[i := v];
    assert ds == ds[..i] + [ds[i]] + ds[i + 1..];
    assert e == ds[..i] + [v] + ds[i + 1..];
    ValueOfConcat(ds[..i] + [ds[i]], ds[i + 1..]);
    ValueOfConcat(ds[..i] + [v], ds[i + 1..]);
    ValueOfPush(ds[..i], ds[i]);
    ValueOfPush(ds[..i], v);
  }

  /** Two vectors of one length that stand for the same number are the same vector. */
  lemma {:induction false} ValueOfInjective(a: seq<Limb>, b: seq<Limb>)
    requires |a| == |b| && ValueOf(a) == ValueOf(b)
    ensures a == b
    decreases |a|
  {
    if a != [] {
      var n := |a| - 1;
      ValueOfTop(a);
      ValueOfTop(b);
      TopLimbUnique(ValueOf(a[..n]), a[n], ValueOf(b[..n]), b[n], Weight(n));
      ValueOfInjective(a[..n], b[..n]);
      assert a == a[..n] + [a[n]] && b == b[..n] + [b[n]];
    }
  }

  lemma TopLimbUnique(la: nat, ta: nat, lb: nat, tb: nat, w: nat)
    requires la < w && lb < w && la + ta * w == lb + tb * w
    ensures ta == tb && la == lb
  {
    if ta < tb {
      MulLe(ta + 1, tb, w);
    } else if tb < ta {
      MulLe(tb + 1, ta, w);
    }
  }

  /** The parity of a vector is that of its bottom limb. */
  lemma ValueOfParity(ds: seq<Limb>)
    requires ds != []
    ensures ValueOf(ds) % 2 == ds[0] % 2
  {
    assert ds == [ds[0]] + ds[1..];
    ValueOfCons(ds[0], ds[1..]);
    var r := ValueOf(ds[1..]);
    assert BASE * r == 2 * (BASE / 2 * r);
    DivModUnique(ValueOf(ds), 2, ds[0] / 2 + BASE / 2 * r, ds[0] % 2);
  }

  // ---------------------------------------------------------------------
  // Word operations.
  // ---------------------------------------------------------------------

  /** The number of significant bits of `v`. */
  function BitLength(v: nat): nat {
    if v == 0 then 0 else 1 + BitLength(v / 2)
  }

  /** `v` has exactly `k` significant bits when 2^(k-1) <= v < 2^k. */
  lemma {:induction false} BitLengthBounds(v: nat)
    ensures v < Pow2(BitLength(v))
    ensures v > 0 ==> Pow2(BitLength(v) - 1) <= v
    decreases v
  {
    if v > 0 {
      BitLengthBounds(v / 2);
    }
  }

  /** The bit length is the unique `k` with 2^(k-1) <= v < 2^k (and 0 for 0). */
  lemma {:induction false} BitLengthOf(v: nat, k: nat)
    requires v < Pow2(k)
    requires k > 0 ==> Pow2(k - 1) <= v
    ensures BitLength(v) == k
    decreases k
  {
    if k > 0 {
      BitLengthOf(v / 2, k - 1);
    }
  }

  /** Fewer than `k` significant bits. */
  lemma {:induction false} BitLengthAtMost(v: nat, k: nat)
    requires v < Pow2(k)
    ensures BitLength(v) <= k
    decreases k
  {
    if k > 0 && v > 0 {
      BitLengthAtMost(v / 2, k - 1);
    }
  }

  /** `v.leading_zeros()`. */
  function LeadingZeros(v: Limb): (r: nat)
    ensures r <= BITS
  {
    Pow2Word();
    BitLengthAtMost(v, BITS);
    BITS - BitLength(v)
  }

  /** `leading_zeros() == BITS - k` says that the highest set bit is bit k - 1 (no bit set for k = 0). */
  lemma LeadingZerosMeaning(v: Limb, k: nat)
    requires k <= BITS
    ensures LeadingZeros(v) == BITS - k <==> v < Pow2(k) && (k > 0 ==> Pow2(k - 1) <= v)
  {
    BitLengthBounds(v);
    if v < Pow2(k) && (k > 0 ==> Pow2(k - 1) <= v) {
      BitLengthOf(v, k);
    }
  }

  /** `v.leading_zeros() == 0`: the top bit of the limb is set. */
  lemma TopBitSet(v: Limb)
    ensures LeadingZeros(v) == 0 <==> v >= BASE / 2
  {
    Pow2Word();
    LeadingZerosMeaning(v, BITS);
  }

  /** `v.leading_zeros() == BITS`: the limb is zero. */
  lemma NoBitSet(v: Limb)
    ensures LeadingZeros(v) == BITS <==> v == 0
  {
    LeadingZerosMeaning(v, 0);
  }

  /** `a.wrapping_add(b)`. */
  function WrappingAdd(a: Limb, b: Limb): (r: Limb)
    ensures r == if a + b < BASE then a + b else a + b - BASE
  {
    (a + b) % BASE
  }

  /** `v << 1`: the top bit falls off. */
  function Shl1(v: Limb): (r: Limb)
    ensures r == if v < BASE / 2 then 2 * v else 2 * v - BASE
  {
    (2 * v) % BASE
  }

  /** `v.trailing_zeros()`: the number of clear bits below the lowest set bit (64 for zero). */
  function TrailingZeros(v: Limb): (r: nat)
    ensures r == 0 <==> v % 2 == 1
    decreases v
  {
    if v == 0 then BITS else if v % 2 == 1 then 0 else 1 + TrailingZeros(v / 2)
  }

  /** `v >> 1`. */
  function Shr1(v: Limb): (r: Limb)
    ensures 2 * r <= v
  {
    v / 2
  }

  // ---------------------------------------------------------------------
  // Bits of a number.
  // ---------------------------------------------------------------------

  /** Bit `i` of `v` (bit 0 is the least significant). */
  function Bit(v: nat, i: nat): bool {
    if i == 0 then v % 2 == 1 else Bit(v / 2, i - 1)
  }

  /** Zero has no bit set. */
  lemma {:induction false} BitOfZero(i: nat)
    ensures !Bit(0, i)
    decreases i
  {
    if i > 0 {
      BitOfZero(i - 1);
    }
  }

  /** Doubling moves every bit up by one and brings in `c` at bit 0. */
  lemma BitDouble(v: nat, c: nat, i: nat)
    requires c < 2
    ensures Bit(2 * v + c, 0) == (c == 1)
    ensures Bit(2 * v + c, i + 1) == Bit(v, i)
  {
    assert (2 * v + c) / 2 == v;
  }

  /** A number below 2^s has no bit set at or above `s`. */
  lemma {:induction false} BitAbove(v: nat, s: nat, i: nat)
    requires v < Pow2(s) && s <= i
    ensures !Bit(v, i)
    decreases i
  {
    if s == 0 {
      assert v == 0;
      BitOfZero(i);
    } else {
      BitAbove(v / 2, s - 1, i - 1);
    }
  }

  /** The bits of `a + c·2^j` with `a < 2^j`: those of `a` below `j`, those of `c` from `j` on. */
  lemma {:induction false} BitOfSum(a: nat, c: nat, j: nat, i: nat)
    requires a < Pow2(j)
    ensures Bit(a + c * Pow2(j), i) == if i < j then Bit(a, i) else Bit(c, i - j)
    decreases j
  {
    if j == 0 {
      assert a == 0;
    } else if i == 0 {
      assert (a + c * Pow2(j)) % 2 == a % 2 by {
        assert c * Pow2(j) == 2 * (c * Pow2(j - 1));
        DivModUnique(a + c * Pow2(j), 2, a / 2 + c * Pow2(j - 1), a % 2);
      }
    } else {
      assert (a + c * Pow2(j)) / 2 == a / 2 + c * Pow2(j - 1) by {
        assert c * Pow2(j) == 2 * (c * Pow2(j - 1));
        DivModUnique(a + c * Pow2(j), 2, a / 2 + c * Pow2(j - 1), a % 2);
      }
      BitOfSum(a / 2, c, j - 1, i - 1);
    }
  }

  /** Euclidean division by a positive divisor, with the quotient and remainder named. */
  lemma DivModOf(v: nat, d: nat, a: nat, c: nat)
    requires d > 0 && a == v % d && c == v / d
    ensures a < d && v == a + c * d
  {
  }

  /** The quotient of a natural number by a positive divisor is natural. */
  lemma DivNonneg(v: int, d: int)
    requires v >= 0 && d > 0
    ensures v / d >= 0
  {
    var q := v / d;
    assert v == q * d + v % d;
    if q < 0 {
      MulLe(q, -1, d);
    }
  }

  /** `v` split at bit `j`: the part below and the part from bit `j` on. */
  lemma SplitAt(v: nat, j: nat) returns (a: nat, c: nat)
    ensures a < Pow2(j) && v == a + c * Pow2(j)
  {
    var d := Pow2(j);
    DivNonneg(v, d);
    a, c := v % d, v / d;
    DivModOf(v, d, a, c);
  }

  /** The remainder modulo 2^s keeps the bits below `s`. */
  lemma BitMod(v: nat, s: nat, i: nat)
    ensures Bit(v % Pow2(s), i) == (i < s && Bit(v, i))
  {
    var a, c := SplitAt(v, s);
    assert a == v % Pow2(s) by { DivModUnique(v, Pow2(s), c, a); }
    BitOfSum(a, c, s, i);
    if i >= s {
      BitAbove(a, s, i);
    }
  }

  /** Below 2^s, bit `s - 1` is set exactly when the number reaches 2^(s-1). */
  lemma TopBit(v: nat, s: nat)
    requires 1 <= s && v < Pow2(s)
    ensures Bit(v, s - 1) <==> v >= Pow2(s - 1)
  {
    var a, c := SplitAt(v, s - 1);
    assert Pow2(s) == 2 * Pow2(s - 1);
    SmallQuotient(v, a, c, Pow2(s - 1));
    BitOfSum(a, c, s - 1, s - 1);
  }

  /** Below `2 d`, the quotient by `d` is 0 or 1, and 1 exactly from `d` on. */
  lemma SmallQuotient(v: int, a: int, c: int, d: int)
    requires 0 <= a < d && c >= 0 && v == a + c * d && v < 2 * d
    ensures c == 0 || c == 1
    ensures c == 1 <==> v >= d
  {
    if c >= 2 {
      MulLe(2, c, d);
    }
  }

  /** Bit 0 of an odd number is set; above it, adding one to an even number changes no bit. */
  lemma BitParity(h: nat, k: nat)
    ensures Bit(2 * h + 1, 0) && !Bit(2 * h, 0)
    ensures Bit(2 * h + 1, k + 1) == Bit(2 * h, k + 1)
  {
    BitDouble(h, 0, k);
    BitDouble(h, 1, k);
  }

  /** Adding 2^j flips bit `j`. */
  lemma BitOfAddPow(v: nat, j: nat)
    ensures Bit(v + Pow2(j), j) == !Bit(v, j)
  {
    var a, c := SplitAt(v, j);
    assert v + Pow2(j) == a + (c + 1) * Pow2(j);
    BitOfSum(a, c, j, j);
    BitOfSum(a, c + 1, j, j);
    var h := c / 2;
    if c % 2 == 0 {
      assert c == 2 * h && c + 1 == 2 * h + 1;
      BitParity(h, 0);
    } else {
      assert c == 2 * h + 1 && c + 1 == 2 * (h + 1);
      BitParity(h, 0);
      BitParity(h + 1, 0);
    }
  }

  /** Adding 2^j to a number whose bit `j` is clear sets that bit alone. */
  lemma BitSet(v: nat, j: nat, i: nat)
    requires !Bit(v, j)
    ensures Bit(v + Pow2(j), i) == (i == j || Bit(v, i))
  {
    if i == j {
      BitOfAddPow(v, j);
    } else {
      var a, c := SplitAt(v, j);
      assert v + Pow2(j) == a + (c + 1) * Pow2(j);
      BitOfSum(a, c, j, i);
      BitOfSum(a, c + 1, j, i);
      BitOfSum(a, c, j, j);
      if i > j {
        assert !Bit(c, 0);
        var h := c / 2;
        assert c == 2 * h;
        BitParity(h, i - j - 1);
      }
    }
  }

  /** Taking 2^j from a number whose bit `j` is set clears that bit alone. */
  lemma BitClear(v: nat, j: nat, i: nat)
    requires Bit(v, j)
    ensures v >= Pow2(j)
    ensures Bit(v - Pow2(j), i) == (i != j && Bit(v, i))
  {
    if v < Pow2(j) {
      BitAbove(v, j, j);
    }
    var u := v - Pow2(j);
    BitOfAddPow(u, j);
    BitSet(u, j, i);
  }
}
