/** Machine words as natural numbers, for any word width.

    The allocator keeps its bitmaps, its order summary and its packed streak in
    unsigned machine words. A word of width `w` is a number below `Pow2(w)`; the
    bitwise operators are defined digit by digit, and the lemmas state what each of
    them does to every bit.
 */
module Words {

  /** `1 << k` in an unbounded word. */
  function Pow2(k: nat): (p: nat)
    ensures p > 0
  {
    if k == 0 then 1 else 2 * Pow2(k - 1)
  }

  /** Whether bit `i` of `x` is set. */
  predicate Bit(x: nat, i: nat)
    decreases i
  {
    if i == 0 then x % 2 == 1 else Bit(x / 2, i - 1)
  }

  function And(x: nat, y: nat): (r: nat)
    ensures r <= x && r <= y
  {
    if x == 0 || y == 0 then 0 else (if x % 2 == 1 && y % 2 == 1 then 1 else 0) + 2 * And(x / 2, y / 2)
  }

  function Or(x: nat, y: nat): (r: nat)
    ensures r >= x && r >= y && r <= x + y
    decreases x + y
  {
    if x == 0 then y
    else if y == 0 then x
    else (if x % 2 == 1 || y % 2 == 1 then 1 else 0) + 2 * Or(x / 2, y / 2)
  }

  /** Bitwise complement within a word of width `w`. */
  function Not(w: nat, x: nat): (r: nat)
    requires x < Pow2(w)
    ensures r < Pow2(w)
  {
    Pow2(w) - 1 - x
  }

  /** `(1 as Word).wrapping_shl(k)`: the shift amount is reduced modulo the width. */
  function WrappingShl1(w: nat, k: nat): (r: nat)
    requires w > 0
    ensures k < w ==> r == Pow2(k)
  {
    assert k < w ==> k % w == k by { if k < w { ModOnce(k, w); } }
    Pow2(k % w)
  }

  /** Index of the lowest set bit. */
  function TrailingZeros(x: nat): (r: nat)
    requires x > 0
    ensures Bit(x, r)
    ensures forall j: nat :: j < r ==> !Bit(x, j)
  {
    if x % 2 == 1 then 0 else 1 + TrailingZeros(x / 2)
  }

  function CountOnes(x: nat): nat
  {
    if x == 0 then 0 else x % 2 + CountOnes(x / 2)
  }

  lemma {:induction false} Pow2Monotone(i: nat, j: nat)
    requires i <= j
    ensures Pow2(i) <= Pow2(j)
    ensures i < j ==> Pow2(i) < Pow2(j)
    decreases j
  {
    if i < j { Pow2Monotone(i, j - 1); }
  }

  lemma Pow2Step(k: nat)
    ensures Pow2(k + 1) == 2 * Pow2(k)
  {
  }

  lemma MulDouble(a: nat, b: nat)
    ensures (2 * a) * b == 2 * (a * b)
  {
  }

  lemma {:induction false} Pow2Add(i: nat, j: nat)
    ensures Pow2(i + j) == Pow2(i) * Pow2(j)
  {
    if i > 0 {
      Pow2Add(i - 1, j);
      MulDouble(Pow2(i - 1), Pow2(j));
    }
  }

  /** The exponent of `next_power_of_two`: the least `k` with `n <= 2^k`. */
  function Log2Ceil(n: nat): (k: nat)
    ensures n <= Pow2(k)
    ensures k > 0 ==> Pow2(k - 1) < n
  {
    if n <= 1 then 0 else 1 + Log2Ceil((n + 1) / 2)
  }

  lemma {:induction false} ZeroBits(i: nat)
    ensures !Bit(0, i)
  {
    if i > 0 { ZeroBits(i - 1); }
  }

  lemma {:induction false} AndBit(x: nat, y: nat, i: nat)
    ensures Bit(And(x, y), i) <==> Bit(x, i) && Bit(y, i)
    decreases i
  {
    ZeroBits(i);
    if x != 0 && y != 0 {
      var d := if x % 2 == 1 && y % 2 == 1 then 1 else 0;
      assert And(x, y) == d + 2 * And(x / 2, y / 2);
      assert And(x, y) / 2 == And(x / 2, y / 2) && And(x, y) % 2 == d;
      if i > 0 { AndBit(x / 2, y / 2, i - 1); }
    }
  }

  lemma {:induction false} OrBit(x: nat, y: nat, i: nat)
    ensures Bit(Or(x, y), i) <==> Bit(x, i) || Bit(y, i)
    decreases i
  {
    ZeroBits(i);
    if x != 0 && y != 0 {
      var d := if x % 2 == 1 || y % 2 == 1 then 1 else 0;
      assert Or(x, y) / 2 == Or(x / 2, y / 2) && Or(x, y) % 2 == d;
      if i > 0 { OrBit(x / 2, y / 2, i - 1); }
    }
  }

  lemma {:induction false} NotBit(w: nat, x: nat, i: nat)
    requires x < Pow2(w)
    ensures Bit(Not(w, x), i) <==> i < w && !Bit(x, i)
    decreases i
  {
    if w == 0 {
      ZeroBits(i);
    } else {
      assert Not(w, x) == 2 * Not(w - 1, x / 2) + (1 - x % 2);
      if i > 0 {
        assert Not(w, x) / 2 == Not(w - 1, x / 2);
        NotBit(w - 1, x / 2, i - 1);
      }
    }
  }

  lemma {:induction false} Pow2Bit(k: nat, i: nat)
    ensures Bit(Pow2(k), i) <==> i == k
    decreases k
  {
    if k == 0 {
      if i > 0 { ZeroBits(i - 1); }
    } else if i > 0 {
      assert Pow2(k) / 2 == Pow2(k - 1);
      Pow2Bit(k - 1, i - 1);
    }
  }

  /** `(1 << k) - 1` is the mask of the `k` lowest bits. */
  lemma {:induction false} LowMaskBit(k: nat, i: nat)
    ensures Bit(Pow2(k) - 1, i) <==> i < k
  {
    NotBit(k, 0, i);
    ZeroBits(i);
  }

  lemma {:induction false} HighBitsClear(w: nat, x: nat, i: nat)
    requires x < Pow2(w) && w <= i
    ensures !Bit(x, i)
    decreases i
  {
    if i > 0 { if w == 0 { ZeroBits(i); } else { HighBitsClear(w - 1, x / 2, i - 1); } }
  }

  lemma {:induction false} NonzeroHasBit(w: nat, x: nat) returns (i: nat)
    requires 0 < x < Pow2(w)
    ensures i < w && Bit(x, i)
  {
    i := TrailingZeros(x);
    if w <= i { HighBitsClear(w, x, i); }
  }

  /** A word with the same bits is the same word. */
  lemma {:induction false} SameBitsSameWord(w: nat, x: nat, y: nat)
    requires x < Pow2(w) && y < Pow2(w)
    requires forall i: nat :: i < w ==> (Bit(x, i) <==> Bit(y, i))
    ensures x == y
  {
    if w > 0 {
      assert Bit(x, 0) <==> Bit(y, 0);
      forall i: nat | i < w - 1
        ensures Bit(x / 2, i) <==> Bit(y / 2, i)
      {
        assert Bit(x, i + 1) <==> Bit(y, i + 1);
      }
      SameBitsSameWord(w - 1, x / 2, y / 2);
    }
  }

  lemma {:induction false} OrBelow(w: nat, x: nat, y: nat)
    requires x < Pow2(w) && y < Pow2(w)
    ensures Or(x, y) < Pow2(w)
  {
    if w > 0 && x != 0 && y != 0 { OrBelow(w - 1, x / 2, y / 2); }
  }

  /** Masking with a power of two less one is the remainder. */
  lemma {:induction false} AndLowMask(x: nat, k: nat)
    ensures And(x, Pow2(k) - 1) == x % Pow2(k)
  {
    if k == 0 {
    } else if x == 0 {
      DivModUnique(0, 0, Pow2(k), 0);
    } else {
      hide And;
      var p := Pow2(k - 1);
      AndLowMask(x / 2, k - 1);
      HalveMod(x, p);
      AndOdd(x, p);
    }
  }

  lemma AndOdd(x: nat, p: nat)
    requires x > 0 && p > 0
    ensures And(x, 2 * p - 1) == x % 2 + 2 * And(x / 2, p - 1)
  {
    assert (2 * p - 1) / 2 == p - 1 && (2 * p - 1) % 2 == 1;
  }

  lemma HalveMod(x: nat, p: nat)
    requires p > 0
    ensures x % (2 * p) == x % 2 + 2 * ((x / 2) % p)
  {
    var q, r := (x / 2) / p, (x / 2) % p;
    assert x == 2 * (q * p + r) + x % 2;
    DivModUnique(q, x % 2 + 2 * r, 2 * p, x);
  }

  lemma MulGap(a: nat, b: nat, d: nat)
    requires a < b
    ensures a * d + d <= b * d
  {
    Distribute(d, a, b - a);
    Distribute(d, 1, b - a - 1);
  }

  lemma DivModUnique(q: nat, r: nat, d: nat, x: nat)
    requires x == q * d + r && r < d
    ensures x / d == q && x % d == r
  {
    var q', r' := x / d, x % d;
    assert x == q' * d + r';
    if q > q' { MulGap(q', q, d); }
    if q < q' { MulGap(q, q', d); }
  }

  lemma DivModSplit(x: nat, d: nat)
    requires d > 0
    ensures x == (x / d) * d + x % d && x % d < d
  {
  }

  /** A remainder of a number below twice the divisor. */
  lemma ModOnce(x: nat, d: nat)
    requires x < 2 * d
    ensures x % d == if x < d then x else x - d
  {
    if x < d { DivModUnique(0, x, d, x); } else { DivModUnique(1, x - d, d, x); }
  }

  /** Packing two fields with a shift and an or is addition. */
  lemma {:induction false} OrPacks(a: nat, k: nat, b: nat)
    requires b < Pow2(k)
    ensures Or(a * Pow2(k), b) == a * Pow2(k) + b
  {
    if k > 0 && b > 0 && a > 0 {
      var p := Pow2(k - 1);
      assert a * (2 * p) == 2 * (a * p);
      assert a * Pow2(k) > 0;
      OrPacks(a, k - 1, b / 2);
    }
  }

  predicate BitAt(base: nat, x: nat, i: nat)
  {
    base <= i && Bit(x, i - base)
  }

  /** The positions of the set bits of `x`, when its lowest bit has position `base`. */
  ghost function BitsAt(base: nat, w: nat, x: nat): (s: set<nat>)
  {
    set i: nat | i < base + w && BitAt(base, x, i)
  }

  lemma {:induction false} CountOnesIsCardinality(base: nat, w: nat, x: nat)
    requires x < Pow2(w)
    ensures CountOnes(x) == |BitsAt(base, w, x)|
    decreases w
  {
    if w == 0 {
      assert BitsAt(base, w, x) == {};
    } else {
      CountOnesIsCardinality(base + 1, w - 1, x / 2);
      var low := if x % 2 == 1 then {base} else {};
      var high := BitsAt(base + 1, w - 1, x / 2);
      forall i: nat | i > base
        ensures i in high <==> i in BitsAt(base, w, x)
      {
        assert BitAt(base, x, i) == BitAt(base + 1, x / 2, i);
      }
      assert BitAt(base, x, base) == (x % 2 == 1);
      assert BitsAt(base, w, x) == low + high;
      assert low !! high;
    }
  }

  lemma Distribute(p: nat, a: nat, b: nat)
    ensures p * (a + b) == p * a + p * b
  {
  }

  lemma SubsetSize(a: set<nat>, b: set<nat>)
    requires a <= b
    ensures |a| <= |b|
  {
    assert b == a + (b - a) && a * (b - a) == {};
  }

  ghost function Least(s: set<nat>): (m: nat)
    requires s != {}
    ensures m in s && forall x :: x in s ==> m <= x
  {
    var x :| x in s;
    if s == {x} then x else
      var m := Least(s - {x});
      assert forall y :: y in s ==> y == x || y in s - {x};
      if x < m then x else m
  }

  lemma ScaleMonotone(p: nat, a: nat, b: nat)
    requires a <= b
    ensures p * a <= p * b
  {
  }

  function One(b: bool): nat { if b then 1 else 0 }

  /** A change of one member changes the size accordingly. */
  lemma OneMember(a: set<nat>, b: set<nat>, x: nat)
    requires forall y :: y != x ==> (y in a <==> y in b)
    ensures |b| + One(x in a) == |a| + One(x in b)
  {
    var rest := a - {x};
    assert b - {x} == rest;
    if x in a { assert a == rest + {x}; } else { assert a == rest; }
    if x in b { assert b == rest + {x}; } else { assert b == rest; }
  }
}
