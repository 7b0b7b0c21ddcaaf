/** Bits of integers and the bit loops of the 68k backend
    (software/vasm/cpus/rf68000/cpu.c: reverse, cntones, lsbit, msbit). */
module Bits {
  import opened Division

  function Pow2(n: nat): (r: nat)
    ensures r > 0
  {
    if n == 0 then 1 else 2 * Pow2(n - 1)
  }

  lemma PowMono(a: nat, b: nat)
    requires a <= b
    ensures Pow2(a) <= Pow2(b)
  {
    if a < b { PowMono(a, b - 1); }
  }

  /** Bit i of v, a negative number being in two's complement. */
  predicate Bit(v: int, i: nat)
    decreases i
  {
    if i == 0 then v % 2 == 1 else Bit(v / 2, i - 1)
  }

  lemma {:induction false} Pow2Sum(a: nat, b: nat)
    ensures Pow2(a + b) == Pow2(a) * Pow2(b)
  {
    if a > 0 {
      Pow2Sum(a - 1, b);
      assert Pow2(a + b) == 2 * Pow2(a + b - 1);
      assert 2 * (Pow2(a - 1) * Pow2(b)) == 2 * Pow2(a - 1) * Pow2(b);
    }
  }

  lemma Nested(a: int, b: int, q: int, z: int, y: int)
    ensures (q * b + z) * a + y == q * (a * b) + (z * a + y)
  {
    assert (q * b + z) * a == (q * b) * a + z * a;
    assert (q * b) * a == q * (b * a);
  }

  /** Dividing by a product is dividing twice, also for negative numbers. */
  lemma DivDiv(v: int, a: nat, b: nat)
    requires a > 0 && b > 0
    ensures a * b > 0 && v / (a * b) == (v / a) / b
  {
    var x, y := v / a, v % a;
    var q, z := x / b, x % b;
    assert v == x * a + y;
    assert x == q * b + z;
    Nested(a, b, q, z, y);
    Multiples(z, b - 1, a);
    assert (b - 1) * a == a * b - a;
    Multiples(1, b, a);
    QuotientIs(v, a * b, q, z * a + y);
  }

  // ----- bits of shifted and cut numbers

  lemma {:induction false} BitShr(v: int, s: nat, i: nat)
    ensures Bit(v / Pow2(s), i) == Bit(v, i + s)
    decreases s
  {
    if s == 0 {
      assert v / 1 == v;
    } else {
      DivDiv(v, 2, Pow2(s - 1));
      BitShr(v / 2, s - 1, i);
    }
  }

  lemma {:induction false} BitShl(v: int, s: nat, i: nat)
    ensures Bit(v * Pow2(s), i) == (i >= s && Bit(v, i - s))
    decreases s
  {
    if s > 0 {
      var w := v * Pow2(s - 1);
      assert v * Pow2(s) == 2 * w;
      assert (2 * w) / 2 == w && (2 * w) % 2 == 0;
      if i > 0 { BitShl(v, s - 1, i - 1); }
    }
  }

  lemma {:induction false} BitMod(v: int, n: nat, i: nat)
    ensures Bit(v % Pow2(n), i) == (i < n && Bit(v, i))
    decreases n
  {
    if n == 0 {
      BitZero(i);
    } else {
      ModHalf(v, n);
      if i > 0 { BitMod(v / 2, n - 1, i - 1); }
    }
  }

  lemma {:induction false} BitZero(i: nat)
    ensures !Bit(0, i)
  {
    if i > 0 { BitZero(i - 1); }
  }

  lemma ModHalf(v: int, n: nat)
    requires n > 0
    ensures (v % Pow2(n)) / 2 == (v / 2) % Pow2(n - 1) && (v % Pow2(n)) % 2 == v % 2
  {
    var p := Pow2(n - 1);
    var q, r := (v / 2) / p, (v / 2) % p;
    assert v / 2 == p * q + r;
    assert v == 2 * (v / 2) + v % 2;
    assert v == (2 * p) * q + (2 * r + v % 2);
    assert v == q * (2 * p) + (2 * r + v % 2);
    QuotientIs(v, 2 * p, q, 2 * r + v % 2);
  }

  /** A number below 2^n is its bits. */
  lemma {:induction false} SameBits(a: nat, b: nat, n: nat)
    requires a < Pow2(n) && b < Pow2(n) && forall i :: 0 <= i < n ==> Bit(a, i) == Bit(b, i)
    ensures a == b
    decreases n
  {
    if n > 0 {
      assert Bit(a, 0) == Bit(b, 0);
      forall i | 0 <= i < n - 1 ensures Bit(a / 2, i) == Bit(b / 2, i) {
        assert Bit(a, i + 1) == Bit(b, i + 1);
      }
      SameBits(a / 2, b / 2, n - 1);
    }
  }

  // ----- the loops

  /** v with its lowest `size` bits in reverse order, the others gone. */
  function Reverse(v: int, size: nat): nat {
    if size == 0 then 0 else 2 * Reverse(v, size - 1) + (if Bit(v, size - 1) then 1 else 0)
  }

  method ReverseBits(v: int, size: nat) returns (r: nat)
    requires size <= 32
    ensures r == Reverse(v, size)
  {
    r := 0;
    var i := 0;
    while i < size
      invariant i <= size && r == Reverse(v, i)
    {
      r := 2 * r;
      if Bit(v, i) {
        r := r + 1;
      }
      i := i + 1;
    }
  }

  /** Bit j from the one end is bit j from the other. */
  lemma {:induction false} ReverseMirrors(v: int, size: nat, j: nat)
    ensures Reverse(v, size) < Pow2(size)
    ensures Bit(Reverse(v, size), j) == (j < size && Bit(v, size - 1 - j))
    decreases size
  {
    if size == 0 {
      BitZero(j);
    } else {
      var r := Reverse(v, size - 1);
      ReverseMirrors(v, size - 1, if j > 0 then j - 1 else 0);
      var b := if Bit(v, size - 1) then 1 else 0;
      assert (2 * r + b) / 2 == r && (2 * r + b) % 2 == b;
    }
  }

  /** Reversing twice gives the lowest `size` bits back. */
  lemma ReverseTwice(v: int, size: nat)
    ensures Reverse(Reverse(v, size), size) == v % Pow2(size)
  {
    var r := Reverse(v, size);
    ReverseMirrors(r, size, 0);
    forall i | 0 <= i < size ensures Bit(Reverse(r, size), i) == Bit(v % Pow2(size), i) {
      ReverseMirrors(r, size, i);
      ReverseMirrors(v, size, size - 1 - i);
      BitMod(v, size, i);
    }
    SameBits(Reverse(r, size), v % Pow2(size), size);
  }

  /** How many of the lowest `bits` bits are set. */
  function Ones(v: int, bits: nat): (n: nat)
    ensures n <= bits
  {
    if bits == 0 then 0 else (if Bit(v, bits - 1) then 1 else 0) + Ones(v, bits - 1)
  }

  method CountOnes(v: int, bits: nat) returns (r: nat)
    ensures r == Ones(v, bits)
  {
    var w := v;
    var i := 0;
    r := 0;
    assert v / Pow2(0) == v;
    while i < bits
      invariant i <= bits && r == Ones(v, i) && w == v / Pow2(i)
    {
      BitShr(v, i, 0);
      DivDiv(v, Pow2(i), 2);
      assert Pow2(i) * 2 == Pow2(i + 1);
      r := r + w % 2;
      w := w / 2;
      i := i + 1;
    }
  }

  /** The first set bit from start on, or `end`. */
  method LeastBit(v: int, start: nat, end: nat) returns (i: nat)
    requires start <= end
    ensures start <= i <= end && forall k :: start <= k < i ==> !Bit(v, k)
    ensures i < end ==> Bit(v, i)
  {
    i := start;
    while i < end
      invariant start <= i <= end && forall k :: start <= k < i ==> !Bit(v, k)
    {
      if Bit(v, i) {
        break;
      }
      i := i + 1;
    }
  }

  /** The first set bit from start down, or `end`. */
  method MostBit(v: int, start: nat, end: nat) returns (i: nat)
    requires end <= start
    ensures end <= i <= start && forall k :: i < k <= start ==> !Bit(v, k)
    ensures i > end ==> Bit(v, i)
  {
    i := start;
    while i > end
      invariant end <= i <= start && forall k :: i < k <= start ==> !Bit(v, k)
    {
      if Bit(v, i) {
        break;
      }
      i := i - 1;
    }
  }
}
