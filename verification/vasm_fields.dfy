/** Writing bit fields into the code buffer
    (software/vasm/cpus/rf68000/cpu.c, write_val, and the register mask of MOVEM). */
module Fields {
  import opened Division
  import opened Bits

  type Byte = x: int | 0 <= x < 256

  /** The bitwise or of the lowest n bits. */
  function Or(a: nat, b: nat, n: nat): nat
    decreases n
  {
    if n == 0 then 0 else 2 * Or(a / 2, b / 2, n - 1) + (if a % 2 == 1 || b % 2 == 1 then 1 else 0)
  }

  lemma {:induction false} OrBits(a: nat, b: nat, n: nat, i: nat)
    ensures Or(a, b, n) < Pow2(n)
    ensures Bit(Or(a, b, n), i) == (i < n && (Bit(a, i) || Bit(b, i)))
    decreases n
  {
    if n == 0 {
      BitZero(i);
    } else {
      OrBits(a / 2, b / 2, n - 1, if i > 0 then i - 1 else 0);
      var r, c := Or(a / 2, b / 2, n - 1), if a % 2 == 1 || b % 2 == 1 then 1 else 0;
      assert (2 * r + c) / 2 == r && (2 * r + c) % 2 == c;
    }
  }

  function OrByte(a: Byte, b: Byte): (r: Byte) {
    OrBits(a, b, 8, 0);
    assert Pow2(8) == 256;
    Or(a, b, 8)
  }

  /** Bit k of a buffer, counted from the most significant bit of its first byte. */
  predicate BitAt(s: seq<Byte>, k: nat) {
    k / 8 < |s| && Bit(s[k / 8], 7 - k % 8)
  }

  /** The byte that holds the bits of val from the 8-shift-th on. */
  function Part(val: int, shift: int): Byte {
    if shift > 0 then (val * Pow2(shift)) % 256 else (val / Pow2(-shift)) % 256
  }

  lemma PartBits(val: int, shift: int, i: nat)
    requires i < 8
    ensures Bit(Part(val, shift), i) == (i >= shift && Bit(val, i - shift))
  {
    assert Pow2(8) == 256;
    if shift > 0 {
      BitMod(val * Pow2(shift), 8, i);
      BitShl(val, shift, i);
    } else {
      BitMod(val / Pow2(-shift), 8, i);
      BitShr(val, -shift, i);
    }
  }

  /** What writing val to `size` bits at pos does, bit by bit: its bits are or-ed in, and those
      too high for the field go to the bits before it in the same byte. */
  ghost predicate Written(s: seq<Byte>, s': seq<Byte>, pos: nat, size: nat, val: int) {
    && |s'| == |s|
    && forall k :: 0 <= k < 8 * |s| ==>
         BitAt(s', k) == (BitAt(s, k) || (size > 0 && 8 * (pos / 8) <= k < pos + size && Bit(val, pos + size - 1 - k)))
  }

  /** One byte of it: the bits of v are or-ed into byte b, and no other byte changes. */
  lemma ByteWritten(s: seq<Byte>, b: nat, v: Byte, k: nat)
    requires b < |s| && k / 8 < |s|
    ensures BitAt(s[b := OrByte(s[b], v)], k) == (BitAt(s, k) || (k / 8 == b && Bit(v, 7 - k % 8)))
  {
    if k / 8 == b { OrBits(s[b], v, 8, 7 - k % 8); }
  }

  method WriteVal(d: array<Byte>, pos: nat, size: nat, val: int)
    requires pos + size <= 8 * d.Length
    modifies d
    ensures Written(old(d[..]), d[..], pos, size, val)
  {
    ghost var s, end := d[..], pos + size;
    var i, bit, left: int := pos / 8, pos % 8, size;
    while left > 0
      invariant pos / 8 <= i && 0 <= bit < 8 && 8 * i + bit + left == end
      invariant i > pos / 8 ==> bit == 0
      invariant i == pos / 8 ==> bit == pos % 8 && left == size
      invariant forall k :: 0 <= k < 8 * |s| ==>
        BitAt(d[..], k) == (BitAt(s, k) || (size > 0 && 8 * (pos / 8) <= k < 8 * i && k < end && Bit(val, end - 1 - k)))
    {
      var shift := 8 - bit - left;
      var v: Byte := if shift > 0 then (val * Pow2(shift)) % 256
                     else if shift < 0 then (val / Pow2(-shift)) % 256
                     else val % 256;
      ghost var t := d[..];
      assert v == Part(val, shift) by { assert val / Pow2(0) == val; }
      d[i] := OrByte(d[i], v);
      assert d[..] == t[i := OrByte(t[i], v)];
      forall k | 0 <= k < 8 * |s|
        ensures BitAt(d[..], k)
          == (BitAt(s, k) || (8 * (pos / 8) <= k < 8 * (i + 1) && k < end && Bit(val, end - 1 - k)))
      {
        ByteWritten(t, i, v, k);
        if k / 8 == i { PartBits(val, shift, 7 - k % 8); }
      }
      left := left - (8 - bit);
      bit := 0;
      i := i + 1;
    }
  }

  // ----- reading a field back

  /** The number in `size` bits at pos. */
  function Field(s: seq<Byte>, pos: nat, size: nat): nat {
    if size == 0 then 0 else 2 * Field(s, pos, size - 1) + (if BitAt(s, pos + size - 1) then 1 else 0)
  }

  lemma {:induction false} FieldBits(s: seq<Byte>, pos: nat, size: nat, i: nat)
    ensures Field(s, pos, size) < Pow2(size)
    ensures Bit(Field(s, pos, size), i) == (i < size && BitAt(s, pos + size - 1 - i))
    decreases size
  {
    if size == 0 {
      BitZero(i);
    } else {
      FieldBits(s, pos, size - 1, if i > 0 then i - 1 else 0);
      var r, c := Field(s, pos, size - 1), if BitAt(s, pos + size - 1) then 1 else 0;
      assert (2 * r + c) / 2 == r && (2 * r + c) % 2 == c;
    }
  }

  ghost predicate Zeroed(s: seq<Byte>, from: nat, to: nat) {
    forall k :: from <= k < to ==> !BitAt(s, k)
  }

  /** A field that was zero reads back as the value written, modulo its width. */
  lemma ReadsBack(s: seq<Byte>, s': seq<Byte>, pos: nat, size: nat, val: int)
    requires Written(s, s', pos, size, val) && pos + size <= 8 * |s| && Zeroed(s, pos, pos + size)
    ensures Field(s', pos, size) == val % Pow2(size)
  {
    FieldBits(s', pos, size, 0);
    forall i | 0 <= i < size ensures Bit(Field(s', pos, size), i) == Bit(val % Pow2(size), i) {
      FieldBits(s', pos, size, i);
      BitMod(val, size, i);
      var k := pos + size - 1 - i;
      assert 0 <= k < 8 * |s| && !BitAt(s, k);
    }
    SameBits(Field(s', pos, size), val % Pow2(size), size);
  }

  /** The bits of val that a write puts in front of the field. */
  predicate Spills(pos: nat, size: nat, val: int) {
    size > 0 && (val / Pow2(size)) % Pow2(pos % 8) != 0
  }

  /** No bit outside the field changes if and only if nothing spills, when the bits in front of
      the field were zero. */
  lemma OutsideKept(s: seq<Byte>, s': seq<Byte>, pos: nat, size: nat, val: int)
    requires Written(s, s', pos, size, val) && pos + size <= 8 * |s| && Zeroed(s, pos - pos % 8, pos)
    ensures (forall k :: 0 <= k < 8 * |s| && !(pos <= k < pos + size) ==> BitAt(s', k) == BitAt(s, k))
       <==> !Spills(pos, size, val)
  {
    var n, spill := pos % 8, (val / Pow2(size)) % Pow2(pos % 8);
    if size > 0 {
      forall i | 0 <= i < n ensures Bit(spill, i) == BitAt(s', pos - 1 - i) && pos - 1 - i >= 8 * (pos / 8) {
        BitMod(val / Pow2(size), n, i);
        BitShr(val, size, i);
        assert !BitAt(s, pos - 1 - i);
      }
      if forall i :: 0 <= i < n ==> !Bit(spill, i) {
        forall i | 0 <= i < n ensures Bit(spill, i) == Bit(0, i) { BitZero(i); }
        SameBits(spill, 0, n);
        forall k | 0 <= k < 8 * |s| && !(pos <= k < pos + size) ensures BitAt(s', k) == BitAt(s, k) {
          if 8 * (pos / 8) <= k < pos { assert !Bit(spill, pos - 1 - k); }
        }
      } else {
        var i :| 0 <= i < n && Bit(spill, i);
        BitZero(i);
        assert BitAt(s', pos - 1 - i) && !BitAt(s, pos - 1 - i);
      }
    }
  }

  /** Nothing spills from a field that starts at a byte, nor of a value that fits. */
  lemma FitsOrAligned(pos: nat, size: nat, val: int)
    requires pos % 8 == 0 || 0 <= val < Pow2(size)
    ensures !Spills(pos, size, val)
  {
    if pos % 8 != 0 {
      QuotientIs(val, Pow2(size), 0, val);
      QuotientIs(0, Pow2(pos % 8), 0, 0);
    }
  }

  // ----- the register mask of MOVEM

  /** The mask of a MOVEM in the second word, from bit 16 on; for a predecrement destination the
      registers are counted from the other end. */
  method InsertRegisterMask(d: array<Byte>, list: int, predecrement: bool)
    requires d.Length >= 4 && Zeroed(d[..], 16, 32)
    modifies d
    ensures forall k :: 0 <= k < 8 * d.Length && !(16 <= k < 32) ==> BitAt(d[..], k) == old(BitAt(d[..], k))
    ensures forall r :: 0 <= r < 16 ==>
      (BitAt(d[..], if predecrement then 16 + r else 31 - r) <==> Bit(list, r))
  {
    ghost var s := d[..];
    var v := list;
    if predecrement {
      v := ReverseBits(list, 16);
    }
    WriteVal(d, 16, 16, v);
    forall r | 0 <= r < 16 ensures BitAt(d[..], if predecrement then 16 + r else 31 - r) <==> Bit(list, r) {
      if predecrement { ReverseMirrors(list, 16, 15 - r); }
      var k := if predecrement then 16 + r else 31 - r;
      assert 0 <= k < 8 * |s|;
    }
  }

  /** The mask of a predecrement MOVEM reads back as the mirrored register list, and mirrored
      again as the list itself. */
  lemma PredecrementMask(s: seq<Byte>, s': seq<Byte>, list: nat)
    requires |s| >= 4 && Zeroed(s, 16, 32) && list < Pow2(16)
    requires Written(s, s', 16, 16, Reverse(list, 16))
    ensures Field(s', 16, 16) == Reverse(list, 16)
    ensures Reverse(Field(s', 16, 16), 16) == list
  {
    var v := Reverse(list, 16);
    ReadsBack(s, s', 16, 16, v);
    ReverseMirrors(list, 16, 0);
    QuotientIs(v, Pow2(16), 0, v);
    ReverseTwice(list, 16);
    QuotientIs(list, Pow2(16), 0, list);
  }
}
