/** Loading a constant into a data register
    (software/vasm/cpus/rf68000/cpu.c, optimize_instruction, stage 2). */
module Constants {
  import opened Division
  import opened Bits
  import opened DataRegister

  /** The option flags, and the families that the selected processor belongs to; newer means
      68010 or later, CPU32 or ColdFire. */
  datatype Options = Options(moveq: bool, nmovq: bool, size: bool, gen: bool, clr: bool,
                             m68040: bool, mcf: bool, newer: bool)

  /** One word: what MOVEQ can load, or a zero that CLR may clear. */
  predicate OneWord(val: int, o: Options) {
    || (o.moveq && -0x80 <= val <= 0x7f)
    || (val == 0 && o.gen && (o.newer || o.clr))
  }

  /** val is a positive number of seven bits, n places to the left. */
  predicate Scaled(val: int, n: nat) {
    val % Pow2(n) == 0 && 0 < val / Pow2(n) <= 0x7f
  }

  /** Even numbers of nine bits that MOVEQ cannot load. */
  predicate Evens(val: int) {
    (0x80 <= val <= 0xfe || -0x100 <= val <= -0x82) && val % 2 == 0
  }

  /** Bytes and words that NOT and NEG bring into MOVEQ's range. */
  predicate Flips(val: int) {
    0x80 <= val <= 0xff || 0xff81 <= val <= 0xffff || -0xffff <= val <= -0xff80
  }

  /** Numbers whose two halves SWAP exchanges into MOVEQ's range. */
  predicate Halves(val: int) {
    || (val % M16 == 0 && 0x10000 <= val <= 0x7f0000)
    || (val % M16 == 0xffff && -0x7f0001 <= val <= -0x10001)
  }

  /** Positive words with seven significant bits. */
  predicate Sevens(val: int) {
    0x7f < val < 0x8000 && exists n :: 1 <= n <= 8 && Scaled(val, n)
  }

  predicate TwoWords(val: int, o: Options) {
    || (o.moveq && (!(o.m68040 || o.mcf) || o.size) && Evens(val))
    || (o.nmovq && !(o.m68040 || o.mcf) && Flips(val))
    || (o.moveq && !o.m68040 && Halves(val))
    || (o.size && o.moveq && !o.mcf && Sevens(val))
  }

  /** What i makes of a register loaded with x by MOVEQ is val. */
  predicate Makes(x: int, i: Ins, val: int) {
    -0x80 <= x <= 0x7f && Effect(i, Wrap(x)) == Wrap(val)
  }

  /** The rewriting of move.l #val,Dn: the register gets exactly val, in as few words as the
      options allow. */
  method OptimizeMove(val: int, o: Options) returns (list: seq<Ins>)
    requires -0x8000_0000 <= val < 0x8000_0000
    ensures Same(list, [MoveImm(val)])
    ensures TotalBytes(list) == if OneWord(val, o) then 2 else if TwoWords(val, o) then 4 else 6
  {
    hide Effect, Same, Makes, Scaled, Pow2, Bit, Wrap, Signed, Evens, Flips, Halves, Sevens;
    Classes(val);
    var ip := MoveImm(val);
    var next := ip;
    var two := false;
    var hi, lo := 0, 0;
    if o.size && o.moveq && !o.mcf && 0 < val < 0x8000 {
      hi := MostBit(val, 14, 0);
      lo := LeastBit(val, 0, 14);
      if val > 0x7f { SevenWords(val, hi, lo); }
    }
    if o.moveq && -0x80 <= val <= 0x7f {
      ip := Moveq(val);
      MoveqLoads(val);
    } else if o.moveq && (!(o.m68040 || o.mcf) || o.size)
        && (0x80 <= val <= 0xfe || -0x100 <= val <= -0x82) && val % 2 == 0 {
      ip := Moveq(val / 2);
      two, next := true, AddSelf(if o.mcf then Long else Word);
      DoubledLoads(val, if o.mcf then Long else Word);
      MakesSame(val / 2, next, val);
    } else if o.nmovq && !(o.m68040 || o.mcf) && 0x80 <= val <= 0xff {
      ip := Moveq(0xff - val);
      two, next := true, Not(Byte);
      NottedLoads(val);
      MakesSame(0xff - val, Not(Byte), val);
    } else if o.moveq && !o.m68040 && (|| (val % M16 == 0 && 0x10000 <= val <= 0x7f0000)
                                       || (val % M16 == 0xffff && 0xff80ffff <= Wrap(val) <= 0xfffeffff)) {
      ip := Moveq(val / M16);
      two, next := true, Swap;
      SwappedLoads(val);
      MakesSame(val / M16, Swap, val);
    } else if o.nmovq && !(o.m68040 || o.mcf)
        && (0xff81 <= Wrap(val) <= 0xffff || 0xffff0001 <= Wrap(val) <= 0xffff0080) {
      ip := Moveq(-Signed(val, Word));
      two, next := true, Neg(Word);
      NegatedLoads(val);
      MakesSame(-Signed(val, Word), Neg(Word), val);
    } else if o.size && o.moveq && !o.mcf && 0 < val < 0x8000 && hi - lo < 7 {
      ip := Moveq(val / Pow2(hi - 6));
      two, next := true, ShiftImm(Lsl, Word, hi - 6);
      ShiftedLoads(val, hi - 6);
      MakesSame(val / Pow2(hi - 6), next, val);
    } else if o.gen && val == 0 && (o.newer || o.clr) {
      ip := Clr;
      ClrLoads();
    } else {
      SameSelf([MoveImm(val)]);
    }
    TwoBytes(ip, next);
    list := if two then [ip, next] else [ip];
  }

  /** The source's own tests for the classes. */
  lemma Classes(val: int)
    requires -0x8000_0000 <= val < 0x8000_0000
    ensures ((0x80 <= val <= 0xfe || -0x100 <= val <= -0x82) && val % 2 == 0) <==> Evens(val)
    ensures Flips(val)
        <==> 0x80 <= val <= 0xff || 0xff81 <= Wrap(val) <= 0xffff || 0xffff0001 <= Wrap(val) <= 0xffff0080
    ensures (|| (val % M16 == 0 && 0x10000 <= val <= 0x7f0000)
             || (val % M16 == 0xffff && 0xff80ffff <= Wrap(val) <= 0xfffeffff)) <==> Halves(val)
    ensures Wrap(val) == if val < 0 then M32 + val else val
    ensures Sevens(val) ==> 0x7f < val < 0x8000
  {
    LowOf(val, Long, if val < 0 then -1 else 0, if val < 0 then M32 + val else val);
  }

  lemma SevenWords(val: int, hi: nat, lo: nat)
    requires 0x7f < val < 0x8000
    requires hi <= 14 && (hi > 0 ==> Bit(val, hi)) && forall k :: hi < k <= 14 ==> !Bit(val, k)
    requires lo <= 14 && (lo < 14 ==> Bit(val, lo)) && forall k :: 0 <= k < lo ==> !Bit(val, k)
    ensures Sevens(val) <==> hi - lo < 7
    ensures hi >= 7 && (hi - lo < 7 ==> Scaled(val, hi - 6))
  {
    SevenBits(val, hi, lo);
  }

  // ----- what each pair of instructions loads

  lemma MoveqLoads(x: int)
    requires -0x80 <= x <= 0x7f
    ensures Same([Moveq(x)], [MoveImm(x)]) && Signed(x, Byte) == x
  {
    LowOf(x, Byte, if x < 0 then -1 else 0, if x < 0 then x + 0x100 else x);
    forall v: u32 ensures Run([Moveq(x)], v) == Run([MoveImm(x)], v) {
      RunOne(Moveq(x), v);
      RunOne(MoveImm(x), v);
    }
  }

  lemma ClrLoads()
    ensures Same([Clr], [MoveImm(0)])
  {
    forall v: u32 ensures Run([Clr], v) == Run([MoveImm(0)], v) {
      RunOne(Clr, v);
      RunOne(MoveImm(0), v);
    }
  }

  lemma MakesSame(x: int, i: Ins, val: int)
    requires Makes(x, i, val)
    ensures Same([Moveq(x), i], [MoveImm(val)])
  {
    MoveqLoads(x);
    forall v: u32 ensures Run([Moveq(x), i], v) == Run([MoveImm(val)], v) {
      RunTwo(Moveq(x), i, v);
      RunOne(MoveImm(val), v);
    }
  }

  /** What MOVEQ leaves in the register, and in its lowest word and byte. */
  lemma Loaded(x: int)
    requires -0x80 <= x <= 0x7f
    ensures Wrap(x) == (if x < 0 then M32 + x else x)
    ensures Low(Wrap(x), Word) == (if x < 0 then M16 + x else x)
    ensures Low(Wrap(x), Byte) == (if x < 0 then 0x100 + x else x)
  {
    var u := if x < 0 then M32 + x else x;
    LowOf(x, Long, if x < 0 then -1 else 0, u);
    LowOf(u, Word, if x < 0 then 0xffff else 0, if x < 0 then M16 + x else x);
    LowOf(u, Byte, if x < 0 then 0xffffff else 0, if x < 0 then 0x100 + x else x);
  }

  lemma DoubledLoads(val: int, size: Size)
    requires val % 2 == 0 && -0x100 <= val <= 0xfe && size != Byte
    ensures Makes(val / 2, AddSelf(size), val)
  {
    var x := val / 2;
    assert val == 2 * x;
    Loaded(x);
    LowOf(2 * Wrap(x), size, if x >= 0 then 0 else if size == Word then 0x1ffff else 1,
          if x >= 0 then val else Range(size) + val);
    LowOf(val, Long, if x < 0 then -1 else 0, if x < 0 then M32 + val else val);
  }

  lemma NottedLoads(val: int)
    requires 0x80 <= val <= 0xff
    ensures Makes(0xff - val, Not(Byte), val)
  {
    var x := 0xff - val;
    Loaded(x);
    LowOf(-1 - x, Byte, -1, val);
  }

  lemma SwappedLoads(val: int)
    requires || (val % M16 == 0 && 0x10000 <= val <= 0x7f0000)
             || (val % M16 == 0xffff && -0x7f0001 <= val <= -0x10001)
    ensures Makes(val / M16, Swap, val)
  {
    var x := val / M16;
    Loaded(x);
    assert val == x * M16 + val % M16;
    QuotientIs(Wrap(x), M16, if x < 0 then 0xffff else 0, if x < 0 then M16 + x else x);
    LowOf(val, Long, if x < 0 then -1 else 0, if x < 0 then M32 + val else val);
  }

  lemma NegatedLoads(val: int)
    requires 0xff81 <= val <= 0xffff || -0xffff <= val <= -0xff80
    ensures Makes(-Signed(val, Word), Neg(Word), val)
  {
    LowOf(val, Word, if val < 0 then -1 else 0, if val < 0 then M16 + val else val);
    var x := -Signed(val, Word);
    Loaded(x);
    LowOf(0 - Wrap(x), Word, if x < 0 then -0x10000 else -1, if x < 0 then -x else M16 - x);
    LowOf(val, Long, if val < 0 then -1 else 0, if val < 0 then M32 + val else val);
  }

  lemma ShiftedLoads(val: int, n: nat)
    requires 0 < val < 0x8000 && Scaled(val, n)
    ensures Makes(val / Pow2(n), ShiftImm(Lsl, Word, n), val)
  {
    var x := val / Pow2(n);
    assert x * Pow2(n) == val;
    Loaded(x);
    LowOf(val, Word, 0, val);
    LowOf(val, Long, 0, val);
  }

  // ----- the test for seven significant bits

  lemma {:induction false} HighBit(v: nat, n: nat, hi: nat)
    requires v < Pow2(n) && forall k :: hi < k < n ==> !Bit(v, k)
    ensures hi < n ==> v < Pow2(hi + 1)
    decreases n
  {
    if hi + 1 < n {
      var top := v / Pow2(n - 1);
      BitShr(v, n - 1, 0);
      assert Pow2(n) == 2 * Pow2(n - 1);
      assert v / Pow2(n - 1) % 2 == 0;
      TopZero(v, Pow2(n - 1));
      HighBit(v, n - 1, hi);
    }
  }

  lemma TopZero(v: nat, p: nat)
    requires p > 0 && v < 2 * p && (v / p) % 2 == 0
    ensures v < p
  {
    if v >= p { QuotientIs(v, p, 1, v - p); }
  }

  lemma LowBitsZero(v: int, n: nat)
    requires forall k :: 0 <= k < n ==> !Bit(v, k)
    ensures v % Pow2(n) == 0
  {
    forall i | 0 <= i < n ensures Bit(v % Pow2(n), i) == Bit(0, i) {
      BitMod(v, n, i);
      BitZero(i);
    }
    SameBits(v % Pow2(n), 0, n);
  }

  /** The highest and the lowest set bit are less than seven apart if and only if val is a
      seven-bit number moved left; moving it by the highest bit's place less six does. */
  lemma SevenBits(val: int, hi: nat, lo: nat)
    requires 0x7f < val < 0x8000
    requires hi <= 14 && (hi > 0 ==> Bit(val, hi)) && forall k :: hi < k <= 14 ==> !Bit(val, k)
    requires lo <= 14 && (lo < 14 ==> Bit(val, lo)) && forall k :: 0 <= k < lo ==> !Bit(val, k)
    ensures hi - lo < 7 <==> exists n :: 1 <= n <= 8 && Scaled(val, n)
    ensures hi >= 7 && (hi - lo < 7 ==> Scaled(val, hi - 6))
  {
    hide Bit, Scaled, Pow2;
    HighPlace(val, hi);
    if hi - lo < 7 {
      CloseScaled(val, hi, lo);
    }
    if n :| 1 <= n <= 8 && Scaled(val, n) {
      if lo < n { ScaledLow(val, n, lo); }
      if hi >= n + 7 { ScaledHigh(val, n, hi); }
    }
  }

  lemma HighPlace(val: int, hi: nat)
    requires 0x7f < val < 0x8000 && hi <= 14 && forall k :: hi < k <= 14 ==> !Bit(val, k)
    ensures hi >= 7 && val < Pow2(hi + 1)
  {
    assert Pow2(15) == 0x8000 && Pow2(7) == 0x80;
    HighBit(val, 15, hi);
    if hi < 7 { PowMono(hi + 1, 7); }
  }

  lemma CloseScaled(val: int, hi: nat, lo: nat)
    requires 0x7f < val < Pow2(hi + 1) && 7 <= hi < lo + 7 && forall k :: 0 <= k < lo ==> !Bit(val, k)
    ensures Scaled(val, hi - 6)
  {
    var n := hi - 6;
    LowBitsZero(val, n);
    Pow2Sum(n, 7);
    assert Pow2(7) == 0x80;
    SmallQuotient(val, Pow2(n));
  }

  /** A set bit below n is in the way. */
  lemma ScaledLow(val: int, n: nat, lo: nat)
    requires Scaled(val, n) && lo < n <= 8
    ensures !Bit(val, lo)
  {
    BitMod(val, n, lo);
    BitZero(lo);
  }

  lemma ScaledHigh(val: int, n: nat, hi: nat)
    requires Scaled(val, n) && hi >= n + 7
    ensures !Bit(val, hi)
  {
    BitShr(val, n, hi - n);
    SmallBits(val / Pow2(n), hi - n);
  }

  lemma SmallQuotient(v: nat, p: nat)
    requires p > 0 && 0 < v < p * 0x80 && v % p == 0
    ensures 0 < v / p <= 0x7f
  {
    assert v == (v / p) * p + v % p;
    if v / p >= 0x80 { Multiples(0x80, v / p, p); }
    if v / p <= 0 { Multiples(v / p, 0, p); }
  }

  lemma SmallBits(v: nat, i: nat)
    requires v < 0x80 && i >= 7
    ensures !Bit(v, i)
  {
    BitMod(v, 7, i);
    assert Pow2(7) == 0x80;
    QuotientIs(v, 0x80, 0, v);
  }
}
