/** Multiplications and divisions by powers of two, and shifts by one or two places
    (software/vasm/cpus/rf68000/cpu.c, optimize_instruction, stages 1 and 2). */
module Strength {
  import opened Division
  import opened Bits
  import opened DataRegister

  /** The option flags, and the families that the selected processor belongs to: mcfbc is
      ColdFire ISA_B or ISA_C, fastShift 68060 or ColdFire. */
  datatype Options = Options(mul: bool, div: bool, speed: bool, gen: bool, lsl: bool, mcfbc: bool, fastShift: bool)

  // ----- arithmetic modulo the range of a size

  /** Numbers a multiple of the range apart have the same lowest bits. */
  lemma LowSame(a: int, b: int, size: Size, t: int)
    requires a == b + t * Range(size)
    ensures Low(a, size) == Low(b, size)
  {
    var q, r := b / Range(size), b % Range(size);
    assert b == q * Range(size) + r;
    assert a == (q + t) * Range(size) + r;
    LowOf(a, size, q + t, r);
  }

  /** The lowest bits of a product depend on those of a factor alone. */
  lemma LowProduct(v: int, size: Size, p: int)
    ensures Low(Low(v, size) * p, size) == Low(v * p, size)
  {
    var q := v / Range(size);
    assert v == q * Range(size) + Low(v, size);
    assert Low(v, size) * p == v * p + (-q * p) * Range(size) by {
      Regroup(q, Range(size), p);
    }
    LowSame(Low(v, size) * p, v * p, size, -q * p);
  }

  lemma Regroup(q: int, r: int, p: int)
    ensures (q * r) * p == (q * p) * r && (-q * p) * r == -((q * p) * r)
  {
    assert (q * r) * p == q * (r * p);
    assert q * (p * r) == (q * p) * r;
    assert -q * p == -(q * p);
  }

  lemma ReplaceLow(v: u32, w: int, size: Size)
    ensures Low(Replace(v, w, size), size) == Low(w, size)
    ensures Replace(Replace(v, w, size), w, size) == Replace(v, w, size)
  {
    var q := v / Range(size);
    assert v == q * Range(size) + Low(v, size);
    LowOf(Replace(v, w, size), size, q, Low(w, size));
  }

  /** Replacing twice keeps what was put in last. */
  lemma ReplaceTwice(v: u32, w: int, x: int, size: Size)
    ensures Replace(Replace(v, w, size), x, size) == Replace(v, x, size)
  {
    ReplaceLow(v, w, size);
  }

  // ----- shifts

  /** ASL/LSL #1 becomes an ADD, and #2 of a byte or word two ADDs. */
  method OptimizeShift(kind: Shift, size: Size, count: nat, o: Options) returns (list: seq<Ins>)
    ensures Same(list, [ShiftImm(kind, size, count)])
    ensures |list| <= 2 && (forall i :: 0 <= i < |list| ==> Bytes(list[i]) == 2)
    ensures AddSelf(size) in list <==>
      && (if kind == Asl then o.gen else kind == Lsl && o.lsl) && !o.fastShift
      && (count == 1 || (count == 2 && o.speed && o.lsl && size != Long))
  {
    list := [ShiftImm(kind, size, count)];
    if ((kind == Asl && o.gen) || (kind == Lsl && o.lsl)) && !o.fastShift {
      if count == 1 {
        list := [AddSelf(size)];
        ShiftedOnce(kind, size);
      } else if o.speed && o.lsl && count == 2 && (size == Byte || size == Word) {
        list := [AddSelf(size), AddSelf(size)];
        ShiftedTwice(kind, size);
      }
    }
  }

  lemma ShiftedOnce(kind: Shift, size: Size)
    requires kind != Lsr
    ensures Same([AddSelf(size)], [ShiftImm(kind, size, 1)])
  {
    forall v: u32 ensures Run([AddSelf(size)], v) == Run([ShiftImm(kind, size, 1)], v) {
      RunOne(AddSelf(size), v);
      RunOne(ShiftImm(kind, size, 1), v);
      assert Pow2(1) == 2;
    }
  }

  lemma ShiftedTwice(kind: Shift, size: Size)
    requires kind != Lsr
    ensures Same([AddSelf(size), AddSelf(size)], [ShiftImm(kind, size, 2)])
  {
    forall v: u32 ensures Run([AddSelf(size), AddSelf(size)], v) == Run([ShiftImm(kind, size, 2)], v) {
      RunTwo(AddSelf(size), AddSelf(size), v);
      RunOne(ShiftImm(kind, size, 2), v);
      assert Pow2(2) == 4;
      DoubledTwice(v, size);
    }
  }

  lemma DoubledTwice(v: u32, size: Size)
    ensures Effect(AddSelf(size), Effect(AddSelf(size), v)) == Replace(v, v * 4, size)
  {
    var w: int := Replace(v, 2 * v, size);
    ReplaceLow(v, 2 * v, size);
    LowProduct(w, size, 2);
    LowProduct(2 * v, size, 2);
    ReplaceTwice(v, 2 * v, 2 * w, size);
  }

  // ----- multiplication

  lemma {:induction false} SomeOnes(v: int, n: nat, i: nat)
    requires i < n && Bit(v, i)
    ensures Ones(v, n) >= 1
  {
    if i < n - 1 { SomeOnes(v, n - 1, i); }
  }

  lemma {:induction false} TwoOnes(v: int, n: nat, i: nat, j: nat)
    requires i < j < n && Bit(v, i) && Bit(v, j)
    ensures Ones(v, n) >= 2
  {
    if j < n - 1 { TwoOnes(v, n - 1, i, j); } else { SomeOnes(v, n - 1, i); }
  }

  /** The number whose only set bit is the one found is that power of two. */
  lemma OnlyBit(val: int, k: nat)
    requires 2 <= val <= 0x100 && Ones(val, 9) == 1
    requires 1 <= k <= 9 && (k < 9 ==> Bit(val, k)) && forall i :: 1 <= i < k ==> !Bit(val, i)
    ensures k <= 8 && val == Pow2(k)
  {
    assert Pow2(9) == 0x200;
    if k == 9 {
      forall i | 0 <= i < 8 ensures Bit(val / 2, i) == Bit(0, i) {
        assert !Bit(val, i + 1);
        BitZero(i);
      }
      SameBits(val / 2, 0, 8);
      assert false;
    }
    PowMono(k, 8);
    forall i | 0 <= i < 9 ensures Bit(val, i) == Bit(Pow2(k), i) {
      BitShl(1, k, i);
      if i > k { BitOne(i - k); }
      if i != k && Bit(val, i) { TwoOnes(val, 9, if i < k then i else k, if i < k then k else i); }
    }
    SameBits(val, Pow2(k), 9);
  }

  lemma BitOne(i: nat)
    requires i > 0
    ensures !Bit(1, i)
  {
    BitZero(i - 1);
  }

  /** MULU/MULS #val,Dn: by 0, 1 and -1, and by powers of two and their negatives, without a
      multiplication; the register result is that of the multiplication, whatever Dn held. */
  method OptimizeMul(signed: bool, size: Size, val: int, o: Options) returns (list: seq<Ins>)
    requires size != Byte && -0x8000_0000 <= val < 0x8000_0000
    ensures Same(list, [MulImm(signed, size, val)])
    ensures MulImm(signed, size, val) in list ==> list == [MulImm(signed, size, val)]
    ensures MulImm(signed, size, val) in list <==> !Replaced(signed, size, val, o)
  {
    hide Effect, Same, Bit, Ones;
    list := [MulImm(signed, size, val)];
    SameSelf(list);
    if o.mul {
      if val == 0 {
        list := [Moveq(0)];
        TimesZero(signed, size);
      } else if val == 1 {
        if size == Word && signed {
          list := [ExtL];
          TimesOne(signed, size);
        } else if size == Word && !signed && o.mcfbc {
          list := [MvzSelf];
          TimesOne(signed, size);
        } else if size == Long {
          list := [Tst];
          TimesOne(signed, size);
        }
      } else if val == -1 && signed {
        if size == Word {
          if o.speed {
            list := [ExtL, Neg(Long)];
            TimesMinusOne(size);
          }
        } else {
          list := [Neg(Long)];
          TimesMinusOne(size);
        }
      } else if 2 <= val <= 0x100 {
        var ones := CountOnes(val, 9);
        if ones == 1 {
          var k := LeastBit(val, 1, 9);
          OnlyBit(val, k);
          if size == Word && signed && o.speed {
            var shift := OptimizeShift(Asl, Long, k, o);
            list := [ExtL] + shift;
            TimesPower(signed, size, k, Asl, [ExtL], shift);
          } else if size == Word && !signed && o.mcfbc && o.speed {
            list := [MvzSelf] + [ShiftImm(Lsl, Long, k)];
            TimesPower(signed, size, k, Lsl, [MvzSelf], [ShiftImm(Lsl, Long, k)]);
          } else if size == Long {
            list := OptimizeShift(if signed then Asl else Lsl, Long, k, o);
            assert [] + list == list;
            TimesPower(signed, size, k, if signed then Asl else Lsl, [], list);
          }
        }
      } else if -0x100 <= val <= -2 && signed {
        var ones := CountOnes(-val, 9);
        if ones == 1 {
          var k := LeastBit(-val, 1, 9);
          OnlyBit(-val, k);
          if o.speed {
            var shift := OptimizeShift(Asl, Long, k, o);
            list := (if size == Word then [ExtL] else []) + shift + [Neg(Long)];
            TimesMinusPower(size, k, shift);
          }
        }
      }
    }
  }

  /** Whether a multiplication is replaced. */
  predicate Replaced(signed: bool, size: Size, val: int, o: Options) {
    && o.mul
    && (|| val == 0
        || (val == 1 && (size == Long || signed || o.mcfbc))
        || (val == -1 && signed && (size == Long || o.speed))
        || (2 <= val <= 0x100 && Ones(val, 9) == 1 && (size == Long || (o.speed && (signed || o.mcfbc))))
        || (-0x100 <= val <= -2 && Ones(-val, 9) == 1 && signed && o.speed))
  }

  /** The extended register, as a multiplication of words takes it. */
  function Extended(v: u32, signed: bool, size: Size): int {
    if size == Long then v else if signed then Signed(v, Word) else Low(v, Word)
  }

  lemma Product(v: u32, signed: bool, size: Size, x: int)
    requires size != Byte && -0x100 <= x <= 0x100 && (!signed && size == Word ==> x >= 0)
    ensures Effect(MulImm(signed, size, x), v) == Wrap(Extended(v, signed, size) * x)
  {
    LowOf(x, Word, if x < 0 then -1 else 0, if x < 0 then M16 + x else x);
  }

  lemma TimesZero(signed: bool, size: Size)
    requires size != Byte
    ensures Same([Moveq(0)], [MulImm(signed, size, 0)])
  {
    forall v: u32 ensures Run([Moveq(0)], v) == Run([MulImm(signed, size, 0)], v) {
      RunOne(Moveq(0), v);
      RunOne(MulImm(signed, size, 0), v);
      Product(v, signed, size, 0);
    }
  }

  lemma TimesOne(signed: bool, size: Size)
    requires size != Byte
    ensures Same([if size == Long then Tst else if signed then ExtL else MvzSelf], [MulImm(signed, size, 1)])
  {
    var i := if size == Long then Tst else if signed then ExtL else MvzSelf;
    forall v: u32 ensures Run([i], v) == Run([MulImm(signed, size, 1)], v) {
      RunOne(i, v);
      RunOne(MulImm(signed, size, 1), v);
      Product(v, signed, size, 1);
      LowOf(v, Long, 0, v);
      LowOf(Low(v, Word), Long, 0, Low(v, Word));
    }
  }

  /** Negating modulo the range. */
  lemma NegWrap(x: int)
    ensures Effect(Neg(Long), Wrap(x)) == Wrap(-x)
  {
    LowProduct(x, Long, -1);
  }

  lemma TimesMinusOne(size: Size)
    requires size != Byte
    ensures Same(if size == Word then [ExtL, Neg(Long)] else [Neg(Long)], [MulImm(true, size, -1)])
  {
    var a := if size == Word then [ExtL, Neg(Long)] else [Neg(Long)];
    forall v: u32 ensures Run(a, v) == Run([MulImm(true, size, -1)], v) {
      RunOne(MulImm(true, size, -1), v);
      Product(v, true, size, -1);
      if size == Word {
        RunTwo(ExtL, Neg(Long), v);
        NegWrap(Signed(v, Word));
      } else {
        RunOne(Neg(Long), v);
        LowOf(v, Long, 0, v);
        NegWrap(v);
      }
    }
  }

  /** Shifting an extended register multiplies it. */
  lemma ShiftMultiplies(x: int, kind: Shift, k: nat)
    requires kind != Lsr
    ensures Effect(ShiftImm(kind, Long, k), Wrap(x)) == Wrap(x * Pow2(k))
  {
    LowProduct(x, Long, Pow2(k));
  }

  lemma TimesPower(signed: bool, size: Size, k: nat, kind: Shift, a: seq<Ins>, b: seq<Ins>)
    requires size != Byte && 1 <= k <= 8 && kind != Lsr && Same(b, [ShiftImm(kind, Long, k)])
    requires a == if size == Long then [] else if signed then [ExtL] else [MvzSelf]
    ensures Same(a + b, [MulImm(signed, size, Pow2(k))])
  {
    PowMono(k, 8);
    forall v: u32 ensures Run(a + b, v) == Run([MulImm(signed, size, Pow2(k))], v) {
      RunConcat(a, b, v);
      Extends(a, v, signed, size);
      var x := Extended(v, signed, size);
      assert Run(b, Wrap(x)) == Run([ShiftImm(kind, Long, k)], Wrap(x));
      RunOne(ShiftImm(kind, Long, k), Wrap(x));
      ShiftMultiplies(x, kind, k);
      RunOne(MulImm(signed, size, Pow2(k)), v);
      Product(v, signed, size, Pow2(k));
    }
  }

  lemma Extends(a: seq<Ins>, v: u32, signed: bool, size: Size)
    requires size != Byte && a == if size == Long then [] else if signed then [ExtL] else [MvzSelf]
    ensures Run(a, v) == Wrap(Extended(v, signed, size))
  {
    LowOf(v, Long, 0, v);
    if a != [] { RunOne(a[0], v); }
    LowOf(Low(v, Word), Long, 0, Low(v, Word));
  }

  lemma TimesMinusPower(size: Size, k: nat, b: seq<Ins>)
    requires size != Byte && 1 <= k <= 8 && Same(b, [ShiftImm(Asl, Long, k)])
    ensures Same((if size == Word then [ExtL] else []) + b + [Neg(Long)], [MulImm(true, size, 0 - Pow2(k))])
  {
    var a := if size == Word then [ExtL] else [];
    PowMono(k, 8);
    forall v: u32 ensures Run(a + b + [Neg(Long)], v) == Run([MulImm(true, size, 0 - Pow2(k))], v) {
      MinusPower(size, k, a, b, v);
    }
  }

  lemma MinusPower(size: Size, k: nat, a: seq<Ins>, b: seq<Ins>, v: u32)
    requires size != Byte && Pow2(k) <= 0x100 && Same(b, [ShiftImm(Asl, Long, k)])
    requires a == if size == Word then [ExtL] else []
    ensures Run(a + b + [Neg(Long)], v) == Run([MulImm(true, size, 0 - Pow2(k))], v)
  {
    hide Effect, Extended, Pow2, Wrap;
    var x, p := Extended(v, true, size), Pow2(k);
    RunConcat(a + b, [Neg(Long)], v);
    RunConcat(a, b, v);
    Extends(a, v, true, size);
    assert Run(b, Wrap(x)) == Run([ShiftImm(Asl, Long, k)], Wrap(x));
    RunOne(ShiftImm(Asl, Long, k), Wrap(x));
    ShiftMultiplies(x, Asl, k);
    RunOne(Neg(Long), Wrap(x * p));
    NegWrap(x * p);
    RunOne(MulImm(true, size, 0 - p), v);
    Product(v, true, size, 0 - p);
    Opposite(x, p);
  }

  lemma Opposite(x: int, p: int)
    ensures x * (0 - p) == -(x * p)
  {
  }

  // ----- division

  /** DIVU.L/DIVS.L #val,Dn: by 1 and -1, and unsigned by powers of two, without a division. A
      signed division that overflows leaves the register alone, as the negation that replaces it
      does. */
  method OptimizeDiv(signed: bool, val: int, o: Options) returns (list: seq<Ins>)
    requires -0x8000_0000 <= val < 0x8000_0000
    ensures Same(list, [DivImm(signed, val)])
    ensures DivImm(signed, val) in list <==>
      !(o.div && (val == 1 || (val == -1 && signed) || (2 <= val <= 0x100 && !signed && Ones(val, 9) == 1)))
  {
    hide Effect, Same, Bit, Ones;
    list := [DivImm(signed, val)];
    SameSelf(list);
    if val == 0 {
      // reported as an error
    } else if o.div {
      if val == 1 {
        list := [Tst];
        OverOne(signed);
      } else if val == -1 && signed {
        list := [Neg(Long)];
        OverMinusOne();
      } else if 2 <= val <= 0x100 && !signed {
        var ones := CountOnes(val, 9);
        if ones == 1 {
          var k := LeastBit(val, 1, 9);
          OnlyBit(val, k);
          list := [ShiftImm(Lsr, Long, k)];
          OverPower(k);
        }
      }
    }
  }

  lemma OverOne(signed: bool)
    ensures Same([Tst], [DivImm(signed, 1)])
  {
    forall v: u32 ensures Run([Tst], v) == Run([DivImm(signed, 1)], v) {
      RunOne(Tst, v);
      RunOne(DivImm(signed, 1), v);
      LowOf(v, Long, 0, v);
      var s := Signed(v, Long);
      LowOf(s, Long, if s < 0 then -1 else 0, v);
    }
  }

  lemma OverMinusOne()
    ensures Same([Neg(Long)], [DivImm(true, -1)])
  {
    forall v: u32 ensures Run([Neg(Long)], v) == Run([DivImm(true, -1)], v) {
      RunOne(Neg(Long), v);
      RunOne(DivImm(true, -1), v);
      LowOf(v, Long, 0, v);
      LowOf(-1, Long, -1, M32 - 1);
      var s := Signed(v, Long);
      assert Truncated(s, -1) == -s;
      LowOf(-s, Long, if s > 0 then -1 else 0, if s > 0 then M32 - s else -s);
      LowOf(0 - v, Long, if v > 0 then -1 else 0, if v > 0 then M32 - v else 0);
    }
  }

  lemma OverPower(k: nat)
    requires 1 <= k <= 8
    ensures Same([ShiftImm(Lsr, Long, k)], [DivImm(false, Pow2(k))])
  {
    PowMono(k, 8);
    forall v: u32 ensures Run([ShiftImm(Lsr, Long, k)], v) == Run([DivImm(false, Pow2(k))], v) {
      RunOne(ShiftImm(Lsr, Long, k), v);
      RunOne(DivImm(false, Pow2(k)), v);
      LowOf(v, Long, 0, v);
      LowOf(Pow2(k), Long, 0, Pow2(k));
      LowOf(v / Pow2(k), Long, 0, v / Pow2(k));
    }
  }
}
