/** Reading an effective address back: the way a processor takes the field in the opcode and the
    extension words behind it (section 2 of the M68000 Family Programmer's Reference Manual). */
module Decoder {
  import opened Division
  import opened Bits
  import opened Fields
  import opened Operands
  import opened CodeSize
  import opened Opcodes
  import opened Encoder

  /** The number in the bytes of s, the most significant one first. */
  function Number(s: seq<Byte>): nat {
    if s == [] then 0 else Number(s[..|s| - 1]) * 0x100 + s[|s| - 1]
  }

  /** The number that they are in two's complement. */
  function SignedNumber(s: seq<Byte>): int {
    if s == [] || s[0] < 0x80 then Number(s) else Number(s) - Pow2(8 * |s|)
  }

  /** What is read: the mode and its register, the format word, the displacements or the immediate
      number, a floating point number's bytes, and how many bytes were taken. */
  datatype Decoded =
    | Illegal
    | Decoded(mode: AddrMode, reg: nat, format: nat, val0: int, val1: int, float: seq<Byte>, length: nat)

  function Plain(mode: AddrMode, reg: nat, s: seq<Byte>, n: nat): Decoded {
    if |s| < n then Illegal else Decoded(mode, reg, 0, SignedNumber(s[..n]), 0, [], n)
  }

  function Word(high: nat, low: nat): nat {
    high * 0x100 + low
  }

  /** The length of a displacement of size code 2 or 3; the other codes have none. */
  function DispLength(code: nat): nat {
    if code == 2 then 2 else if code == 3 then 4 else 0
  }

  function DecodeFormat(mode: AddrMode, reg: nat, s: seq<Byte>): Decoded {
    if |s| < 2 then Illegal
    else if s[0] % 2 == 0 then Decoded(mode, reg, Word(s[0], 0), SignedNumber(s[1..2]), 0, [], 2)
    else
      var bd, od := DispLength((s[1] / 0x10) % 4), DispLength(s[1] % 4);
      if |s| < 2 + bd + od then Illegal
      else
        var val0, val1 := SignedNumber(s[2..2 + bd]), SignedNumber(s[2 + bd..2 + bd + od]);
        Decoded(mode, reg, Word(s[0], s[1]), val0, val1, [], 2 + bd + od)
  }

  function DecodeFloat(s: seq<Byte>, n: nat): Decoded {
    if |s| < n then Illegal else Decoded(Immediate, 4, 0, 0, 0, s[..n], n)
  }

  function DecodeImmediate(ext: Ext, s: seq<Byte>): Decoded {
    match ext
    case B => if |s| < 2 then Illegal else Decoded(Immediate, 4, 0, SignedNumber(s[1..2]), 0, [], 2)
    case W => Plain(Immediate, 4, s, 2)
    case L => Plain(Immediate, 4, s, 4)
    case S => DecodeFloat(s, 4)
    case D | Q => DecodeFloat(s, 8)
    case X | P => DecodeFloat(s, 12)
    case NoExt => Illegal
  }

  function DecodeEa(number: nat, ext: Ext, s: seq<Byte>): Decoded
    requires number < 64
  {
    var mode, reg := number / 8, number % 8;
    if mode == 0 then Plain(Dn, reg, s, 0)
    else if mode == 1 then Plain(An, reg, s, 0)
    else if mode == 2 then Plain(AnIndir, reg, s, 0)
    else if mode == 3 then Plain(AnPostInc, reg, s, 0)
    else if mode == 4 then Plain(AnPreDec, reg, s, 0)
    else if mode == 5 then Plain(An16Disp, reg, s, 2)
    else if mode == 6 then DecodeFormat(An8Format, reg, s)
    else if reg == 0 then Plain(AbsShort, 0, s, 2)
    else if reg == 1 then Plain(AbsLong, 1, s, 4)
    else if reg == 2 then Plain(PC16Disp, 2, s, 2)
    else if reg == 3 then DecodeFormat(PC8Format, 3, s)
    else if reg == 4 then DecodeImmediate(ext, s)
    else Illegal
  }

  // ----- numbers

  lemma Powers(n: nat)
    requires n > 0
    ensures Pow2(0) == 1 && Pow2(8 * n) == Pow2(8 * (n - 1)) * 0x100 && Pow2(8 * n - 1) == Pow2(8 * (n - 1)) * 0x80
  {
    hide Pow2;
    Pow2Sum(8 * (n - 1), 8);
    Pow2Sum(8 * (n - 1), 7);
    SmallPowers();
  }

  lemma SmallPowers()
    ensures Pow2(0) == 1 && Pow2(7) == 0x80 && Pow2(8) == 0x100
  {
  }

  lemma {:induction false} SetValNumber(n: nat, v: int)
    ensures Number(SetVal(n, v)) == v % Pow2(8 * n)
  {
    hide Pow2;
    if n == 0 {
      Powers(1);
    } else {
      var s := SetVal(n - 1, v / 0x100);
      SetValNumber(n - 1, v / 0x100);
      assert SetVal(n, v)[..n - 1] == s;
      Powers(n);
      OneByteMore(v, Pow2(8 * (n - 1)));
    }
  }

  lemma OneByteMore(v: int, p: nat)
    requires p > 0
    ensures (v / 0x100) % p * 0x100 + v % 0x100 == v % (p * 0x100)
  {
    var w, y := v / 0x100, v % 0x100;
    var q, x := w / p, w % p;
    assert w == q * p + x;
    assert (q * p) * 0x100 == q * (p * 0x100);
    QuotientIs(v, p * 0x100, q, x * 0x100 + y);
  }

  lemma {:induction false} FirstByte(n: nat, v: int)
    requires n > 0
    ensures SetVal(n, v)[0] == (v / Pow2(8 * (n - 1))) % 0x100
  {
    if n == 1 {
      assert v / 1 == v;
    } else {
      FirstByte(n - 1, v / 0x100);
      assert SetVal(n, v)[0] == SetVal(n - 1, v / 0x100)[0];
      Pow2Sum(8, 8 * (n - 2));
      assert Pow2(8) == 0x100;
      DivDiv(v, 0x100, Pow2(8 * (n - 2)));
    }
  }

  /** v fits into n bytes in two's complement. */
  predicate InWidth(v: int, n: nat) {
    if n == 0 then v == 0 else 0 - Pow2(8 * n - 1) <= v < Pow2(8 * n - 1)
  }

  /** The bytes of v read back as v if and only if v fits. */
  lemma SignedBack(n: nat, v: int)
    ensures SignedNumber(SetVal(n, v)) == v <==> InWidth(v, n)
  {
    hide Pow2, SetVal, Number;
    if n > 0 {
      SetValNumber(n, v);
      FirstByte(n, v);
      Powers(n);
      var p, h, c := Pow2(8 * n), Pow2(8 * n - 1), Pow2(8 * (n - 1));
      var q, r := v / p, v % p;
      TopBit(v, p, c, q, r);
      Halves(v, p, h, q, r);
    } else {
      NoBytes(v);
      NumberNone();
    }
  }

  lemma NumberNone()
    ensures Number([]) == 0 && SignedNumber([]) == 0
  {
  }

  lemma NoBytes(v: int)
    ensures SetVal(0, v) == []
  {
  }

  /** The highest bit of the first byte tells the upper half of the numbers. */
  lemma TopBit(v: int, p: nat, c: nat, q: int, r: int)
    requires c > 0 && p == c * 0x100 && v == q * p + r && 0 <= r < p
    ensures (v / c) % 0x100 < 0x80 <==> r < c * 0x80
  {
    var a, b := r / c, r % c;
    assert r == a * c + b;
    if a >= 0x100 { Multiples(0x100, a, c); }
    if a <= -1 { Multiples(a, -1, c); }
    assert v == (q * 0x100 + a) * c + b;
    QuotientIs(v, c, q * 0x100 + a, b);
    if a < 0x80 { Multiples(a + 1, 0x80, c); } else { Multiples(0x80, a, c); }
  }

  lemma Halves(v: int, p: nat, h: nat, q: int, r: int)
    requires h > 0 && p == 2 * h && v == q * p + r && 0 <= r < p
    ensures (if r < h then r else r - p) == v <==> 0 - h <= v < h
  {
    if q >= 1 { Multiples(1, q, p); }
    if q <= -2 { Multiples(q, -2, p); }
  }

  // ----- the round trip

  /** How many bytes hold the operand's first number, and its second one. */
  function Width0(op: Operand, ext: Ext): nat {
    match op.mode
    case An16Disp | PC16Disp | AbsShort => 2
    case AbsLong => 4
    case An8Format | PC8Format => if Full(op.format) then BdBytes(op.format) else 1
    case Immediate => (match ext case B => 1 case W => 2 case L => 4 case _ => 0)
    case _ => 0
  }

  function Width1(op: Operand): nat {
    if (op.mode.An8Format? || op.mode.PC8Format?) && Full(op.format) then OdBytes(op.format) else 0
  }

  /** The format word as it is written: a brief one has its displacement in the lower byte. */
  function FormatWord(op: Operand): nat {
    if !op.mode.An8Format? && !op.mode.PC8Format? then 0
    else if Full(op.format) then op.format % 0x1_0000
    else (op.format / 0x100) % 0x100 * 0x100
  }

  predicate IsEa(a: AddrMode) {
    a in {Dn, An, AnIndir, AnPostInc, AnPreDec, An16Disp, An8Format, AbsShort, AbsLong, PC16Disp, PC8Format, Immediate}
  }

  /** The modes that name a register. */
  predicate InRegister(a: AddrMode) {
    a in {Dn, An, AnIndir, AnPostInc, AnPreDec, An16Disp, An8Format}
  }

  /** The field and the extension words written for an effective address read back as its mode, its
      register and its format; its numbers read back if and only if they fit the bytes that hold
      them; and reading takes exactly what was written. */
  lemma EaRoundTrip(op: Operand, ext: Ext, rest: seq<Byte>)
    requires IsEa(op.mode) && |op.float| == 12 && EaBytes(op, ext).Bytes?
    requires op.mode.Immediate? ==> !ext.NoExt? && (ext.L? ==> op.extVal0)
    ensures var d := DecodeEa(EaNumber(op), ext, EaBytes(op, ext).s + rest);
      && d.Decoded? && d.mode == op.mode && (InRegister(op.mode) ==> d.reg == op.reg % 8)
      && d.format == FormatWord(op) && d.length == |EaBytes(op, ext).s|
      && (Width0(op, ext) > 0 ==> (d.val0 == op.val0 <==> InWidth(op.val0, Width0(op, ext))))
      && (Width1(op) > 0 ==> (d.val1 == op.val1 <==> InWidth(op.val1, Width1(op))))
      && (op.mode.Immediate? && Width0(op, ext) == 0 ==> d.float == op.float[..d.length])
  {
    hide SignedNumber, InWidth, SetVal;
    assert EaNumber(op) / 8 == ModeNumber(op.mode) && EaNumber(op) % 8 == RegNumber(op);
    var s := EaBytes(op, ext).s;
    assert (s + rest)[..|s|] == s;
    SignedBack(2, op.val0);
    SignedBack(4, op.val0);
    if op.mode.An8Format? || op.mode.PC8Format? { FormatRoundTrip(op, rest); }
    if op.mode.Immediate? { ImmediateRoundTrip(op, ext, rest); }
  }

  /** The checks that report a displacement or an address as out of range. */
  predicate PassesChecks(op: Operand) {
    match op.mode
    case An16Disp | PC16Disp | AbsShort => -0x8000 <= op.val0 <= 0x7fff
    case An8Format | PC8Format =>
      if !Full(op.format) then -0x80 <= op.val0 <= 0x7f
      else
        && (BdBytes(op.format) == 2 ==> -0x8000 <= op.val0 <= 0x7fff)
        && (OdBytes(op.format) == 2 ==> -0x8000 <= op.val1 <= 0x7fff)
    case _ => true
  }

  /** For 32-bit numbers, what is not reported is exactly what reads back. */
  lemma ChecksAreExact(op: Operand, ext: Ext, rest: seq<Byte>)
    requires IsEa(op.mode) && !op.mode.Immediate? && |op.float| == 12 && EaBytes(op, ext).Bytes?
    requires InWidth(op.val0, 4) && InWidth(op.val1, 4)
    ensures var d := DecodeEa(EaNumber(op), ext, EaBytes(op, ext).s + rest);
      && d.Decoded?
      && (PassesChecks(op) <==>
            && (Width0(op, ext) > 0 ==> d.val0 == op.val0)
            && (Width1(op) > 0 ==> d.val1 == op.val1))
  {
    hide DecodeEa, EaBytes, EaNumber, FormatBytes;
    EaRoundTrip(op, ext, rest);
    WidthBounds(op.val0);
    WidthBounds(op.val1);
  }

  lemma WidthBounds(v: int)
    ensures InWidth(v, 1) <==> -0x80 <= v <= 0x7f
    ensures InWidth(v, 2) <==> -0x8000 <= v <= 0x7fff
  {
    SmallPowers();
    Pow2Sum(8, 7);
  }

  lemma FormatRoundTrip(op: Operand, rest: seq<Byte>)
    requires FormatBytes(op).Bytes? && (op.mode.An8Format? || op.mode.PC8Format?)
    ensures var d := DecodeFormat(op.mode, RegNumber(op), FormatBytes(op).s + rest);
      && d.Decoded? && d.mode == op.mode && d.reg == RegNumber(op) && d.format == FormatWord(op)
      && d.length == |FormatBytes(op).s|
      && (d.val0 == op.val0 <==> InWidth(op.val0, Width0(op, NoExt)))
      && (Width1(op) > 0 ==> (d.val1 == op.val1 <==> InWidth(op.val1, Width1(op))))
  {
    hide SignedNumber, InWidth, SetVal, BdBytes, OdBytes;
    var f := op.format;
    WordBytes(f);
    SignedBack(1, op.val0);
    SignedBack(BdBytes(f), op.val0);
    SignedBack(OdBytes(f), op.val1);
    if Full(f) {
      Cut(SetVal(2, f), SetVal(BdBytes(f), op.val0), SetVal(OdBytes(f), op.val1), rest);
    } else {
      Cut(SetVal(1, f / 0x100), SetVal(1, op.val0), [], rest);
      assert SetVal(1, f / 0x100) + SetVal(1, op.val0) + [] == SetVal(1, f / 0x100) + SetVal(1, op.val0);
    }
  }

  /** The parts of what was put together. */
  lemma Cut(a: seq<Byte>, b: seq<Byte>, c: seq<Byte>, rest: seq<Byte>)
    ensures var s := a + b + c + rest;
      && (forall i :: 0 <= i < |a| ==> s[i] == a[i])
      && s[|a|..|a| + |b|] == b && s[|a| + |b|..|a| + |b| + |c|] == c
  {
  }

  /** The bytes of a format word, which tell whether it is full and how long its displacements are. */
  lemma WordBytes(f: nat)
    ensures SetVal(2, f) == [(f / 0x100) % 0x100, f % 0x100] && SetVal(1, f / 0x100) == [(f / 0x100) % 0x100]
    ensures Word((f / 0x100) % 0x100, f % 0x100) == f % 0x1_0000
    ensures ((f / 0x100) % 0x100) % 2 == 1 <==> Full(f)
    ensures BdBytes(f) == DispLength((f % 0x100 / 0x10) % 4) && OdBytes(f) == DispLength((f % 0x100) % 4)
  {
    hide Word, Full;
    WordNumber(f);
    LowSizes(f);
    assert SetVal(1, f / 0x100) == SetVal(0, f / 0x100 / 0x100) + [(f / 0x100) % 0x100];
    assert SetVal(2, f) == SetVal(1, f / 0x100) + [f % 0x100];
  }

  lemma WordNumber(f: nat)
    ensures Word((f / 0x100) % 0x100, f % 0x100) == f % 0x1_0000
    ensures (f % 0x1_0000) % 0x100 == f % 0x100
    ensures ((f / 0x100) % 0x100) % 2 == 1 <==> Full(f)
  {
    var g, y := f / 0x100, f % 0x100;
    var k, x := g / 0x100, g % 0x100;
    QuotientIs(f, 0x1_0000, k, 0x100 * x + y);
    QuotientIs(0x100 * x + y, 0x100, x, y);
    QuotientIs(g, 2, 0x80 * k + x / 2, x % 2);
  }

  lemma LowSizes(f: nat)
    ensures (f / 0x10) % 4 == (f % 0x100 / 0x10) % 4 && f % 4 == (f % 0x100) % 4
  {
    var g, y := f / 0x100, f % 0x100;
    var z := y / 0x10;
    QuotientIs(f, 0x10, 0x10 * g + z, y % 0x10);
    QuotientIs(0x10 * g + z, 4, 4 * g + z / 4, z % 4);
    QuotientIs(f, 4, 0x40 * g + y / 4, y % 4);
  }

  lemma ImmediateRoundTrip(op: Operand, ext: Ext, rest: seq<Byte>)
    requires |op.float| == 12 && ImmediateBytes(op, ext).Bytes? && !ext.NoExt? && (ext.L? ==> op.extVal0)
    requires op.mode.Immediate?
    ensures var d := DecodeImmediate(ext, ImmediateBytes(op, ext).s + rest);
      && d.Decoded? && d.mode.Immediate? && d.reg == 4 && d.format == 0 && d.length == |ImmediateBytes(op, ext).s|
      && (ext.B? || ext.W? || ext.L? ==> (d.val0 == op.val0 <==> InWidth(op.val0, Width0(op, ext))))
      && (Width0(op, ext) == 0 ==> d.float == op.float[..d.length])
  {
    hide SignedNumber, InWidth;
    var s := ImmediateBytes(op, ext).s;
    var n := ImmediateSize(ext);
    assert |s| == n && (s + rest)[..n] == s;
    if ext.B? {
      assert SetVal(2, op.val0) == SetVal(1, op.val0 / 0x100) + SetVal(1, op.val0);
      assert (s + rest)[1..2] == SetVal(1, op.val0);
    }
    SignedBack(1, op.val0);
    SignedBack(2, op.val0);
    SignedBack(4, op.val0);
  }

  // ----- reading the written code

  /** Bit k is set neither in `first` nor by a mark other than marks[j]. */
  ghost predicate Free(first: seq<Byte>, d: nat, start: nat, marks: seq<Mark>, j: nat, k: int) {
    && (k >= 8 * d ==> !BitAt(first, k - 8 * d))
    && forall i :: 0 <= i < |marks| && i != j ==> !Sets(start, marks[i], k)
  }

  /** Nobody else sets a bit where marks[j] writes. */
  ghost predicate Exclusive(first: seq<Byte>, d: nat, start: nat, marks: seq<Mark>, j: nat)
    requires j < |marks|
  {
    var pos := 8 * start + marks[j].pos;
    forall k :: pos <= k < pos + marks[j].size ==> Free(first, d, start, marks, j, k)
  }

  /** A field of the opcode words that only one mark writes reads back as the mark's value. */
  lemma MarkReadsBack(s: seq<Byte>, d: nat, first: seq<Byte>, start: nat, marks: seq<Mark>, ext: seq<Byte>, j: nat)
    requires Stands(s, d, first, start, marks, ext) && j < |marks| && Exclusive(first, d, start, marks, j)
    requires d <= start && 8 * start + marks[j].pos + marks[j].size <= 8 * (d + |first|)
    ensures Field(s, 8 * start + marks[j].pos, marks[j].size) == marks[j].val % Pow2(marks[j].size)
  {
    hide BitAt, Bit;
    var f := marks[j];
    var pos := 8 * start + f.pos;
    FieldBits(s, pos, f.size, 0);
    forall i | 0 <= i < f.size ensures Bit(Field(s, pos, f.size), i) == Bit(f.val % Pow2(f.size), i) {
      FieldBits(s, pos, f.size, i);
      BitMod(f.val, f.size, i);
      var k := pos + f.size - 1 - i;
      assert Free(first, d, start, marks, j, k);
      assert BitAt(s, k) <==> BitAt(first, k - 8 * d) || Marked(start, marks, k);
      assert Sets(start, f, k) <==> Bit(f.val, i);
    }
    SameBits(Field(s, pos, f.size), f.val % Pow2(f.size), f.size);
  }
}
