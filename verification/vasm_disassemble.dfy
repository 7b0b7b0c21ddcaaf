/** Reading the fields of an instruction's code back by their bit numbers, as the instruction formats
    of section 4 of the M68000 Family Programmer's Reference Manual give them. */
module Disassembler {
  import opened Division
  import opened Bits
  import opened Fields
  import opened Operands
  import opened Banks
  import opened CodeSize
  import opened Opcodes
  import opened Extensions
  import opened Encoder
  import opened Decoder

  /** Bits hi to lo of the word at byte `at`. */
  function WordBits(s: seq<Byte>, at: nat, hi: nat, lo: nat): nat
    requires lo <= hi < 16
  {
    Field(s, 8 * at + 15 - hi, hi - lo + 1)
  }

  lemma {:induction false} FieldSplit(s: seq<Byte>, pos: nat, a: nat, b: nat)
    ensures Field(s, pos, a + b) == Field(s, pos, a) * Pow2(b) + Field(s, pos + a, b)
    ensures Field(s, pos + a, b) < Pow2(b)
  {
    hide BitAt;
    FieldBits(s, pos + a, b, 0);
    if b > 0 {
      FieldSplit(s, pos, a, b - 1);
      Doubled(Field(s, pos, a), Pow2(b - 1));
    }
  }

  lemma Doubled(x: nat, p: nat)
    ensures x * (2 * p) == 2 * (x * p)
  {
  }

  /** A field of two parts. */
  lemma TwoParts(s: seq<Byte>, pos: nat, a: nat, b: nat, x: nat, y: nat)
    requires y < Pow2(b) && Field(s, pos, a + b) == x * Pow2(b) + y
    ensures Field(s, pos, a) == x && Field(s, pos + a, b) == y
  {
    FieldSplit(s, pos, a, b);
    QuotientIs(Field(s, pos, a + b), Pow2(b), x, y);
    QuotientIs(Field(s, pos, a + b), Pow2(b), Field(s, pos, a), Field(s, pos + a, b));
  }

  lemma Powers8()
    ensures Pow2(1) == 2 && Pow2(2) == 4 && Pow2(3) == 8 && Pow2(4) == 16
    ensures Pow2(5) == 32 && Pow2(6) == 64 && Pow2(7) == 128
  {
  }

  // ----- the marks of an operand

  function OperandMarks(ip: Instruction, i: nat): seq<Mark>
    requires Valid(ip) && ip.Instruction? && i < |ip.ops|
  {
    PlaceMarks(ip.m.places[i], Reduced(ip.m, ip.m.types[i], ip.ops[i]))
  }

  /** Where the opcode starts, behind the bank prefix. */
  function Start(ip: Instruction, d: nat): nat
    requires ip.Instruction?
  {
    d + Prefix(ip.m)
  }

  /** Nobody else sets a bit where operand i writes. */
  ghost predicate Alone(ip: Instruction, d: nat, i: nat, n: nat)
    requires Valid(ip) && ip.Instruction? && i < n <= |ip.ops|
  {
    forall x :: 0 <= x < |OperandMarks(ip, i)| ==> AloneAt(ip, d, i, x, n)
  }

  ghost predicate AloneAt(ip: Instruction, d: nat, i: nat, x: nat, n: nat)
    requires Valid(ip) && ip.Instruction? && i < n <= |ip.ops|
  {
    var j := |AllMarks(ip, i)| + x;
    j < |AllMarks(ip, n)| && Exclusive(FirstBytes(ip, n), d, Start(ip, d), AllMarks(ip, n), j)
  }

  lemma {:induction false} MarkAt(ip: Instruction, i: nat, n: nat, x: nat)
    requires Valid(ip) && ip.Instruction? && i < n <= |ip.ops| && x < |OperandMarks(ip, i)|
    ensures |AllMarks(ip, i)| + x < |AllMarks(ip, n)|
    ensures AllMarks(ip, n)[|AllMarks(ip, i)| + x] == OperandMarks(ip, i)[x]
  {
    hide Reduced, InTable, Allowed, PlaceMarks;
    if i + 1 < n { MarkAt(ip, i, n - 1, x); }
  }

  /** Mark x of operand i reads back. */
  lemma FieldBack(s: seq<Byte>, d: nat, ip: Instruction, i: nat, n: nat, x: nat)
    requires Valid(ip) && ip.Instruction? && i < n <= |ip.ops| && IsCode(s, d, ip, n) && Alone(ip, d, i, n)
    requires x < |OperandMarks(ip, i)|
    ensures var f := OperandMarks(ip, i)[x];
      Field(s, 8 * Start(ip, d) + f.pos, f.size) == f.val % Pow2(f.size)
  {
    hide Exclusive, Stands, Allowed, InTable, Reduced, AllMarks, ExtBytes, Field, PlaceMarks, FirstBytes, Fits;
    Words(ip);
    OperandFacts(ip, i);
    MarkAt(ip, i, n, x);
    assert AloneAt(ip, d, i, x, n);
    MarkReadsBack(s, d, FirstBytes(ip, n), Start(ip, d), AllMarks(ip, n), ExtBytes(ip, n), |AllMarks(ip, i)| + x);
  }

  lemma Small(v: nat, size: nat)
    requires v < Pow2(size)
    ensures v % Pow2(size) == v
  {
    QuotientIs(v, Pow2(size), 0, v);
  }

  // ----- effective addresses

  predicate TakesEa(p: Place) {
    p.NEA? || p.SEA? || p.MEA? || p.BEA? || p.KEA? || p.REA? || p.EAM?
  }

  /** Mode and register of an effective address: bits 5 to 3 and 2 to 0 of the first word; of the
      destination of MOVE bits 8 to 6 and 11 to 9. */
  function EaField(s: seq<Byte>, at: nat, destination: bool): nat {
    if destination then 8 * WordBits(s, at, 8, 6) + WordBits(s, at, 11, 9)
    else 8 * WordBits(s, at, 5, 3) + WordBits(s, at, 2, 0)
  }

  lemma EaFieldBack(s: seq<Byte>, d: nat, ip: Instruction, i: nat, n: nat)
    requires Valid(ip) && ip.Instruction? && i < n <= |ip.ops| && IsCode(s, d, ip, n) && Alone(ip, d, i, n)
    requires var p := ip.m.places[i]; p.SEA? || p.MEA? || p.BEA? || p.KEA? || p.EAM?
    ensures EaField(s, Start(ip, d), ip.m.places[i].MEA?) == EaNumber(Reduced(ip.m, ip.m.types[i], ip.ops[i]))
  {
    hide Alone, IsCode, Field, InTable, Allowed, FuncMarks, Valid, Reduced, Bit, BitAt, BitfieldNumber;
    OperandFacts(ip, i);
    var op := Reduced(ip.m, ip.m.types[i], ip.ops[i]);
    var p := ip.m.places[i];
    var st := Start(ip, d);
    var mode, reg := ModeNumber(op.mode), RegNumber(op);
    Powers8();
    FieldBack(s, d, ip, i, n, if p.EAM? then 1 else if p.BEA? then 2 else 0);
    if p.MEA? {
      Small(8 * reg + mode, 6);
      TwoParts(s, 8 * st + 4, 3, 3, reg, mode);
    } else {
      Small(8 * mode + reg, 6);
      TwoParts(s, 8 * st + 10, 3, 3, mode, reg);
    }
  }

  /** From the code of an instruction the effective address of operand i is read back, if nobody else
      writes into its fields: its mode, its register, its format, and the numbers that fit. */
  lemma OperandReadsBack(s: seq<Byte>, d: nat, ip: Instruction, i: nat, n: nat)
    requires Valid(ip) && ip.Instruction? && i < n <= |ip.ops| && IsCode(s, d, ip, n) && Alone(ip, d, i, n)
    requires var p := ip.m.places[i]; p.SEA? || p.MEA? || p.BEA? || p.KEA? || p.EAM?
    requires OperandBytes(ip.m, i, ip.ops[i], ip.ext).Bytes?
    requires var op := Reduced(ip.m, ip.m.types[i], ip.ops[i]);
      IsEa(op.mode) && (op.mode.Immediate? ==> !ip.ext.NoExt? && (ip.ext.L? ==> op.extVal0))
    ensures var op := Reduced(ip.m, ip.m.types[i], ip.ops[i]);
      var at := d + 2 * ip.m.words + |ExtBytes(ip, i)|;
      var field := EaField(s, Start(ip, d), ip.m.places[i].MEA?);
      && field < 64 && at <= |s|
      && var e := DecodeEa(field, ip.ext, s[at..]);
      && e.Decoded? && e.mode == op.mode && (InRegister(op.mode) ==> e.reg == op.reg % 8)
      && e.format == FormatWord(op) && at + e.length <= |s|
      && (Width0(op, ip.ext) > 0 ==> (e.val0 == op.val0 <==> InWidth(op.val0, Width0(op, ip.ext))))
      && (Width1(op) > 0 ==> (e.val1 == op.val1 <==> InWidth(op.val1, Width1(op))))
  {
    hide Alone, Allowed, InTable, Reduced, DecodeEa, EaBytes, EaNumber, FirstBytes, AllMarks, IsCode, ExtBytes,
      InWidth, Width0, Width1, FormatWord, EaField, OperandBytes;
    var op := Reduced(ip.m, ip.m.types[i], ip.ops[i]);
    OperandFacts(ip, i);
    EaFieldBack(s, d, ip, i, n);
    ExtReadsBack(s, d, ip, i, n);
    var w := EaBytes(op, ip.ext).s;
    EaRoundTrip(op, ip.ext, s[d + 2 * ip.m.words + |ExtBytes(ip, i)| + |w|..]);
  }

  lemma {:induction false} ExtPrefix(ip: Instruction, i: nat, n: nat)
    requires Valid(ip) && ip.Instruction? && i <= n <= |ip.ops|
    ensures |ExtBytes(ip, i)| <= |ExtBytes(ip, n)| && ExtBytes(ip, n)[..|ExtBytes(ip, i)|] == ExtBytes(ip, i)
  {
    hide OperandBytes, InTable, Allowed;
    if i < n { ExtPrefix(ip, i, n - 1); }
  }

  /** The extension words of operand i stand behind those of the operands before it. */
  lemma ExtAt(s: seq<Byte>, d: nat, ip: Instruction, i: nat, n: nat)
    requires Valid(ip) && ip.Instruction? && i < n <= |ip.ops| && IsCode(s, d, ip, n)
    requires |ip.m.types| == |ip.m.places| && |ip.ops| <= |ip.m.types| && |ip.ops[i].float| == 12
    requires OperandBytes(ip.m, i, ip.ops[i], ip.ext).Bytes?
    ensures var w := OperandBytes(ip.m, i, ip.ops[i], ip.ext).s; var at := d + 2 * ip.m.words + |ExtBytes(ip, i)|;
      at + |w| <= |s| && s[at..] == w + s[at + |w|..]
  {
    hide Allowed, InTable, Reduced, EaBytes, OperandBytes, ExtBytes, FirstBytes, AllMarks, BitAt, Marked;
    OneMore(ip, i);
    ExtPrefix(ip, i, n);
    ExtPrefix(ip, i + 1, n);
    CodeFrom(s, d + 2 * ip.m.words, ExtBytes(ip, n), ExtBytes(ip, i), OperandBytes(ip.m, i, ip.ops[i], ip.ext).s);
  }

  lemma ExtReadsBack(s: seq<Byte>, d: nat, ip: Instruction, i: nat, n: nat)
    requires Valid(ip) && ip.Instruction? && i < n <= |ip.ops| && IsCode(s, d, ip, n)
    requires TakesEa(ip.m.places[i]) && OperandBytes(ip.m, i, ip.ops[i], ip.ext).Bytes?
    requires |ip.m.types| == |ip.m.places|
    ensures var op := Reduced(ip.m, ip.m.types[i], ip.ops[i]);
      var at := d + 2 * ip.m.words + |ExtBytes(ip, i)|;
      && |op.float| == 12 && EaBytes(op, ip.ext).Bytes?
      && var w := EaBytes(op, ip.ext).s; at + |w| <= |s| && s[at..] == w + s[at + |w|..]
  {
    hide Allowed, InTable, Reduced, EaBytes, ExtBytes, IsCode;
    OperandFacts(ip, i);
    ExtAt(s, d, ip, i, n);
  }

  lemma CodeFrom(s: seq<Byte>, base: nat, all: seq<Byte>, before: seq<Byte>, w: seq<Byte>)
    requires base + |all| <= |s| && s[base..base + |all|] == all
    requires |before + w| <= |all| && all[..|before + w|] == before + w
    ensures s[base + |before|..] == w + s[base + |before| + |w|..]
  {
    var at := base + |before|;
    forall k | 0 <= k < |w| ensures s[at + k] == w[k] {
      assert all[|before| + k] == s[base..base + |all|][|before| + k];
      assert (before + w)[|before| + k] == w[k];
    }
  }

  // ----- the second words of bitfields, packed decimals and MAC

  /** The extension word of a bitfield: bits 10 to 6 are its offset, or bit 11 tells that a register
      holds it; bits 4 to 0 are its width, or bit 5 tells so. An offset above 31 sets bit 11 too, and
      is reported. */
  lemma BitfieldReadsBack(s: seq<Byte>, d: nat, ip: Instruction, i: nat, n: nat)
    requires Valid(ip) && ip.Instruction? && i < n <= |ip.ops| && IsCode(s, d, ip, n) && Alone(ip, d, i, n)
    requires ip.m.places[i].BEA?
    ensures var op := ip.ops[i]; var at := Start(ip, d) + 2;
      && (WordBits(s, at, 11, 11) == 1 <==> op.dynOffset || (op.bfOffset / 32) % 2 == 1)
      && WordBits(s, at, 10, 6) == op.bfOffset % 32
      && (WordBits(s, at, 5, 5) == 1 <==> op.dynWidth) && WordBits(s, at, 4, 0) == op.bfWidth % 32
  {
    hide Alone, IsCode, Field, InTable, Allowed, FuncMarks, Valid, Bit, BitAt, EaNumber, BitfieldNumber, Pow2;
    var op := ip.ops[i];
    FieldBack(s, d, ip, i, n, 0);
    FieldBack(s, d, ip, i, n, 1);
    FlagAndNumber(s, 8 * Start(ip, d) + 20, op.bfOffset, op.dynOffset);
    var width := if op.dynWidth then op.bfWidth else op.bfWidth % 32;
    FlagAndNumber(s, 8 * Start(ip, d) + 26, width, op.dynWidth);
    SmallWidth(op.bfWidth);
  }

  lemma SmallWidth(n: nat)
    ensures (n % 32) / 32 == 0 && (n % 32) % 32 == n % 32
  {
  }

  /** A flag and five bits. */
  lemma FlagAndNumber(s: seq<Byte>, pos: nat, n: nat, dynamic: bool)
    requires Field(s, pos, 6) == BitfieldNumber(n, dynamic) % Pow2(6)
    ensures (Field(s, pos, 1) == 1 <==> dynamic || (n / 32) % 2 == 1) && Field(s, pos + 1, 5) == n % 32
  {
    hide Field, BitfieldNumber;
    Powers8();
    BitNumber(n, dynamic);
    TwoParts(s, pos, 1, 5, if dynamic then 1 else (n / 32) % 2, n % 32);
  }

  lemma BitNumber(n: nat, dynamic: bool)
    ensures BitfieldNumber(n, dynamic) == (if dynamic then 1 else (n / 32) % 2) * 32 + n % 32 < 64
    ensures BitfieldNumber(n, dynamic) % 64 == BitfieldNumber(n, dynamic)
  {
    QuotientIs(n, 64, n / 64, (n / 32) % 2 * 32 + n % 32);
  }

  /** Bit 12 of the second word of a packed decimal tells that a register holds the k-factor; else it
      is in bits 6 to 0. */
  lemma FactorReadsBack(s: seq<Byte>, d: nat, ip: Instruction, i: nat, n: nat)
    requires Valid(ip) && ip.Instruction? && i < n <= |ip.ops| && IsCode(s, d, ip, n) && Alone(ip, d, i, n)
    requires ip.m.places[i].KEA?
    ensures var op := ip.ops[i]; var at := Start(ip, d) + 2;
      && (WordBits(s, at, 12, 12) == 1 <==> op.dynOffset) && WordBits(s, at, 6, 0) == op.bfOffset % 128
  {
    hide Alone, IsCode, Field, InTable, Allowed, FuncMarks, Valid, Bit, BitAt, EaNumber;
    Powers8();
    FieldBack(s, d, ip, i, n, 1);
    FieldBack(s, d, ip, i, n, 2);
  }

  /** Bit 5 of the second word of a MAC operand tells that its address is masked. */
  lemma MaskReadsBack(s: seq<Byte>, d: nat, ip: Instruction, i: nat, n: nat)
    requires Valid(ip) && ip.Instruction? && i < n <= |ip.ops| && IsCode(s, d, ip, n) && Alone(ip, d, i, n)
    requires ip.m.places[i].EAM?
    ensures WordBits(s, Start(ip, d) + 2, 5, 5) == 1 <==> ip.ops[i].bfWidth != 0
  {
    hide Alone, IsCode, Field, InTable, Allowed, FuncMarks, Valid, Bit, BitAt, EaNumber;
    Powers8();
    FieldBack(s, d, ip, i, n, 0);
  }

  // ----- registers and numbers

  /** The number of the register that an operand names: vector register VXn, which is special register
      18 + n, stands for data or floating point register n modulo 8. */
  function RegisterNumber(ip: Instruction, i: nat): nat
    requires ip.Instruction? && i < |ip.ops|
  {
    var op := ip.ops[i];
    if ip.m.banked && op.mode.SpecReg? && op.reg >= 18 then (op.reg - 18) % 8 else op.reg
  }

  /** A register goes to its field: a field of four bits tells address registers from data registers
      by the highest bit. */
  lemma RegisterReadsBack(s: seq<Byte>, d: nat, ip: Instruction, i: nat, n: nat)
    requires Valid(ip) && ip.Instruction? && i < n <= |ip.ops| && IsCode(s, d, ip, n) && Alone(ip, d, i, n)
    requires ip.m.places[i].RegField? && RegisterNumber(ip, i) < 8
    requires ip.m.banked && ip.ops[i].mode.SpecReg? ==> ip.ops[i].reg >= 18
    ensures var p := ip.m.places[i]; var r := Field(s, 8 * Start(ip, d) + p.pos, p.size);
      && (p.size == 3 ==> r == RegisterNumber(ip, i))
      && (p.size == 4 ==> r == RegisterNumber(ip, i) + if ip.ops[i].mode.An? then 8 else 0)
  {
    hide Alone, IsCode, Field, InTable, Allowed, FuncMarks, Valid, Bit, BitAt;
    Powers8();
    FieldBack(s, d, ip, i, n, 0);
  }

  /** An operand of which only the register is stored, in bits 2 to 0. */
  lemma BaseReadsBack(s: seq<Byte>, d: nat, ip: Instruction, i: nat, n: nat)
    requires Valid(ip) && ip.Instruction? && i < n <= |ip.ops| && IsCode(s, d, ip, n) && Alone(ip, d, i, n)
    requires ip.m.places[i].REA? && InRegister(ip.ops[i].mode)
    ensures WordBits(s, Start(ip, d), 2, 0) == ip.ops[i].reg % 8
  {
    hide Alone, IsCode, Field, InTable, Allowed, FuncMarks, Valid, Bit, BitAt;
    Powers8();
    FieldBack(s, d, ip, i, n, 0);
  }

  /** What a field of `size` bits that holds raw means: quick data have no 0, which stands for 2^size,
      or for -1; a reversed register list is mirrored. */
  function Meaning(raw: nat, size: nat, rule: Rule): int {
    match rule
    case AsIs => raw
    case Mask => if raw == 0 then Pow2(size) else raw
    case ThreeQ => if raw == 0 then -1 else raw
    case Reversed => Reverse(raw, size)
  }

  /** A number reads back from its field if and only if it is one that the field can hold. */
  lemma NumberReadsBack(s: seq<Byte>, d: nat, ip: Instruction, i: nat, n: nat)
    requires Valid(ip) && ip.Instruction? && i < n <= |ip.ops| && IsCode(s, d, ip, n) && Alone(ip, d, i, n)
    requires ip.m.places[i].ValueField? && ip.m.places[i].size > 1
    ensures var p := ip.m.places[i]; var v := ip.ops[i].val0;
      Meaning(Field(s, 8 * Start(ip, d) + p.pos, p.size), p.size, p.rule) == v <==>
        match p.rule
        case AsIs | Reversed => 0 <= v < Pow2(p.size)
        case Mask => 1 <= v <= Pow2(p.size)
        case ThreeQ => v == -1 || 1 <= v < Pow2(p.size)
  {
    hide Alone, IsCode, Field, InTable, Allowed, FuncMarks, Valid, Bit, BitAt, Reverse;
    OperandFacts(ip, i);
    FieldBack(s, d, ip, i, n, 0);
    RuleBack(ip.ops[i].val0, ip.m.places[i].size, ip.m.places[i].rule);
  }

  lemma RuleBack(v: int, size: nat, rule: Rule)
    requires size > 1
    ensures Meaning(Ruled(v, size, rule) % Pow2(size), size, rule) == v <==>
      match rule
      case AsIs | Reversed => 0 <= v < Pow2(size)
      case Mask => 1 <= v <= Pow2(size)
      case ThreeQ => v == -1 || 1 <= v < Pow2(size)
  {
    hide Reverse, Pow2;
    var p := Pow2(size);
    assert p >= 4 by { PowMono(2, size); Powers8(); }
    QuotientIs(p, p, 1, 0);
    QuotientIs(-1, p, -1, p - 1);
    QuotientIs(0, p, 0, 0);
    if 0 <= v < p { QuotientIs(v, p, 0, v); }
    if rule.Reversed? {
      ReverseMirrors(v, size, 0);
      QuotientIs(Reverse(v, size), p, 0, Reverse(v, size));
      ReverseTwice(v, size);
    }
  }

  /** Where the extension words of operand i stand. */
  function ExtPlace(d: nat, ip: Instruction, i: nat): nat
    requires Valid(ip) && ip.Instruction? && i <= |ip.ops|
  {
    d + 2 * ip.m.words + |ExtBytes(ip, i)|
  }

  /** The extension words of an operand whose mode is known without a field: a plain address or an
      immediate number, read as for modes 7.1 and 7.4. */
  lemma NoFieldReadsBack(s: seq<Byte>, d: nat, ip: Instruction, i: nat, n: nat)
    requires Valid(ip) && ip.Instruction? && i < n <= |ip.ops| && IsCode(s, d, ip, n)
    requires ip.m.places[i].NEA? && OperandBytes(ip.m, i, ip.ops[i], ip.ext).Bytes?
    requires var op := ip.ops[i];
      op.mode.AbsLong? || (op.mode.Immediate? && !ip.ext.NoExt? && (ip.ext.L? ==> op.extVal0))
    ensures NumberStands(s, ExtPlace(d, ip, i), ip.ops[i], ip.ext)
  {
    hide Allowed, InTable, DecodeEa, EaBytes, FirstBytes, AllMarks, IsCode, ExtBytes, InWidth, Width0, Width1,
      FormatWord, OperandBytes;
    var op := ip.ops[i];
    OperandFacts(ip, i);
    ExtReadsBack(s, d, ip, i, n);
    var w := EaBytes(op, ip.ext).s;
    EaRoundTrip(op, ip.ext, s[ExtPlace(d, ip, i) + |w|..]);
  }

  /** The number of an operand reads back from byte `at`, if it fits. */
  ghost predicate NumberStands(s: seq<Byte>, at: nat, op: Operand, ext: Ext) {
    && at <= |s|
    && var e := DecodeEa(if op.mode.AbsLong? then 57 else 60, ext, s[at..]);
    && e.Decoded? && at + e.length <= |s|
    && (Width0(op, ext) > 0 ==> (e.val0 == op.val0 <==> InWidth(op.val0, Width0(op, ext))))
  }

  // ----- the size of the operation

  /** Nobody else sets a bit where the size is written. */
  ghost predicate SizeAlone(ip: Instruction, d: nat, n: nat)
    requires Valid(ip) && ip.Instruction? && n <= |ip.ops|
  {
    forall x :: 0 <= x < |SizeMarks(ip.m, ip.ext)| ==> SizeAloneAt(ip, d, x, n)
  }

  ghost predicate SizeAloneAt(ip: Instruction, d: nat, x: nat, n: nat)
    requires Valid(ip) && ip.Instruction? && n <= |ip.ops|
  {
    x < |AllMarks(ip, n)| && Exclusive(FirstBytes(ip, n), d, Start(ip, d), AllMarks(ip, n), x)
  }

  lemma {:induction false} SizeMarkAt(ip: Instruction, n: nat, x: nat)
    requires Valid(ip) && ip.Instruction? && n <= |ip.ops| && x < |SizeMarks(ip.m, ip.ext)|
    ensures x < |AllMarks(ip, n)| && AllMarks(ip, n)[x] == SizeMarks(ip.m, ip.ext)[x]
  {
    hide Reduced, InTable, Allowed, PlaceMarks, SizeMarks;
    if n > 0 { SizeMarkAt(ip, n - 1, x); }
  }

  lemma SizeFieldBack(s: seq<Byte>, d: nat, ip: Instruction, n: nat, x: nat)
    requires Valid(ip) && ip.Instruction? && n <= |ip.ops| && IsCode(s, d, ip, n) && SizeAlone(ip, d, n)
    requires x < |SizeMarks(ip.m, ip.ext)|
    ensures var f := SizeMarks(ip.m, ip.ext)[x];
      Field(s, 8 * Start(ip, d) + f.pos, f.size) == f.val % Pow2(f.size)
  {
    hide Exclusive, Stands, Allowed, InTable, AllMarks, ExtBytes, Field, SizeMarks, FirstBytes;
    Words(ip);
    SizeInside(ip.m, ip.ext);
    SizeMarkAt(ip, n, x);
    assert SizeAloneAt(ip, d, x, n);
    MarkReadsBack(s, d, FirstBytes(ip, n), Start(ip, d), AllMarks(ip, n), ExtBytes(ip, n), x);
  }

  /** The sizes that an instruction of each kind can have. */
  predicate HasSize(mode: SizeMode, ext: Ext) {
    match mode
    case S_NONE => false
    case S_WL8 | S_LW7 | S_WL6 | S_MAC | S_TRAP => ext.W? || ext.L?
    case S_AMMX => ext.W? || ext.Q?
    case S_FP => !ext.NoExt? && !ext.Q?
    case _ => ext.B? || ext.W? || ext.L?
  }

  /** One of three sizes, numbered from n on. */
  function OneOf(raw: nat, a: Ext, b: Ext, c: Ext, n: nat): Ext {
    if raw == n then a else if raw == n + 1 then b else if raw == n + 2 then c else NoExt
  }

  /** The size that the opcode words at byte `at` tell. */
  function SizeRead(mode: SizeMode, s: seq<Byte>, at: nat): Ext {
    match mode
    case S_NONE => NoExt
    case S_STD => OneOf(WordBits(s, at, 7, 6), B, W, L, 0)
    case S_STD1 => OneOf(WordBits(s, at, 7, 6), B, W, L, 1)
    case S_HI => OneOf(WordBits(s, at, 10, 9), B, W, L, 0)
    case S_CAS => OneOf(WordBits(s, at, 10, 9), B, W, L, 1)
    case S_MOVE => OneOf(WordBits(s, at, 13, 12), B, L, W, 1)
    case S_WL8 => if WordBits(s, at, 8, 8) == 0 then W else L
    case S_LW7 => if WordBits(s, at, 7, 7) == 0 then L else W
    case S_WL6 => if WordBits(s, at, 6, 6) == 0 then W else L
    case S_TRAP => OneOf(WordBits(s, at, 1, 0), W, L, NoExt, 2)
    case S_EXT => OneOf(WordBits(s, at + 2, 7, 6), B, W, L, 0)
    case S_FP =>
      var raw := WordBits(s, at + 2, 12, 10);
      if raw < 3 then OneOf(raw, L, S, X, 0) else if raw < 6 then OneOf(raw, P, W, D, 3) else B
    case S_MAC => if WordBits(s, at + 2, 11, 11) == 0 then W else L
    case S_AMMX => if WordBits(s, at, 8, 8) == 0 then Q else W
    case S_TEX => OneOf(WordBits(s, at + 4, 1, 0), B, W, L, 0)
  }

  /** The size extension reads back from the code, for every kind of size field. */
  lemma SizeReadsBack(s: seq<Byte>, d: nat, ip: Instruction, n: nat)
    requires Valid(ip) && ip.Instruction? && n <= |ip.ops| && IsCode(s, d, ip, n) && SizeAlone(ip, d, n)
    requires ip.m.sized && HasSize(ip.m.mode, ip.ext)
    ensures SizeRead(ip.m.mode, s, Start(ip, d)) == ip.ext
    ensures ip.m.mode.S_TEX? ==>
      var at := Start(ip, d) + 4; WordBits(s, at, 11, 11) == 1 && WordBits(s, at, 10, 9) == WordBits(s, at, 1, 0)
  {
    hide SizeAlone, IsCode, Field, InTable, Allowed, Valid;
    Powers8();
    SizeFieldBack(s, d, ip, n, 0);
    if ip.m.mode.S_TEX? {
      SizeFieldBack(s, d, ip, n, 1);
      SizeFieldBack(s, d, ip, n, 2);
    }
  }

  // ----- the opcode

  lemma WordBitsOf(v: int, k: nat)
    requires k < 16
    ensures |SetVal(2, v)| == 2 && (BitAt(SetVal(2, v), k) <==> Bit(v, 15 - k))
  {
    assert SetVal(2, v) == SetVal(1, v / 0x100) + [v % 0x100];
    assert SetVal(1, v / 0x100) == SetVal(0, v / 0x100 / 0x100) + [(v / 0x100) % 0x100];
    SmallPowers();
    var j := 7 - k % 8;
    if k < 8 {
      BitMod(v / 0x100, 8, j);
      BitShr(v, 8, j);
    } else {
      BitMod(v, 8, j);
    }
  }

  /** The number of the j-th opcode word, as the mnemonic table has it. */
  function OpcodeNumber(m: Mnemonic, j: nat): int {
    if j == 0 then m.opcode0 else if j == 1 then m.opcode1 else 0
  }

  /** Bit b of the j-th opcode word, the bank prefix not counted, is the one of the mnemonic's opcode,
      unless an operand or the size sets it; the branch byte stands for itself. Before them stands the
      bank prefix. */
  lemma OpcodeReadsBack(s: seq<Byte>, d: nat, ip: Instruction, n: nat, j: nat, b: nat)
    requires Valid(ip) && ip.Instruction? && n <= |ip.ops| && IsCode(s, d, ip, n) && !IsBranch(ip)
    requires j < OpWords(ip.m) && b < 16
    ensures var k := 8 * (Start(ip, d) + 2 * j) + 15 - b;
      BitAt(s, k) <==> Bit(OpcodeNumber(ip.m, j), b) || Marked(Start(ip, d), AllMarks(ip, n), k)
    ensures ip.m.banked ==> (BitAt(s, 8 * d + 15 - b) <==> Bit(BankPrefix(ip.m, ip.ops), b))
  {
    hide Bit, BitAt, InTable, Allowed, Sets, AllMarks, SetVal, ExtBytes, Inside;
    Words(ip);
    var k := 8 * (Start(ip, d) + 2 * j) + 15 - b;
    var o := OpcodeBytes(ip);
    WordBitsOf(OpcodeNumber(ip.m, j), 15 - b);
    WordBitsOf(BankPrefix(ip.m, ip.ops), 15 - b);
    OpcodeWord(ip, j, 15 - b);
    assert k - 8 * d == 8 * (Prefix(ip.m) + 2 * j) + (15 - b);
    if ip.m.banked {
      AllInside(ip, n);
      if Marked(Start(ip, d), AllMarks(ip, n), 8 * d + 15 - b) {
        MarkedInside(Start(ip, d), AllMarks(ip, n), 16 * OpWords(ip.m), 8 * d + 15 - b);
      }
    }
  }

  /** The bank prefix, as a number; `Banks.PrefixReadsBack` says what it tells. */
  lemma PrefixWordBack(s: seq<Byte>, d: nat, ip: Instruction, n: nat)
    requires Valid(ip) && ip.Instruction? && n <= |ip.ops| && IsCode(s, d, ip, n) && ip.m.banked && !IsBranch(ip)
    requires BankPrefix(ip.m, ip.ops) < 0x1_0000
    ensures WordBits(s, d, 15, 0) == BankPrefix(ip.m, ip.ops)
  {
    hide Bit, BitAt, InTable, Allowed, IsCode, BankPrefix;
    Words(ip);
    var v := BankPrefix(ip.m, ip.ops);
    Pow2Sum(8, 8);
    SmallPowers();
    FieldBits(s, 8 * d, 16, 0);
    forall b | 0 <= b < 16 ensures Bit(Field(s, 8 * d, 16), b) == Bit(v, b) {
      FieldBits(s, 8 * d, 16, b);
      OpcodeReadsBack(s, d, ip, n, 0, b);
    }
    SameBits(Field(s, 8 * d, 16), v, 16);
  }

  lemma OpcodeWord(ip: Instruction, j: nat, k: nat)
    requires Valid(ip) && ip.Instruction? && j < OpWords(ip.m) && k < 16
    ensures BitAt(OpcodeBytes(ip), 8 * (Prefix(ip.m) + 2 * j) + k) <==> BitAt(SetVal(2, OpcodeNumber(ip.m, j)), k)
    ensures ip.m.banked ==> (BitAt(OpcodeBytes(ip), k) <==> BitAt(SetVal(2, BankPrefix(ip.m, ip.ops)), k))
  {
    hide Bit, InTable, Allowed, SetVal;
    Words(ip);
    var a := Prefix(ip.m) + 2 * j;
    assert (8 * a + k) / 8 == a + k / 8 && (8 * a + k) % 8 == k % 8;
  }

  lemma {:induction false} AllInside(ip: Instruction, n: nat)
    requires Valid(ip) && ip.Instruction? && n <= |ip.ops|
    ensures Inside(AllMarks(ip, n), 16 * OpWords(ip.m))
  {
    hide PlaceMarks, Reduced, InTable, Allowed;
    Words(ip);
    if n == 0 {
      SizeInside(ip.m, ip.ext);
    } else {
      OperandFacts(ip, n - 1);
      AllInside(ip, n - 1);
    }
  }

  // ----- special places

  /** What the fields of a special place hold. */
  ghost predicate FuncRead(func: Func, op: Operand, s: seq<Byte>, at: nat)
    requires FuncFits(func, 3)
  {
    match func
    case Ammx(pos, top) => 16 * WordBits(s, at, 15 - top, 15 - top) + Field(s, 8 * at + pos, 4) == op.val0 % 32
    case Cas2(size, pos) =>
      && Field(s, 8 * at + pos, size) == op.reg % Pow2(size)
      && (op.reg / 16 < Pow2(size) ==> Field(s, 8 * at + pos + 16, size) == op.reg / 16)
    case MulDivL => ResultRead(op, s, at)
    case DivL =>
      if op.doubleReg then
        WordBits(s, at + 2, 15, 12) == (op.reg / 16) % 16 && WordBits(s, at + 2, 3, 0) == op.reg % 16
      else ResultRead(op, s, at)
    case Tbl => WordBits(s, at, 2, 0) == op.reg % 8 && WordBits(s, at + 2, 2, 0) == (op.reg / 16) % 8
    case Fp => WordBits(s, at + 2, 12, 10) == op.reg % 8 && WordBits(s, at + 2, 9, 7) == op.reg % 8
    case FpCs => WordBits(s, at + 2, 9, 7) == (op.reg / 16) % 8 && WordBits(s, at + 2, 2, 0) == op.reg % 8
    case MacReg(pos, half) =>
      && (op.reg < 8 ==>
            (if pos == 4 then 8 * WordBits(s, at, 6, 6) + WordBits(s, at, 11, 9) else Field(s, 8 * at + pos, 4))
            == op.reg + if op.mode.An? then 8 else 0)
      && (op.bfOffset != 0 ==> Field(s, 8 * at + half, 1) == 1)
    case AccX => 2 * WordBits(s, at + 2, 4, 4) + WordBits(s, at, 7, 7) == op.val0 % 4
    case AccXRev => 2 * WordBits(s, at + 2, 4, 4) + (1 - WordBits(s, at, 7, 7)) == op.val0 % 4
  }

  /** One register for the upper and the lower half of a result. */
  ghost predicate ResultRead(op: Operand, s: seq<Byte>, at: nat) {
    var r := op.reg % 8 + if op.mode.An? then 8 else 0;
    WordBits(s, at + 2, 15, 12) == r && WordBits(s, at + 2, 3, 0) == r
  }

  /** The special places read back too. */
  lemma FuncReadsBack(s: seq<Byte>, d: nat, ip: Instruction, i: nat, n: nat)
    requires Valid(ip) && ip.Instruction? && i < n <= |ip.ops| && IsCode(s, d, ip, n) && Alone(ip, d, i, n)
    requires ip.m.places[i].FuncField? && FuncFits(ip.m.places[i].func, 3)
    ensures FuncRead(ip.m.places[i].func, Reduced(ip.m, ip.m.types[i], ip.ops[i]), s, Start(ip, d))
  {
    hide Alone, IsCode, Field, InTable, Allowed, FuncMarks, Valid, Bit, BitAt, Reduced, Pow2, FuncRead;
    OperandFacts(ip, i);
    var func, op := ip.m.places[i].func, Reduced(ip.m, ip.m.types[i], ip.ops[i]);
    forall x | 0 <= x < |FuncMarks(func, op)|
      ensures MarkRead(s, Start(ip, d), FuncMarks(func, op)[x])
    {
      FieldBack(s, d, ip, i, n, x);
    }
    MarksTell(func, op, s, Start(ip, d));
  }

  ghost predicate MarkRead(s: seq<Byte>, at: nat, f: Mark) {
    Field(s, 8 * at + f.pos, f.size) == f.val % Pow2(f.size)
  }

  lemma MarksTell(func: Func, op: Operand, s: seq<Byte>, at: nat)
    requires FuncFits(func, 3)
    requires forall x :: 0 <= x < |FuncMarks(func, op)| ==> MarkRead(s, at, FuncMarks(func, op)[x])
    ensures FuncRead(func, op, s, at)
  {
    hide Field, Pow2, MarkRead;
    var marks := FuncMarks(func, op);
    assert MarkRead(s, at, marks[0]);
    assert |marks| > 1 ==> MarkRead(s, at, marks[1]);
    assert |marks| > 2 ==> MarkRead(s, at, marks[2]);
    match func
    case Ammx(pos, top) => VectorTells(pos, top, op, s, at);
    case Cas2(size, pos) => PairTells(size, pos, op, s, at);
    case MacReg(pos, half) => FactorTells(pos, half, op, s, at);
    case AccX => AccumulatorTells(false, op, s, at);
    case AccXRev => AccumulatorTells(true, op, s, at);
    case _ => RegistersTell(func, op, s, at);
  }

  lemma VectorTells(pos: nat, top: nat, op: Operand, s: seq<Byte>, at: nat)
    requires top < 16
    requires MarkRead(s, at, Mark(pos, 4, op.val0 % 16)) && MarkRead(s, at, Mark(top, 1, (op.val0 / 16) % 2))
    ensures 16 * WordBits(s, at, 15 - top, 15 - top) + Field(s, 8 * at + pos, 4) == op.val0 % 32
  {
    hide Field;
    Powers8();
    QuotientIs(op.val0, 32, op.val0 / 32, 16 * ((op.val0 / 16) % 2) + op.val0 % 16);
  }

  lemma PairTells(size: nat, pos: nat, op: Operand, s: seq<Byte>, at: nat)
    requires MarkRead(s, at, Mark(pos, size, op.reg % Pow2(size))) && MarkRead(s, at, Mark(pos + 16, size, op.reg / 16))
    requires FuncFits(Cas2(size, pos), 3)
    ensures FuncRead(Cas2(size, pos), op, s, at)
  {
    hide Field, Pow2;
    QuotientIs(op.reg % Pow2(size), Pow2(size), 0, op.reg % Pow2(size));
    if op.reg / 16 < Pow2(size) { QuotientIs(op.reg / 16, Pow2(size), 0, op.reg / 16); }
  }

  lemma FactorTells(pos: nat, half: nat, op: Operand, s: seq<Byte>, at: nat)
    requires FuncFits(MacReg(pos, half), 3)
    requires var number := if op.mode.An? then 1 else 0;
      && (op.bfOffset != 0 ==> MarkRead(s, at, Mark(half, 1, 1)))
      && if pos == 4 then MarkRead(s, at, Mark(4, 3, op.reg)) && MarkRead(s, at, Mark(9, 1, number))
         else MarkRead(s, at, Mark(pos, 4, 8 * number + op.reg))
    ensures FuncRead(MacReg(pos, half), op, s, at)
  {
    hide Field;
    Powers8();
  }

  lemma AccumulatorTells(reversed: bool, op: Operand, s: seq<Byte>, at: nat)
    requires MarkRead(s, at, Mark(8, 1, if reversed then 1 - op.val0 % 2 else op.val0 % 2))
    requires MarkRead(s, at, Mark(27, 1, (op.val0 / 2) % 2))
    ensures FuncRead(if reversed then AccXRev else AccX, op, s, at)
  {
    hide Field;
    Powers8();
    QuotientIs(op.val0, 4, op.val0 / 4, 2 * ((op.val0 / 2) % 2) + op.val0 % 2);
  }

  lemma RegistersTell(func: Func, op: Operand, s: seq<Byte>, at: nat)
    requires func in {MulDivL, DivL, Tbl, Fp, FpCs} && |FuncMarks(func, op)| == 2
    requires MarkRead(s, at, FuncMarks(func, op)[0]) && MarkRead(s, at, FuncMarks(func, op)[1])
    ensures FuncRead(func, op, s, at)
  {
    hide Field;
    Powers8();
  }

  // ----- nothing outside the fields

  /** The operand has a register or a number that its place can hold. */
  predicate Holdable(p: Place, op: Operand) {
    match p
    case RegField(size, _) => 3 <= size <= 4 && op.reg < 8
    case ValueField(size, _, rule) =>
      size > 1 &&
      (match rule
       case AsIs | Reversed => 0 <= op.val0 < Pow2(size)
       case Mask => 1 <= op.val0 <= Pow2(size)
       case ThreeQ => op.val0 == -1 || 1 <= op.val0 < Pow2(size))
    case FuncField(Cas2(size, _)) => op.reg / 16 < Pow2(size)
    case FuncField(DivL) => op.doubleReg ==> op.reg < 256
    case FuncField(MacReg(_, _)) => op.reg < 8
    case _ => true
  }

  predicate Fitting(f: Mark) {
    0 <= f.val < Pow2(f.size)
  }

  lemma MarksFit(p: Place, op: Operand)
    requires Holdable(p, op)
    ensures forall x :: 0 <= x < |PlaceMarks(p, op)| ==> Fitting(PlaceMarks(p, op)[x])
  {
    hide Reverse, Pow2, FuncMarks;
    Powers8();
    match p
    case ValueField(size, _, rule) =>
      PowMono(2, size);
      if rule.Reversed? { ReverseMirrors(op.val0, size, 0); }
    case FuncField(func) => FuncMarksFit(func, op);
    case _ =>
  }

  lemma FuncMarksFit(func: Func, op: Operand)
    requires Holdable(FuncField(func), op)
    ensures forall x :: 0 <= x < |FuncMarks(func, op)| ==> Fitting(FuncMarks(func, op)[x])
  {
    hide Pow2;
    Powers8();
  }

  /** Then no bit outside the operand's fields is set. */
  lemma NothingSpills(p: Place, op: Operand, start: nat, x: nat, k: nat)
    requires Holdable(p, op) && x < |PlaceMarks(p, op)| && Sets(start, PlaceMarks(p, op)[x], k)
    ensures var f := PlaceMarks(p, op)[x]; 8 * start + f.pos <= k < 8 * start + f.pos + f.size
  {
    hide PlaceMarks, Bit;
    MarksFit(p, op);
    var f := PlaceMarks(p, op)[x];
    assert Fitting(f);
    QuotientIs(f.val, Pow2(f.size), 0, f.val);
    BitMod(f.val, f.size, 8 * start + f.pos + f.size - 1 - k);
  }

  /** The bits of the opcode words, counted from the highest bit of the first one, that an operand at a
      place may set. */
  predicate FieldOf(p: Place, op: Operand, k: int) {
    match p
    case NOP | NEA | BRA | DBR => false
    case SEA => 10 <= k < 16
    case REA => 13 <= k < 16
    case EAM => 10 <= k < 16 || k == 26
    case BEA => 10 <= k < 16 || 20 <= k < 32
    case KEA => 10 <= k < 16 || k == 19 || 25 <= k < 32
    case MEA => 4 <= k < 10
    case RegField(size, pos) => pos <= k < pos + size
    case ValueField(size, pos, _) => pos <= k < pos + size
    case FuncField(func) =>
      match func
      case Ammx(pos, top) => pos <= k < pos + 4 || k == top
      case Cas2(size, pos) => pos <= k < pos + size || pos + 16 <= k < pos + 16 + size
      case MulDivL | DivL => 16 <= k < 20 || 28 <= k < 32
      case Tbl => 13 <= k < 16 || 29 <= k < 32
      case Fp => 19 <= k < 25
      case FpCs => 22 <= k < 25 || 29 <= k < 32
      case MacReg(pos, half) =>
        (if pos == 4 then 4 <= k < 7 || k == 9 else pos <= k < pos + 4) || (op.bfOffset != 0 && k == half)
      case AccX | AccXRev => k == 8 || k == 27
  }

  /** An operand sets no other bit, and none at a place that is not in the opcode. */
  lemma SetsItsFieldOnly(p: Place, op: Operand, start: nat, k: nat)
    requires Holdable(p, op) && Marked(start, PlaceMarks(p, op), k)
    ensures FieldOf(p, op, k - 8 * start)
  {
    hide Sets, Holdable;
    var x :| 0 <= x < |PlaceMarks(p, op)| && Sets(start, PlaceMarks(p, op)[x], k);
    NothingSpills(p, op, start, x, k);
    var f := PlaceMarks(p, op)[x];
    MarkInField(p, op, x, k - 8 * start);
  }

  lemma MarkInField(p: Place, op: Operand, x: nat, k: int)
    requires x < |PlaceMarks(p, op)|
    requires PlaceMarks(p, op)[x].pos <= k < PlaceMarks(p, op)[x].pos + PlaceMarks(p, op)[x].size
    ensures FieldOf(p, op, k)
  {
    hide EaNumber, BitfieldNumber, Ruled;
  }

  /** The bits in which the size is told. */
  predicate SizeField(mode: SizeMode, k: int) {
    match mode
    case S_NONE => false
    case S_STD | S_STD1 => 8 <= k < 10
    case S_HI | S_CAS => 5 <= k < 7
    case S_MOVE => 2 <= k < 4
    case S_WL8 | S_AMMX => k == 7
    case S_LW7 => k == 8
    case S_WL6 => k == 9
    case S_TRAP => 14 <= k < 16
    case S_EXT => 24 <= k < 26
    case S_FP => 19 <= k < 22
    case S_MAC => k == 20
    case S_TEX => 36 <= k < 39 || 46 <= k < 48
  }

  /** A size sets no other bit, and an instruction without sizes has none but the one bit that is
      always set in the third word of a texture operation. */
  lemma SizeSetsItsFieldOnly(m: Mnemonic, ext: Ext, start: nat, k: nat)
    requires Marked(start, SizeMarks(m, ext), k)
    ensures SizeField(m.mode, k - 8 * start)
    ensures !m.sized ==> m.mode.S_TEX? && k == 8 * start + 36
  {
    hide Bit;
    var x :| 0 <= x < |SizeMarks(m, ext)| && Sets(start, SizeMarks(m, ext)[x], k);
    var f := SizeMarks(m, ext)[x];
    SizeFits(m, ext, x);
    QuotientIs(f.val, Pow2(f.size), 0, f.val);
    BitMod(f.val, f.size, 8 * start + f.pos + f.size - 1 - k);
    BitZero(8 * start + f.pos + f.size - 1 - k);
  }

  lemma SizeFits(m: Mnemonic, ext: Ext, x: nat)
    requires x < |SizeMarks(m, ext)|
    ensures Fitting(SizeMarks(m, ext)[x])
    ensures !m.sized ==> SizeMarks(m, ext)[x].val == 0 || (m.mode.S_TEX? && x == 0)
  {
    Powers8();
  }
}
