/** What goes into the opcode words of an instruction besides the mnemonic's own bits
    (software/vasm/cpus/rf68000/cpu.c, eval_instruction, and the table insert_info of operands.h). */
module Opcodes {
  import opened Bits
  import opened Fields
  import opened Operands

  /** The number of a size extension in a field that counts byte, word and long as given. */
  function SizeNumber(ext: Ext, b: nat, w: nat, l: nat): nat {
    match ext case B => b case W => w case L => l case _ => 0
  }

  /** A coprocessor counts its formats in its own way. */
  function FormatNumber(ext: Ext): nat {
    match ext case S => 1 case X => 2 case P => 3 case W => 4 case D | Q => 5 case B => 6 case _ => 0
  }

  /** What the size extension writes. */
  function SizeMarks(m: Mnemonic, extension: Ext): seq<Mark> {
    var ext := if m.sized then extension else NoExt;
    match m.mode
    case S_NONE => []
    case S_STD => [Mark(8, 2, SizeNumber(ext, 0, 1, 2))]
    case S_STD1 => [Mark(8, 2, SizeNumber(ext, 1, 2, 3))]
    case S_HI => [Mark(5, 2, SizeNumber(ext, 0, 1, 2))]
    case S_CAS => [Mark(5, 2, SizeNumber(ext, 1, 2, 3))]
    case S_MOVE => [Mark(2, 2, SizeNumber(ext, 1, 3, 2))]
    case S_WL8 => [Mark(7, 1, SizeNumber(ext, 0, 0, 1))]
    case S_LW7 => [Mark(8, 1, SizeNumber(ext, 0, 1, 0))]
    case S_WL6 => [Mark(9, 1, SizeNumber(ext, 0, 0, 1))]
    case S_MAC => [Mark(20, 1, SizeNumber(ext, 0, 0, 1))]
    case S_AMMX => [Mark(7, 1, SizeNumber(ext, 0, 1, 0))]
    case S_TRAP => [Mark(14, 2, SizeNumber(ext, 0, 2, 3))]
    case S_EXT => [Mark(24, 2, SizeNumber(ext, 0, 1, 2))]
    case S_FP => [Mark(19, 3, FormatNumber(ext))]
    case S_TEX => [Mark(36, 1, 1), Mark(37, 2, SizeNumber(ext, 0, 1, 2)), Mark(46, 2, SizeNumber(ext, 0, 1, 2))]
  }

  /** The mode field of an effective address. */
  function ModeNumber(a: AddrMode): nat {
    match a
    case Dn | FPn => 0
    case An | SpecReg => 1
    case AnIndir => 2
    case AnPostInc => 3
    case AnPreDec => 4
    case An16Disp => 5
    case An8Format => 6
    case _ => 7
  }

  /** Its register field, which tells the modes of number 7 apart. */
  function RegNumber(op: Operand): nat {
    match op.mode
    case AbsShort => 0
    case AbsLong => 1
    case PC16Disp => 2
    case PC8Format => 3
    case Immediate => 4
    case RnList => 5
    case FPnList => 6
    case _ => op.reg % 8
  }

  function EaNumber(op: Operand): (n: nat)
    ensures n < 64
  {
    8 * ModeNumber(op.mode) + RegNumber(op)
  }

  function Ruled(v: int, size: nat, rule: Rule): int {
    match rule
    case AsIs => v
    case Mask => if v == 0 then Pow2(size) else if v == Pow2(size) then 0 else v
    case ThreeQ => if v == 0 then -1 else if v == -1 then 0 else v
    case Reversed => Reverse(v, size)
  }

  /** Offset and width of a bitfield; bit 5 tells that a register holds them. */
  function BitfieldNumber(n: nat, dynamic: bool): nat {
    if dynamic then n % 32 + 32 else n % 64
  }

  /** What an operand writes at its place. */
  function PlaceMarks(p: Place, op: Operand): seq<Mark> {
    match p
    case NOP | NEA | BRA | DBR => []
    case SEA => [Mark(10, 6, EaNumber(op))]
    case REA => [Mark(13, 3, RegNumber(op))]
    case EAM => [Mark(26, 1, if op.bfWidth != 0 then 1 else 0), Mark(10, 6, EaNumber(op))]
    case BEA =>
      [Mark(20, 6, BitfieldNumber(op.bfOffset, op.dynOffset)),
       Mark(26, 6, BitfieldNumber(if op.dynWidth then op.bfWidth else op.bfWidth % 32, op.dynWidth)),
       Mark(10, 6, EaNumber(op))]
    case KEA => [Mark(10, 6, EaNumber(op)), Mark(19, 1, if op.dynOffset then 1 else 0), Mark(25, 7, op.bfOffset % 128)]
    case MEA => [Mark(4, 6, 8 * RegNumber(op) + ModeNumber(op.mode))]
    case RegField(size, pos) => [Mark(pos, size, op.reg + if size > 3 && op.mode.An? then 8 else 0)]
    case ValueField(size, pos, rule) => [Mark(pos, size, Ruled(op.val0, size, rule))]
    case FuncField(func) => FuncMarks(func, op)
  }

  /** What the insertion functions write. */
  function FuncMarks(func: Func, op: Operand): seq<Mark> {
    match func
    case Ammx(pos, top) => [Mark(pos, 4, op.val0 % 16), Mark(top, 1, (op.val0 / 16) % 2)]
    case Cas2(size, pos) => [Mark(pos, size, op.reg % Pow2(size)), Mark(pos + 16, size, op.reg / 16)]
    case MulDivL => ResultMarks(op)
    case DivL => if op.doubleReg then [Mark(16, 4, op.reg / 16), Mark(28, 4, op.reg % 16)] else ResultMarks(op)
    case Tbl => [Mark(13, 3, op.reg % 8), Mark(29, 3, (op.reg / 16) % 8)]
    case Fp => [Mark(19, 3, op.reg % 8), Mark(22, 3, op.reg % 8)]
    case FpCs => [Mark(22, 3, (op.reg / 16) % 8), Mark(29, 3, op.reg % 8)]
    case MacReg(pos, half) =>
      var number := if op.mode.An? then 1 else 0;
      (if pos == 4 then [Mark(4, 3, op.reg), Mark(9, 1, number)] else [Mark(pos, 4, 8 * number + op.reg)])
      + if op.bfOffset != 0 then [Mark(half, 1, 1)] else []
    case AccX => [Mark(8, 1, op.val0 % 2), Mark(27, 1, (op.val0 / 2) % 2)]
    case AccXRev => [Mark(8, 1, 1 - op.val0 % 2), Mark(27, 1, (op.val0 / 2) % 2)]
  }

  /** One result register, in both fields. */
  function ResultMarks(op: Operand): seq<Mark> {
    var r := op.reg % 8 + if op.mode.An? then 8 else 0;
    [Mark(16, 4, r), Mark(28, 4, r)]
  }

  /** The mark, in the opcode words that start at `start`, sets bit k of the buffer. */
  predicate Sets(start: nat, f: Mark, k: int) {
    var pos := 8 * start + f.pos;
    f.size > 0 && 8 * (pos / 8) <= k < pos + f.size && Bit(f.val, pos + f.size - 1 - k)
  }

  ghost predicate Marked(start: nat, marks: seq<Mark>, k: int) {
    exists j :: 0 <= j < |marks| && Sets(start, marks[j], k)
  }

  /** All marks are inside n bits. */
  predicate Inside(marks: seq<Mark>, n: int) {
    forall j :: 0 <= j < |marks| ==> marks[j].pos + marks[j].size <= n
  }

  lemma MarkedConcat(start: nat, a: seq<Mark>, b: seq<Mark>, k: int)
    ensures Marked(start, a + b, k) <==> Marked(start, a, k) || Marked(start, b, k)
  {
    hide Sets;
    if j :| 0 <= j < |a| && Sets(start, a[j], k) { assert (a + b)[j] == a[j]; }
    if j :| 0 <= j < |b| && Sets(start, b[j], k) { assert (a + b)[|a| + j] == b[j]; }
    if j :| 0 <= j < |a + b| && Sets(start, (a + b)[j], k) {
      if j < |a| { assert Sets(start, a[j], k); } else { assert Sets(start, b[j - |a|], k); }
    }
  }

  /** Marks set no bit outside the opcode words. */
  lemma MarkedInside(start: nat, marks: seq<Mark>, n: int, k: int)
    requires Inside(marks, n) && Marked(start, marks, k)
    ensures 8 * start <= k < 8 * start + n
  {
  }

  lemma MarksInside(m: Mnemonic, i: nat, op: Operand)
    requires InTable(m) && i < |m.places|
    ensures Inside(PlaceMarks(m.places[i], op), 16 * OpWords(m))
  {
    assert Fits(m, m.places[i]);
  }

  lemma SizeInside(m: Mnemonic, ext: Ext)
    requires InTable(m)
    ensures Inside(SizeMarks(m, ext), 16 * OpWords(m))
  {
  }

  /** The bits of t with those of the marks or-ed in. */
  ghost predicate MarkedIn(t: seq<Byte>, t': seq<Byte>, start: nat, marks: seq<Mark>) {
    |t'| == |t| && forall k :: 0 <= k < 8 * |t| ==> (BitAt(t', k) <==> BitAt(t, k) || Marked(start, marks, k))
  }

  /** Writes the marks into the opcode words that start at `start`. */
  method Insert(buf: array<Byte>, start: nat, marks: seq<Mark>)
    requires Inside(marks, 8 * (buf.Length - start)) && start <= buf.Length
    modifies buf
    ensures MarkedIn(old(buf[..]), buf[..], start, marks)
  {
    hide BitAt, Bit;
    ghost var t := buf[..];
    var j := 0;
    while j < |marks|
      invariant 0 <= j <= |marks| && MarkedIn(t, buf[..], start, marks[..j])
    {
      ghost var u := buf[..];
      var f := marks[j];
      WriteVal(buf, 8 * start + f.pos, f.size, f.val);
      forall k | 0 <= k < 8 * |t| ensures BitAt(buf[..], k) <==> BitAt(t, k) || Marked(start, marks[..j + 1], k) {
        assert BitAt(u, k) <==> BitAt(t, k) || Marked(start, marks[..j], k);
        assert BitAt(buf[..], k) <==> BitAt(u, k) || Sets(start, f, k);
        assert marks[..j + 1] == marks[..j] + [f];
        MarkedConcat(start, marks[..j], [f], k);
        assert Marked(start, [f], k) <==> Sets(start, [f][0], k);
      }
      j := j + 1;
    }
    assert marks[..|marks|] == marks;
  }

  /** A buffer's bits are its bytes. */
  lemma SameBytes(a: seq<Byte>, b: seq<Byte>, i: nat)
    requires i < |a| == |b| && forall k :: 8 * i <= k < 8 * i + 8 ==> (BitAt(a, k) <==> BitAt(b, k))
    ensures a[i] == b[i]
  {
    assert Pow2(8) == 256;
    forall n | 0 <= n < 8 ensures Bit(a[i], n) == Bit(b[i], n) {
      var k := 8 * i + 7 - n;
      assert BitAt(a, k) <==> BitAt(b, k);
    }
    SameBits(a[i], b[i], 8);
  }
}
