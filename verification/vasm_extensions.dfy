/** Writing the words behind an opcode
    (software/vasm/cpus/rf68000/cpu.c: write_branch, write_ea_ext). */
module Extensions {
  import opened Bits
  import opened Fields
  import opened Operands
  import opened CodeSize

  /** t with s written over it from d on. */
  function Patch(t: seq<Byte>, d: nat, s: seq<Byte>): seq<Byte>
    requires d + |s| <= |t|
  {
    t[..d] + s + t[d + |s|..]
  }

  lemma PatchTwice(t: seq<Byte>, d: nat, s: seq<Byte>, s': seq<Byte>)
    requires d + |s| + |s'| <= |t|
    ensures Patch(Patch(t, d, s), d + |s|, s') == Patch(t, d, s + s')
  {
  }

  /** The bytes s at d. */
  method Put(buf: array<Byte>, d: nat, s: seq<Byte>) returns (d': nat)
    requires d + |s| <= buf.Length
    modifies buf
    ensures d' == d + |s| && buf[..] == Patch(old(buf[..]), d, s)
  {
    ghost var t := buf[..];
    var i := 0;
    while i < |s|
      invariant 0 <= i <= |s| && buf[..] == Patch(t, d, s[..i])
    {
      buf[d + i] := s[i];
      i := i + 1;
    }
    assert s[..|s|] == s;
    d' := d + |s|;
  }

  /** Write what the operand's addressing mode needs behind the opcode. */
  method WriteEaExt(buf: array<Byte>, d: nat, op: Operand, ext: Ext) returns (ok: bool, d': nat)
    requires |op.float| == 12 && d <= buf.Length
    requires EaBytes(op, ext).Bytes? ==> d + |EaBytes(op, ext).s| <= buf.Length
    modifies buf
    ensures ok == EaBytes(op, ext).Bytes?
    ensures if ok then d' == d + |EaBytes(op, ext).s| && buf[..] == Patch(old(buf[..]), d, EaBytes(op, ext).s)
            else d' == d && buf[..] == old(buf[..])
  {
    ok, d' := true, d;
    ghost var t := buf[..];
    assert Patch(t, d, []) == t;
    match op.mode {
      case An16Disp | PC16Disp | AbsShort => d' := Put(buf, d, SetVal(2, op.val0));
      case AbsLong => d' := Put(buf, d, SetVal(4, op.val0));
      case An8Format | PC8Format => ok, d' := WriteFormat(buf, d, op);
      case Immediate => ok, d' := WriteImmediate(buf, d, op, ext);
      case Dn | An | AnIndir | AnPostInc | AnPreDec | Omitted =>
      case _ => ok := false;
    }
  }

  method WriteFormat(buf: array<Byte>, d: nat, op: Operand) returns (ok: bool, d': nat)
    requires FormatBytes(op).Bytes? ==> d + |FormatBytes(op).s| <= buf.Length
    modifies buf
    ensures ok == FormatBytes(op).Bytes?
    ensures if ok then d' == d + |FormatBytes(op).s| && buf[..] == Patch(old(buf[..]), d, FormatBytes(op).s)
            else d' == d && buf[..] == old(buf[..])
  {
    hide Patch, SetVal;
    ghost var t := buf[..];
    ok, d' := op.usesFormat, d;
    if !ok {
      return;
    }
    if Full(op.format) {
      d' := Put(buf, d', SetVal(2, op.format));
      var bd, od := BdBytes(op.format), OdBytes(op.format);
      ghost var a, b, c := SetVal(2, op.format), SetVal(bd, op.val0), SetVal(od, op.val1);
      PatchTwice(t, d, a, b);
      d' := Put(buf, d', SetVal(bd, op.val0));
      assert buf[..] == Patch(t, d, a + b);
      PatchTwice(t, d, a + b, c);
      assert |a + b| == 2 + bd;
      d' := Put(buf, d', SetVal(od, op.val1));
    } else {
      PatchTwice(t, d, SetVal(1, op.format / 0x100), SetVal(1, op.val0));
      d' := Put(buf, d', SetVal(1, op.format / 0x100));
      d' := Put(buf, d', SetVal(1, op.val0));
    }
  }

  method WriteImmediate(buf: array<Byte>, d: nat, op: Operand, ext: Ext) returns (ok: bool, d': nat)
    requires |op.float| == 12 && d <= buf.Length
    requires ImmediateBytes(op, ext).Bytes? ==> d + |ImmediateBytes(op, ext).s| <= buf.Length
    modifies buf
    ensures ok == ImmediateBytes(op, ext).Bytes?
    ensures if ok then
              && d' == d + |ImmediateBytes(op, ext).s|
              && buf[..] == Patch(old(buf[..]), d, ImmediateBytes(op, ext).s)
            else d' == d && buf[..] == old(buf[..])
  {
    ghost var t := buf[..];
    assert Patch(t, d, []) == t;
    ok, d' := true, d;
    match ext {
      case B =>
        if op.extVal0 {
          if !(-0x80 <= op.val0 <= 0xff) && !op.based {
            d' := Put(buf, d, SetVal(2, op.val0));
          } else {
            PatchTwice(t, d, [0], SetVal(1, op.val0));
            d' := Put(buf, d, [0]);
            d' := Put(buf, d', SetVal(1, op.val0));
          }
        } else {
          ok := false;
        }
      case W =>
        if op.extVal0 || op.isHuge {
          d' := Put(buf, d, SetVal(2, op.val0));
        } else {
          ok := false;
        }
      case L =>
        if op.extVal0 {
          d' := Put(buf, d, SetVal(4, op.val0));
        } else if op.isFloat {
          d' := Put(buf, d, op.float[..4]);
        } else {
          ok := false;
        }
      case S => d' := Put(buf, d, op.float[..4]);
      case D | Q => d' := Put(buf, d, op.float[..8]);
      case X | P => d' := Put(buf, d, op.float);
      case NoExt =>
    }
  }

  /** Whether a displacement of one byte reaches its label. For an external label no range is
      checked; the Apollo processors make use of odd displacements to reach twice as far. */
  predicate Reaches(diff: int, m: Mnemonic, external: bool, apollo: bool) {
    || external
    || (-0x80 <= diff <= 0x7f && diff != 0 && (diff != -1 || !m.long))
    || (apollo && (0x80 <= diff <= 0xfe || -0x100 <= diff < -0x82))
  }

  /** Whether a displacement of the size asked for does. */
  predicate InReach(diff: int, ext: Ext, m: Mnemonic, external: bool, apollo: bool) {
    match ext
    case B | S => Reaches(diff, m, external, apollo)
    case W => external || -0x8000 <= diff <= 0x7fff
    case _ => DbrAtOne(m) ==> external || -0x8000 <= Odd(diff) <= 0x7fff
  }

  /** The byte of such a displacement; that of an external label counts from the byte itself. */
  function ShortByte(diff: int, external: bool): Byte {
    if external then (diff - 1) % 0x100
    else if -0x80 <= diff <= 0x7f then diff % 0x100
    else if diff > 0 then Odd((diff - 0x80) % 0x100)
    else Odd((diff + 0x80) % 0x100)
  }

  /** The last byte of a branch's opcode. */
  function BranchByte(diff: int, ext: Ext, m: Mnemonic, external: bool): Byte {
    if ext.B? || ext.S? then ShortByte(diff, external) else if ext.L? && !DbrAtOne(m) then 0xff else 0
  }

  /** A displacement of one byte, in the opcode. */
  method WriteShort(buf: array<Byte>, d: nat, diff: int, m: Mnemonic, external: bool, apollo: bool) returns (ok: bool)
    requires 0 < d <= buf.Length
    modifies buf
    ensures ok == Reaches(diff, m, external, apollo)
    ensures buf[..] == if ok then old(buf[..])[d - 1 := ShortByte(diff, external)] else old(buf[..])
  {
    ok := true;
    if external {
      buf[d - 1] := (diff - 1) % 0x100;
    } else if -0x80 <= diff <= 0x7f && diff != 0 && (diff != -1 || !m.long) {
      buf[d - 1] := diff % 0x100;
    } else if apollo && 0x80 <= diff <= 0xfe {
      buf[d - 1] := Odd((diff - 0x80) % 0x100);
    } else if apollo && -0x100 <= diff < -0x82 {
      buf[d - 1] := Odd((diff + 0x80) % 0x100);
    } else {
      ok := false;
    }
  }

  /** A branch, without an error if and only if there is a displacement of the size asked for that
      reaches the label. */
  method WriteBranch(buf: array<Byte>, d: nat, diff: int, ext: Ext, m: Mnemonic, bcc: bool, external: bool,
                     apollo: bool)
    returns (ok: bool, d': nat)
    requires 0 < d <= buf.Length
    requires BranchBytes(diff, ext, m, bcc).Bytes? ==> d + |BranchBytes(diff, ext, m, bcc).s| <= buf.Length
    modifies buf
    ensures ok <==> BranchBytes(diff, ext, m, bcc).Bytes? && InReach(diff, ext, m, external, apollo)
    ensures if ok then
        && d' == d + |BranchBytes(diff, ext, m, bcc).s|
        && buf[..] == Patch(if bcc then old(buf[..])[d - 1 := BranchByte(diff, ext, m, external)] else old(buf[..]),
                            d, BranchBytes(diff, ext, m, bcc).s)
      else d' == d && buf[..] == old(buf[..])
  {
    ok, d' := false, d;
    if !bcc && !ext.W? && !ext.L? {
      return;
    }
    if ext.B? || ext.S? {
      ok := WriteShort(buf, d, diff, m, external, apollo);
      assert Patch(buf[..], d, []) == buf[..];
    } else if ext.L? && m.long && !DbrAtOne(m) {
      if bcc {
        buf[d - 1] := 0xff;
      }
      d' := Put(buf, d, SetVal(4, diff));
      ok := true;
    } else if ext.W? || (ext.L? && m.long) {
      var disp := if ext.L? then Odd(diff) else diff;
      if external || -0x8000 <= disp <= 0x7fff {
        if bcc {
          buf[d - 1] := 0;
        }
        d' := Put(buf, d, SetVal(2, disp));
        ok := true;
      }
    }
  }
}
