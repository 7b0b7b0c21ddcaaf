/** The size of the code of an instruction list, computed and written
    (software/vasm/cpus/rf68000/cpu.c: oper_size, ip_size, iplist_size, write_ea_ext,
    write_branch, eval_instruction). The formats of the extension words are those of section 2 of
    the M68000 Family Programmer's Reference Manual. */
module CodeSize {
  import opened Bits
  import opened Fields
  import opened Operands
  import opened Banks

  // ----- the size computed

  function BranchSize(ext: Ext): nat {
    match ext case B | S => 0 case L => 4 case _ => 2
  }

  function ImmediateSize(ext: Ext): nat {
    match ext case B | W => 2 case L | S => 4 case Q | D => 8 case X | P => 12 case NoExt => 0
  }

  function OperSize(o: Optype, op: Operand, ext: Ext): nat {
    if NoSize(o) then 0
    else if op.mode.An16Disp? || op.mode.PC16Disp? || op.mode.AbsShort? then 2
    else if op.mode.AbsLong? then (if o.BR? then BranchSize(ext) else if o.DB? then 2 else 4)
    else if op.mode.Immediate? then ImmediateSize(ext)
    else if op.mode.An8Format? || op.mode.PC8Format? then
      if !op.usesFormat then 0
      else 2 + if Full(op.format) then BdBytes(op.format) + OdBytes(op.format) else 0
    else 0
  }

  function OperandsSize(m: Mnemonic, ops: seq<Operand>, ext: Ext, n: nat): nat
    requires n <= |ops| <= |m.types|
  {
    if n == 0 then 0 else OperandsSize(m, ops, ext, n - 1) + OperSize(m.types[n - 1], ops[n - 1], ext)
  }

  function IpSize(ip: Instruction): nat
    requires Valid(ip)
  {
    if ip.Deleted? then 0 else 2 * ip.m.words + OperandsSize(ip.m, ip.ops, ip.ext, |ip.ops|)
  }

  function IpListSize(ips: seq<Instruction>): nat
    requires forall i :: 0 <= i < |ips| ==> Valid(ips[i])
  {
    if ips == [] then 0 else IpSize(ips[0]) + IpListSize(ips[1..])
  }

  method SizeOfList(ips: seq<Instruction>) returns (size: nat)
    requires forall i :: 0 <= i < |ips| ==> Valid(ips[i])
    ensures size == IpListSize(ips)
  {
    hide OperSize, InTable, Allowed;
    size := 0;
    var k := 0;
    while k < |ips|
      invariant 0 <= k <= |ips| && size + IpListSize(ips[k..]) == IpListSize(ips)
    {
      assert ips[k..][1..] == ips[k + 1..];
      var ip := ips[k];
      if ip.Instruction? {
        size := size + 2 * ip.m.words;
        var i := 0;
        while i < |ip.ops|
          invariant 0 <= i <= |ip.ops|
          invariant size + IpListSize(ips[k..]) ==
            IpListSize(ips) + 2 * ip.m.words + OperandsSize(ip.m, ip.ops, ip.ext, i)
        {
          size := size + OperSize(ip.m.types[i], ip.ops[i], ip.ext);
          i := i + 1;
        }
      }
      k := k + 1;
    }
  }

  // ----- what the extension words hold

  /** What is written for an operand, or an error. */
  datatype Output = Bytes(s: seq<Byte>) | Error

  /** The lowest n bytes of v, the most significant one first. */
  function SetVal(n: nat, v: int): (s: seq<Byte>)
    ensures |s| == n
  {
    if n == 0 then [] else SetVal(n - 1, v / 0x100) + [v % 0x100]
  }

  /** An immediate operand; floating point encodings are given. */
  function ImmediateBytes(op: Operand, ext: Ext): Output
    requires |op.float| == 12
  {
    match ext
    case B =>
      if !op.extVal0 then Error
      else if !(-0x80 <= op.val0 <= 0xff) && !op.based then Bytes(SetVal(2, op.val0))
      else Bytes([0] + SetVal(1, op.val0))
    case W => if op.extVal0 || op.isHuge then Bytes(SetVal(2, op.val0)) else Error
    case L =>
      if op.extVal0 then Bytes(SetVal(4, op.val0))
      else if op.isFloat then Bytes(op.float[..4]) else Error
    case S => Bytes(op.float[..4])
    case D | Q => Bytes(op.float[..8])
    case X | P => Bytes(op.float)
    case NoExt => Bytes([])
  }

  /** A format word, with the displacements of a full one. */
  function FormatBytes(op: Operand): Output {
    if !op.usesFormat then Error
    else if Full(op.format) then
      Bytes(SetVal(2, op.format) + SetVal(BdBytes(op.format), op.val0) + SetVal(OdBytes(op.format), op.val1))
    else Bytes(SetVal(1, op.format / 0x100) + SetVal(1, op.val0))
  }

  /** The extension words of an effective address. */
  function EaBytes(op: Operand, ext: Ext): Output
    requires |op.float| == 12
  {
    match op.mode
    case Dn | An | AnIndir | AnPostInc | AnPreDec | Omitted => Bytes([])
    case An16Disp | PC16Disp | AbsShort => Bytes(SetVal(2, op.val0))
    case AbsLong => Bytes(SetVal(4, op.val0))
    case An8Format | PC8Format => FormatBytes(op)
    case Immediate => ImmediateBytes(op, ext)
    case _ => Error
  }

  /** The displacement of a branch; a short one goes into the opcode instead. A long DBcc falls
      back to a word. */
  function BranchBytes(diff: int, ext: Ext, m: Mnemonic, bcc: bool): Output {
    if !bcc && !ext.W? && !ext.L? then Error
    else
      match ext
      case B | S => Bytes([])
      case L => if !m.long then Error else if !DbrAtOne(m) then Bytes(SetVal(4, diff)) else Bytes(SetVal(2, Odd(diff)))
      case W => Bytes(SetVal(2, diff))
      case _ => Error
  }

  /** diff with its lowest bit set */
  function Odd(diff: int): int {
    if diff % 2 == 0 then diff + 1 else diff
  }

  /** An operand of a banked instruction is reduced to its base type first. */
  function Reduced(m: Mnemonic, o: Optype, op: Operand): Operand {
    if m.banked && op.mode.SpecReg? then
      op.(mode := if o.F_? then FPn else Dn, reg := InBank(op))
    else op
  }

  /** These insertion functions take a number, which must be absolute. */
  predicate Absolute(func: Func) {
    func.Ammx? || func.AccX? || func.AccXRev?
  }

  function OperandBytes(m: Mnemonic, i: nat, op: Operand, ext: Ext): Output
    requires i < |m.types| == |m.places| && |op.float| == 12
  {
    var r := Reduced(m, m.types[i], op);
    match m.places[i]
    case NOP => Bytes([])
    case NEA | SEA | MEA | BEA | KEA | REA | EAM => EaBytes(r, ext)
    case BRA => BranchBytes(r.val0, ext, m, true)
    case DBR => BranchBytes(r.val0, ext, m, false)
    case RegField(_, _) =>
      if r.mode in {Dn, An, AnIndir, AnPostInc, AnPreDec, An16Disp, An8Format, FPn} then Bytes([]) else Error
    case ValueField(_, _, _) => if op.based then Error else Bytes([])
    case FuncField(func) => if Absolute(func) && op.based then Error else Bytes([])
  }

  // ----- the sizes agree

  lemma EaAgrees(o: Optype, op: Operand, ext: Ext)
    requires |op.float| == 12 && !NoSize(o) && !o.BR? && !o.DB?
    ensures EaBytes(op, ext).Bytes? ==> |EaBytes(op, ext).s| == OperSize(o, op, ext)
  {
  }

  /** A displacement or an index for which only the register's number is written. */
  predicate Dropped(m: Mnemonic, i: nat, op: Operand)
    requires i < |m.types| == |m.places|
  {
    m.types[i].DA? && m.places[i].RegField? && (op.mode.An16Disp? || (op.mode.An8Format? && op.usesFormat))
  }

  /** What goes to each kind of place. */
  lemma FieldSize(o: Optype, p: Place, op: Operand, ext: Ext)
    requires Placed(o, p) && Allowed(o, op.mode) && (p.NOP? || p.ValueField? || p.FuncField?)
    ensures OperSize(o, op, ext) == 0
  {
  }

  lemma RegFieldSize(o: Optype, p: Place, op: Operand, ext: Ext)
    requires p.RegField? && Placed(o, p) && Allowed(o, op.mode) && !o.DA?
    ensures OperSize(o, op, ext) == 0
  {
  }

  lemma EaTypes(o: Optype, p: Place, a: AddrMode)
    requires Placed(o, p) && p in {NEA, SEA, MEA, BEA, KEA, REA, EAM}
    ensures !NoSize(o) && !o.BR? && !o.DB?
  {
  }

  lemma ReducedSize(m: Mnemonic, o: Optype, op: Operand, ext: Ext)
    requires !NoSize(o)
    ensures OperSize(o, Reduced(m, o, op), ext) == OperSize(o, op, ext) && Reduced(m, o, op).float == op.float
  {
  }

  lemma BranchAgrees(m: Mnemonic, o: Optype, op: Operand, ext: Ext, bcc: bool)
    requires (o.BR? && (m.long ==> !DbrAtOne(m))) || (o.DB? && DbrAtOne(m) && !bcc)
    requires op.mode.AbsLong?
    ensures var w := BranchBytes(op.val0, ext, m, bcc); w.Bytes? ==> |w.s| == OperSize(o, op, ext)
  {
  }

  /** What is written for an operand without an error is as long as was computed, for every
      operand type at every place it goes to; but for a memory operand with extension words where
      only a register is written. Never is more written than was computed. */
  lemma OperandAgrees(m: Mnemonic, i: nat, op: Operand, ext: Ext)
    requires InTable(m) && i < |m.types| && Allowed(m.types[i], op.mode) && |op.float| == 12
    ensures var w := OperandBytes(m, i, op, ext);
      w.Bytes? ==> |w.s| <= OperSize(m.types[i], op, ext)
                   && (|w.s| == OperSize(m.types[i], op, ext) <==> !Dropped(m, i, op))
  {
    hide Allowed, Placed, OperSize, EaBytes, BranchBytes, Reduced, NoSize;
    var o, p, r := m.types[i], m.places[i], Reduced(m, m.types[i], op);
    assert Placed(o, p);
    if p.NOP? || p.ValueField? || p.FuncField? {
      FieldSize(o, p, op, ext);
    } else if p in {BRA, DBR} {
      BranchFacts(m, i, op);
      BranchAgrees(m, o, op, ext, p.BRA?);
    } else if p.RegField? {
      if o.DA? { DataInRegField(m, i, op, ext); } else { RegFieldSize(o, p, op, ext); }
    } else {
      EaTypes(o, p, op.mode);
      ReducedSize(m, o, op, ext);
      EaAgrees(o, r, ext);
    }
  }

  lemma BranchFacts(m: Mnemonic, i: nat, op: Operand)
    requires InTable(m) && i < |m.types| && Allowed(m.types[i], op.mode) && m.places[i] in {BRA, DBR}
    ensures var o := m.types[i];
      && ((o.BR? && (m.long ==> !DbrAtOne(m))) || (o.DB? && DbrAtOne(m) && m.places[i].DBR?))
      && op.mode.AbsLong? && Reduced(m, o, op) == op
  {
    assert Placed(m.types[i], m.places[i]);
  }

  lemma DataInRegField(m: Mnemonic, i: nat, op: Operand, ext: Ext)
    requires InTable(m) && i < |m.types| && m.types[i].DA? && m.places[i].RegField? && Allowed(DA, op.mode)
    requires |op.float| == 12
    ensures var w := OperandBytes(m, i, op, ext);
      w.Bytes? ==> |w.s| == 0 && (OperSize(DA, op, ext) == 0 <==> !Dropped(m, i, op))
  {
  }
}
