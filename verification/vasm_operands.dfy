/** Operand types and the places that operands go to in the code
    (software/vasm/cpus/rf68000/operands.h and opcodes.h). */
module Operands {
  import opened Fields

  /** The addressing modes, in the order of the bits of an operand type; an omitted optional
      operand has none. */
  datatype AddrMode =
    | Dn | An | AnIndir | AnPostInc | AnPreDec | An16Disp | An8Format | AbsShort | AbsLong
    | PC16Disp | PC8Format | Immediate | RnList | FPnList | FPn | SpecReg | Omitted

  /** Operand types; Special stands for each type that is one special register or a range of them
      (_CCR to _TT, SH, VX, VXR2, VXR4), OVX for the optional one. */
  datatype Optype =
    | D_ | A_ | B_ | AI | IB | R_ | RM | DD | CS | VR2 | VB2 | VDR2 | VDR4 | PA | AP | DP
    | F_ | FF | FR | FPIAR | IM | IQ | QI | IR | BR | DB | AB | VA | M6 | RL | FL | FS
    | AY | AM | MA | MI | FA | CF | MAQ | CFAM | CM | AL | DA | DN | DI | CFDA | CT | AC | AD | CFAD
    | BD | BS | AK | MS | MR | CFMM | CFMN | ND | NI | NJ | NK | BY | BI | BJ | OF_ | OVX | Special

  /** Memory operands without registers, immediates and lists: modes 2 to 6 and 7.0 to 7.3. */
  predicate Memory(a: AddrMode) {
    a in {AnIndir, AnPostInc, AnPreDec, An16Disp, An8Format, AbsShort, AbsLong, PC16Disp, PC8Format}
  }

  predicate PcRelative(a: AddrMode) {
    a.PC16Disp? || a.PC8Format?
  }

  predicate Simple(a: AddrMode) {
    a in {AnIndir, AnPostInc, AnPreDec, An16Disp}
  }

  /** The bit masks of the operand types. */
  predicate Allowed(o: Optype, a: AddrMode) {
    match o
    case D_ | DD | VDR2 | VDR4 => a.Dn?
    case A_ | B_ | VB2 => a.An?
    case AI | IB | CS => a.AnIndir?
    case R_ | RM | VR2 => a.Dn? || a.An?
    case PA => a.AnPreDec?
    case AP => a.AnPostInc?
    case DP | CFMM => a.AnIndir? || a.An16Disp?
    case F_ | FF | FR | FPIAR => a.FPn?
    case OF_ => a.FPn? || a.Omitted?
    case OVX => a.SpecReg? || a.Omitted?
    case Special => a.SpecReg?
    case IM | IQ | QI | IR => a.Immediate?
    case BR | DB | AB | VA => a.AbsLong?
    case M6 => a.An8Format?
    case RL => a.RnList?
    case FL | FS => a.FPnList?
    case AY | BY => a.Dn? || a.An? || Memory(a) || a.Immediate?
    case AM | AK => Memory(a) && !PcRelative(a)
    case MA | FA | MAQ => Memory(a) || a.Immediate?
    case MI | BJ => Memory(a)
    case CF => Simple(a) || a.PC16Disp?
    case CFAM | CM => Simple(a)
    case AL => a.Dn? || a.An? || (Memory(a) && !PcRelative(a))
    case DA => a.Dn? || Memory(a) || a.Immediate?
    case DN | NK => a.Dn? || Memory(a)
    case DI => a.Dn? || a.Immediate?
    case CFDA => a.Dn? || Simple(a) || a.PC16Disp?
    case CT => Memory(a) && !a.AnPostInc? && !a.AnPreDec?
    case AC => Memory(a) && !a.AnPostInc? && !a.AnPreDec? && !PcRelative(a)
    case AD => a.Dn? || (Memory(a) && !PcRelative(a))
    case CFAD => a.Dn? || Simple(a)
    case BD => a.Dn? || (Memory(a) && !a.AnPostInc? && !a.AnPreDec? && !PcRelative(a))
    case BS => a.Dn? || (Memory(a) && !a.AnPostInc? && !a.AnPreDec?)
    case MS => Memory(a) && !a.AnPostInc? && !PcRelative(a)
    case MR => Memory(a) && !a.AnPreDec?
    case CFMN => a.AnIndir? || a.An16Disp? || a.PC16Disp?
    case ND | NJ => a.An? || Memory(a)
    case NI | BI => a.Dn? || a.An? || Memory(a)
  }

  /** OTF_NOSIZE, OTF_BRANCH, OTF_DBRA and OTF_OPT */
  predicate NoSize(o: Optype) {
    o.QI? || o.IR? || o.VA?
  }

  predicate Optional(o: Optype) {
    o.OF_? || o.OVX?
  }

  /** What becomes of a number before it is written: nothing; 2^size and 0 change places; -1 and 0
      change places; its bits are reversed. */
  datatype Rule = AsIs | Mask | ThreeQ | Reversed

  /** What the insertion functions write: a vector register, with its highest bit at `top`; the two
      registers of CAS2; the result registers of long multiplications and divisions; those of table
      lookups, of one-operand and of sine-and-cosine floating point instructions; a factor of MAC,
      with its half at `half`; an accumulator, or one with its lower bit inverted. */
  datatype Func =
    | Ammx(pos: nat, top: nat) | Cas2(size: nat, pos: nat) | MulDivL | DivL | Tbl | Fp | FpCs
    | MacReg(pos: nat, half: nat) | AccX | AccXRev

  /** Where operands go; RegField, ValueField and FuncField stand for the places that write a
      register number, a number or something special into the opcode words, and nothing else. */
  datatype Place =
    | NOP | NEA | SEA | MEA | BEA | KEA | REA | EAM | BRA | DBR
    | RegField(size: nat, pos: nat) | ValueField(size: nat, pos: nat, rule: Rule) | FuncField(func: Func)

  /** The operand types that go to each place in the table of mnemonics. */
  predicate Placed(o: Optype, p: Place) {
    match p
    case NOP => Optional(o) || o.Special?
    case NEA => o in {AB, IM}
    case SEA => o in {AC, AD, AL, AM, AY, A_, BI, BJ, BY, CF, CFAD, CFAM, CFDA, CFMM, CFMN, CT, DA, DI, DN, D_,
                      FA, IM, IQ, M6, MA, MAQ, MI, MR, MS, ND, NI, NJ, NK, PA, R_, Special}
    case MEA => o in {AD, AL, NI, NK, Special}
    case BEA => o in {BD, BS}
    case KEA => o.AK?
    case REA => o.DP?
    case EAM => o.CM?
    case BRA => o.BR?
    case DBR => o.BR? || o.DB?
    case RegField(_, _) => o in {AI, AP, A_, B_, DA, D_, FPIAR, FR, F_, IB, PA, R_, Special, VB2, VDR2, VDR4, VR2}
    case ValueField(_, _, _) => o in {FL, FS, IR, QI, RL, Special, VA}
    case FuncField(_) => o in {CS, DD, D_, FF, F_, RM, R_, Special}
  }

  /** Size extensions of mnemonics. */
  datatype Ext = NoExt | B | W | L | S | D | Q | X | P

  /** How the size extension goes into the opcode. */
  datatype SizeMode =
    | S_NONE | S_STD | S_STD1 | S_HI | S_CAS | S_MOVE | S_WL8 | S_LW7 | S_WL6 | S_TRAP | S_EXT | S_FP
    | S_MAC | S_AMMX | S_TEX

  /** A mnemonic: its operand types and places, the number of its opcode words including a bank
      prefix, whether it has one, whether it has a long size or any, how that is written, and the
      opcode, with the number of the coprocessor if it is for one. */
  datatype Mnemonic = Mnemonic(types: seq<Optype>, places: seq<Place>, words: nat, banked: bool, long: bool,
                               sized: bool, mode: SizeMode, opcode0: int, opcode1: int)

  const MAX_OPERANDS := 6

  /** What the table of mnemonics keeps to. */
  predicate InTable(m: Mnemonic) {
    && |m.types| == |m.places| <= MAX_OPERANDS
    && 1 <= m.words <= 3
    && (forall i :: 0 <= i < |m.types| ==> Placed(m.types[i], m.places[i]))
    && (m.banked ==> m.words >= 2 && |m.types| <= 3 && (|m.types| == 3 ==> Optional(m.types[2]) && m.places[2].NOP?))
    && (forall i :: 0 <= i < |m.types| ==>
          && (m.types[i].DB? ==> i == 1)
          && (m.types[i].BR? && m.long ==> !DbrAtOne(m)))
    && (forall i :: 0 <= i < |m.places| ==> Fits(m, m.places[i]))
    && OpWords(m) >= (match m.mode case S_EXT | S_FP | S_MAC => 2 case S_TEX => 3 case _ => 1)
  }

  /** The opcode words behind the bank prefix. */
  function OpWords(m: Mnemonic): int {
    if m.banked then m.words - 1 else m.words
  }

  /** All that an operand writes into the opcode is inside the opcode words; a branch has one
      opcode word, in whose lower byte nothing else is written. */
  predicate Fits(m: Mnemonic, p: Place) {
    match p
    case RegField(size, pos) => pos + size <= 16 * OpWords(m)
    case ValueField(size, pos, rule) => pos + size <= 16 * OpWords(m)
    case BEA | KEA | EAM => OpWords(m) >= 2
    case FuncField(func) => FuncFits(func, OpWords(m))
    case BRA => |m.places| == 1 && m.words == 1 && !m.banked && m.mode.S_NONE?
    case _ => true
  }

  predicate DbrAtOne(m: Mnemonic) {
    |m.places| > 1 && m.places[1].DBR?
  }

  predicate FuncFits(func: Func, words: int) {
    match func
    case Ammx(pos, top) => pos + 4 <= 16 * words && top < 16
    case Cas2(size, pos) => words >= 3 && size <= 4 && 16 <= pos && pos + size <= 32
    case MacReg(pos, half) => words >= 2 && pos + 4 <= 32 && 24 <= half < 32
    case _ => words >= 2
  }

  /** A number that is written to `size` bits of the opcode words, from bit pos on. */
  datatype Mark = Mark(pos: nat, size: nat, val: int)

  /** An operand: its register, the numbers that its extension words hold, and what the source
      knows of it; external tells that a branch goes to a label that is not known yet. A bitfield's
      offset and width also stand for a k-factor and for the flags of a MAC operand; two registers are
      packed into one number. The encoding of a floating point immediate is given as its bytes; isHuge
      tells of a 64-bit number on an Apollo processor. */
  datatype Operand = Operand(mode: AddrMode, reg: nat, usesFormat: bool, format: nat, val0: int, val1: int,
                             extVal0: bool, based: bool, external: bool, float: seq<Byte>, isFloat: bool, isHuge: bool,
                             bfOffset: nat, bfWidth: nat, dynOffset: bool, dynWidth: bool, doubleReg: bool)

  /** A full format word, and the sizes of the base and outer displacements that it asks for. */
  predicate Full(format: nat) {
    (format / 0x100) % 2 == 1
  }

  function DispBytes(code: nat): nat {
    if code % 4 == 2 then 2 else if code % 4 == 3 then 4 else 0
  }

  function BdBytes(format: nat): nat {
    DispBytes(format / 0x10)
  }

  function OdBytes(format: nat): nat {
    DispBytes(format)
  }

  /** An instruction; one with a negative code was deleted by the optimizer. */
  datatype Instruction = Deleted | Instruction(m: Mnemonic, ext: Ext, ops: seq<Operand>)

  predicate Valid(ip: Instruction) {
    ip.Instruction? ==>
      && InTable(ip.m) && |ip.ops| <= |ip.m.types|
      && forall i :: 0 <= i < |ip.ops| ==> Allowed(ip.m.types[i], ip.ops[i].mode) && |ip.ops[i].float| == 12
  }
}
