/** Exactly which operands are written without an error
    (software/vasm/cpus/rf68000/cpu.c: write_branch, write_ea_ext, eval_instruction). */
module EncodingErrors {
  import opened Fields
  import opened Operands
  import opened CodeSize
  import opened Extensions
  import opened Encoder

  /** An effective address is written unless it is a register of a special kind or a list, an index
      mode without its format word, or an immediate without a number of the kind its size takes. */
  lemma EaWritten(op: Operand, ext: Ext)
    requires |op.float| == 12
    ensures EaBytes(op, ext).Bytes? <==>
      match op.mode
      case RnList | FPnList | FPn | SpecReg => false
      case An8Format | PC8Format => op.usesFormat
      case Immediate =>
        (match ext
         case B => op.extVal0
         case W => op.extVal0 || op.isHuge
         case L => op.extVal0 || op.isFloat
         case _ => true)
      case _ => true
  {
  }

  /** A branch is written if there is a displacement of the size asked for that reaches the label. A
      byte reaches from -128 to 127, but not 0, nor -1 where that means a long word; on Apollo
      processors also from -256 to -131 and from 128 to 254. A word reaches from -32768 to 32767, also
      for a long DBcc, whose displacement is made odd; external labels are left to the linker. */
  lemma BranchWritten(ip: Instruction, i: nat, apollo: bool)
    requires Valid(ip) && ip.Instruction? && i < |ip.ops| && i < |ip.m.places|
    requires ip.m.places[i].BRA? || ip.m.places[i].DBR?
    ensures var op := ip.ops[i]; var diff, m := op.val0, ip.m;
      Encodable(ip, i, apollo) <==>
        match ip.ext
        case B | S =>
          && ip.m.places[i].BRA?
          && (|| op.external
              || (-128 <= diff <= 127 && diff != 0 && !(diff == -1 && m.long))
              || (apollo && (-256 <= diff <= -131 || 128 <= diff <= 254)))
        case W => op.external || -32768 <= diff <= 32767
        case L =>
          && m.long
          && (ip.m.places[i].DBR? && i == 1 && !op.external ==>
                -32768 <= (if diff % 2 == 0 then diff + 1 else diff) <= 32767)
        case _ => false
  {
    hide Allowed, Valid, InTable;
    OperandFacts(ip, i);
    BranchFacts(ip.m, i, ip.ops[i]);
    LoopPlace(ip, i);
  }

  /** DBcc has its displacement as second operand, and a branch is alone. */
  lemma LoopPlace(ip: Instruction, i: nat)
    requires Valid(ip) && ip.Instruction? && i < |ip.ops| && i < |ip.m.places|
    requires ip.m.places[i].BRA? || ip.m.places[i].DBR?
    ensures if ip.m.places[i].BRA? then !DbrAtOne(ip.m) else i == 1 ==> DbrAtOne(ip.m)
    ensures ip.m.places[i].DBR? && DbrAtOne(ip.m) && ip.m.long ==> i == 1
  {
    assert Fits(ip.m, ip.m.places[i]) && Placed(ip.m.types[i], ip.m.places[i]);
  }

  /** At the other places numbers must be absolute, and a register field takes a register. */
  lemma OperandWritten(ip: Instruction, i: nat, apollo: bool)
    requires Valid(ip) && ip.Instruction? && i < |ip.ops| && i < |ip.m.places| && i < |ip.m.types|
    requires |Reduced(ip.m, ip.m.types[i], ip.ops[i]).float| == 12
    ensures var p, r := ip.m.places[i], Reduced(ip.m, ip.m.types[i], ip.ops[i]);
      var ok := Encodable(ip, i, apollo);
      && (p.NOP? ==> ok)
      && (p.ValueField? ==> (ok <==> !ip.ops[i].based))
      && (p.FuncField? ==> (ok <==> !(ip.ops[i].based && (p.func.Ammx? || p.func.AccX? || p.func.AccXRev?))))
      && (p.RegField? ==> (ok <==> r.mode in {Dn, An, AnIndir, AnPostInc, AnPreDec, An16Disp, An8Format, FPn}))
      && (p.NEA? || p.SEA? || p.MEA? || p.BEA? || p.KEA? || p.REA? || p.EAM? ==> (ok <==> EaBytes(r, ip.ext).Bytes?))
  {
    hide Allowed, Valid, InTable, EaBytes;
    OperandFacts(ip, i);
  }
}
