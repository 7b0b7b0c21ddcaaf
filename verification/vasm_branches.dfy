/** Reading branches back: how a processor takes the displacement of Bcc, DBcc and the coprocessor
    branches (section 4 of the M68000 Family Programmer's Reference Manual). */
module BranchDecoder {
  import opened Division
  import opened Bits
  import opened Fields
  import opened Operands
  import opened CodeSize
  import opened Opcodes
  import opened Extensions
  import opened Encoder
  import opened Decoder
  import opened Disassembler

  datatype Branch = NoBranch | Branch(disp: int, length: nat)

  function DecodeDisp(s: seq<Byte>, n: nat): Branch {
    if |s| < n then NoBranch else Branch(SignedNumber(s[..n]), n)
  }

  /** Bcc: the last byte of the opcode is the displacement, unless it is 0, for a word that follows,
      or 0xff on processors with long branches, for a long word that follows. */
  function DecodeBcc(last: Byte, long: bool, s: seq<Byte>): Branch {
    if last == 0 then DecodeDisp(s, 2)
    else if last == 0xff && long then DecodeDisp(s, 4)
    else Branch(SignedNumber([last]), 0)
  }

  /** An odd displacement of one byte reaches twice as far on Apollo processors. */
  function ApolloReach(disp: int): int {
    if disp % 2 == 0 then disp else if disp > 0 then disp + 0x7f else disp - 0x81
  }

  lemma OneByte(b: Byte)
    ensures SignedNumber([b]) == if b < 0x80 then b else b - 0x100
  {
    assert [b][..0] == [] && [b][..|[b]| - 1] == [];
    assert Number([b]) == Number([]) * 0x100 + b;
    NumberNone();
    SmallPowers();
  }

  /** The opcode word of a branch, to the byte. */
  lemma BranchBytesBack(s: seq<Byte>, d: nat, ip: Instruction)
    requires Valid(ip) && ip.Instruction? && |ip.ops| == 1 && IsBranch(ip) && IsCode(s, d, ip, 1)
    requires |ip.m.places| == 1
    ensures ip.m.places[0].BRA? && ip.m.words == 1 && !ip.m.banked && ExtBytes(ip, 0) == []
    ensures d + 2 <= |s| && s[d] == (ip.m.opcode0 / 0x100) % 0x100
    ensures s[d + 1] == BranchByte(ip.ops[0].val0, ip.ext, ip.m, ip.ops[0].external)
  {
    hide Bit, Sets, InTable, Allowed, BranchByte, ExtBytes, Fits;
    BranchAlone(ip, 0);
    NothingMarked(ip);
    Words(ip);
    var first := FirstBytes(ip, 1);
    SetValTwo(ip.m.opcode0);
    forall i | 0 <= i < 2 ensures s[d + i] == first[i] {
      SmallPowers();
      forall n | 0 <= n < 8 ensures Bit(s[d + i], n) == Bit(first[i], n) {
        var k := 8 * (d + i) + 7 - n;
        assert BitAt(s, k) <==> BitAt(first, k - 8 * d) || Marked(d + Prefix(ip.m), AllMarks(ip, 1), k);
        assert (k - 8 * d) / 8 == i && k / 8 == d + i && k % 8 == 7 - n && (k - 8 * d) % 8 == 7 - n;
      }
      SameBits(s[d + i], first[i], 8);
    }
    assert s[d + 0] == first[0] && first[0] == SetVal(2, ip.m.opcode0)[0];
    assert s[d + 1] == first[1] && |OpcodeBytes(ip)| == 2;
  }

  lemma SetValTwo(v: int)
    ensures SetVal(2, v) == [(v / 0x100) % 0x100, v % 0x100]
  {
    assert SetVal(2, v) == SetVal(1, v / 0x100) + [v % 0x100];
    assert SetVal(1, v / 0x100) == SetVal(0, v / 0x100 / 0x100) + [(v / 0x100) % 0x100];
  }

  /** A branch to a known label that is written without an error reads back as its displacement: a
      word always, a long word if and only if it fits, a byte in its own range. In the range that only
      Apollo processors have, the byte read is odd and reaches the label if and only if the distance
      is even. For an external label the byte is a place for the linker. */
  lemma BranchReadsBack(s: seq<Byte>, d: nat, ip: Instruction, apollo: bool)
    requires Valid(ip) && ip.Instruction? && |ip.ops| == 1 && |ip.m.places| == 1 && ip.m.places[0].BRA?
    requires IsCode(s, d, ip, 1) && Encodable(ip, 0, apollo)
    ensures d + 2 <= |s| && s[d] == (ip.m.opcode0 / 0x100) % 0x100
    ensures var diff := ip.ops[0].val0; var b := DecodeBcc(s[d + 1], ip.m.long, s[d + 2..]);
      && (ip.ext.W? ==> b.Branch? && b.length == 2 && (b.disp == diff <==> -0x8000 <= diff <= 0x7fff))
      && (ip.ext.W? && !ip.ops[0].external ==> b.disp == diff)
      && (ip.ext.L? ==> b.Branch? && b.length == 4 && (b.disp == diff <==> -0x8000_0000 <= diff <= 0x7fff_ffff))
      && ((ip.ext.B? || ip.ext.S?) && ip.ops[0].external ==> s[d + 1] == (diff - 1) % 0x100)
      && ((ip.ext.B? || ip.ext.S?) && !ip.ops[0].external ==>
            && b.Branch? && b.length == 0
            && (-0x80 <= diff <= 0x7f ==> b.disp == diff)
            && (!(-0x80 <= diff <= 0x7f) ==>
                  apollo && b.disp % 2 == 1 && (ApolloReach(b.disp) == diff <==> diff % 2 == 0)))
  {
    hide IsCode, InTable, Allowed, SignedNumber, InWidth, SetVal, DispLength, Fits, ExtBytes, Valid, ShortByte;
    var op, m := ip.ops[0], ip.m;
    OperandFacts(ip, 0);
    BranchAlone(ip, 0);
    BranchBytesBack(s, d, ip);
    NotLong(ip);
    if ip.ext.B? || ip.ext.S? {
      ShortBack(op.val0, m, op.external, apollo);
    } else {
      ExtAt(s, d, ip, 0, 1);
      SignedBack(2, op.val0);
      SignedBack(4, op.val0);
      WidthBounds(op.val0);
      LongBounds(op.val0);
      assert s[d + 2..][..|OperandBytes(m, 0, op, ip.ext).s|] == OperandBytes(m, 0, op, ip.ext).s;
    }
  }

  /** A displacement of one byte. */
  lemma ShortBack(diff: int, m: Mnemonic, external: bool, apollo: bool)
    requires Reaches(diff, m, external, apollo)
    ensures var b := ShortByte(diff, external);
      if external then b == (diff - 1) % 0x100
      else
        && b != 0 && (b == 0xff ==> !m.long)
        && (-0x80 <= diff <= 0x7f ==> SignedNumber([b]) == diff)
        && (!(-0x80 <= diff <= 0x7f) ==>
              apollo && SignedNumber([b]) % 2 == 1 && (ApolloReach(SignedNumber([b])) == diff <==> diff % 2 == 0))
  {
    hide SignedNumber;
    OneByte(ShortByte(diff, external));
  }

  lemma LongBounds(v: int)
    ensures InWidth(v, 4) <==> -0x8000_0000 <= v <= 0x7fff_ffff
  {
    SmallPowers();
    Pow2Sum(8, 7);
    Pow2Sum(8, 15);
    Pow2Sum(8, 23);
  }

  /** A branch is its instruction's only operand, so it is no DBcc. */
  lemma NotLong(ip: Instruction)
    requires Valid(ip) && ip.Instruction? && |ip.m.places| == 1
    ensures !DbrAtOne(ip.m)
  {
  }

  /** What a processor that has no displacement in the opcode reads. */
  function LoopDisp(s: seq<Byte>, at: nat, long: bool): Branch {
    if at <= |s| then DecodeDisp(s[at..], if long then 4 else 2) else NoBranch
  }

  /** The displacement of DBcc is a word, also where a long one is asked for: then its lowest bit is
      set, so that it reads back if and only if it is odd. That of a coprocessor branch is a word or a
      long word, and reads back if and only if it fits. */
  lemma LoopBranchReadsBack(s: seq<Byte>, d: nat, ip: Instruction, i: nat, n: nat, apollo: bool)
    requires Valid(ip) && ip.Instruction? && i < n <= |ip.ops| && IsCode(s, d, ip, n)
    requires ip.m.places[i].DBR? && Encodable(ip, i, apollo)
    ensures var diff := ip.ops[i].val0; var loop := DbrAtOne(ip.m);
      var b := LoopDisp(s, ExtPlace(d, ip, i), ip.ext.L? && !loop);
      && b.Branch? && (ip.ext.W? || ip.ext.L?)
      && (ip.ext.W? ==> (b.disp == diff <==> -0x8000 <= diff <= 0x7fff))
      && (ip.ext.W? && !ip.ops[i].external ==> b.disp == diff)
      && (ip.ext.L? && !loop ==> (b.disp == diff <==> -0x8000_0000 <= diff <= 0x7fff_ffff))
      && (ip.ext.L? && loop && !ip.ops[i].external ==> b.disp == if diff % 2 == 0 then diff + 1 else diff)
  {
    hide IsCode, InTable, Allowed, SignedNumber, InWidth, SetVal, DispLength, Fits, ExtBytes, Valid;
    var diff, m := ip.ops[i].val0, ip.m;
    OperandFacts(ip, i);
    BranchPlace(ip, i);
    Words(ip);
    ExtAt(s, d, ip, i, n);
    var at := ExtPlace(d, ip, i);
    var w := OperandBytes(m, i, ip.ops[i], ip.ext).s;
    assert s[at..][..|w|] == w;
    SignedBack(2, diff);
    SignedBack(2, Odd(diff));
    SignedBack(4, diff);
    WidthBounds(diff);
    WidthBounds(Odd(diff));
    LongBounds(diff);
  }

  lemma BranchPlace(ip: Instruction, i: nat)
    requires Valid(ip) && ip.Instruction? && i < |ip.ops|
    requires InTable(ip.m) && |ip.m.types| == |ip.m.places| && i < |ip.m.types| && ip.m.places[i].DBR?
    ensures Reduced(ip.m, ip.m.types[i], ip.ops[i]) == ip.ops[i]
  {
    BranchFacts(ip.m, i, ip.ops[i]);
  }
}
