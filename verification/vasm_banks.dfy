/** The prefix by which Apollo processors reach their vector registers
    (software/vasm/cpus/rf68000/cpu.c, apollo_bank_prefix). */
module Banks {
  import opened Division
  import opened Bits
  import opened Operands

  /** The number of the first vector register among the special registers. */
  const VX00 := 18

  /** Vector registers are in banks 1 to 3, the other registers in bank 0. */
  function BankOf(op: Operand): nat {
    if op.mode.SpecReg? && op.reg >= VX00 then 1 + (op.reg - VX00) / 8 else 0
  }

  /** The number of a register in its bank. */
  function InBank(op: Operand): nat {
    if op.mode.SpecReg? && op.reg >= VX00 then (op.reg - VX00) % 8 else op.reg
  }

  /** The bitwise exclusive or of the lowest n bits. */
  function Xor(a: nat, b: nat, n: nat): nat
    decreases n
  {
    if n == 0 then 0 else 2 * Xor(a / 2, b / 2, n - 1) + (if a % 2 != b % 2 then 1 else 0)
  }

  lemma {:induction false} XorTwice(a: nat, b: nat, n: nat)
    requires b < Pow2(n)
    ensures Xor(a, b, n) < Pow2(n) && Xor(Xor(a, b, n), a, n) == b
    decreases n
  {
    if n > 0 {
      XorTwice(a / 2, b / 2, n - 1);
      var x, c := Xor(a / 2, b / 2, n - 1), if a % 2 != b % 2 then 1 else 0;
      assert (2 * x + c) / 2 == x && (2 * x + c) % 2 == c;
    }
  }

  lemma {:induction false} XorSame(a: nat, n: nat)
    ensures Xor(0, a, n) == a % Pow2(n)
    decreases n
  {
    if n > 0 {
      XorSame(a / 2, n - 1);
      ModHalf(a, n);
    }
  }

  /** The first two operands' banks, and how the third operand differs from the second, if there is
      one; floating point instructions with one operand have it twice. */
  function BankPrefix(m: Mnemonic, ops: seq<Operand>): nat {
    var aa := if ops == [] then 0 else BankOf(ops[0]);
    var bb := if |ops| > 1 then BankOf(ops[1])
              else if |m.places| > 0 && m.places[0] == FuncField(Fp) then aa
              else 0;
    var bank := 0x7100 + 4 * aa + bb;
    if |ops| > 2 && !ops[2].mode.Omitted? then
      bank + 0x200 * Xor(InBank(ops[1]), InBank(ops[2]), 3) + 0x10 * Xor(bb, BankOf(ops[2]), 2)
    else bank
  }

  /** The registers of a banked instruction exist. */
  predicate Banked(ops: seq<Operand>) {
    forall i :: 0 <= i < |ops| ==>
      && (ops[i].mode.SpecReg? ==> VX00 <= ops[i].reg < VX00 + 24)
      && (ops[i].mode.FPn? || ops[i].mode.Dn? || ops[i].mode.An? ==> ops[i].reg < 8)
  }

  /** What a processor reads from a prefix: the banks of the first two operands, and the bank and
      register of the third, which are those of the second where no bit says otherwise. */
  function FirstBank(w: nat): nat {
    (w / 4) % 4
  }

  function SecondBank(w: nat): nat {
    w % 4
  }

  function ThirdBank(w: nat): nat {
    Xor((w / 16) % 4, SecondBank(w), 2)
  }

  function ThirdRegister(w: nat, second: nat): nat {
    Xor((w / 0x200) % 8, second, 3)
  }

  /** The vector register of a bank, or none. */
  function VectorRegister(bank: nat, r: nat): int {
    if bank == 0 then -1 else 8 * (bank - 1) + r
  }

  lemma BankFacts(op: Operand)
    requires Banked([op])
    ensures BankOf(op) < 4
    ensures op.mode.SpecReg? || op.mode.FPn? || op.mode.Dn? || op.mode.An? ==> InBank(op) < 8
    ensures op.mode.SpecReg? ==> BankOf(op) > 0 && VectorRegister(BankOf(op), InBank(op)) == op.reg - 18
    ensures !op.mode.SpecReg? ==> BankOf(op) == 0
  {
    assert Banked([op]) ==> [op][0] == op;
  }

  /** A prefix is told by its upper bits, and the banks in it, together with the register fields, give
      every vector register back, also that of the third operand; without a third operand, or with
      one that was left out, it reads as the second. */
  lemma PrefixReadsBack(m: Mnemonic, ops: seq<Operand>)
    requires Banked(ops)
    ensures var w := BankPrefix(m, ops);
      && w / 0x1000 == 7 && (w / 0x100) % 2 == 1 && (w / 0x40) % 4 == 0
      && (|ops| > 0 ==> FirstBank(w) == BankOf(ops[0]))
      && (|ops| > 1 ==> SecondBank(w) == BankOf(ops[1]))
      && (|ops| == 1 && |m.places| > 0 && m.places[0] == FuncField(Fp) ==> SecondBank(w) == BankOf(ops[0]))
      && (|ops| > 1 && InBank(ops[1]) < 8 && (|ops| == 2 || ops[2].mode.Omitted?) ==>
            ThirdBank(w) == BankOf(ops[1]) && ThirdRegister(w, InBank(ops[1])) == InBank(ops[1]))
      && (|ops| > 2 && InBank(ops[1]) < 8 && (ops[2].mode.SpecReg? || ops[2].mode.FPn?) ==>
            ThirdBank(w) == BankOf(ops[2]) && ThirdRegister(w, InBank(ops[1])) == InBank(ops[2]))
  {
    hide Xor, InBank, BankOf;
    assert Pow2(2) == 4 && Pow2(3) == 8;
    forall i | 0 <= i < |ops| ensures BankOf(ops[i]) < 4 {
      assert Banked([ops[i]]);
      BankFacts(ops[i]);
    }
    if |ops| > 2 && !ops[2].mode.Omitted? {
      if ops[2].mode.SpecReg? || ops[2].mode.FPn? {
        assert Banked([ops[2]]);
        BankFacts(ops[2]);
        XorTwice(InBank(ops[1]), InBank(ops[2]), 3);
      }
      XorBounds(InBank(ops[1]), InBank(ops[2]), 3);
      XorTwice(BankOf(ops[1]), BankOf(ops[2]), 2);
      Packed(BankOf(ops[0]), BankOf(ops[1]),
             Xor(InBank(ops[1]), InBank(ops[2]), 3), Xor(BankOf(ops[1]), BankOf(ops[2]), 2));
    } else if |ops| > 0 {
      var bb := BankPrefix(m, ops) - 0x7100 - 4 * BankOf(ops[0]);
      Packed(BankOf(ops[0]), bb, 0, 0);
      if |ops| > 1 {
        XorSame(BankOf(ops[1]), 2);
        XorSame(InBank(ops[1]), 3);
      }
    }
  }

  lemma {:induction false} XorBounds(a: nat, b: nat, n: nat)
    ensures Xor(a, b, n) < Pow2(n)
    decreases n
  {
    if n > 0 { XorBounds(a / 2, b / 2, n - 1); }
  }

  lemma Packed(aa: nat, bb: nat, d: nat, e: nat)
    requires aa < 4 && bb < 4 && d < 8 && e < 4
    ensures var w := 0x7100 + 4 * aa + bb + 0x200 * d + 0x10 * e;
      && w / 0x1000 == 7 && (w / 0x100) % 2 == 1 && (w / 0x40) % 4 == 0
      && (w / 4) % 4 == aa && w % 4 == bb && (w / 16) % 4 == e && (w / 0x200) % 8 == d
  {
    var w := 0x7100 + 4 * aa + bb + 0x200 * d + 0x10 * e;
    Part(w, 0x1000, 7, w - 0x7000, 8, 0, 7);
    Part(w, 0x100, 0x71 + 2 * d, 0x10 * e + 4 * aa + bb, 2, 0x38 + d, 1);
    Part(w, 0x40, 0x1c4 + 8 * d, 0x10 * e + 4 * aa + bb, 4, 0x71 + 2 * d, 0);
    Part(w, 4, 0x1c40 + 0x80 * d + 4 * e + aa, bb, 4, 0x710 + 0x20 * d + e, aa);
    Part(w, 0x10, 0x710 + 0x20 * d + e, 4 * aa + bb, 4, 0x1c4 + 8 * d, e);
    Part(w, 0x200, 0x38 + d, 0x100 + 0x10 * e + 4 * aa + bb, 8, 7, d);
  }

  lemma Part(w: nat, m: nat, q: nat, r: nat, n: nat, q': nat, r': nat)
    requires m > 0 && n > 0 && w == q * m + r && r < m && q == q' * n + r' && r' < n
    ensures w / m == q && w % m == r && q % n == r'
  {
    QuotientIs(w, m, q, r);
    QuotientIs(q, n, q', r');
  }
}
