/** What the instructions of the 68k family do to a data register: the register result of each, as
    section 4 of the M68000 Family Programmer's Reference Manual gives it. Condition codes are not
    part of this model. */
module DataRegister {
  import opened Division
  import opened Bits

  const M16 := 0x1_0000
  const M32 := 0x1_0000_0000

  type u32 = x: int | 0 <= x < M32

  datatype Size = Byte | Word | Long

  datatype Shift = Asl | Lsl | Lsr

  /** Instructions whose destination is one data register Dn; Self stands for an operand that is
      Dn, too. */
  datatype Ins =
    | Moveq(x: int)
    | MoveImm(x: int)
    | AddSelf(size: Size)
    | Not(size: Size)
    | Swap
    | Neg(size: Size)
    | ShiftImm(kind: Shift, size: Size, count: nat)
    | ExtL
    | Clr
    | Tst
    | MvzSelf
    | MulImm(signed: bool, size: Size, x: int)
    | DivImm(signed: bool, x: int)

  function Wrap(x: int): u32 {
    x % M32
  }

  /** The number in the lowest bits of v, without and with a sign. */
  function Low(v: int, size: Size): nat {
    match size case Byte => v % 0x100 case Word => v % M16 case Long => v % M32
  }

  function Range(size: Size): nat {
    match size case Byte => 0x100 case Word => M16 case Long => M32
  }

  function Signed(v: int, size: Size): int {
    if Low(v, size) < Range(size) / 2 then Low(v, size) else Low(v, size) - Range(size)
  }

  /** v with its lowest bits replaced by those of w. */
  function Replace(v: u32, w: int, size: Size): u32
    ensures size == Long ==> Replace(v, w, size) == Wrap(w)
  {
    v - Low(v, size) + Low(w, size)
  }

  /** Division that truncates towards zero. */
  function Truncated(a: int, b: int): int
    requires b != 0
  {
    if a >= 0 then a / b else -((-a) / b)
  }

  function Effect(i: Ins, v: u32): u32 {
    match i
    case Moveq(x) => Wrap(Signed(x, Byte))
    case MoveImm(x) => Wrap(x)
    case AddSelf(size) => Replace(v, 2 * v, size)
    case Not(size) => Replace(v, -1 - v, size)
    case Swap => (v % M16) * M16 + v / M16
    case Neg(size) => Replace(v, 0 - v, size)
    case ShiftImm(kind, size, count) =>
      if kind == Lsr then Replace(v, Low(v, size) / Pow2(count), size) else Replace(v, v * Pow2(count), size)
    case ExtL => Wrap(Signed(v, Word))
    case Clr => 0
    case Tst => v
    case MvzSelf => Low(v, Word)
    case MulImm(signed, size, x) =>
      if size == Long then Wrap(v * x)
      else if signed then Wrap(Signed(v, Word) * Signed(x, Word))
      else Wrap(Low(v, Word) * Low(x, Word))
    case DivImm(signed, x) =>
      if Wrap(x) == 0 then v
      else if !signed then v / Wrap(x)
      else
        var q := Truncated(Signed(v, Long), Signed(x, Long));
        if q == M32 / 2 then v else Wrap(q)  // an overflow leaves the register alone
  }

  function Run(list: seq<Ins>, v: u32): u32 {
    if list == [] then v else Run(list[1..], Effect(list[0], v))
  }

  /** Both lists leave the same in the register, whatever it held. */
  ghost predicate Same(a: seq<Ins>, b: seq<Ins>) {
    forall v: u32 :: Run(a, v) == Run(b, v)
  }

  lemma SameSelf(a: seq<Ins>)
    ensures Same(a, a)
  {
  }

  lemma RunOne(i: Ins, v: u32)
    ensures Run([i], v) == Effect(i, v)
  {
  }

  lemma RunTwo(i: Ins, j: Ins, v: u32)
    ensures Run([i, j], v) == Effect(j, Effect(i, v))
  {
    assert [i, j][1..] == [j];
    RunOne(j, Effect(i, v));
  }

  /** The lowest bits of a number that is r above a multiple. */
  lemma LowOf(v: int, size: Size, q: int, r: nat)
    requires v == q * Range(size) + r && r < Range(size)
    ensures Low(v, size) == r
  {
    QuotientIs(v, Range(size), q, r);
  }

  /** Running one list after the other. */
  lemma {:induction false} RunConcat(a: seq<Ins>, b: seq<Ins>, v: u32)
    ensures Run(a + b, v) == Run(b, Run(a, v))
  {
    if a == [] {
      assert a + b == b;
    } else {
      assert (a + b)[1..] == a[1..] + b;
      RunConcat(a[1..], b, Effect(a[0], v));
    }
  }

  /** The length in the code, in bytes: an opcode word, and the immediate operand. */
  function Bytes(i: Ins): nat {
    match i
    case MoveImm(_) => 6
    case MulImm(_, size, _) => if size == Long then 8 else 4
    case DivImm(_, _) => 8
    case _ => 2
  }

  function TotalBytes(list: seq<Ins>): nat {
    if list == [] then 0 else Bytes(list[0]) + TotalBytes(list[1..])
  }

  lemma TwoBytes(i: Ins, j: Ins)
    ensures TotalBytes([i]) == Bytes(i) && TotalBytes([i, j]) == Bytes(i) + Bytes(j)
  {
    assert [i, j][1..] == [j] && [j][1..] == [] && [i][1..] == [];
    assert TotalBytes([j]) == Bytes(j);
  }
}

