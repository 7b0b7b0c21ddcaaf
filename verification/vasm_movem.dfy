/** Moving registers to and from memory, and MOVEM of one or two registers as MOVEs
    (software/vasm/cpus/rf68000/cpu.c, optimize_instruction, stage 2). The meanings of MOVE and
    MOVEM are those of section 4 of the M68000 Family Programmer's Reference Manual. */
module Movem {
  import opened Division
  import opened Bits
  import opened DataRegister

  /** Registers 0 to 7 are D0 to D7, 8 to 15 are A0 to A7. */
  datatype Mach = Mach(regs: seq<u32>, mem: map<u32, int>)

  type Machine = m: Mach | |m.regs| == 16 witness Mach(seq(16, _ => 0), map[])

  type Reg = r: int | 0 <= r < 16

  /** Addressing modes by an address register, 0 to 7, and a plain address. The index mode adds a
      register, or the word in it, times its scale. */
  datatype Ea =
    | Indirect(an: nat)
    | PostInc(an: nat)
    | PreDec(an: nat)
    | Disp(an: nat, d: int)
    | Index(an: nat, x: Reg, long: bool, scale: nat, d: int)
    | Absolute(d: int)

  predicate ValidEa(ea: Ea) {
    && (!ea.Absolute? ==> ea.an < 8)
    && (ea.Index? ==> ea.scale in {1, 2, 4, 8})
  }

  /** A move between a register and memory, and of several registers, in ascending order. */
  datatype Op =
    | Move(store: bool, size: nat, r: Reg, ea: Ea)
    | MoveMany(store: bool, size: nat, rs: seq<Reg>, ea: Ea)

  // ----- memory

  function Peek(mem: map<u32, int>, addr: int): int {
    if Wrap(addr) in mem then mem[Wrap(addr)] % 0x100 else 0
  }

  function ByteAt(mem: map<u32, int>, addr: int, k: nat): int {
    Peek(mem, addr + k)
  }

  /** The n bytes at addr, the most significant one first. */
  function Load(mem: map<u32, int>, addr: int, n: nat): nat {
    if n == 0 then 0 else Load(mem, addr, n - 1) * 0x100 + ByteAt(mem, addr, n - 1)
  }

  function Store(mem: map<u32, int>, addr: int, n: nat, v: int): map<u32, int>
    decreases n
  {
    if n == 0 then mem else Store(mem, addr, n - 1, v / 0x100)[Wrap(addr + n - 1) := v % 0x100]
  }

  // ----- single moves

  function SetReg(m: Machine, r: Reg, v: u32): Machine {
    m.(regs := m.regs[r := v])
  }

  function Step(m: Machine, r: Reg, offset: int): Machine {
    SetReg(m, r, Wrap(m.regs[r] + offset))
  }

  /** The address that a mode without a side effect names. */
  function Address(m: Machine, ea: Ea): int
    requires ValidEa(ea)
  {
    match ea
    case Disp(an, d) => m.regs[8 + an] + d
    case Index(an, x, long, scale, d) =>
      m.regs[8 + an] + (if long then m.regs[x] else Signed(m.regs[x], Word)) * scale + d
    case Absolute(d) => d
    case _ => m.regs[8 + ea.an]
  }

  /** What a loaded value does to a register: a word into a data register leaves its upper half,
      into an address register it is extended. */
  function Loaded(was: u32, r: Reg, size: nat, v: nat): u32 {
    if size == 4 then Wrap(v) else if r < 8 then Replace(was, v, Word) else Wrap(Signed(v, Word))
  }

  function MoveEffect(m: Machine, store: bool, size: nat, r: Reg, ea: Ea): Machine
    requires ValidEa(ea)
  {
    var m1 := if ea.PreDec? then Step(m, 8 + ea.an, 0 - size) else m;
    var addr := Address(m1, ea);
    var m2 := if store then m1.(mem := Store(m1.mem, addr, size, m.regs[r]))
              else SetReg(m1, r, Loaded(m1.regs[r], r, size, Load(m1.mem, addr, size)));
    if ea.PostInc? then Step(m2, 8 + ea.an, size) else m2
  }

  // ----- several registers

  /** MOVEM extends words into all registers. */
  function Extended(size: nat, v: nat): u32 {
    if size == 4 then Wrap(v) else Wrap(Signed(v, Word))
  }

  function LoadUp(m: Machine, size: nat, rs: seq<Reg>, addr: int): Machine
    decreases |rs|
  {
    if rs == [] then m
    else LoadUp(SetReg(m, rs[0], Extended(size, Load(m.mem, addr, size))), size, rs[1..], addr + size)
  }

  function StoreUp(m: Machine, size: nat, rs: seq<Reg>, addr: int): Machine
    decreases |rs|
  {
    if rs == [] then m
    else StoreUp(m.(mem := Store(m.mem, addr, size, m.regs[rs[0]])), size, rs[1..], addr + size)
  }

  /** Storing to descending addresses takes the registers from the last to the first. */
  function StoreDown(m: Machine, size: nat, rs: seq<Reg>, addr: int): Machine
    decreases |rs|
  {
    if rs == [] then m
    else
      var last := |rs| - 1;
      StoreDown(m.(mem := Store(m.mem, addr - size, size, m.regs[rs[last]])), size, rs[..last], addr - size)
  }

  function ManyEffect(m: Machine, store: bool, size: nat, rs: seq<Reg>, ea: Ea): Machine
    requires ValidEa(ea)
  {
    var addr := Address(m, ea);
    var m1 := if !store then LoadUp(m, size, rs, addr)
              else if ea.PreDec? then StoreDown(m, size, rs, addr) else StoreUp(m, size, rs, addr);
    if ea.PostInc? then SetReg(m1, 8 + ea.an, Wrap(addr + size * |rs|))
    else if ea.PreDec? then SetReg(m1, 8 + ea.an, Wrap(addr - size * |rs|))
    else m1
  }

  function Effect(m: Machine, op: Op): Machine
    requires ValidEa(op.ea)
  {
    match op
    case Move(store, size, r, ea) => MoveEffect(m, store, size, r, ea)
    case MoveMany(store, size, rs, ea) => ManyEffect(m, store, size, rs, ea)
  }

  predicate ValidOps(ops: seq<Op>) {
    forall i :: 0 <= i < |ops| ==> ValidEa(ops[i].ea)
  }

  function Run(m: Machine, ops: seq<Op>): Machine
    requires ValidOps(ops)
    decreases |ops|
  {
    if ops == [] then m else Run(Effect(m, ops[0]), ops[1..])
  }

  /** The machine is the same after both, whatever it was before. */
  ghost predicate Same(a: seq<Op>, b: seq<Op>)
    requires ValidOps(a) && ValidOps(b)
  {
    forall m: Machine :: Run(m, a) == Run(m, b)
  }

  // ----- the rewriting

  /** Flags and processor families: m68020 is 68020 or later. */
  datatype Options = Options(gen: bool, movem: bool, speed: bool, m68020: bool, m68040: bool)

  /** The registers of a mask, in ascending order. */
  function Registers(list: nat, from: nat): seq<Reg>
    requires from <= 16
    decreases 16 - from
  {
    if from == 16 then [] else (if Bit(list, from) then [from] else []) + Registers(list, from + 1)
  }

  predicate InList(ea: Ea, list: nat) {
    !ea.Absolute? && Bit(list, 8 + ea.an)
  }

  /** test_incr_ea: whether the address can be raised by offs in the same mode. */
  predicate CanRaise(ea: Ea, offs: int) {
    match ea
    case Disp(_, d) => -0x8000 <= d + offs <= 0x7fff
    case Index(_, _, _, _, d) => -0x80 <= d + offs <= 0x7f
    case _ => true
  }

  /** incr_ea */
  function Raised(ea: Ea, offs: int): Ea {
    match ea
    case Indirect(an) => Disp(an, offs)
    case Disp(an, d) => Disp(an, d + offs)
    case Index(an, x, long, scale, d) => Index(an, x, long, scale, d + offs)
    case Absolute(d) => Absolute(d + offs)
    case _ => ea
  }

  lemma {:induction false} RegistersCount(list: nat, from: nat)
    requires from <= 16
    ensures |Registers(list, from)| + Ones(list, from) == Ones(list, 16)
    decreases 16 - from
  {
    if from < 16 { RegistersCount(list, from + 1); }
  }

  lemma {:induction false} RegistersFrom(list: nat, from: nat, r: nat)
    requires from <= r <= 16 && (forall k :: from <= k < r ==> !Bit(list, k)) && (r < 16 ==> Bit(list, r))
    ensures Registers(list, from) == if r == 16 then [] else [r] + Registers(list, r + 1)
    decreases r - from
  {
    if from < r { RegistersFrom(list, from + 1, r); }
  }

  lemma {:induction false} RegistersIn(list: nat, from: nat, r: Reg)
    requires from <= 16
    ensures r in Registers(list, from) <==> from <= r && Bit(list, r)
    decreases 16 - from
  {
    hide Bit;
    if from < 16 { RegistersIn(list, from + 1, r); }
  }

  /** Whether the moves do what the MOVEM does. */
  predicate Faithful(store: bool, size: nat, rs: seq<Reg>, ea: Ea) {
    || store || rs == []
    || ((size == 4 || rs[0] >= 8) && !(|rs| == 2 && ea.Index? && ea.x == rs[0]))
  }

  predicate ValidMode(store: bool, ea: Ea) {
    ValidEa(ea) && if store then !ea.PostInc? else !ea.PreDec?
  }

  /** When a MOVEM is rewritten: with two registers only where that is faster, and never when the
      address register is itself among them. */
  predicate Rewritten(store: bool, size: nat, list: nat, ea: Ea, o: Options) {
    var regs := Ones(list, 16);
    var allowed := o.movem || (!store && list % 0x100 == 0);
    && (o.gen || o.movem)
    && (|| regs == 0
        || (regs == 1 && allowed && !((ea.PostInc? || ea.PreDec?) && InList(ea, list)))
        || (regs == 2 && allowed && !InList(ea, list)
            && ((o.speed && o.m68040) || ((ea.PostInc? || ea.PreDec?) && (o.m68020 || !store)))
            && (!o.m68040 || CanRaise(ea, size))))
  }

  /** Whether the mask counts the registers from A7 down. A list by names is put into the mask
      mirrored by the assembler; a list that is written as a number goes there as it is, and so is
      meant mirrored. */
  predicate Mirrored(immediate: bool, store: bool, ea: Ea) {
    immediate && store && ea.PreDec?
  }

  /** The registers that the MOVEM moves. */
  function Meant(immediate: bool, store: bool, list: nat, ea: Ea): seq<Reg> {
    Registers(if Mirrored(immediate, store, ea) then Reverse(list, 16) else list, 0)
  }

  /** A MOVEM of no register is deleted, one of one or two registers becomes as many MOVEs. The
      moves have the same effect on every machine if and only if they take the registers that are
      meant and are faithful: a mirrored list is read as if it were plain, a word loaded into a data
      register is not extended by MOVE, and the second address goes wrong when the first load
      overwrites its index. */
  method OptimizeMovem(immediate: bool, store: bool, size: nat, list: nat, ea: Ea, o: Options) returns (ops: seq<Op>)
    requires size in {2, 4} && list < Pow2(16) && ValidMode(store, ea)
    ensures ValidOps(ops)
    ensures var rs := Meant(immediate, store, list, ea); var was := [MoveMany(store, size, rs, ea)];
      && (Same(ops, was) <==> ops == was || (rs == Registers(list, 0) && Faithful(store, size, rs, ea)))
      && (ops == was <==> !Rewritten(store, size, list, ea, o))
  {
    hide Same, Bit, Ones, Faithful, Registers, Raised, CanRaise, Reverse;
    var rs := Meant(immediate, store, list, ea);
    ops := [MoveMany(store, size, rs, ea)];
    SameSelf(ops);
    RegistersCount(list, 0);
    MeantOne(list);
    var regs := CountOnes(list, 16);
    if o.gen || o.movem {
      var r := LeastBit(list, 0, 16);
      RegistersFrom(list, 0, r);
      if regs == 0 {
        ops := [];
        NoneMoved(store, size, ea);
      } else if regs == 1 && (o.movem || (!store && list % 0x100 == 0))
          && !((ea.PostInc? || ea.PreDec?) && InList(ea, list)) {
        BaseNotMoved(list, ea);
        ops := [Move(store, size, r, ea)];
        assert Registers(list, 0) == [r];
        if Mirrored(immediate, store, ea) {
          OneMirrored(size, r, ea);
        } else {
          OneMoved(store, size, r, ea);
        }
      } else if regs == 2 && (o.movem || (!store && list % 0x100 == 0))
          && ((o.speed && o.m68040) || ((ea.PostInc? || ea.PreDec?) && (o.m68020 || !store)))
          && !InList(ea, list) {
        if !o.m68040 || CanRaise(ea, size) {
          ops := SplitTwo(immediate, store, size, list, ea, r);
        }
      }
    }
  }

  /** Two moves instead of a MOVEM of two registers, the first of which is r; the last register
      is moved first when the addresses descend. */
  method SplitTwo(immediate: bool, store: bool, size: nat, list: nat, ea: Ea, r: nat) returns (ops: seq<Op>)
    requires size in {2, 4} && ValidMode(store, ea) && !InList(ea, list)
    requires r < 16 && |Registers(list, 0)| == 2 && Registers(list, 0) == [r] + Registers(list, r + 1)
    ensures |ops| == 2 && ValidOps(ops) && ops[0].Move?
    ensures var rs := Meant(immediate, store, list, ea);
      Same(ops, [MoveMany(store, size, rs, ea)]) <==> rs == Registers(list, 0) && Faithful(store, size, rs, ea)
  {
    hide Same, Bit, Registers, Raised, Reverse;
    var s := LeastBit(list, r + 1, 16);
    RegistersFrom(list, r + 1, s);
    RegistersNone(list);
    assert Registers(list, 0) == [r, s];
    BaseNotMoved(list, ea);
    if store && ea.PreDec? {
      ops := [Move(store, size, s, ea), Move(store, size, r, Raised(ea, size))];
    } else {
      ops := [Move(store, size, r, ea), Move(store, size, s, Raised(ea, size))];
    }
    if Mirrored(immediate, store, ea) {
      MeantTwo(list, r, s);
      TwoMirrored(size, r, s, ea);
    } else {
      TwoMoved(store, size, r, s, ea, ops);
    }
  }

  lemma RegistersNone(list: nat)
    ensures Registers(list, 16) == []
  {
  }

  lemma SameSelf(ops: seq<Op>)
    requires ValidOps(ops)
    ensures Same(ops, ops)
  {
  }

  /** The address register of a mode that is not in the list is not among the registers. */
  lemma BaseNotMoved(list: nat, ea: Ea)
    requires ValidEa(ea)
    ensures !ea.Absolute? && !InList(ea, list) ==> 8 + ea.an !in Registers(list, 0)
  {
    hide Bit, Registers;
    if !ea.Absolute? { RegistersIn(list, 0, 8 + ea.an); }
  }

  // ----- addresses modulo 2^32

  lemma WrapAdd(x: int, y: int)
    ensures Wrap(Wrap(x) + y) == Wrap(x + y)
  {
    var q, r := (x + y) / M32, (x + y) % M32;
    assert x + y == q * M32 + r;
    QuotientIs(Wrap(x) + y, M32, q - x / M32, r);
  }

  lemma {:induction false} LoadWrap(mem: map<u32, int>, a: int, b: int, n: nat)
    requires Wrap(a) == Wrap(b)
    ensures Load(mem, a, n) == Load(mem, b, n)
  {
    if n > 0 {
      LoadWrap(mem, a, b, n - 1);
      WrapAdd(a, n - 1);
      WrapAdd(b, n - 1);
    }
  }

  lemma {:induction false} StoreWrap(mem: map<u32, int>, a: int, b: int, n: nat, v: int)
    requires Wrap(a) == Wrap(b)
    ensures Store(mem, a, n, v) == Store(mem, b, n, v)
    decreases n
  {
    if n > 0 {
      StoreWrap(mem, a, b, n - 1, v / 0x100);
      WrapAdd(a, n - 1);
      WrapAdd(b, n - 1);
    }
  }

  // ----- nothing, one and two registers

  lemma RunOf(m: Machine, a: Op, b: Op)
    requires ValidEa(a.ea) && ValidEa(b.ea)
    ensures Run(m, [a]) == Effect(m, a)
    ensures Run(m, [a, b]) == Effect(Effect(m, a), b)
  {
    assert [a, b][1..] == [b];
    assert Run(Effect(m, a), [b]) == Effect(Effect(m, a), b);
  }

  lemma NoneMoved(store: bool, size: nat, ea: Ea)
    requires ValidMode(store, ea) && size in {2, 4}
    ensures Same([], [MoveMany(store, size, [], ea)]) && Faithful(store, size, [], ea)
  {
    var op := MoveMany(store, size, [], ea);
    forall m: Machine ensures Run(m, []) == Run(m, [op]) {
      RunOf(m, op, op);
      if !ea.Absolute? {
        QuotientIs(m.regs[8 + ea.an], M32, 0, m.regs[8 + ea.an]);
        assert m.regs[8 + ea.an := m.regs[8 + ea.an]] == m.regs;
      }
    }
  }

  /** A loaded word is extended by MOVEM, and by MOVE into an address register. */
  lemma LoadedSame(was: u32, r: Reg, size: nat, v: nat)
    requires size in {2, 4}
    ensures size == 4 || r >= 8 ==> Loaded(was, r, size, v) == Extended(size, v)
  {
  }

  lemma OneMoved(store: bool, size: nat, r: Reg, ea: Ea)
    requires ValidMode(store, ea) && size in {2, 4} && (ea.PostInc? || ea.PreDec? ==> r != 8 + ea.an)
    ensures Same([Move(store, size, r, ea)], [MoveMany(store, size, [r], ea)]) <==> Faithful(store, size, [r], ea)
  {
    var a, b := Move(store, size, r, ea), MoveMany(store, size, [r], ea);
    if Faithful(store, size, [r], ea) {
      forall m: Machine ensures Run(m, [a]) == Run(m, [b]) {
        RunOf(m, a, a);
        RunOf(m, b, b);
        OneEffect(m, store, size, r, ea);
      }
    } else {
      var m := WordWitness(size, r, ea);
      RunOf(m, a, a);
      RunOf(m, b, b);
      WordsDiffer(m, size, [r], ea);
      assert Run(m, [a]) != Run(m, [b]);
    }
  }

  lemma OneEffect(m: Machine, store: bool, size: nat, r: Reg, ea: Ea)
    requires ValidMode(store, ea) && size in {2, 4} && (ea.PostInc? || ea.PreDec? ==> r != 8 + ea.an)
    requires store || size == 4 || r >= 8
    ensures MoveEffect(m, store, size, r, ea) == ManyEffect(m, store, size, [r], ea)
  {
    var addr := Address(m, ea);
    assert [r][1..] == [] && [r][..0] == [];
    if store {
      if ea.PreDec? {
        WrapAdd(addr - size, 0);
        StoreWrap(m.mem, addr - size, Wrap(addr - size), size, m.regs[r]);
        assert StoreDown(m, size, [r], addr) == m.(mem := Store(m.mem, addr - size, size, m.regs[r]));
      } else {
        assert StoreUp(m, size, [r], addr) == m.(mem := Store(m.mem, addr, size, m.regs[r]));
      }
    } else {
      var v := Load(m.mem, addr, size);
      LoadedSame(m.regs[r], r, size, v);
      assert LoadUp(m, size, [r], addr) == SetReg(m, r, Extended(size, v));
    }
  }

  lemma TwoMoved(store: bool, size: nat, r: Reg, s: Reg, ea: Ea, ops: seq<Op>)
    requires ValidMode(store, ea) && size in {2, 4} && r < s && (!ea.Absolute? ==> 8 + ea.an != r && 8 + ea.an != s)
    requires ops == if store && ea.PreDec? then [Move(store, size, s, ea), Move(store, size, r, Raised(ea, size))]
                    else [Move(store, size, r, ea), Move(store, size, s, Raised(ea, size))]
    ensures ValidOps(ops)
    ensures Same(ops, [MoveMany(store, size, [r, s], ea)]) <==> Faithful(store, size, [r, s], ea)
  {
    var b := MoveMany(store, size, [r, s], ea);
    if Faithful(store, size, [r, s], ea) {
      forall m: Machine ensures Run(m, ops) == Run(m, [b]) {
        RunOf(m, ops[0], ops[1]);
        RunOf(m, b, b);
        TwoEffect(m, store, size, r, s, ea);
      }
    } else if size == 2 && r < 8 {
      var m := WordWitness(size, r, ea);
      RunOf(m, ops[0], ops[1]);
      RunOf(m, b, b);
      TwoWordsDiffer(m, size, r, s, ea);
      assert Run(m, ops) != Run(m, [b]);
    } else {
      var m := IndexWitness(size, ea);
      RunOf(m, ops[0], ops[1]);
      RunOf(m, b, b);
      IndexDiffers(m, size, r, s, ea);
      assert Run(m, ops) != Run(m, [b]);
    }
  }

  lemma TwoEffect(m: Machine, store: bool, size: nat, r: Reg, s: Reg, ea: Ea)
    requires ValidMode(store, ea) && size in {2, 4} && r < s && (!ea.Absolute? ==> 8 + ea.an != r && 8 + ea.an != s)
    requires Faithful(store, size, [r, s], ea)
    ensures var first, second := if store && ea.PreDec? then s else r, if store && ea.PreDec? then r else s;
      ValidEa(Raised(ea, size)) &&
      MoveEffect(MoveEffect(m, store, size, first, ea), store, size, second, Raised(ea, size))
      == ManyEffect(m, store, size, [r, s], ea)
  {
    if !store {
      TwoLoads(m, size, r, s, ea);
    } else if ea.PreDec? {
      TwoStoresDown(m, size, r, s, ea);
    } else {
      TwoStoresUp(m, size, r, s, ea);
    }
  }

  lemma TwoStoresUp(m: Machine, size: nat, r: Reg, s: Reg, ea: Ea)
    requires ValidMode(true, ea) && size in {2, 4} && r < s && !ea.PreDec?
    ensures ValidEa(Raised(ea, size))
    ensures MoveEffect(MoveEffect(m, true, size, r, ea), true, size, s, Raised(ea, size))
         == ManyEffect(m, true, size, [r, s], ea)
  {
    hide Store, Wrap;
    var addr := Address(m, ea);
    assert [r, s][1..] == [s] && [s][1..] == [];
    var m1 := MoveEffect(m, true, size, r, ea);
    assert Address(m1, Raised(ea, size)) == addr + size;
    assert StoreUp(m, size, [r, s], addr) == StoreUp(m1, size, [s], addr + size);
    assert StoreUp(m1, size, [s], addr + size) == m1.(mem := Store(m1.mem, addr + size, size, m1.regs[s]));
  }

  lemma TwoStoresDown(m: Machine, size: nat, r: Reg, s: Reg, ea: Ea)
    requires ValidMode(true, ea) && size in {2, 4} && r < s && ea.PreDec? && 8 + ea.an != r && 8 + ea.an != s
    ensures MoveEffect(MoveEffect(m, true, size, s, ea), true, size, r, ea) == ManyEffect(m, true, size, [r, s], ea)
  {
    hide Store, Wrap;
    var a := 8 + ea.an;
    var addr := m.regs[a];
    assert [r, s][..1] == [r] && [r][..0] == [];
    var mem1 := Store(m.mem, addr - size, size, m.regs[s]);
    var mem2 := Store(mem1, addr - size - size, size, m.regs[r]);
    var d1 := m.(mem := mem1);
    assert StoreDown(m, size, [r, s], addr) == StoreDown(d1, size, [r], addr - size);
    assert StoreDown(d1, size, [r], addr - size) == d1.(mem := mem2);
    WrapAdd(addr - size, 0);
    WrapAdd(addr - size, 0 - size);
    StoreWrap(m.mem, addr - size, Wrap(addr - size), size, m.regs[s]);
    WrapAdd(addr - size - size, 0);
    StoreWrap(mem1, addr - size - size, Wrap(Wrap(addr - size) - size), size, m.regs[r]);
    var m1 := MoveEffect(m, true, size, s, ea);
    assert m1 == m.(mem := mem1, regs := m.regs[a := Wrap(addr - size)]);
    assert m.regs[a := Wrap(addr - size)][a := Wrap(addr - 2 * size)] == m.regs[a := Wrap(addr - 2 * size)];
  }

  lemma TwoLoads(m: Machine, size: nat, r: Reg, s: Reg, ea: Ea)
    requires ValidMode(false, ea) && size in {2, 4} && r < s && (!ea.Absolute? ==> 8 + ea.an != r && 8 + ea.an != s)
    requires Faithful(false, size, [r, s], ea)
    ensures ValidEa(Raised(ea, size))
    ensures MoveEffect(MoveEffect(m, false, size, r, ea), false, size, s, Raised(ea, size))
         == ManyEffect(m, false, size, [r, s], ea)
  {
    hide Load, Extended, Loaded, Wrap;
    var addr := Address(m, ea);
    var v, w := Load(m.mem, addr, size), Load(m.mem, addr + size, size);
    assert [r, s][1..] == [s] && [s][1..] == [];
    var x, y := Extended(size, v), Extended(size, w);
    LoadedSame(m.regs[r], r, size, v);
    var u1 := SetReg(m, r, x);
    assert LoadUp(m, size, [r, s], addr) == LoadUp(u1, size, [s], addr + size);
    assert LoadUp(u1, size, [s], addr + size) == SetReg(u1, s, y);
    var m1 := MoveEffect(m, false, size, r, ea);
    var addr2 := Address(m1, Raised(ea, size));
    if ea.PostInc? {
      var a := 8 + ea.an;
      WrapAdd(addr + size, 0);
      WrapAdd(addr + size, size);
      assert m1.regs == m.regs[r := x][a := Wrap(addr + size)];
      assert m.regs[r := x][a := Wrap(addr + size)][s := y][a := Wrap(addr + 2 * size)]
          == m.regs[r := x][s := y][a := Wrap(addr + 2 * size)];
    } else {
      assert addr2 == addr + size;
    }
    LoadWrap(m.mem, addr2, addr + size, size);
    LoadedSame(m1.regs[s], s, size, w);
  }

  // ----- where the moves go wrong

  /** All registers zero, and a word at the address whose highest bit is set. */
  function WordWitness(size: nat, r: Reg, ea: Ea): Machine {
    Mach(seq(16, _ => 0), map[Wrap(if ea.Disp? || ea.Index? || ea.Absolute? then ea.d else 0) := 0x80])
  }

  lemma WitnessWord(size: nat, r: Reg, ea: Ea)
    requires ValidMode(false, ea)
    ensures var m := WordWitness(size, r, ea);
      Load(m.mem, Address(m, ea), 2) == 0x8000 && forall k :: 0 <= k < 16 ==> m.regs[k] == 0
  {
    var m := WordWitness(size, r, ea);
    var addr := Address(m, ea);
    assert Signed(0, Word) == 0;
    Apart(addr, addr + 1);
    assert Load(m.mem, addr, 1) == Load(m.mem, addr, 0) * 0x100 + ByteAt(m.mem, addr, 0);
  }

  lemma Apart(a: int, b: int)
    requires 0 < b - a < M32
    ensures Wrap(a) != Wrap(b)
  {
    WrapAdd(a, b - a);
    var x := Wrap(a);
    if x + (b - a) < M32 {
      QuotientIs(x + (b - a), M32, 0, x + (b - a));
    } else {
      QuotientIs(x + (b - a), M32, 1, x + (b - a) - M32);
    }
  }

  lemma WordsDiffer(m: Machine, size: nat, rs: seq<Reg>, ea: Ea)
    requires ValidMode(false, ea) && size == 2 && |rs| == 1 && rs[0] < 8 && m == WordWitness(size, rs[0], ea)
    ensures MoveEffect(m, false, size, rs[0], ea) != ManyEffect(m, false, size, rs, ea)
  {
    var r := rs[0];
    WitnessWord(size, r, ea);
    assert rs[1..] == [];
    assert Extended(2, 0x8000) == 0xffff8000 && Loaded(0, r, 2, 0x8000) == 0x8000;
    assert LoadUp(m, size, rs, Address(m, ea)) == SetReg(m, r, 0xffff8000);
    assert MoveEffect(m, false, size, r, ea).regs[r] == 0x8000;
    assert ManyEffect(m, false, size, rs, ea).regs[r] == 0xffff8000;
  }

  lemma TwoWordsDiffer(m: Machine, size: nat, r: Reg, s: Reg, ea: Ea)
    requires ValidMode(false, ea) && size == 2 && r < 8 && r < s && m == WordWitness(size, r, ea)
    ensures ValidEa(Raised(ea, size))
    ensures MoveEffect(MoveEffect(m, false, size, r, ea), false, size, s, Raised(ea, size))
         != ManyEffect(m, false, size, [r, s], ea)
  {
    WitnessWord(size, r, ea);
    var addr := Address(m, ea);
    assert [r, s][1..] == [s] && [s][1..] == [];
    assert Extended(2, 0x8000) == 0xffff8000 && Loaded(0, r, 2, 0x8000) == 0x8000;
    var m1 := MoveEffect(m, false, size, r, ea);
    assert m1.regs[r] == 0x8000;
    assert MoveEffect(m1, false, size, s, Raised(ea, size)).regs[r] == 0x8000;
    var u1 := SetReg(m, r, 0xffff8000);
    assert LoadUp(m, size, [r, s], addr) == LoadUp(u1, size, [s], addr + size);
    assert LoadUp(u1, size, [s], addr + size).regs[r] == 0xffff8000;
    assert ManyEffect(m, false, size, [r, s], ea).regs[r] == 0xffff8000;
  }

  /** All registers zero, a one at the address, a zero behind it, and a one where the index takes
      the second load after the first. */
  function IndexWitness(size: nat, ea: Ea): Machine
    requires ea.Index?
  {
    Mach(seq(16, _ => 0), map[Wrap(ea.d + size - 1) := 1, Wrap(ea.d + 2 * size + ea.scale - 1) := 1])
  }

  /** n bytes of which only the last may not be zero. */
  lemma LoadOne(mem: map<u32, int>, a: int, n: nat)
    requires n > 0 && forall k :: 0 <= k < n - 1 ==> ByteAt(mem, a, k) == 0
    ensures Load(mem, a, n) == ByteAt(mem, a, n - 1)
  {
    LoadNone(mem, a, n - 1);
  }

  lemma {:induction false} LoadNone(mem: map<u32, int>, a: int, n: nat)
    requires forall k :: 0 <= k < n ==> ByteAt(mem, a, k) == 0
    ensures Load(mem, a, n) == 0
  {
    if n > 0 { LoadNone(mem, a, n - 1); }
  }

  lemma IndexDiffers(m: Machine, size: nat, r: Reg, s: Reg, ea: Ea)
    requires ValidEa(ea) && ea.Index? && ea.x == r && size in {2, 4} && r < s && 8 + ea.an != r && 8 + ea.an != s
    requires m == IndexWitness(size, ea) && (size == 4 || r >= 8)
    ensures MoveEffect(MoveEffect(m, false, size, r, ea), false, size, s, Raised(ea, size))
         != ManyEffect(m, false, size, [r, s], ea)
  {
    hide Load;
    var d := ea.d;
    SmallNumbers(r, size);
    SmallNumbers(s, size);
    assert [r, s][1..] == [s] && [s][1..] == [];
    assert Address(m, ea) == d;
    IndexLoads(m.mem, d, size, ea.scale);
    var u1 := SetReg(m, r, 1);
    assert LoadUp(m, size, [r, s], d) == LoadUp(u1, size, [s], d + size);
    assert LoadUp(u1, size, [s], d + size) == SetReg(u1, s, 0);
    assert ManyEffect(m, false, size, [r, s], ea).regs[s] == 0;
    var m1 := MoveEffect(m, false, size, r, ea);
    assert m1 == u1;
    assert Address(m1, Raised(ea, size)) == d + size + ea.scale;
    assert MoveEffect(m1, false, size, s, Raised(ea, size)).regs[s] == 1;
  }

  lemma SmallNumbers(r: Reg, size: nat)
    requires size in {2, 4}
    ensures Extended(size, 0) == 0 && Extended(size, 1) == 1 && Signed(1, Word) == 1 && Signed(0, Word) == 0
    ensures Loaded(0, r, size, 0) == 0 && Loaded(0, r, size, 1) == 1
  {
  }

  lemma IndexLoads(mem: map<u32, int>, d: int, size: nat, scale: nat)
    requires size in {2, 4} && scale in {1, 2, 4, 8}
    requires mem == map[Wrap(d + size - 1) := 1, Wrap(d + 2 * size + scale - 1) := 1]
    ensures Load(mem, d, size) == 1 && Load(mem, d + size, size) == 0 && Load(mem, d + size + scale, size) == 1
  {
    hide Wrap;
    var e, f := d + size, d + size + scale;
    forall k | 0 <= k < size - 1 ensures ByteAt(mem, d, k) == 0 { IndexByte(mem, d, size, scale, k); }
    forall k | 0 <= k < size ensures ByteAt(mem, e, k) == 0 { IndexByte(mem, d, size, scale, size + k); }
    forall k | 0 <= k < size - 1 ensures ByteAt(mem, f, k) == 0 {
      IndexByte(mem, d, size, scale, size + scale + k);
    }
    IndexByte(mem, d, size, scale, size - 1);
    IndexByte(mem, d, size, scale, 2 * size + scale - 1);
    LoadOne(mem, d, size);
    LoadNone(mem, e, size);
    LoadOne(mem, f, size);
  }

  lemma IndexByte(mem: map<u32, int>, d: int, size: nat, scale: nat, k: nat)
    requires size in {2, 4} && scale in {1, 2, 4, 8} && k < 2 * size + scale
    requires mem == map[Wrap(d + size - 1) := 1, Wrap(d + 2 * size + scale - 1) := 1]
    ensures Peek(mem, d + k) == if k == size - 1 || k == 2 * size + scale - 1 then 1 else 0
  {
    hide Wrap;
    if k < size - 1 { Apart(d + k, d + size - 1); }
    if size - 1 < k { Apart(d + size - 1, d + k); }
    if k < 2 * size + scale - 1 { Apart(d + k, d + 2 * size + scale - 1); }
  }

  // ----- a register list given as a number, stored at descending addresses

  lemma MirrorBit(list: nat, k: nat)
    requires k < 16
    ensures Bit(Reverse(list, 16), k) == Bit(list, 15 - k)
  {
    ReverseMirrors(list, 16, k);
  }

  /** The mirror image of no register, and of one. */
  lemma MeantOne(list: nat)
    ensures Registers(list, 0) == [] ==> Registers(Reverse(list, 16), 0) == []
    ensures |Registers(list, 0)| == 1 ==> Registers(Reverse(list, 16), 0) == [15 - Registers(list, 0)[0]]
  {
    hide Bit, Reverse, Registers;
    var rs, back := Registers(list, 0), Reverse(list, 16);
    forall k | 0 <= k < 16 ensures Bit(back, k) <==> 15 - k in rs {
      MirrorBit(list, k);
      RegistersIn(list, 0, 15 - k);
    }
    RegistersNone(back);
    if rs == [] { RegistersFrom(back, 0, 16); }
    if |rs| == 1 {
      RegistersFrom(back, 0, 15 - rs[0]);
      RegistersFrom(back, 16 - rs[0] as int, 16);
    }
  }

  /** And of two. */
  lemma MeantTwo(list: nat, r: Reg, s: Reg)
    requires Registers(list, 0) == [r, s] && r < s
    ensures Registers(Reverse(list, 16), 0) == [15 - s, 15 - r]
  {
    hide Bit, Reverse, Registers;
    var back := Reverse(list, 16);
    forall k | 0 <= k < 16 ensures Bit(back, k) <==> k == 15 - r || k == 15 - s {
      MirrorBit(list, k);
      RegistersIn(list, 0, 15 - k);
    }
    RegistersNone(back);
    RegistersFrom(back, 0, 15 - s);
    RegistersFrom(back, 16 - s, 15 - r);
    RegistersFrom(back, 16 - r, 16);
  }

  /** The registers meant are those of the plain list if and only if the mask is its own mirror
      image. */
  lemma OwnMirror(list: nat)
    requires list < Pow2(16)
    ensures Registers(Reverse(list, 16), 0) == Registers(list, 0) <==> list == Reverse(list, 16)
  {
    hide Bit, Reverse, Registers;
    var back := Reverse(list, 16);
    ReverseMirrors(list, 16, 0);
    if Registers(back, 0) == Registers(list, 0) {
      forall k | 0 <= k < 16 ensures Bit(list, k) == Bit(back, k) {
        RegistersIn(list, 0, k);
        RegistersIn(back, 0, k);
      }
      SameBits(list, back, 16);
    }
  }

  /** All registers zero but r, and the memory too. */
  function OneSet(r: Reg): Machine {
    Mach(seq(16, i => if i == r then 1 else 0), map[])
  }

  /** One register of a mirrored list: the MOVE takes r where the MOVEM takes its mirror image, so
      the rewriting is always wrong. */
  lemma OneMirrored(size: nat, r: Reg, ea: Ea)
    requires ValidEa(ea) && ea.PreDec? && size in {2, 4} && 8 + ea.an != r
    ensures !Same([Move(true, size, r, ea)], [MoveMany(true, size, [15 - r], ea)])
    ensures [15 - r] != [r]
  {
    hide MoveEffect, ManyEffect;
    var a, b := Move(true, size, r, ea), MoveMany(true, size, [15 - r], ea);
    var m := OneSet(r);
    RunOf(m, a, a);
    RunOf(m, b, b);
    MoveStores(m, size, r, ea);
    ManyStores(m, size, [], 15 - r, ea);
    assert [] + [15 - r as Reg] == [15 - r];
    assert Run(m, [a]) != Run(m, [b]);
    assert [15 - r][0] != r;
  }

  /** Two registers of a mirrored list: the MOVEs are right if and only if the one mirrors the
      other. */
  lemma TwoMirrored(size: nat, r: Reg, s: Reg, ea: Ea)
    requires ValidEa(ea) && ea.PreDec? && size in {2, 4} && r < s && 8 + ea.an != r && 8 + ea.an != s
    ensures ValidEa(Raised(ea, size)) && ([15 - s, 15 - r] == [r, s] <==> r + s == 15)
    ensures Same([Move(true, size, s, ea), Move(true, size, r, Raised(ea, size))],
                 [MoveMany(true, size, [15 - s, 15 - r], ea)])
       <==> r + s == 15
  {
    hide MoveEffect, ManyEffect;
    var ops := [Move(true, size, s, ea), Move(true, size, r, Raised(ea, size))];
    var rs := [15 - s, 15 - r];
    assert rs[0] == 15 - s;
    if r + s == 15 {
      assert rs == [r, s];
      TwoMoved(true, size, r, s, ea, ops);
    } else {
      var b := MoveMany(true, size, rs, ea);
      var m := OneSet(s);
      RunOf(m, ops[0], ops[1]);
      RunOf(m, b, b);
      MoveStores(m, size, s, ea);
      NextStores(m, size, s, r, ea);
      ManyStores(m, size, [15 - s], 15 - r, ea);
      assert [15 - s as Reg] + [15 - r] == rs;
      assert Run(m, ops) != Run(m, [b]);
    }
  }

  /** Storing a register below address zero puts its lowest byte at the highest address. */
  lemma StoreTop(mem: map<u32, int>, size: nat, v: int)
    requires size in {2, 4}
    ensures Peek(Store(mem, 0 - size, size, v), -1) == v % 0x100
    ensures Store(mem, Wrap(0 - size), size, v) == Store(mem, 0 - size, size, v)
  {
    WrapAdd(0 - size, 0);
    StoreWrap(mem, 0 - size, Wrap(0 - size), size, v);
    assert 0 - size + size - 1 == -1;
  }

  lemma MoveStores(m: Machine, size: nat, r: Reg, ea: Ea)
    requires ValidEa(ea) && ea.PreDec? && size in {2, 4} && r != 8 + ea.an && m.regs[8 + ea.an] == 0
    ensures var m1 := MoveEffect(m, true, size, r, ea);
      && Peek(m1.mem, -1) == m.regs[r] % 0x100 && m1.regs == m.regs[8 + ea.an := Wrap(0 - size)]
  {
    hide Store;
    StoreTop(m.mem, size, m.regs[r]);
  }

  /** The next store goes below and leaves that byte alone. */
  lemma NextStores(m: Machine, size: nat, first: Reg, second: Reg, ea: Ea)
    requires ValidEa(ea) && ea.PreDec? && size in {2, 4} && first != 8 + ea.an && m.regs[8 + ea.an] == 0
    ensures var m1 := MoveEffect(m, true, size, first, ea);
      Peek(MoveEffect(m1, true, size, second, ea).mem, -1) == Peek(m1.mem, -1)
  {
    hide Store;
    MoveStores(m, size, first, ea);
    var m1 := MoveEffect(m, true, size, first, ea);
    WrapAdd(0 - size, 0 - size);
    BelowTop(m1.mem, size, m1.regs[second]);
  }

  lemma BelowTop(mem: map<u32, int>, size: nat, v: int)
    requires size in {2, 4}
    ensures Peek(Store(mem, Wrap(0 - size - size), size, v), -1) == Peek(mem, -1)
    ensures Store(mem, 0 - size - size, size, v) == Store(mem, Wrap(0 - size - size), size, v)
  {
    hide Store, Peek;
    WrapAdd(0 - size - size, 0);
    StoreWrap(mem, 0 - size - size, Wrap(0 - size - size), size, v);
    QuotientIs(0 - size - size, M32, -1, M32 - size - size);
    QuotientIs(-1, M32, -1, M32 - 1);
    StoreBelow(mem, Wrap(0 - size - size), size, v, -1);
  }

  /** A MOVEM of up to two registers stores the last of them there. */
  lemma ManyStores(m: Machine, size: nat, rest: seq<Reg>, last: Reg, ea: Ea)
    requires ValidEa(ea) && ea.PreDec? && size in {2, 4} && |rest| <= 1 && m.regs[8 + ea.an] == 0
    ensures Peek(ManyEffect(m, true, size, rest + [last], ea).mem, -1) == m.regs[last] % 0x100
  {
    hide Store, Peek;
    var rs := rest + [last];
    assert rs[..|rs| - 1] == rest && rs[|rs| - 1] == last;
    var mem1 := Store(m.mem, 0 - size, size, m.regs[last]);
    var m1 := m.(mem := mem1);
    StoreTop(m.mem, size, m.regs[last]);
    assert StoreDown(m, size, rs, 0) == StoreDown(m1, size, rest, 0 - size);
    if rest != [] {
      assert rest[..0] == [];
      var m2 := m1.(mem := Store(mem1, 0 - size - size, size, m1.regs[rest[0]]));
      assert StoreDown(m1, size, rest, 0 - size) == StoreDown(m2, size, [], 0 - size - size);
      BelowTop(mem1, size, m1.regs[rest[0]]);
    }
  }

  lemma {:induction false} StoreBelow(mem: map<u32, int>, a: int, n: nat, v: int, b: int)
    requires 0 <= a && a + n <= Wrap(b)
    ensures Peek(Store(mem, a, n, v), b) == Peek(mem, b)
    decreases n
  {
    if n > 0 {
      StoreBelow(mem, a, n - 1, v / 0x100, b);
      QuotientIs(a + n - 1, M32, 0, a + n - 1);
    }
  }
}
