/** Writing the code of an instruction list into its buffer
    (software/vasm/cpus/rf68000/cpu.c, eval_instruction). */
module Encoder {
  import opened Bits
  import opened Fields
  import opened Operands
  import opened Banks
  import opened CodeSize
  import opened Extensions
  import opened Opcodes

  // ----- what the code of an instruction is

  /** Some operand has extension words that its place drops. */
  predicate Drops(ip: Instruction, n: nat)
    requires Valid(ip) && ip.Instruction? && n <= |ip.ops|
  {
    exists i :: 0 <= i < n && Dropped(ip.m, i, ip.ops[i])
  }

  /** The operands that are written: the optional third one of a banked instruction is part of
      the bank prefix. */
  function Written(ip: Instruction): nat
    requires Valid(ip) && ip.Instruction?
  {
    if ip.m.banked && |ip.ops| > 2 then 2 else |ip.ops|
  }

  function Prefix(m: Mnemonic): nat {
    if m.banked then 2 else 0
  }

  /** Operand i can be written without an error: it is of a kind that its place takes, and the label
      of a branch is in reach. */
  predicate Encodable(ip: Instruction, i: nat, apollo: bool)
    requires Valid(ip) && ip.Instruction? && i < |ip.ops|
  {
    var p, op := ip.m.places[i], Reduced(ip.m, ip.m.types[i], ip.ops[i]);
    && OperandBytes(ip.m, i, ip.ops[i], ip.ext).Bytes?
    && (p.BRA? || p.DBR? ==> InReach(op.val0, ip.ext, ip.m, op.external, apollo))
  }

  /** The opcode words before anything is written into them. */
  function OpcodeBytes(ip: Instruction): (s: seq<Byte>)
    requires Valid(ip) && ip.Instruction?
    ensures |s| == 2 * ip.m.words
  {
    (if ip.m.banked then SetVal(2, BankPrefix(ip.m, ip.ops)) else []) + SetVal(2, ip.m.opcode0)
    + (if OpWords(ip.m) > 1 then SetVal(2, ip.m.opcode1) else []) + (if OpWords(ip.m) > 2 then SetVal(2, 0) else [])
  }

  predicate IsBranch(ip: Instruction)
    requires Valid(ip) && ip.Instruction?
  {
    |ip.m.places| == 1 && ip.m.places[0].BRA?
  }

  /** With the branch byte, once the first of n operands is written. */
  function FirstBytes(ip: Instruction, n: nat): (s: seq<Byte>)
    requires Valid(ip) && ip.Instruction? && n <= |ip.ops|
    ensures |s| == 2 * ip.m.words
  {
    var s := OpcodeBytes(ip);
    if n > 0 && IsBranch(ip) then
      s[|s| - 1 := BranchByte(ip.ops[0].val0, ip.ext, ip.m, ip.ops[0].external)]
    else s
  }

  /** The extension words of the first n operands. */
  function ExtBytes(ip: Instruction, n: nat): seq<Byte>
    requires Valid(ip) && ip.Instruction? && n <= |ip.ops|
  {
    if n == 0 then []
    else
      var w := OperandBytes(ip.m, n - 1, ip.ops[n - 1], ip.ext);
      ExtBytes(ip, n - 1) + if w.Bytes? then w.s else []
  }

  /** All that the size and the first n operands write into the opcode words. */
  function AllMarks(ip: Instruction, n: nat): seq<Mark>
    requires Valid(ip) && ip.Instruction? && n <= |ip.ops|
  {
    if n == 0 then SizeMarks(ip.m, ip.ext)
    else AllMarks(ip, n - 1) + PlaceMarks(ip.m.places[n - 1], Reduced(ip.m, ip.m.types[n - 1], ip.ops[n - 1]))
  }

  /** At d stand opcode words, each bit of which is set in `first` or by a mark, and then ext. */
  ghost predicate Stands(s: seq<Byte>, d: nat, first: seq<Byte>, start: nat, marks: seq<Mark>, ext: seq<Byte>) {
    var base := d + |first|;
    && base + |ext| <= |s|
    && s[base..base + |ext|] == ext
    && forall k :: 8 * d <= k < 8 * base ==>
         (BitAt(s, k) <==> BitAt(first, k - 8 * d) || Marked(start, marks, k))
  }

  /** At d stands the code of the instruction with n operands written: each bit of the opcode words
      is set by the mnemonic, the size or an operand, and the extension words follow. */
  ghost predicate IsCode(s: seq<Byte>, d: nat, ip: Instruction, n: nat)
    requires Valid(ip) && ip.Instruction? && n <= |ip.ops|
  {
    Stands(s, d, FirstBytes(ip, n), d + Prefix(ip.m), AllMarks(ip, n), ExtBytes(ip, n))
  }

  function CodeLength(ip: Instruction): nat
    requires Valid(ip)
  {
    if ip.Deleted? then 0 else 2 * ip.m.words + |ExtBytes(ip, Written(ip))|
  }

  // ----- framing

  /** Nothing before d and nothing from e on has been written to. */
  ghost predicate Between(t: seq<Byte>, t': seq<Byte>, d: nat, e: nat) {
    d <= e <= |t| == |t'| && t'[..d] == t[..d] && t'[e..] == t[e..]
  }

  lemma PatchBetween(t: seq<Byte>, start: nat, d: nat, x: Byte, s: seq<Byte>)
    requires start < d && d + |s| <= |t|
    ensures Between(t, t, start, d)
    ensures Between(t, Patch(t, d, s), start, d + |s|)
    ensures Between(t, Patch(t[d - 1 := x], d, s), start, d + |s|)
  {
  }

  lemma MarksBetween(t: seq<Byte>, t': seq<Byte>, start: nat, marks: seq<Mark>, e: nat)
    requires MarkedIn(t, t', start, marks) && start <= e <= |t| && Inside(marks, 8 * (e - start))
    ensures Between(t, t', start, e)
  {
    hide BitAt, Sets;
    forall i | 0 <= i < |t| && !(start <= i < e) ensures t'[i] == t[i] {
      forall k | 8 * i <= k < 8 * i + 8 ensures BitAt(t', k) <==> BitAt(t, k) {
        if Marked(start, marks, k) { MarkedInside(start, marks, 8 * (e - start), k); }
      }
      SameBytes(t', t, i);
    }
  }

  lemma BetweenThen(t: seq<Byte>, u: seq<Byte>, v: seq<Byte>, d: nat, e: nat, f: nat)
    requires Between(t, u, d, e) && Between(u, v, d, f) && e <= f
    ensures Between(t, v, d, f)
  {
    assert v[f..] == u[f..] && u[f..] == u[e..][f - e..] && t[e..][f - e..] == t[f..];
  }

  lemma BetweenWider(t: seq<Byte>, v: seq<Byte>, c: nat, d: nat, e: nat, f: nat)
    requires Between(t, v, d, e) && c <= d && e <= f <= |t|
    ensures Between(t, v, c, f)
  {
    assert v[f..] == v[e..][f - e..] && t[e..][f - e..] == t[f..];
    assert v[..c] == v[..d][..c] && t[..c] == t[..d][..c];
  }

  // ----- the opcode words

  method WriteOpcode(buf: array<Byte>, d: nat, ip: Instruction) returns (d': nat)
    requires Valid(ip) && ip.Instruction? && d + 2 * ip.m.words <= buf.Length
    modifies buf
    ensures d' == d + 2 * ip.m.words && Between(old(buf[..]), buf[..], d, d')
    ensures IsCode(buf[..], d, ip, 0)
  {
    hide SetVal, BitAt, Sets, InTable, SizeMarks, Patch, Between, BankPrefix, IsCode, Inside;
    Words(ip);
    ghost var t, s := buf[..], [];
    d' := d;
    PatchNone(t, d);
    var opclen := ip.m.words;
    if ip.m.banked {
      PatchTwice(t, d, s, SetVal(2, BankPrefix(ip.m, ip.ops)));
      s := s + SetVal(2, BankPrefix(ip.m, ip.ops));
      d' := Put(buf, d', SetVal(2, BankPrefix(ip.m, ip.ops)));
      opclen := opclen - 1;
    }
    PatchTwice(t, d, s, SetVal(2, ip.m.opcode0));
    s := s + SetVal(2, ip.m.opcode0);
    d' := Put(buf, d', SetVal(2, ip.m.opcode0));
    if opclen > 1 {
      PatchTwice(t, d, s, SetVal(2, ip.m.opcode1));
      s := s + SetVal(2, ip.m.opcode1);
      d' := Put(buf, d', SetVal(2, ip.m.opcode1));
      if opclen > 2 {
        PatchTwice(t, d, s, SetVal(2, 0));
        s := s + SetVal(2, 0);
        d' := Put(buf, d', SetVal(2, 0));
      }
    }
    assert s == OpcodeBytes(ip);
    ghost var u := buf[..];
    SizeInside(ip.m, ip.ext);
    InsideMore(SizeMarks(ip.m, ip.ext), 16 * OpWords(ip.m), 8 * (buf.Length - d - Prefix(ip.m)));
    Insert(buf, d + Prefix(ip.m), SizeMarks(ip.m, ip.ext));
    OpcodeWritten(t, u, buf[..], d, ip);
  }

  lemma PatchNone(t: seq<Byte>, d: nat)
    requires d <= |t|
    ensures Patch(t, d, []) == t
  {
  }

  lemma InsideMore(marks: seq<Mark>, n: int, m: int)
    requires Inside(marks, n) && n <= m
    ensures Inside(marks, m)
  {
  }

  lemma OpcodeWritten(t: seq<Byte>, u: seq<Byte>, v: seq<Byte>, d: nat, ip: Instruction)
    requires Valid(ip) && ip.Instruction? && d + 2 * ip.m.words <= |t|
    requires u == Patch(t, d, OpcodeBytes(ip))
    requires MarkedIn(u, v, d + Prefix(ip.m), SizeMarks(ip.m, ip.ext))
    ensures Between(t, v, d, d + 2 * ip.m.words) && IsCode(v, d, ip, 0)
  {
    hide OpcodeBytes, SizeMarks, InTable, Stands, MarkedIn, Between, Patch, Inside;
    Words(ip);
    var base := d + 2 * ip.m.words;
    SizeInside(ip.m, ip.ext);
    PatchedBetween(t, d, OpcodeBytes(ip));
    MarksBetween(u, v, d + Prefix(ip.m), SizeMarks(ip.m, ip.ext), base);
    BetweenWider(u, v, d, d + Prefix(ip.m), base, base);
    BetweenThen(t, u, v, d, base, base);
    StandsFirst(t, v, d, OpcodeBytes(ip), d + Prefix(ip.m), SizeMarks(ip.m, ip.ext));
  }

  lemma PatchedBetween(t: seq<Byte>, d: nat, s: seq<Byte>)
    requires d + |s| <= |t|
    ensures |Patch(t, d, s)| == |t| && Between(t, Patch(t, d, s), d, d + |s|)
  {
  }

  lemma StandsFirst(t: seq<Byte>, v: seq<Byte>, d: nat, first: seq<Byte>, start: nat, marks: seq<Mark>)
    requires d + |first| <= |t| && MarkedIn(Patch(t, d, first), v, start, marks)
    ensures Stands(v, d, first, start, marks, [])
  {
    hide Bit, Sets, Marked;
    var u := Patch(t, d, first);
    forall k | 8 * d <= k < 8 * (d + |first|) ensures BitAt(u, k) <==> BitAt(first, k - 8 * d) {
      assert u[k / 8] == first[k / 8 - d];
      assert (k - 8 * d) / 8 == k / 8 - d && (k - 8 * d) % 8 == k % 8;
    }
  }

  // ----- one operand

  /** One operand: what it writes into the opcode words, giving mid, and the words behind them. */
  method WriteOperand(buf: array<Byte>, start: nat, d: nat, ip: Instruction, i: nat, apollo: bool)
    returns (ok: bool, d': nat, ghost mid: seq<Byte>)
    requires Valid(ip) && ip.Instruction? && i < |ip.ops| && start + 2 * OpWords(ip.m) <= d && 1 <= OpWords(ip.m)
    requires d + OperSize(ip.m.types[i], ip.ops[i], ip.ext) <= buf.Length
    modifies buf
    ensures Between(old(buf[..]), buf[..], start, d')
    ensures d <= d' <= d + OperSize(ip.m.types[i], ip.ops[i], ip.ext)
    ensures ok <==> Encodable(ip, i, apollo)
    ensures ok ==> d' == d + |OperandBytes(ip.m, i, ip.ops[i], ip.ext).s|
    ensures ok && !ip.m.places[i].BRA? ==>
      && MarkedIn(old(buf[..]), mid, start, PlaceMarks(ip.m.places[i], Reduced(ip.m, ip.m.types[i], ip.ops[i])))
      && buf[..] == Patch(mid, d, OperandBytes(ip.m, i, ip.ops[i], ip.ext).s)
    ensures ok && ip.m.places[i].BRA? ==>
      var op := Reduced(ip.m, ip.m.types[i], ip.ops[i]);
      buf[..] == Patch(old(buf[..])[d - 1 := BranchByte(op.val0, ip.ext, ip.m, op.external)], d,
                       OperandBytes(ip.m, i, ip.ops[i], ip.ext).s)
  {
    hide OperSize, Allowed, InTable, EaBytes, BranchBytes, SetVal, Reduced, Dropped, Patch, Between, PlaceMarks,
      MarkedIn, InReach;
    ghost var t := buf[..];
    OperandFacts(ip, i);
    OperandAgrees(ip.m, i, ip.ops[i], ip.ext);
    var op := Reduced(ip.m, ip.m.types[i], ip.ops[i]);
    ghost var w := OperandBytes(ip.m, i, ip.ops[i], ip.ext);
    var marks := PlaceMarks(ip.m.places[i], op);
    ok, d', mid := true, d, t;
    PatchNone(t, d);
    PatchBetween(t, start, d, 0, []);
    match ip.m.places[i] {
      case NOP =>
        assert w == Bytes([]);
        NoMarks(ip.m.places[i], op, t, start);
      case NEA | SEA | MEA | BEA | KEA | REA | EAM =>
        assert w == EaBytes(op, ip.ext);
        ok, d', mid := WriteEa(buf, start, d, marks, op, ip.ext, OpWords(ip.m));
      case BRA =>
        assert w == BranchBytes(op.val0, ip.ext, ip.m, true);
        ok, d' := WriteBranch(buf, d, op.val0, ip.ext, ip.m, true, op.external, apollo);
        if ok { PatchBetween(t, start, d, BranchByte(op.val0, ip.ext, ip.m, op.external), w.s); }
      case DBR =>
        assert w == BranchBytes(op.val0, ip.ext, ip.m, false);
        NoMarks(ip.m.places[i], op, t, start);
        ok, d' := WriteBranch(buf, d, op.val0, ip.ext, ip.m, false, op.external, apollo);
        if ok { PatchBetween(t, start, d, 0, w.s); }
      case ValueField(_, _, _) | RegField(_, _) | FuncField(_) =>
        ok := Insertable(ip.m.places[i], op);
        FieldBytes(ip, i);
        if ok {
          InsideMore(marks, 16 * OpWords(ip.m), 8 * (buf.Length - start));
          Insert(buf, start, marks);
          mid := buf[..];
          PatchNone(mid, d);
          AfterMarks(t, mid, buf[..], start, marks, d, [], OpWords(ip.m));
        }
    }
  }

  /** An effective address: its marks, and its extension words. */
  method WriteEa(buf: array<Byte>, start: nat, d: nat, marks: seq<Mark>, op: Operand, ext: Ext, words: nat)
    returns (ok: bool, d': nat, ghost mid: seq<Byte>)
    requires |op.float| == 12 && 1 <= words && start + 2 * words <= d <= buf.Length && Inside(marks, 16 * words)
    requires EaBytes(op, ext).Bytes? ==> d + |EaBytes(op, ext).s| <= buf.Length
    modifies buf
    ensures ok == EaBytes(op, ext).Bytes? && d' == d + if ok then |EaBytes(op, ext).s| else 0
    ensures Between(old(buf[..]), buf[..], start, d')
    ensures MarkedIn(old(buf[..]), mid, start, marks)
    ensures ok ==> d' <= |mid| && buf[..] == Patch(mid, d, EaBytes(op, ext).s)
  {
    hide EaBytes, Patch, Between, MarkedIn;
    ghost var t := buf[..];
    InsideMore(marks, 16 * words, 8 * (buf.Length - start));
    Insert(buf, start, marks);
    mid := buf[..];
    PatchNone(mid, d);
    ok, d' := WriteEaExt(buf, d, op, ext);
    AfterMarks(t, mid, buf[..], start, marks, d, if ok then EaBytes(op, ext).s else [], words);
  }

  /** A number must be absolute, and a register a register. */
  predicate Insertable(p: Place, op: Operand) {
    && (p.ValueField? || (p.FuncField? && Absolute(p.func)) ==> !op.based)
    && (p.RegField? ==> op.mode in {Dn, An, AnIndir, AnPostInc, AnPreDec, An16Disp, An8Format, FPn})
  }

  lemma FieldBytes(ip: Instruction, i: nat)
    requires Valid(ip) && ip.Instruction? && i < |ip.ops|
    requires var p := ip.m.places[i]; p.ValueField? || p.RegField? || p.FuncField?
    ensures OperandBytes(ip.m, i, ip.ops[i], ip.ext) ==
      if Insertable(ip.m.places[i], Reduced(ip.m, ip.m.types[i], ip.ops[i])) then Bytes([]) else Error
  {
  }

  lemma NoMarks(p: Place, op: Operand, t: seq<Byte>, start: nat)
    requires p.NOP? || p.NEA? || p.DBR?
    ensures MarkedIn(t, t, start, PlaceMarks(p, op))
  {
  }

  lemma AfterMarks(t: seq<Byte>, mid: seq<Byte>, v: seq<Byte>, start: nat, marks: seq<Mark>, d: nat, s: seq<Byte>,
                   words: int)
    requires MarkedIn(t, mid, start, marks) && d + |s| <= |t| == |mid| && v == Patch(mid, d, s)
    requires start + 2 * words <= d && Inside(marks, 16 * words) && words >= 1
    ensures Between(t, v, start, d + |s|)
  {
    hide MarkedIn, Inside, Patch, Between;
    MarksBetween(t, mid, start, marks, start + 2 * words);
    PatchBetween(mid, start, d, 0, s);
    BetweenWider(t, mid, start, start, start + 2 * words, d);
    BetweenThen(t, mid, v, start, d, d + |s|);
  }

  lemma MarkedLength(t: seq<Byte>, t': seq<Byte>, start: nat, marks: seq<Mark>)
    requires MarkedIn(t, t', start, marks)
    ensures |t'| == |t|
  {
  }

  lemma OperandFacts(ip: Instruction, i: nat)
    requires Valid(ip) && ip.Instruction? && i < |ip.ops|
    ensures InTable(ip.m) && i < |ip.m.types| == |ip.m.places| && Allowed(ip.m.types[i], ip.ops[i].mode)
    ensures |ip.ops[i].float| == 12 && |Reduced(ip.m, ip.m.types[i], ip.ops[i]).float| == 12
    ensures Inside(PlaceMarks(ip.m.places[i], Reduced(ip.m, ip.m.types[i], ip.ops[i])), 16 * OpWords(ip.m))
  {
    hide Allowed, Placed, Fits, PlaceMarks;
    MarksInside(ip.m, i, Reduced(ip.m, ip.m.types[i], ip.ops[i]));
  }

  /** A branch is the only operand, with one opcode word before it. */
  lemma BranchAlone(ip: Instruction, i: nat)
    requires Valid(ip) && ip.Instruction? && i < |ip.ops|
    ensures ip.m.places[i].BRA? ==>
      && i == 0 && IsBranch(ip) && ip.m.words == 1 && !ip.m.banked && |ip.ops| == 1
      && Reduced(ip.m, ip.m.types[i], ip.ops[i]) == ip.ops[i]
    ensures IsBranch(ip) ==> ip.m.places[i].BRA?
  {
    assert Fits(ip.m, ip.m.places[i]);
  }

  /** Writing marks into the opcode words, and more words behind. */
  lemma StandsMore(u: seq<Byte>, mid: seq<Byte>, v: seq<Byte>, d: nat, first: seq<Byte>, start: nat,
                   marks: seq<Mark>, ext: seq<Byte>, more: seq<Mark>, s: seq<Byte>)
    requires Stands(u, d, first, start, marks, ext) && MarkedIn(u, mid, start, more)
    requires start <= d + |first| && Inside(more, 8 * (d + |first| - start))
    requires d + |first| + |ext| + |s| <= |u| && v == Patch(mid, d + |first| + |ext|, s)
    ensures Stands(v, d, first, start, marks + more, ext + s)
  {
    hide BitAt, Sets, Patch, Inside;
    var base := d + |first|;
    MarksBetween(u, mid, start, more, base);
    PatchBehind(u, mid, base, base + |ext|, s);
    forall k | 8 * d <= k < 8 * base
      ensures BitAt(v, k) <==> BitAt(first, k - 8 * d) || Marked(start, marks + more, k)
    {
      MarkedConcat(start, marks, more, k);
      PatchBit(mid, base + |ext|, s, k);
      assert BitAt(u, k) <==> BitAt(first, k - 8 * d) || Marked(start, marks, k);
    }
  }

  /** Writing operand i completes the code of i + 1 operands. */
  lemma OperandWritten(u: seq<Byte>, mid: seq<Byte>, v: seq<Byte>, d: nat, ip: Instruction, i: nat)
    requires Valid(ip) && ip.Instruction? && i < |ip.ops| && IsCode(u, d, ip, i) && !ip.m.places[i].BRA?
    requires OperandBytes(ip.m, i, ip.ops[i], ip.ext).Bytes?
    requires var op := Reduced(ip.m, ip.m.types[i], ip.ops[i]);
      var e := d + 2 * ip.m.words + |ExtBytes(ip, i)|;
      && MarkedIn(u, mid, d + Prefix(ip.m), PlaceMarks(ip.m.places[i], op))
      && e + |OperandBytes(ip.m, i, ip.ops[i], ip.ext).s| <= |mid|
      && v == Patch(mid, e, OperandBytes(ip.m, i, ip.ops[i], ip.ext).s)
    ensures IsCode(v, d, ip, i + 1)
  {
    hide MarkedIn, Stands, PlaceMarks, Reduced, OperandBytes, InTable, Allowed, FirstBytes, Patch;
    OperandFacts(ip, i);
    SameFirst(ip, i);
    Words(ip);
    var marks := PlaceMarks(ip.m.places[i], Reduced(ip.m, ip.m.types[i], ip.ops[i]));
    MarkedLength(u, mid, d + Prefix(ip.m), marks);
    StandsMore(u, mid, v, d, FirstBytes(ip, i), d + Prefix(ip.m), AllMarks(ip, i), ExtBytes(ip, i),
               marks, OperandBytes(ip.m, i, ip.ops[i], ip.ext).s);
  }

  lemma SameFirst(ip: Instruction, i: nat)
    requires Valid(ip) && ip.Instruction? && i < |ip.ops| && !ip.m.places[i].BRA?
    ensures FirstBytes(ip, i + 1) == FirstBytes(ip, i)
  {
    BranchAlone(ip, i);
  }

  lemma PatchBehind(u: seq<Byte>, t: seq<Byte>, base: nat, e: nat, s: seq<Byte>)
    requires base <= e && e + |s| <= |t| == |u| && t[base..] == u[base..]
    ensures |Patch(t, e, s)| == |t| && Patch(t, e, s)[base..e + |s|] == u[base..e] + s
  {
    assert t[base..e] == t[base..][..e - base] && u[base..e] == u[base..][..e - base];
  }

  lemma PatchBit(t: seq<Byte>, d: nat, s: seq<Byte>, k: nat)
    requires d + |s| <= |t| && k < 8 * d
    ensures BitAt(Patch(t, d, s), k) <==> BitAt(t, k)
  {
  }

  /** Writing the operand of a branch completes its code. */
  lemma BranchWritten(u: seq<Byte>, v: seq<Byte>, d: nat, ip: Instruction)
    requires Valid(ip) && ip.Instruction? && |ip.ops| == 1 && ip.m.places[0].BRA? && IsCode(u, d, ip, 0)
    requires OperandBytes(ip.m, 0, ip.ops[0], ip.ext).Bytes? && d + 2 * ip.m.words <= |u|
    requires var op := ip.ops[0]; var w := OperandBytes(ip.m, 0, op, ip.ext);
      && d + 2 * ip.m.words + |w.s| <= |u|
      && v == Patch(u[d + 2 * ip.m.words - 1 := BranchByte(op.val0, ip.ext, ip.m, op.external)],
                    d + 2 * ip.m.words, w.s)
    ensures IsCode(v, d, ip, 1)
  {
    hide Sets, OperandBytes, InTable, Allowed, Bit, BranchByte, OpcodeBytes, Fits, SizeMarks, PlaceMarks;
    BranchAlone(ip, 0);
    OperandFacts(ip, 0);
    NothingMarked(ip);
    var op := ip.ops[0];
    var s := OperandBytes(ip.m, 0, op, ip.ext).s;
    var base := d + 2;
    var x := BranchByte(op.val0, ip.ext, ip.m, op.external);
    assert v[base..base + |s|] == s && v[base - 1] == x && v[d] == u[d];
    assert ExtBytes(ip, 0) == [] && ExtBytes(ip, 1) == [] + s;
    forall k | 8 * d <= k < 8 * base
      ensures BitAt(v, k) <==> BitAt(FirstBytes(ip, 1), k - 8 * d) || Marked(d + Prefix(ip.m), AllMarks(ip, 1), k)
    {
      assert BitAt(u, k) <==> BitAt(FirstBytes(ip, 0), k - 8 * d) || Marked(d + Prefix(ip.m), AllMarks(ip, 0), k);
      assert (k - 8 * d) / 8 == k / 8 - d && (k - 8 * d) % 8 == k % 8;
    }
  }

  lemma NothingMarked(ip: Instruction)
    requires Valid(ip) && ip.Instruction? && |ip.ops| == 1 && ip.m.places[0].BRA?
    ensures AllMarks(ip, 0) == [] && AllMarks(ip, 1) == []
  {
    BranchAlone(ip, 0);
    assert Fits(ip.m, ip.m.places[0]);
  }

  // ----- whole instructions

  /** The operand that becomes part of the bank prefix needs no bytes of its own. */
  lemma BankedThird(ip: Instruction)
    requires Valid(ip) && ip.Instruction?
    ensures Written(ip) < |ip.ops| ==>
      && |ip.ops| == 3 && Written(ip) == 2
      && OperSize(ip.m.types[2], ip.ops[2], ip.ext) == 0 && !Dropped(ip.m, 2, ip.ops[2])
  {
    if Written(ip) < |ip.ops| {
      assert Placed(ip.m.types[2], ip.m.places[2]) && Allowed(ip.m.types[2], ip.ops[2].mode);
      FieldSize(ip.m.types[2], ip.m.places[2], ip.ops[2], ip.ext);
    }
  }

  lemma OneMore(ip: Instruction, i: nat)
    requires Valid(ip) && ip.Instruction? && i < |ip.ops|
    ensures OperandsSize(ip.m, ip.ops, ip.ext, i + 1) ==
      OperandsSize(ip.m, ip.ops, ip.ext, i) + OperSize(ip.m.types[i], ip.ops[i], ip.ext)
    ensures Drops(ip, i + 1) <==> Drops(ip, i) || Dropped(ip.m, i, ip.ops[i])
    ensures var w := OperandBytes(ip.m, i, ip.ops[i], ip.ext);
      && (w.Bytes? ==> ExtBytes(ip, i + 1) == ExtBytes(ip, i) + w.s)
      && (w.Bytes? ==> (|w.s| == OperSize(ip.m.types[i], ip.ops[i], ip.ext) <==> !Dropped(ip.m, i, ip.ops[i])))
  {
    hide OperSize, OperandBytes, Dropped, InTable;
    OperandFacts(ip, i);
    OperandAgrees(ip.m, i, ip.ops[i], ip.ext);
  }

  lemma {:induction false} SizeMono(m: Mnemonic, ops: seq<Operand>, ext: Ext, i: nat, n: nat)
    requires i <= n <= |ops| <= |m.types|
    ensures OperandsSize(m, ops, ext, i) <= OperandsSize(m, ops, ext, n)
  {
    hide OperSize;
    if i < n { SizeMono(m, ops, ext, i, n - 1); }
  }

  /** One instruction. Its code stays within the size computed for it; without an error it is the
      instruction's code to the bit, and takes all of that size if and only if no extension words
      are dropped. */
  method EvalInstruction(buf: array<Byte>, d: nat, ip: Instruction, apollo: bool) returns (ok: bool, d': nat)
    requires Valid(ip) && ip.Instruction? && d + IpSize(ip) <= buf.Length
    modifies buf
    ensures d <= d' <= d + IpSize(ip) && Between(old(buf[..]), buf[..], d, d + IpSize(ip))
    ensures ok <==> forall i :: 0 <= i < Written(ip) ==> Encodable(ip, i, apollo)
    ensures ok ==> IsCode(buf[..], d, ip, Written(ip)) && d' == d + CodeLength(ip)
    ensures ok ==> (d' == d + IpSize(ip) <==> !Drops(ip, |ip.ops|))
  {
    hide OperSize, OperandBytes, Dropped, Drops, OperandsSize, Allowed, InTable, Between, IsCode, ExtBytes, Reduced,
      PlaceMarks, MarkedIn, Patch, InReach, OpcodeBytes, Fits, BankPrefix;
    ghost var t, n := buf[..], |ip.ops|;
    ghost var base := d + 2 * ip.m.words;
    Words(ip);
    BankedThird(ip);
    ok := true;
    d' := WriteOpcode(buf, d, ip);
    var i := 0;
    var last := Written(ip);
    while i < last
      invariant 0 <= i <= last && base <= d' <= base + OperandsSize(ip.m, ip.ops, ip.ext, i)
      invariant ok <==> forall j :: 0 <= j < i ==> Encodable(ip, j, apollo)
      invariant ok ==> (d' == base + OperandsSize(ip.m, ip.ops, ip.ext, i) <==> !Drops(ip, i))
      invariant ok ==> IsCode(buf[..], d, ip, i) && d' == base + |ExtBytes(ip, i)|
      invariant Between(t, buf[..], d, d')
    {
      OneMore(ip, i);
      SizeMono(ip.m, ip.ops, ip.ext, i + 1, n);
      BranchAlone(ip, i);
      ghost var u, e := buf[..], d';
      var good;
      ghost var mid;
      good, d', mid := WriteOperand(buf, d + Prefix(ip.m), d', ip, i, apollo);
      BetweenWider(u, buf[..], d, d + Prefix(ip.m), d', d');
      BetweenThen(t, u, buf[..], d, e, d');
      if ok && good {
        if ip.m.places[i].BRA? {
          BranchWritten(u, buf[..], d, ip);
        } else {
          MarkedLength(u, mid, d + Prefix(ip.m), PlaceMarks(ip.m.places[i], Reduced(ip.m, ip.m.types[i], ip.ops[i])));
          OperandWritten(u, mid, buf[..], d, ip, i);
        }
      }
      ok := ok && good;
      i := i + 1;
    }
    if last < n { OneMore(ip, 2); }
    BetweenWider(t, buf[..], d, d, d', d + IpSize(ip));
  }

  lemma Words(ip: Instruction)
    requires Valid(ip) && ip.Instruction?
    ensures 1 <= ip.m.words <= 3 && IpSize(ip) == 2 * ip.m.words + OperandsSize(ip.m, ip.ops, ip.ext, |ip.ops|)
    ensures 1 <= OpWords(ip.m) && Prefix(ip.m) + 2 * OpWords(ip.m) == 2 * ip.m.words && InTable(ip.m)
    ensures |ip.ops| <= |ip.m.types| == |ip.m.places|
    ensures OperandsSize(ip.m, ip.ops, ip.ext, 0) == 0 && !Drops(ip, 0) && ExtBytes(ip, 0) == []
    ensures 2 * ip.m.words <= IpSize(ip)
  {
  }

  // ----- instruction lists

  /** No instruction of the list has extension words that are dropped. */
  predicate NoneDropped(ips: seq<Instruction>)
    requires forall i :: 0 <= i < |ips| ==> Valid(ips[i])
  {
    forall i :: 0 <= i < |ips| && ips[i].Instruction? ==> !Drops(ips[i], |ips[i].ops|)
  }

  /** The first k instructions can be written without an error. */
  predicate AllEncodable(ips: seq<Instruction>, k: nat, apollo: bool)
    requires k <= |ips| && forall i :: 0 <= i < |ips| ==> Valid(ips[i])
  {
    forall n, i :: 0 <= n < k && ips[n].Instruction? && 0 <= i < Written(ips[n]) ==> Encodable(ips[n], i, apollo)
  }

  /** Where the code of the k-th instruction starts. */
  function At(ips: seq<Instruction>, k: nat): nat
    requires k <= |ips| && forall i :: 0 <= i < |ips| ==> Valid(ips[i])
  {
    if k == 0 then 0 else At(ips, k - 1) + CodeLength(ips[k - 1])
  }

  /** The code of the first k instructions stands where it belongs. */
  ghost predicate Coded(s: seq<Byte>, ips: seq<Instruction>, k: nat)
    requires k <= |ips| && forall i :: 0 <= i < |ips| ==> Valid(ips[i])
  {
    forall i :: 0 <= i < k && ips[i].Instruction? ==> IsCode(s, At(ips, i), ips[i], Written(ips[i]))
  }

  lemma IsCodeFrame(s: seq<Byte>, s': seq<Byte>, d: nat, ip: Instruction, n: nat)
    requires Valid(ip) && ip.Instruction? && n <= |ip.ops| && IsCode(s, d, ip, n) && |s'| == |s|
    requires var e := d + 2 * ip.m.words + |ExtBytes(ip, n)|; e <= |s| && s'[..e] == s[..e]
    ensures IsCode(s', d, ip, n)
  {
    hide Bit, Sets, ExtBytes, FirstBytes, AllMarks, InTable;
    var base := d + 2 * ip.m.words;
    var e := base + |ExtBytes(ip, n)|;
    assert s'[base..e] == s'[..e][base..] && s[base..e] == s[..e][base..];
    forall k | 8 * d <= k < 8 * base ensures BitAt(s', k) <==> BitAt(s, k) {
      assert s'[k / 8] == s'[..e][k / 8] && s[k / 8] == s[..e][k / 8];
    }
  }

  lemma {:induction false} AtMono(ips: seq<Instruction>, i: nat, k: nat)
    requires i < k <= |ips| && forall i :: 0 <= i < |ips| ==> Valid(ips[i])
    ensures At(ips, i) + CodeLength(ips[i]) <= At(ips, k)
  {
    hide CodeLength, InTable, Allowed;
    if i + 1 < k { AtMono(ips, i, k - 1); }
  }

  lemma CodedFrame(s: seq<Byte>, s': seq<Byte>, ips: seq<Instruction>, k: nat)
    requires k <= |ips| && forall i :: 0 <= i < |ips| ==> Valid(ips[i])
    requires Coded(s, ips, k) && |s'| == |s| && At(ips, k) <= |s| && s'[..At(ips, k)] == s[..At(ips, k)]
    ensures Coded(s', ips, k)
  {
    hide IsCode, At, InTable, Allowed;
    forall i | 0 <= i < k && ips[i].Instruction? ensures IsCode(s', At(ips, i), ips[i], Written(ips[i])) {
      AtMono(ips, i, k);
      var e := At(ips, i) + CodeLength(ips[i]);
      assert s'[..e] == s'[..At(ips, k)][..e] && s[..e] == s[..At(ips, k)][..e];
      IsCodeFrame(s, s', At(ips, i), ips[i], Written(ips[i]));
    }
  }

  lemma ListStep(ips: seq<Instruction>, k: nat)
    requires k < |ips| && forall i :: 0 <= i < |ips| ==> Valid(ips[i])
    ensures IpListSize(ips[k..]) == IpSize(ips[k]) + IpListSize(ips[k + 1..])
    ensures NoneDropped(ips[..k + 1]) <==>
      NoneDropped(ips[..k]) && (ips[k].Instruction? ==> !Drops(ips[k], |ips[k].ops|))
    ensures At(ips, k + 1) == At(ips, k) + CodeLength(ips[k])
  {
    assert ips[k..][1..] == ips[k + 1..];
    assert ips[..k + 1] == ips[..k] + [ips[k]];
  }

  /** The code of the whole list, in a buffer of exactly the size computed for it: the code never
      runs over it; without an error it is each instruction's code to the bit, one behind the
      other, and fills the buffer if and only if no extension words are dropped. */
  method EvalInstructions(ips: seq<Instruction>, apollo: bool) returns (buf: array<Byte>, n: nat, ok: bool)
    requires forall i :: 0 <= i < |ips| ==> Valid(ips[i])
    ensures fresh(buf) && buf.Length == IpListSize(ips)
    ensures ok <==> AllEncodable(ips, |ips|, apollo)
    ensures n <= buf.Length && (ok ==> (n == buf.Length <==> NoneDropped(ips)))
    ensures ok ==> n == At(ips, |ips|) && Coded(buf[..], ips, |ips|)
  {
    hide IpSize, IpListSize, Drops, NoneDropped, InTable, Allowed, IsCode, CodeLength, At, Coded, Encodable;
    var size := SizeOfList(ips);
    buf := new Byte[size];
    ok, n := true, 0;
    var k := 0;
    ListEnds(ips, buf[..]);
    while k < |ips|
      invariant 0 <= k <= |ips| && fresh(buf) && n + IpListSize(ips[k..]) <= buf.Length
      invariant ok <==> AllEncodable(ips, k, apollo)
      invariant ok ==> (n + IpListSize(ips[k..]) == buf.Length <==> NoneDropped(ips[..k]))
      invariant ok ==> n == At(ips, k) && Coded(buf[..], ips, k)
    {
      ListStep(ips, k);
      ghost var t := buf[..];
      if ips[k].Instruction? {
        ghost var d := n;
        var good;
        good, n := EvalInstruction(buf, n, ips[k], apollo);
        if ok && good { CodedNext(t, buf[..], ips, k); }
        ok := ok && good;
      } else {
        DeletedSize(ips[k]);
        if ok { CodedNext(t, t, ips, k); }
      }
      k := k + 1;
    }
    assert ips[..|ips|] == ips;
  }

  lemma CodedNext(t: seq<Byte>, t': seq<Byte>, ips: seq<Instruction>, k: nat)
    requires k < |ips| && forall i :: 0 <= i < |ips| ==> Valid(ips[i])
    requires Coded(t, ips, k) && At(ips, k) <= |t| == |t'| && t'[..At(ips, k)] == t[..At(ips, k)]
    requires ips[k].Instruction? ==> IsCode(t', At(ips, k), ips[k], Written(ips[k]))
    ensures Coded(t', ips, k + 1)
  {
    hide IsCode, At, InTable, Allowed;
    CodedFrame(t, t', ips, k);
  }

  lemma ListEnds(ips: seq<Instruction>, s: seq<Byte>)
    requires forall i :: 0 <= i < |ips| ==> Valid(ips[i])
    ensures ips[0..] == ips && NoneDropped(ips[..0]) && ips[|ips|..] == [] && IpListSize([]) == 0
    ensures At(ips, 0) == 0 && Coded(s, ips, 0)
  {
  }

  lemma DeletedSize(ip: Instruction)
    requires ip.Deleted?
    ensures IpSize(ip) == 0 && CodeLength(ip) == 0
  {
  }
}
