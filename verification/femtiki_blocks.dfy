/** The message blocks and who owns each: the pool, a mailbox queue, or the routine at work. */
module Blocks {
  import opened KernelTypes
  import opened Seqs

  const POOL := 0
  const IN_HAND := -1

  /** own[b] is POOL, IN_HAND or the mailbox whose queue holds block b; free is the pool in
      link order and queued[m] the queue of mailbox m in link order. */
  datatype Ownership = Ownership(own: seq<int>, free: seq<int>, queued: seq<seq<int>>)

  ghost predicate Members(own: seq<int>, s: seq<int>, who: int)
    requires |own| == NR_MSG + 1
  {
    && Distinct(s)
    && (forall b :: b in s ==> IsMsg(b) && own[b] == who)
    && (forall b :: IsMsg(b) && own[b] == who ==> b in s)
  }

  /** Every block is on the pool's list, on one mailbox's queue or in hand, and only there. */
  ghost predicate Partitioned(o: Ownership) {
    && |o.own| == NR_MSG + 1
    && |o.queued| == NR_MBX + 1
    && (forall b :: IsMsg(b) ==> IN_HAND <= o.own[b] <= NR_MBX)
    && Members(o.own, o.free, POOL)
    && (forall m :: IsMbx(m) ==> Members(o.own, o.queued[m], m))
  }

  /** Between two calls no block is in a routine's hands. */
  ghost predicate NoneInHand(o: Ownership)
    requires |o.own| == NR_MSG + 1
  {
    forall b :: IsMsg(b) ==> o.own[b] != IN_HAND
  }

  function Take(o: Ownership): Ownership
    requires o.free != [] && 0 <= o.free[0] < |o.own|
  {
    o.(own := o.own[o.free[0] := IN_HAND], free := o.free[1..])
  }

  function Give(o: Ownership, b: int): Ownership
    requires 0 <= b < |o.own|
  {
    o.(own := o.own[b := POOL], free := [b] + o.free)
  }

  function Append(o: Ownership, m: int, b: int): Ownership
    requires 0 <= b < |o.own| && 0 <= m < |o.queued|
  {
    o.(own := o.own[b := m], queued := o.queued[m := o.queued[m] + [b]])
  }

  function TakeHead(o: Ownership, m: int): Ownership
    requires 0 <= m < |o.queued| && o.queued[m] != [] && 0 <= o.queued[m][0] < |o.own|
  {
    o.(own := o.own[o.queued[m][0] := IN_HAND], queued := o.queued[m := o.queued[m][1..]])
  }

  lemma MembersFrame(own: seq<int>, s: seq<int>, who: int, b: int, w: int)
    requires |own| == NR_MSG + 1 && IsMsg(b)
    requires Members(own, s, who) && own[b] != who && w != who
    ensures Members(own[b := w], s, who)
  {
  }

  lemma MembersTail(own: seq<int>, s: seq<int>, who: int)
    requires |own| == NR_MSG + 1 && Members(own, s, who) && s != [] && who != IN_HAND
    ensures IsMsg(s[0]) && Members(own[s[0] := IN_HAND], s[1..], who)
  {
    assert s == [s[0]] + s[1..];
    assert s[0] in s;
    forall b | b in s[1..] ensures b in s && b != s[0] { }
  }

  lemma TakePartitioned(o: Ownership)
    requires Partitioned(o) && o.free != []
    ensures IsMsg(o.free[0]) && o.own[o.free[0]] == POOL
    ensures Partitioned(Take(o))
  {
    MembersTail(o.own, o.free, POOL);
    assert o.free[0] in o.free;
    forall m | IsMbx(m) ensures Members(Take(o).own, o.queued[m], m) {
      MembersFrame(o.own, o.queued[m], m, o.free[0], IN_HAND);
    }
  }

  lemma GivePartitioned(o: Ownership, b: int)
    requires Partitioned(o) && IsMsg(b) && o.own[b] == IN_HAND
    ensures Partitioned(Give(o, b))
  {
    forall m | IsMbx(m) ensures Members(Give(o, b).own, o.queued[m], m) {
      MembersFrame(o.own, o.queued[m], m, b, POOL);
    }
    var f := [b] + o.free;
    assert forall i :: 0 < i < |f| ==> f[i] == o.free[i - 1] && f[i] in o.free;
  }

  lemma AppendPartitioned(o: Ownership, m: int, b: int)
    requires Partitioned(o) && IsMbx(m) && IsMsg(b) && o.own[b] == IN_HAND
    ensures Partitioned(Append(o, m, b))
  {
    var o' := Append(o, m, b);
    MembersFrame(o.own, o.free, POOL, b, m);
    forall k | IsMbx(k) ensures Members(o'.own, o'.queued[k], k) {
      if k == m {
        assert b !in o.queued[m];
        DistinctAppend(o.queued[m], b);
      } else {
        MembersFrame(o.own, o.queued[k], k, b, m);
      }
    }
  }

  lemma TakeHeadPartitioned(o: Ownership, m: int)
    requires Partitioned(o) && IsMbx(m) && o.queued[m] != []
    ensures IsMsg(o.queued[m][0]) && o.own[o.queued[m][0]] == m
    ensures Partitioned(TakeHead(o, m))
  {
    MembersTail(o.own, o.queued[m], m);
    var o' := TakeHead(o, m);
    assert o.queued[m][0] in o.queued[m];
    MembersFrame(o.own, o.free, POOL, o.queued[m][0], IN_HAND);
    forall k | IsMbx(k) ensures Members(o'.own, o'.queued[k], k) {
      if k != m { MembersFrame(o.own, o.queued[k], k, o.queued[m][0], IN_HAND); }
    }
  }

  // ----- conservation

  /** How many blocks are queued at mailboxes 1 to m. */
  ghost function Queued(o: Ownership, m: nat): nat
    requires m < |o.queued|
  {
    if m == 0 then 0 else Queued(o, m - 1) + |o.queued[m]|
  }

  ghost function OwnedUpTo(o: Ownership, m: int): set<int>
    requires |o.own| == NR_MSG + 1
  {
    set b | 1 <= b <= NR_MSG && 0 <= o.own[b] <= m
  }

  lemma {:induction false} OwnedCounts(o: Ownership, m: nat)
    requires Partitioned(o) && m <= NR_MBX
    ensures |OwnedUpTo(o, m)| == |o.free| + Queued(o, m)
  {
    if m == 0 {
      SetSize(o.free);
      assert OwnedUpTo(o, 0) == set b | b in o.free;
    } else {
      OwnedCounts(o, m - 1);
      SetSize(o.queued[m]);
      assert Members(o.own, o.queued[m], m);
      var s := set b | b in o.queued[m];
      assert OwnedUpTo(o, m) == OwnedUpTo(o, m - 1) + s;
      assert OwnedUpTo(o, m - 1) !! s;
    }
  }

  /** No block is lost and none is in two places: the pool and the queues together always hold
      NR_MSG blocks. */
  lemma BlocksConserved(o: Ownership)
    requires Partitioned(o) && NoneInHand(o)
    ensures |o.free| + Queued(o, NR_MBX) == NR_MSG
  {
    OwnedCounts(o, NR_MBX);
    var all := seq(NR_MSG, i => i + 1);
    SetSize(all);
    forall b | 1 <= b <= NR_MSG ensures b in all { assert all[b - 1] == b; }
    assert OwnedUpTo(o, NR_MBX) == set b | b in all;
  }

  // ----- singly linked chains of blocks

  ghost predicate Link(ms: seq<Msg>, s: seq<int>, i: int)
    requires 0 <= i < |s|
  {
    && 1 <= s[i] <= |ms|
    && ms[s[i] - 1].link == if i + 1 < |s| then s[i + 1] else 0
  }

  ghost predicate Chain(ms: seq<Msg>, head: int, s: seq<int>) {
    && head == (if s == [] then 0 else s[0])
    && forall i {:trigger Link(ms, s, i)} :: 0 <= i < |s| ==> Link(ms, s, i)
  }

  lemma ChainFrame(ms: seq<Msg>, ms': seq<Msg>, head: int, s: seq<int>)
    requires Chain(ms, head, s) && |ms'| == |ms|
    requires forall b :: b in s && 1 <= b <= |ms| ==> ms'[b - 1].link == ms[b - 1].link
    ensures Chain(ms', head, s)
  {
    forall i | 0 <= i < |s| ensures Link(ms', s, i) {
      assert Link(ms, s, i);
      assert s[i] in s;
    }
  }

  lemma ChainTail(ms: seq<Msg>, head: int, s: seq<int>)
    requires Chain(ms, head, s) && s != []
    ensures 1 <= head <= |ms|
    ensures Chain(ms, ms[head - 1].link, s[1..])
  {
    assert Link(ms, s, 0);
    forall i | 0 <= i < |s| - 1 ensures Link(ms, s[1..], i) {
      assert Link(ms, s, i + 1);
    }
  }

  lemma ChainCons(ms: seq<Msg>, head: int, s: seq<int>, b: int)
    requires Chain(ms, head, s) && 1 <= b <= |ms| && b !in s
    requires ms[b - 1].link == head
    ensures Chain(ms, b, [b] + s)
  {
    var t := [b] + s;
    forall i | 0 <= i < |t| ensures Link(ms, t, i) {
      if i > 0 { assert Link(ms, s, i - 1); }
    }
  }

  /** Hanging block b on behind the last block of the chain. */
  lemma ChainAppend(ms: seq<Msg>, ms': seq<Msg>, head: int, s: seq<int>, b: int)
    requires Chain(ms, head, s) && |ms'| == |ms| && 1 <= b <= |ms| && b !in s && Distinct(s)
    requires ms'[b - 1].link == 0
    requires forall c :: c in s && 1 <= c <= |ms| ==>
      ms'[c - 1].link == if c == s[|s| - 1] then b else ms[c - 1].link
    ensures Chain(ms', if s == [] then b else head, s + [b])
  {
    var t := s + [b];
    forall i | 0 <= i < |t| ensures Link(ms', t, i) {
      if i < |s| {
        assert Link(ms, s, i);
        assert s[i] in s;
      }
    }
  }
}
