/** What it means for the words of the thread control blocks, the ready queue heads and the head
    of the timeout list to hold the abstract lists, and why each routine's writes keep it so
    (software/Femtiki/source/kernel/tcb.c). All lists run through the same next and prev fields
    by 1-based handle; 0 is no thread. */
module ThreadWords {
  import opened KernelTypes
  import opened Seqs
  import opened ThreadLists
  import T = Timeouts

  /** The words that hold the lists. */
  datatype Image = Image(tcbs: seq<Tcb>, readyQ: seq<int>, timeoutList: int, freeTCB: int)

  // ----- what it means for the words to hold the abstract lists

  /** The i-th member of a circular ring points at its neighbours. */
  ghost predicate RingLink(tc: seq<Tcb>, r: seq<int>, i: int)
    requires 0 <= i < |r|
  {
    && 1 <= r[i] <= |tc|
    && tc[r[i] - 1].next == (if i + 1 < |r| then r[i + 1] else r[0])
    && tc[r[i] - 1].prev == (if i > 0 then r[i - 1] else r[|r| - 1])
  }

  ghost predicate Ring(tc: seq<Tcb>, head: int, r: seq<int>) {
    && head == (if r == [] then 0 else r[0])
    && forall i {:trigger RingLink(tc, r, i)} :: 0 <= i < |r| ==> RingLink(tc, r, i)
  }

  /** The i-th entry of the timeout list points at its neighbours and holds its delta. */
  ghost predicate ListLink(tc: seq<Tcb>, l: seq<T.Entry>, i: int)
    requires 0 <= i < |l|
  {
    && 1 <= l[i].h <= |tc|
    && tc[l[i].h - 1].next == (if i + 1 < |l| then l[i + 1].h else 0)
    && tc[l[i].h - 1].prev == (if i > 0 then l[i - 1].h else 0)
    && tc[l[i].h - 1].timeout == l[i].delta
  }

  ghost predicate List(tc: seq<Tcb>, head: int, l: seq<T.Entry>) {
    && head == (if l == [] then 0 else l[0].h)
    && forall i {:trigger ListLink(tc, l, i)} :: 0 <= i < |l| ==> ListLink(tc, l, i)
  }

  ghost predicate Slot(tc: seq<Tcb>, ts: Threads, h: int)
    requires |tc| == NR_TCB && |ts.thr| == |ts.loc| == NR_TCB + 1 && IsTcb(h)
  {
    && tc[h - 1].info == ts.thr[h]
    && (ts.loc[h] == OffList ==> tc[h - 1].next == 0 && tc[h - 1].prev == 0)
    && (ts.loc[h] == FreeTcb ==> tc[h - 1].next == if h < NR_TCB then h + 1 else 0)
  }

  ghost predicate Holds(m: Image, ts: Threads) {
    && |m.tcbs| == NR_TCB && |m.readyQ| == LEVELS
    && WellFormed(ts)
    && m.freeTCB == (if ts.firstFree <= NR_TCB then ts.firstFree else 0)
    && (forall h {:trigger Slot(m.tcbs, ts, h)} :: IsTcb(h) ==> Slot(m.tcbs, ts, h))
    && (forall p :: 0 <= p < LEVELS ==> Ring(m.tcbs, m.readyQ[p], ts.rings[p]))
    && List(m.tcbs, m.timeoutList, ts.sleepers)
  }

  ghost predicate SameLinks(tc: seq<Tcb>, tc': seq<Tcb>, h: int)
    requires |tc'| == |tc| && 1 <= h <= |tc|
  {
    && tc'[h - 1].next == tc[h - 1].next
    && tc'[h - 1].prev == tc[h - 1].prev
    && tc'[h - 1].timeout == tc[h - 1].timeout
  }

  /** What the list operations leave alone: the mailbox queue links of every thread. */
  ghost predicate SameMailboxLinks(tc: seq<Tcb>, tc': seq<Tcb>) {
    && |tc'| == |tc|
    && forall i :: 0 <= i < |tc| ==> tc'[i].mbqNext == tc[i].mbqNext && tc'[i].mbqPrev == tc[i].mbqPrev
  }

  /** No block is linked into a queue at a mailbox. */
  ghost predicate Settled(tc: seq<Tcb>) {
    forall i :: 0 <= i < |tc| ==> tc[i].mbqNext == 0 && tc[i].mbqPrev == 0
  }

  lemma RingFrame(tc: seq<Tcb>, tc': seq<Tcb>, head: int, r: seq<int>)
    requires Ring(tc, head, r) && |tc'| == |tc|
    requires forall h :: h in r && 1 <= h <= |tc| ==> SameLinks(tc, tc', h)
    ensures Ring(tc', head, r)
  {
    forall i | 0 <= i < |r| ensures RingLink(tc', r, i) {
      assert RingLink(tc, r, i);
      assert r[i] in r;
    }
  }

  lemma ListFrame(tc: seq<Tcb>, tc': seq<Tcb>, head: int, l: seq<T.Entry>)
    requires List(tc, head, l) && |tc'| == |tc|
    requires forall h :: T.Listed(l, h) && 1 <= h <= |tc| ==> SameLinks(tc, tc', h)
    ensures List(tc', head, l)
  {
    forall i | 0 <= i < |l| ensures ListLink(tc', l, i) {
      assert ListLink(tc, l, i);
      assert T.Listed(l, l[i].h);
    }
  }

  /** Rings other than p, and the timeout list, hold on when only threads of ring p or off every
      list have been relinked. */
  lemma RingsFrame(m: Image, n: Image, ts: Threads, ts': Threads, p: nat)
    requires Holds(m, ts) && |n.tcbs| == NR_TCB && |n.readyQ| == LEVELS && p < LEVELS
    requires ts'.sleepers == ts.sleepers && n.timeoutList == m.timeoutList
    requires |ts'.rings| == LEVELS && forall q :: 0 <= q < LEVELS && q != p ==> ts'.rings[q] == ts.rings[q]
    requires forall q :: 0 <= q < LEVELS && q != p ==> n.readyQ[q] == m.readyQ[q]
    requires forall h {:trigger ts.loc[h]} ::
      IsTcb(h) && ts.loc[h] != OnRing(p) && ts.loc[h] != OffList ==> SameLinks(m.tcbs, n.tcbs, h)
    ensures forall q :: 0 <= q < LEVELS && q != p ==> Ring(n.tcbs, n.readyQ[q], ts'.rings[q])
    ensures List(n.tcbs, n.timeoutList, ts'.sleepers)
  {
    forall q | 0 <= q < LEVELS && q != p ensures Ring(n.tcbs, n.readyQ[q], ts'.rings[q]) {
      assert RingMembers(ts.loc, ts.rings[q], q);
      RingFrame(m.tcbs, n.tcbs, m.readyQ[q], ts.rings[q]);
    }
    ListFrame(m.tcbs, n.tcbs, m.timeoutList, ts.sleepers);
  }

  /** The same for every ring, when only the timeout list and threads off every list changed. */
  lemma AllRingsFrame(m: Image, n: Image, ts: Threads)
    requires Holds(m, ts) && |n.tcbs| == NR_TCB && n.readyQ == m.readyQ
    requires forall h {:trigger ts.loc[h]} :: IsTcb(h) && ts.loc[h].OnRing? ==> SameLinks(m.tcbs, n.tcbs, h)
    ensures forall q :: 0 <= q < LEVELS ==> Ring(n.tcbs, n.readyQ[q], ts.rings[q])
  {
    forall q | 0 <= q < LEVELS ensures Ring(n.tcbs, n.readyQ[q], ts.rings[q]) {
      assert RingMembers(ts.loc, ts.rings[q], q);
      RingFrame(m.tcbs, n.tcbs, m.readyQ[q], ts.rings[q]);
    }
  }

  lemma SlotFacts(m: Image, ts: Threads, h: int)
    requires Holds(m, ts) && IsTcb(h)
    ensures |m.tcbs| == NR_TCB && |m.readyQ| == LEVELS == |ts.rings| && |ts.thr| == |ts.loc| == NR_TCB + 1
    ensures m.tcbs[h - 1].info == ts.thr[h]
  {
    assert Slot(m.tcbs, ts, h);
  }

  /** Changing what a block says, but no link, changes that thread's record alone. */
  lemma SetInfoHolds(m: Image, ts: Threads, h: int, b: Tcb)
    requires Holds(m, ts) && IsTcb(h)
    requires b.next == m.tcbs[h - 1].next && b.prev == m.tcbs[h - 1].prev && b.timeout == m.tcbs[h - 1].timeout
    ensures Holds(m.(tcbs := m.tcbs[h - 1 := b]), SetThread(ts, h, b.info))
  {
    var n := m.(tcbs := m.tcbs[h - 1 := b]);
    var ts' := SetThread(ts, h, b.info);
    forall g | IsTcb(g) ensures Slot(n.tcbs, ts', g) && SameLinks(m.tcbs, n.tcbs, g) {
      assert Slot(m.tcbs, ts, g);
    }
    AllRingsFrame(m, n, ts);
    ListFrame(m.tcbs, n.tcbs, m.timeoutList, ts.sleepers);
  }

  // ----- linking a block in and out

  /** Block ht linked in after prv and before nxt (0: no neighbour), whose wait is cut by rem. */
  ghost function Link(tc: seq<Tcb>, ht: int, prv: int, nxt: int, rem: int, b: Tcb): (r: seq<Tcb>) {
    seq(|tc|, i requires 0 <= i < |tc| =>
      if i + 1 == ht then b.(next := nxt, prev := prv)
      else tc[i].(next := if i + 1 == prv then ht else tc[i].next,
                  prev := if i + 1 == nxt then ht else tc[i].prev,
                  timeout := if i + 1 == nxt then tc[i].timeout - rem else tc[i].timeout))
  }

  /** Block ht linked out from between prv and nxt, which takes over carry ticks, and cleared. */
  ghost function Unlink(tc: seq<Tcb>, ht: int, prv: int, nxt: int, carry: int): (r: seq<Tcb>) {
    seq(|tc|, i requires 0 <= i < |tc| =>
      if i + 1 == ht then tc[i].(next := 0, prev := 0, info := tc[i].info.(status := TS_NONE))
      else tc[i].(next := if i + 1 == prv then nxt else tc[i].next,
                  prev := if i + 1 == nxt then prv else tc[i].prev,
                  timeout := if i + 1 == nxt then tc[i].timeout + carry else tc[i].timeout))
  }

  function Cleared(t: Tcb): Tcb {
    t.(next := 0, prev := 0, info := t.info.(status := TS_NONE))
  }

  /** Writes through a handle; a handle that names no block writes nothing. */
  function WithNext(tc: seq<Tcb>, h: int, next: int): (r: seq<Tcb>)
    ensures |r| == |tc|
  {
    if 1 <= h <= |tc| then tc[h - 1 := tc[h - 1].(next := next)] else tc
  }

  function WithPrev(tc: seq<Tcb>, h: int, prev: int): (r: seq<Tcb>)
    ensures |r| == |tc|
  {
    if 1 <= h <= |tc| then tc[h - 1 := tc[h - 1].(prev := prev)] else tc
  }

  function WithTimeoutAdded(tc: seq<Tcb>, h: int, ticks: int): (r: seq<Tcb>)
    ensures |r| == |tc|
  {
    if 1 <= h <= |tc| then tc[h - 1 := tc[h - 1].(timeout := tc[h - 1].timeout + ticks)] else tc
  }

  /** The writes of the two removals amount to Unlink. */
  lemma UnlinkByWrites(tc: seq<Tcb>, ht: int, prv: int, nxt: int, carry: int)
    requires 1 <= ht <= |tc| && nxt != ht && prv != ht
    ensures WithNext(WithTimeoutAdded(WithPrev(tc, nxt, prv), nxt, carry), prv, nxt)[ht - 1 := Cleared(tc[ht - 1])]
         == Unlink(tc, ht, prv, nxt, carry)
  {
  }

  lemma UnlinkRingByWrites(tc: seq<Tcb>, ht: int, prv: int, nxt: int)
    requires 1 <= ht <= |tc| && nxt != ht && prv != ht
    ensures WithNext(WithPrev(tc, nxt, prv), prv, nxt)[ht - 1 := Cleared(tc[ht - 1])]
         == Unlink(tc, ht, prv, nxt, 0)
  {
  }

  lemma UnlinkHeadByWrites(tc: seq<Tcb>, ht: int, nxt: int)
    requires 1 <= ht <= |tc| && nxt != ht
    ensures WithPrev(tc[ht - 1 := Cleared(tc[ht - 1])], nxt, 0) == Unlink(tc, ht, 0, nxt, 0)
  {
  }

  lemma UnlinkAloneByWrites(tc: seq<Tcb>, ht: int)
    requires 1 <= ht <= |tc|
    ensures tc[ht - 1 := Cleared(tc[ht - 1])] == Unlink(tc, ht, ht, ht, 0)
  {
  }

  /** The writes of the two insertions amount to Link. */
  lemma LinkByWrites(tc: seq<Tcb>, ht: int, prv: int, nxt: int, rem: int, b: Tcb)
    requires 1 <= ht <= |tc| && nxt != ht && prv != ht
    ensures var t := tc[ht - 1 := b.(next := nxt, prev := prv)];
      WithNext(WithPrev(WithTimeoutAdded(t, nxt, -rem), nxt, ht), prv, ht) == Link(tc, ht, prv, nxt, rem, b)
  {
  }

  lemma LinkRingByWrites(tc: seq<Tcb>, ht: int, prv: int, nxt: int, b: Tcb)
    requires 1 <= ht <= |tc| && 1 <= nxt <= |tc| && 1 <= prv <= |tc| && nxt != ht && prv != ht
    ensures var t := tc[ht - 1 := b.(next := nxt, prev := prv)];
      WithPrev(WithNext(t, prv, ht), nxt, ht) == Link(tc, ht, prv, nxt, 0, b)
  {
  }

  lemma LinkAloneByWrites(tc: seq<Tcb>, ht: int, b: Tcb)
    requires 1 <= ht <= |tc|
    ensures tc[ht - 1 := b.(next := ht, prev := ht)] == Link(tc, ht, ht, ht, 0, b)
  {
  }

  lemma LinkSameMailbox(tc: seq<Tcb>, ht: int, prv: int, nxt: int, rem: int, b: Tcb)
    requires 1 <= ht <= |tc| && b.mbqNext == tc[ht - 1].mbqNext && b.mbqPrev == tc[ht - 1].mbqPrev
    ensures SameMailboxLinks(tc, Link(tc, ht, prv, nxt, rem, b))
  {
  }

  lemma UnlinkSameMailbox(tc: seq<Tcb>, ht: int, prv: int, nxt: int, carry: int)
    ensures SameMailboxLinks(tc, Unlink(tc, ht, prv, nxt, carry))
  {
  }

  function Readied(t: Tcb): Tcb {
    t.(info := t.info.(status := t.info.status.(ready := true)))
  }

  function Timed(t: Tcb, rem: int): Tcb {
    t.(timeout := rem, info := t.info.(status := t.info.status.(timeout := true)))
  }

  // ----- appending to a ring

  ghost function InsertReadyImage(m: Image, ts: Threads, ht: int): Image
    requires Holds(m, ts) && IsTcb(ht) && ts.thr[ht].priority < LEVELS
  {
    var p := ts.thr[ht].priority;
    var r := ts.rings[p];
    var b := Readied(m.tcbs[ht - 1]);
    if r == [] then m.(tcbs := Link(m.tcbs, ht, ht, ht, 0, b), readyQ := m.readyQ[p := ht])
    else m.(tcbs := Link(m.tcbs, ht, r[|r| - 1], r[0], 0, b))
  }

  lemma InsertRing(m: Image, ts: Threads, ht: int)
    requires Holds(m, ts) && IsTcb(ht) && ts.loc[ht] == OffList && ts.thr[ht].priority < LEVELS
    ensures var p := ts.thr[ht].priority; var n := InsertReadyImage(m, ts, ht);
      Ring(n.tcbs, n.readyQ[p], ts.rings[p] + [ht])
  {
    var p := ts.thr[ht].priority;
    var r := ts.rings[p];
    var n := InsertReadyImage(m, ts, ht);
    assert Ring(m.tcbs, m.readyQ[p], r);
    forall i | 0 <= i < |r| + 1 ensures RingLink(n.tcbs, r + [ht], i) {
      if i < |r| {
        assert RingLink(m.tcbs, r, i);
        assert r[i] in r;
      }
    }
  }

  lemma InsertReadyHolds(m: Image, ts: Threads, ht: int)
    requires Holds(m, ts) && IsTcb(ht) && ts.loc[ht] == OffList && ts.thr[ht].priority < LEVELS
    ensures Holds(InsertReadyImage(m, ts, ht), InsertReady(ts, ht))
  {
    var p := ts.thr[ht].priority;
    var r := ts.rings[p];
    var n := InsertReadyImage(m, ts, ht);
    var ts' := InsertReady(ts, ht);
    InsertReadyWellFormed(ts, ht);
    if r != [] { assert r[0] in r && r[|r| - 1] in r; }
    forall h | IsTcb(h)
      ensures Slot(n.tcbs, ts', h)
      ensures ts.loc[h] != OnRing(p) && h != ht ==> SameLinks(m.tcbs, n.tcbs, h)
    {
      assert Slot(m.tcbs, ts, h);
    }
    RingsFrame(m, n, ts, ts', p);
    InsertRing(m, ts, ht);
  }

  /** What an insertion may rely on. */
  lemma ReadyFacts(m: Image, ts: Threads, ht: int)
    requires Holds(m, ts) && IsTcb(ht) && ts.loc[ht] == OffList
    ensures m.tcbs[ht - 1].info == ts.thr[ht] && m.tcbs[ht - 1].next == m.tcbs[ht - 1].prev == 0
    ensures ts.thr[ht].priority < LEVELS ==>
      var p := ts.thr[ht].priority;
      var r := ts.rings[p];
      && m.readyQ[p] == (if r == [] then 0 else r[0])
      && (r != [] ==> IsTcb(r[0]) && IsTcb(r[|r| - 1]))
      && (r != [] ==> r[0] != ht && r[|r| - 1] != ht)
      && (r != [] ==> m.tcbs[r[0] - 1].prev == r[|r| - 1])
  {
    assert Slot(m.tcbs, ts, ht);
    if ts.thr[ht].priority < LEVELS {
      var r := ts.rings[ts.thr[ht].priority];
      assert Ring(m.tcbs, m.readyQ[ts.thr[ht].priority], r);
      if r != [] {
        assert RingLink(m.tcbs, r, 0) && RingLink(m.tcbs, r, |r| - 1);
        assert r[0] in r && r[|r| - 1] in r;
      }
    }
  }

  /** The blocks after the writes of an insertion behind the head hq. */
  ghost function InsertionBlocks(tc: seq<Tcb>, ht: int, hq: int): seq<Tcb>
    requires 1 <= ht <= |tc| && hq <= |tc|
  {
    var b := Readied(tc[ht - 1]);
    if hq <= 0 then tc[ht - 1 := b.(next := ht, prev := ht)]
    else
      var last := tc[hq - 1].prev;
      WithPrev(WithNext(tc[ht - 1 := b.(next := hq, prev := last)], last, ht), hq, ht)
  }

  /** Those writes append ht to its ring. */
  lemma InsertionHolds(m: Image, ts: Threads, ht: int)
    requires Holds(m, ts) && IsTcb(ht) && ts.loc[ht] == OffList
    ensures |m.tcbs| == NR_TCB && |m.readyQ| == LEVELS == |ts.rings| && |ts.thr| == |ts.loc| == NR_TCB + 1
    ensures m.tcbs[ht - 1].info == ts.thr[ht] && m.tcbs[ht - 1].next == m.tcbs[ht - 1].prev == 0
    ensures ts.thr[ht].priority < LEVELS ==>
      var p := ts.thr[ht].priority;
      var hq := m.readyQ[p];
      && hq <= NR_TCB && hq != ht && (hq > 0 ==> m.tcbs[hq - 1].prev > 0)
      && var n := m.(tcbs := InsertionBlocks(m.tcbs, ht, hq),
                     readyQ := if hq <= 0 then m.readyQ[p := ht] else m.readyQ);
      Holds(n, InsertReady(ts, ht)) && SameMailboxLinks(m.tcbs, n.tcbs)
  {
    hide InsertReady, Slot, Ring, SameMailboxLinks;
    ReadyFacts(m, ts, ht);
    if ts.thr[ht].priority < LEVELS {
      var r := ts.rings[ts.thr[ht].priority];
      var b := Readied(m.tcbs[ht - 1]);
      InsertReadyHolds(m, ts, ht);
      if r == [] {
        LinkAloneByWrites(m.tcbs, ht, b);
        LinkSameMailbox(m.tcbs, ht, ht, ht, 0, b);
      } else {
        LinkRingByWrites(m.tcbs, ht, r[|r| - 1], r[0], b);
        LinkSameMailbox(m.tcbs, ht, r[|r| - 1], r[0], 0, b);
      }
    }
  }

  // ----- deleting from a ring

  ghost function Succ(r: seq<int>, i: nat): int
    requires i < |r|
  {
    if i + 1 < |r| then r[i + 1] else r[0]
  }

  ghost function Pred(r: seq<int>, i: nat): int
    requires i < |r|
  {
    if i > 0 then r[i - 1] else r[|r| - 1]
  }

  ghost function RemoveReadyImage(m: Image, r: seq<int>, i: nat, p: nat): Image
    requires i < |r| && p < |m.readyQ|
  {
    m.(tcbs := Unlink(m.tcbs, r[i], Pred(r, i), Succ(r, i), 0),
       readyQ := m.readyQ[p := if |r| == 1 then 0 else if i == 0 then r[1] else r[0]])
  }

  lemma RemoveRing(m: Image, ts: Threads, p: nat, i: nat)
    requires Holds(m, ts) && p < LEVELS && i < |ts.rings[p]|
    ensures var n := RemoveReadyImage(m, ts.rings[p], i, p);
      Ring(n.tcbs, n.readyQ[p], RemoveAt(ts.rings[p], i))
  {
    var r := ts.rings[p];
    var s := RemoveAt(r, i);
    var n := RemoveReadyImage(m, r, i, p);
    assert Ring(m.tcbs, m.readyQ[p], r) && RingMembers(ts.loc, r, p);
    forall j | 0 <= j < |s| ensures RingLink(n.tcbs, s, j) {
      var k := if j < i then j else j + 1;
      assert s[j] == r[k] && r[k] != r[i];
      assert RingLink(m.tcbs, r, k);
      assert r[k] == Pred(r, i) <==> k == if i > 0 then i - 1 else |r| - 1;
      assert r[k] == Succ(r, i) <==> k == if i + 1 < |r| then i + 1 else 0;
      if j > 0 { assert s[j - 1] == r[if j - 1 < i then j - 1 else j]; }
      if j + 1 < |s| { assert s[j + 1] == r[if j + 1 < i then j + 1 else j + 2]; }
    }
  }

  lemma RemoveReadyHolds(m: Image, ts: Threads, ht: int, i: nat)
    requires Holds(m, ts) && IsTcb(ht) && ts.loc[ht] == OnRing(ts.thr[ht].priority)
    requires i < |ts.rings[ts.thr[ht].priority]| && ts.rings[ts.thr[ht].priority][i] == ht
    ensures Holds(RemoveReadyImage(m, ts.rings[ts.thr[ht].priority], i, ts.thr[ht].priority), RemoveReady(ts, ht))
  {
    var p := ts.thr[ht].priority;
    var r := ts.rings[p];
    var n := RemoveReadyImage(m, r, i, p);
    var ts' := RemoveReady(ts, ht);
    RemoveReadyWellFormed(ts, ht);
    DistinctIndex(r, i);
    assert Succ(r, i) in r && Pred(r, i) in r;
    assert RingMembers(ts.loc, r, p);
    forall h | IsTcb(h)
      ensures Slot(n.tcbs, ts', h)
      ensures ts.loc[h] != OnRing(p) ==> SameLinks(m.tcbs, n.tcbs, h)
    {
      assert Slot(m.tcbs, ts, h);
    }
    RingsFrame(m, n, ts, ts', p);
    RemoveRing(m, ts, p, i);
  }

  /** A thread off every list: only its flags change. */
  lemma RemoveOffListHolds(m: Image, ts: Threads, ht: int)
    requires Holds(m, ts) && IsTcb(ht) && ts.loc[ht] == OffList && ts.thr[ht].priority < LEVELS
    ensures Holds(m.(tcbs := m.tcbs[ht - 1 := Cleared(m.tcbs[ht - 1])]), RemoveReady(ts, ht))
  {
    var b := Cleared(m.tcbs[ht - 1]);
    assert Slot(m.tcbs, ts, ht);
    SetInfoHolds(m, ts, ht, b);
    var p := ts.thr[ht].priority;
    assert RingMembers(ts.loc, ts.rings[p], p);
    assert ts.rings[p := ts.rings[p]] == ts.rings;
    assert ts.loc[ht := OffList] == ts.loc;
    assert RemoveReady(ts, ht) == SetThread(ts, ht, b.info);
  }

  /** What a removal may rely on: where ht is linked in. */
  lemma OnRingFacts(m: Image, ts: Threads, ht: int) returns (i: nat)
    requires Holds(m, ts) && IsTcb(ht) && ts.loc[ht] == OnRing(ts.thr[ht].priority)
    ensures m.tcbs[ht - 1].info == ts.thr[ht] && ts.thr[ht].priority < LEVELS
    ensures var p := ts.thr[ht].priority; var r := ts.rings[p];
      && i < |r| && r[i] == ht
      && m.readyQ[p] == r[0] && (i == 0 <==> ht == r[0])
      && (|r| == 1 <==> Succ(r, i) == ht) && (|r| == 1 <==> Pred(r, i) == ht)
      && IsTcb(Succ(r, i)) && IsTcb(Pred(r, i))
      && m.tcbs[ht - 1].next == Succ(r, i) && m.tcbs[ht - 1].prev == Pred(r, i)
  {
    var p := ts.thr[ht].priority;
    var r := ts.rings[p];
    assert Slot(m.tcbs, ts, ht);
    assert RingMembers(ts.loc, r, p) && Ring(m.tcbs, m.readyQ[p], r);
    i := IndexOf(r, ht);
    assert RingLink(m.tcbs, r, i);
    assert Succ(r, i) in r && Pred(r, i) in r;
  }

  /** The head of the ring and the blocks, after the writes of a removal. */
  ghost function RemovalHead(m: Image, ht: int): seq<int>
    requires 1 <= ht <= |m.tcbs| && m.tcbs[ht - 1].info.priority < |m.readyQ|
  {
    var t := m.tcbs[ht - 1];
    if m.readyQ[t.info.priority] == ht then m.readyQ[t.info.priority := if t.next == ht then 0 else t.next]
    else m.readyQ
  }

  ghost function RemovalBlocks(tc: seq<Tcb>, ht: int): seq<Tcb>
    requires 1 <= ht <= |tc|
  {
    var nxt, prv := tc[ht - 1].next, tc[ht - 1].prev;
    var linked := if nxt == ht then tc else WithNext(WithPrev(tc, nxt, prv), prv, nxt);
    linked[ht - 1 := Cleared(linked[ht - 1])]
  }

  /** Those writes delete ht from the ring it is on, if it is on one. */
  lemma RemovalHolds(m: Image, ts: Threads, ht: int)
    requires Holds(m, ts) && IsTcb(ht)
    requires ts.loc[ht] == OffList || ts.loc[ht] == OnRing(ts.thr[ht].priority)
    ensures |m.tcbs| == NR_TCB && |m.readyQ| == LEVELS == |ts.rings| && |ts.thr| == |ts.loc| == NR_TCB + 1
    ensures ts.thr[ht].priority >= LEVELS ==> RemoveReady(ts, ht) == ts
    ensures m.tcbs[ht - 1].info == ts.thr[ht]
    ensures ts.thr[ht].priority < LEVELS ==>
      var n := m.(tcbs := RemovalBlocks(m.tcbs, ht), readyQ := RemovalHead(m, ht));
      Holds(n, RemoveReady(ts, ht)) && SameMailboxLinks(m.tcbs, n.tcbs)
  {
    if ts.loc[ht] == OffList {
      OffListFacts(m, ts, ht);
      if ts.thr[ht].priority < LEVELS { RemoveOffListHolds(m, ts, ht); }
    } else {
      var i := OnRingFacts(m, ts, ht);
      var p := ts.thr[ht].priority;
      var r := ts.rings[p];
      var nxt, prv := m.tcbs[ht - 1].next, m.tcbs[ht - 1].prev;
      RemoveReadyHolds(m, ts, ht, i);
      UnlinkSameMailbox(m.tcbs, ht, prv, nxt, 0);
      if nxt == ht {
        UnlinkAloneByWrites(m.tcbs, ht);
      } else {
        UnlinkRingByWrites(m.tcbs, ht, prv, nxt);
        assert WithNext(WithPrev(m.tcbs, nxt, prv), prv, nxt)[ht - 1] == m.tcbs[ht - 1];
      }
      assert RemovalHead(m, ht) == RemoveReadyImage(m, r, i, p).readyQ;
    }
  }

  // ----- the timeout list

  ghost function HandleAt(l: seq<T.Entry>, i: int): int {
    if 0 <= i < |l| then l[i].h else 0
  }

  ghost function InsertTimeoutImage(m: Image, l: seq<T.Entry>, i: nat, rem: int, ht: int): Image
    requires 1 <= ht <= |m.tcbs|
  {
    m.(tcbs := Link(m.tcbs, ht, HandleAt(l, i - 1), HandleAt(l, i), rem, Timed(m.tcbs[ht - 1], rem)),
       timeoutList := if i == 0 then ht else m.timeoutList)
  }

  /** The list with ht put before the i-th entry. */
  ghost function Spliced(l: seq<T.Entry>, i: nat, rem: int, ht: int): seq<T.Entry>
    requires i <= |l|
  {
    l[..i] + [T.Entry(ht, rem)] +
    (if i < |l| then [T.Entry(l[i].h, l[i].delta - rem)] + l[i + 1..] else [])
  }

  lemma SplicedList(m: Image, ts: Threads, i: nat, rem: int, ht: int)
    requires Holds(m, ts) && IsTcb(ht) && ts.loc[ht] == OffList && i <= |ts.sleepers|
    ensures var n := InsertTimeoutImage(m, ts.sleepers, i, rem, ht);
      List(n.tcbs, n.timeoutList, Spliced(ts.sleepers, i, rem, ht))
  {
    var l := ts.sleepers;
    var s := Spliced(l, i, rem, ht);
    var n := InsertTimeoutImage(m, l, i, rem, ht);
    forall j | 0 <= j < |s| ensures ListLink(n.tcbs, s, j) {
      if j != i {
        var k := if j < i then j else j - 1;
        assert ListLink(m.tcbs, l, k);
        assert T.Listed(l, l[k].h);
      }
    }
  }

  lemma InsertTimeoutHolds(m: Image, ts: Threads, i: nat, rem: int, ht: int, to: int)
    requires Holds(m, ts) && IsTcb(ht) && ts.loc[ht] == OffList && i <= |ts.sleepers|
    requires T.Insert(ts.sleepers, ht, to) == Spliced(ts.sleepers, i, rem, ht)
    ensures Holds(InsertTimeoutImage(m, ts.sleepers, i, rem, ht), InsertTimeout(ts, ht, to))
  {
    var l := ts.sleepers;
    var n := InsertTimeoutImage(m, l, i, rem, ht);
    var ts' := InsertTimeout(ts, ht, to);
    InsertTimeoutWellFormed(ts, ht, to);
    if i > 0 { assert T.Listed(l, l[i - 1].h); }
    if i < |l| { assert T.Listed(l, l[i].h); }
    forall h | IsTcb(h)
      ensures Slot(n.tcbs, ts', h)
      ensures ts.loc[h] != OnTimeoutList && h != ht ==> SameLinks(m.tcbs, n.tcbs, h)
    {
      assert Slot(m.tcbs, ts, h);
    }
    AllRingsFrame(m, n, ts);
    SplicedList(m, ts, i, rem, ht);
  }

  ghost function CutImage(m: Image, l: seq<T.Entry>, i: nat, carry: int): Image
    requires i < |l|
  {
    m.(tcbs := Unlink(m.tcbs, l[i].h, HandleAt(l, i - 1), HandleAt(l, i + 1), carry),
       timeoutList := if i > 0 then m.timeoutList else HandleAt(l, 1))
  }

  /** The list without its i-th entry, whose successor takes over carry ticks. */
  ghost function Cut(l: seq<T.Entry>, i: nat, carry: int): seq<T.Entry>
    requires i < |l|
  {
    l[..i] + if i + 1 < |l| then [T.Entry(l[i + 1].h, l[i + 1].delta + carry)] + l[i + 2..] else []
  }

  lemma CutList(m: Image, ts: Threads, i: nat, carry: int)
    requires Holds(m, ts) && i < |ts.sleepers|
    ensures var n := CutImage(m, ts.sleepers, i, carry);
      List(n.tcbs, n.timeoutList, Cut(ts.sleepers, i, carry))
  {
    var l := ts.sleepers;
    var s := Cut(l, i, carry);
    var n := CutImage(m, l, i, carry);
    forall j | 0 <= j < |s| ensures ListLink(n.tcbs, s, j) {
      var k := if j < i then j else j + 1;
      assert ListLink(m.tcbs, l, k);
    }
  }

  lemma CutHolds(m: Image, ts: Threads, i: nat, carry: int, ts': Threads)
    requires Holds(m, ts) && i < |ts.sleepers| && IsTcb(ts.sleepers[i].h)
    requires WellFormed(ts')
    requires var h := ts.sleepers[i].h;
      ts' == ts.(thr := ts.thr[h := ts.thr[h].(status := TS_NONE)], loc := ts.loc[h := OffList],
                 sleepers := Cut(ts.sleepers, i, carry))
    ensures Holds(CutImage(m, ts.sleepers, i, carry), ts')
  {
    var l := ts.sleepers;
    var n := CutImage(m, l, i, carry);
    assert T.Listed(l, l[i].h);
    if i > 0 { assert T.Listed(l, l[i - 1].h); }
    if i + 1 < |l| { assert T.Listed(l, l[i + 1].h); }
    forall h | IsTcb(h)
      ensures Slot(n.tcbs, ts', h)
      ensures ts.loc[h] != OnTimeoutList ==> SameLinks(m.tcbs, n.tcbs, h)
    {
      assert Slot(m.tcbs, ts, h);
    }
    AllRingsFrame(m, n, ts);
    CutList(m, ts, i, carry);
  }

  /** What a removal may rely on: where ht is linked in. */
  lemma TimedFacts(m: Image, ts: Threads, ht: int) returns (i: nat)
    requires Holds(m, ts) && IsTcb(ht) && ts.loc[ht] == OnTimeoutList
    ensures var l := ts.sleepers;
      && i < |l| && l[i].h == ht && (i == 0 <==> m.timeoutList == ht)
      && m.tcbs[ht - 1].timeout == l[i].delta
      && m.tcbs[ht - 1].next == HandleAt(l, i + 1) && m.tcbs[ht - 1].prev == HandleAt(l, i - 1)
      && HandleAt(l, i + 1) != ht && HandleAt(l, i - 1) != ht
  {
    var l := ts.sleepers;
    assert T.Listed(l, ht);
    i :| 0 <= i < |l| && l[i].h == ht;
    assert ListLink(m.tcbs, l, i);
  }

  /** A thread off every list is at the head of none. */
  lemma OffListFacts(m: Image, ts: Threads, ht: int)
    requires Holds(m, ts) && IsTcb(ht) && ts.loc[ht] == OffList
    ensures m.tcbs[ht - 1].info == ts.thr[ht] && m.tcbs[ht - 1].next == m.tcbs[ht - 1].prev == 0
    ensures m.timeoutList != ht && (m.timeoutList <= 0 <==> ts.sleepers == [])
    ensures ts.thr[ht].priority < LEVELS ==> m.readyQ[ts.thr[ht].priority] != ht
    ensures forall i :: HandleAt(ts.sleepers, i) != ht
  {
    ReadyFacts(m, ts, ht);
    if ts.sleepers != [] {
      assert ListLink(m.tcbs, ts.sleepers, 0);
    }
    forall i | 0 <= i < |ts.sleepers| ensures ts.sleepers[i].h != ht {
      assert T.Listed(ts.sleepers, ts.sleepers[i].h);
    }
  }

  /** What the walk along the timeout list may rely on. */
  lemma WalkFacts(m: Image, ts: Threads, ht: int)
    requires Holds(m, ts) && IsTcb(ht) && ts.loc[ht] == OffList
    ensures Walkable(m.tcbs, m.timeoutList, ts.sleepers, ht)
  {
    OffListFacts(m, ts, ht);
    forall i | 0 <= i < |ts.sleepers| ensures WalkLink(m.tcbs, ts.sleepers, i) {
      assert ListLink(m.tcbs, ts.sleepers, i);
    }
  }

  ghost predicate WalkLink(tc: seq<Tcb>, l: seq<T.Entry>, i: int)
    requires 0 <= i < |l|
  {
    && 1 <= l[i].h <= |tc|
    && tc[l[i].h - 1].next == HandleAt(l, i + 1)
    && tc[l[i].h - 1].timeout == l[i].delta
  }

  /** The list can be walked by its links, and ht is not on it. */
  ghost predicate Walkable(tc: seq<Tcb>, head: int, l: seq<T.Entry>, ht: int) {
    && head == HandleAt(l, 0)
    && (forall i {:trigger HandleAt(l, i)} :: HandleAt(l, i) != ht)
    && (forall i {:trigger HandleAt(l, i)} :: 0 <= i < |l| ==> WalkLink(tc, l, i))
  }

  /** One step of the walk. */
  lemma InsertUnfold(l: seq<T.Entry>, i: nat, ht: int, rem: int)
    requires i < |l| && rem > l[i].delta
    ensures l[..i] + T.Insert(l[i..], ht, rem) == l[..i + 1] + T.Insert(l[i + 1..], ht, rem - l[i].delta)
  {
    assert l[i..][1..] == l[i + 1..] && l[..i + 1] == l[..i] + [l[i]];
  }

  /** The end of the walk. */
  lemma InsertHere(l: seq<T.Entry>, i: nat, ht: int, rem: int)
    requires i <= |l| && (i < |l| ==> rem <= l[i].delta)
    ensures l[..i] + T.Insert(l[i..], ht, rem) == Spliced(l, i, rem, ht)
  {
    if i < |l| { assert l[i..][1..] == l[i + 1..]; }
  }

  // ----- the lists at start-up

  const ZERO_TCB := Tcb(0, 0, 0, 0, 0, Thread(TS_NONE, 0, 0, 0, MT_NONE, NO_PAYLOAD))

  lemma InitialHolds(m: Image)
    requires |m.tcbs| == NR_TCB && m.readyQ == seq(LEVELS, _ => 0) && m.freeTCB == 2 && m.timeoutList == 0
    requires m.tcbs[0] == ZERO_TCB.(info := BOOT_THREAD)
    requires forall i :: 1 <= i < NR_TCB ==>
      m.tcbs[i] == ZERO_TCB.(next := if i == NR_TCB - 1 then 0 else i + 2, prev := i, info := FreeThread(i + 1))
    ensures Holds(m, InitialThreads()) && Settled(m.tcbs)
  {
    var ts := InitialThreads();
    forall h | IsTcb(h) ensures Slot(m.tcbs, ts, h) { assert m.tcbs[h - 1] == m.tcbs[h - 1]; }
  }
}
