/** The words of threads, mailboxes and message blocks taken together, and why the writes of the
    mailbox routines keep them in order (software/Femtiki/source/kernel/msg.c). */
module MailWords {
  import opened KernelTypes
  import opened Seqs
  import opened ThreadLists
  import opened ThreadWords
  import opened Boxes
  import opened Blocks
  import opened StoreWords
  import opened MailModel

  ghost predicate SameQueues(mailbox: seq<Mbx>, mailbox': seq<Mbx>) {
    && |mailbox'| == |mailbox|
    && forall i :: 0 <= i < |mailbox| ==> SameWaiters(mailbox[i], mailbox'[i]) && mailbox'[i].link == mailbox[i].link
  }

  lemma QueueTail(ms: seq<Msg>, mb: Mbx, b: Box, q: seq<int>)
    requires QueueHeld(ms, mb, b, q)
    ensures mb.mqTail <= 0 <==> b.queue == []
    ensures b.queue != [] ==> 1 <= mb.mqTail <= |ms| && ms[mb.mqTail - 1].body == b.queue[|b.queue| - 1]
  {
    if q != [] { assert Carries(ms, q[|q| - 1], b.queue[|b.queue| - 1]); }
  }

  lemma QueueCount(ms: seq<Msg>, mb: Mbx, b: Box, q: seq<int>)
    requires QueueHeld(ms, mb, b, q)
    ensures mb.mqCount == b.count && |q| == |b.queue|
  {
  }

  lemma QueueHead(ms: seq<Msg>, mb: Mbx, b: Box, q: seq<int>)
    requires QueueHeld(ms, mb, b, q)
    ensures mb.mqHead <= 0 <==> b.queue == []
    ensures mb.mqHead > 0 ==> 1 <= mb.mqHead <= |ms|
  {
    if q != [] { assert Blocks.Link(ms, q, 0); }
  }

  lemma WaitEnds(mailbox: seq<Mbx>, tc: seq<Tcb>, thr: seq<Thread>, boxes: seq<Box>, m: int)
    requires WaitsHold(mailbox, tc, thr, boxes) && IsMbx(m)
    ensures var w := boxes[m].waiters; var mb := mailbox[m - 1];
      && (w == [] ==> mb.tqHead == mb.tqTail == 0 == mb.tqCount)
      && (w != [] ==> mb.tqHead == w[0] && mb.tqTail == w[|w| - 1] && mb.tqCount == |w|)
      && (w != [] ==> IsTcb(w[0]) && IsTcb(w[|w| - 1]) && thr[w[0]].waitMbx == thr[w[|w| - 1]].waitMbx == m)
  {
    var w := boxes[m].waiters;
    assert WaitMembers(thr, w, m) && WaitHeld(tc, mailbox[m - 1], w);
    if w != [] { assert w[0] in w && w[|w| - 1] in w; }
  }

  /** Changing a mailbox queue link changes no thread. */
  lemma SetLinkHolds(w: Image, ts: Threads, h: int, b: Tcb)
    requires Holds(w, ts) && IsTcb(h)
    requires b == w.tcbs[h - 1].(mbqNext := b.mbqNext, mbqPrev := b.mbqPrev)
    ensures Holds(w.(tcbs := w.tcbs[h - 1 := b]), ts)
  {
    assert Slot(w.tcbs, ts, h);
    SetInfoHolds(w, ts, h, b);
    assert SetThread(ts, h, b.info) == ts;
  }

  function WithMbqNext(tc: seq<Tcb>, h: int, next: int): seq<Tcb> {
    if 1 <= h <= |tc| then tc[h - 1 := tc[h - 1].(mbqNext := next)] else tc
  }

  function WithMbqPrev(tc: seq<Tcb>, h: int, prev: int): seq<Tcb> {
    if 1 <= h <= |tc| then tc[h - 1 := tc[h - 1].(mbqPrev := prev)] else tc
  }

  function Waiting(t: Tcb, m: int, prev: int): Tcb {
    t.(mbqNext := 0, mbqPrev := prev, info := t.info.(waitMbx := m, status := t.info.status.(waitmsg := true)))
  }

  function NotWaiting(t: Tcb): Tcb {
    t.(mbqNext := 0, mbqPrev := 0, info := t.info.(waitMbx := 0, status := t.info.status.(waitmsg := false)))
  }

  function Leaving(mb: Mbx, next: int): Mbx {
    mb.(tqCount := mb.tqCount - 1, tqHead := next, tqTail := if IsTcb(next) then mb.tqTail else 0)
  }

  /** The writes that queue a thread, in the two cases of msg.c. */
  ghost function JoinBlocks(tc: seq<Tcb>, mb: Mbx, m: int, h: int): seq<Tcb>
    requires 1 <= h <= |tc|
  {
    if mb.tqHead <= 0 then tc[h - 1 := Waiting(tc[h - 1], m, 0)]
    else WithMbqNext(tc[h - 1 := Waiting(tc[h - 1], m, mb.tqTail)], mb.tqTail, h)
  }

  ghost function JoinBox(mb: Mbx, h: int): Mbx {
    if mb.tqHead <= 0 then mb.(tqHead := h, tqTail := h, tqCount := 1)
    else mb.(tqTail := h, tqCount := mb.tqCount + 1)
  }

  lemma JoinMail(w: Image, s: Store, c: Core, o: Ownership, m: int, h: int)
    requires MailHolds(w, s, c, o) && Shaped(c) && IsMbx(m) && IsTcb(h) && c.ts.thr[h].waitMbx == 0
    ensures NotQueued(w.tcbs, h)
    ensures MailHolds(w.(tcbs := JoinBlocks(w.tcbs, s.mailbox[m - 1], m, h)),
                      s.(mailbox := s.mailbox[m - 1 := JoinBox(s.mailbox[m - 1], h)]), QueueThread(c, m, h), o)
  {
    var mb, t := s.mailbox[m - 1], w.tcbs[h - 1];
    assert NotQueued(w.tcbs, h) && Slot(w.tcbs, c.ts, h);
    WaitEnds(s.mailbox, w.tcbs, c.ts.thr, c.boxes, m);
    var b := Waiting(t, m, if mb.tqHead <= 0 then 0 else mb.tqTail);
    SetInfoHolds(w, c.ts, h, b);
    var w1 := w.(tcbs := w.tcbs[h - 1 := b]);
    if mb.tqHead > 0 {
      SetLinkHolds(w1, SetThread(c.ts, h, b.info), mb.tqTail, w1.tcbs[mb.tqTail - 1].(mbqNext := h));
    }
    JoinHolds(s.mailbox, w.tcbs, c.ts.thr, c.boxes, m, h, JoinBlocks(w.tcbs, mb, m, h), JoinBox(mb, h), b.info);
    SetBoxHolds(s, c.boxes, o, m, JoinBox(mb, h), c.boxes[m].(waiters := c.boxes[m].waiters + [h]));
  }

  /** The end of a dequeue: the words w' after unlinking the head waiter and taking it off the
      timeout list, once its block is cleared. */
  lemma LeaveMail(w: Image, s: Store, c: Core, o: Ownership, m: int, w': Image, ts': Threads)
    requires MailHolds(w, s, c, o) && Shaped(c) && IsMbx(m) && c.boxes[m].waiters != []
    requires Holds(w', ts') && IsTcb(c.boxes[m].waiters[0])
    requires var h := c.boxes[m].waiters[0];
      && ts' == (if c.ts.thr[h].status.timeout then RemoveTimeout(c.ts, h) else c.ts)
      && SameMailboxLinks(WithMbqPrev(w.tcbs, w.tcbs[h - 1].mbqNext, 0), w'.tcbs)
    ensures var h := c.boxes[m].waiters[0];
      MailHolds(w'.(tcbs := w'.tcbs[h - 1 := NotWaiting(w'.tcbs[h - 1])]),
                s.(mailbox := s.mailbox[m - 1 := Leaving(s.mailbox[m - 1], w.tcbs[h - 1].mbqNext)]),
                DequeueThread(c, m), o)
  {
    hide WaitsHold;
    var h := c.boxes[m].waiters[0];
    var mb := Leaving(s.mailbox[m - 1], w.tcbs[h - 1].mbqNext);
    var b := NotWaiting(w'.tcbs[h - 1]);
    assert Slot(w'.tcbs, ts', h);
    SetInfoHolds(w', ts', h, b);
    SetBoxHolds(s, c.boxes, o, m, mb, c.boxes[m].(waiters := c.boxes[m].waiters[1..]));
    LeaveWaits(w.tcbs, s.mailbox, c, m, w'.tcbs, b, DequeueThread(c, m).ts.thr);
  }

  /** The waits after the head waiter of m has left. */
  lemma LeaveWaits(tc: seq<Tcb>, mailbox: seq<Mbx>, c: Core, m: int, tc': seq<Tcb>, b: Tcb, thr': seq<Thread>)
    requires |c.ts.thr| == NR_TCB + 1 && WaitsHold(mailbox, tc, c.ts.thr, c.boxes)
    requires IsMbx(m) && c.boxes[m].waiters != [] && IsTcb(c.boxes[m].waiters[0])
    requires var h := c.boxes[m].waiters[0]; SameMailboxLinks(WithMbqPrev(tc, tc[h - 1].mbqNext, 0), tc')
    requires b.mbqNext == b.mbqPrev == 0 == b.info.waitMbx
    requires |thr'| == NR_TCB + 1 && thr'[c.boxes[m].waiters[0]] == b.info
    requires forall g :: IsTcb(g) && g != c.boxes[m].waiters[0] ==> thr'[g].waitMbx == c.ts.thr[g].waitMbx
    ensures var h := c.boxes[m].waiters[0];
      WaitsHold(mailbox[m - 1 := Leaving(mailbox[m - 1], tc[h - 1].mbqNext)], tc'[h - 1 := b], thr',
                c.boxes[m := c.boxes[m].(waiters := c.boxes[m].waiters[1..])])
  {
    var h := c.boxes[m].waiters[0];
    var mb := Leaving(mailbox[m - 1], tc[h - 1].mbqNext);
    var t := tc'[h - 1 := b];
    var boxes := c.boxes[m := c.boxes[m].(waiters := c.boxes[m].waiters[1..])];
    var tc1 := WithMbqPrev(tc, tc[h - 1].mbqNext, 0);
    forall g | IsTcb(g) ensures Left(tc, t, h, g) {
      assert tc1[g - 1].mbqNext == tc'[g - 1].mbqNext;
    }
    LeaveHolds(mailbox, tc, c.ts.thr, c.boxes, m, t, mb, b.info);
    WaitsFrame(mailbox[m - 1 := mb], mailbox[m - 1 := mb], t, t, c.ts.thr[h := b.info], thr', boxes, boxes);
  }

  ghost predicate MailHolds(w: Image, s: Store, c: Core, o: Ownership) {
    && Holds(w, c.ts)
    && StoreHolds(s, c.boxes, o)
    && WaitsHold(s.mailbox, w.tcbs, c.ts.thr, c.boxes)
    && FreeMailboxes(s, c.firstMbx)
    && c.pool == |o.free|
  }

  const ZERO_MBX := Mbx(0, 0, 0, 0, 0, 0, MQS_UNLIMITED, 0, 0, 0, 0)

  ghost function InitialOwnership(): Ownership {
    Ownership(seq(NR_MSG + 1, _ => POOL), seq(NR_MSG, i => i + 1), seq(NR_MBX + 1, _ => []))
  }

  lemma InitialMailHolds(w: Image, s: Store)
    requires Holds(w, InitialThreads()) && Settled(w.tcbs)
    requires |s.mailbox| == NR_MBX && |s.message| == NR_MSG
    requires s.freeMSG == 1 && s.nMsgBlk == 0 && s.freeMBX == 1
    requires forall i :: 0 <= i < NR_MBX ==> s.mailbox[i] == ZERO_MBX.(link := if i == 127 then 0 else i + 2)
    requires forall i :: 0 <= i < NR_MSG ==> s.message[i].link == if i == NR_MSG - 1 then 0 else i + 2
    ensures MailHolds(w, s, InitialCore(), InitialOwnership())
  {
    var o := InitialOwnership();
    var c := InitialCore();
    forall i | 0 <= i < NR_MSG ensures Blocks.Link(s.message, o.free, i) { }
    forall b | IsMsg(b) ensures b in o.free { assert o.free[b - 1] == b; }
    forall m | IsMbx(m) ensures QueueHeld(s.message, s.mailbox[m - 1], c.boxes[m], o.queued[m]) { }
    forall h | IsTcb(h) ensures NotQueued(w.tcbs, h) { assert w.tcbs[h - 1] == w.tcbs[h - 1]; }
  }

  lemma PoolFacts(w: Image, s: Store, c: Core, o: Ownership, m: int)
    requires MailHolds(w, s, c, o) && IsMbx(m)
    ensures s.mailbox[m - 1].owner == c.boxes[m].owner
    ensures c.pool == 0 <==> o.free == []
    ensures if o.free == [] then s.freeMSG == 0 else IsMsg(s.freeMSG)
  {
    assert QueueHeld(s.message, s.mailbox[m - 1], c.boxes[m], o.queued[m]);
    if o.free != [] { assert Blocks.Link(s.message, o.free, 0); }
  }

  /** The history of a mailbox is in no word. */
  lemma HistoryHolds(s: Store, boxes: seq<Box>, o: Ownership, m: int, b: Box)
    requires StoreHolds(s, boxes, o) && IsMbx(m)
    requires b == boxes[m].(sent := b.sent, got := b.got)
    ensures StoreHolds(s, boxes[m := b], o)
  {
    assert QueueHeld(s.message, s.mailbox[m - 1], boxes[m], o.queued[m]);
    SetBoxHolds(s, boxes, o, m, s.mailbox[m - 1], b);
    assert s.mailbox[m - 1 := s.mailbox[m - 1]] == s.mailbox;
  }

  lemma TakeHeadFacts(s: Store, boxes: seq<Box>, o: Ownership, m: int)
    requires StoreHolds(s, boxes, o) && IsMbx(m) && o.queued[m] != []
    ensures IsMsg(o.queued[m][0]) && TakeHead(o, m).own[o.queued[m][0]] == IN_HAND
  {
    TakeHeadPartitioned(o, m);
  }

  lemma AllocMbxHolds(w: Image, s: Store, c: Core, o: Ownership, app: int)
    requires MailHolds(w, s, c, o) && Shaped(c)
    requires c.firstMbx <= LAST_MBX && FreshBox(c.boxes[c.firstMbx])
    ensures s.freeMBX == c.firstMbx
    ensures var x := s.freeMBX - 1;
      var mb := Mbx(s.mailbox[x].link, if app == 0 then 1 else app, 0, 0, 0, 0, MQS_NEWEST, 0, 8, 0, 0);
      MailHolds(w, s.(mailbox := s.mailbox[x := mb], freeMBX := s.mailbox[x].link), AllocatedMbx(c, app), o)
  {
    var m := c.firstMbx;
    var mb := Mbx(s.mailbox[m - 1].link, if app == 0 then 1 else app, 0, 0, 0, 0, MQS_NEWEST, 0, 8, 0, 0);
    WaitEnds(s.mailbox, w.tcbs, c.ts.thr, c.boxes, m);
    assert QueueHeld(s.message, s.mailbox[m - 1], c.boxes[m], o.queued[m]);
    SetBoxHolds(s, c.boxes, o, m, mb, NewBox(app));
    WaitsFrame(s.mailbox, s.mailbox[m - 1 := mb], w.tcbs, w.tcbs,
               c.ts.thr, c.ts.thr, c.boxes, AllocatedMbx(c, app).boxes);
  }

  lemma TakePartitionedIn(s: Store, boxes: seq<Box>, o: Ownership)
    requires StoreHolds(s, boxes, o) && o.free != []
    ensures IsMsg(o.free[0]) && Take(o).own[o.free[0]] == IN_HAND
  {
    TakePartitioned(o);
  }

  /** Queueing or taking a message at m leaves the waits and the free mailboxes alone. */
  lemma KeepWaits(w: Image, s: Store, c: Core, s': Store, boxes': seq<Box>, m: int)
    requires WaitsHold(s.mailbox, w.tcbs, c.ts.thr, c.boxes) && FreeMailboxes(s, c.firstMbx) && IsMbx(m)
    requires SameQueues(s.mailbox, s'.mailbox) && s'.freeMBX == s.freeMBX
    requires |boxes'| == |c.boxes| && forall k :: IsMbx(k) ==> boxes'[k].waiters == c.boxes[k].waiters
    ensures WaitsHold(s'.mailbox, w.tcbs, c.ts.thr, boxes') && FreeMailboxes(s', c.firstMbx)
  {
    WaitsFrame(s.mailbox, s'.mailbox, w.tcbs, w.tcbs, c.ts.thr, c.ts.thr, c.boxes, boxes');
  }
}
