/** The words that hold the message pool, the mailbox queues and the queues of waiting threads,
    and why each routine of software/Femtiki/source/kernel/msg.c keeps them in order. */
module StoreWords {
  import opened KernelTypes
  import opened Seqs
  import opened Boxes
  import opened Blocks

  // ----- the queue of messages at a mailbox

  ghost predicate Carries(ms: seq<Msg>, b: int, p: Payload) {
    1 <= b <= |ms| && ms[b - 1].body == p
  }

  ghost predicate QueueHeld(ms: seq<Msg>, mb: Mbx, b: Box, q: seq<int>) {
    && Chain(ms, mb.mqHead, q)
    && mb.mqTail == (if q == [] then 0 else q[|q| - 1])
    && |q| == |b.queue|
    && (forall i {:trigger q[i]} {:trigger b.queue[i]} :: 0 <= i < |q| ==> Carries(ms, q[i], b.queue[i]))
    && mb.owner == b.owner && mb.strategy == b.strategy
    && mb.mqSize == b.size && mb.mqCount == b.count && mb.mqMissed == b.missed
  }

  datatype Store = Store(mailbox: seq<Mbx>, message: seq<Msg>, freeMSG: int, nMsgBlk: int, freeMBX: int)

  /** nMsgBlk starts at zero and is never set, so it counts the blocks in use downwards. */
  ghost predicate StoreHolds(s: Store, boxes: seq<Box>, o: Ownership) {
    && |s.mailbox| == NR_MBX && |s.message| == NR_MSG && |boxes| == NR_MBX + 1
    && Partitioned(o)
    && Chain(s.message, s.freeMSG, o.free)
    && s.nMsgBlk == |o.free| - NR_MSG
    && forall m {:trigger o.queued[m]} :: IsMbx(m) ==> QueueHeld(s.message, s.mailbox[m - 1], boxes[m], o.queued[m])
  }

  lemma HeldAt(s: Store, boxes: seq<Box>, o: Ownership, m: int)
    requires StoreHolds(s, boxes, o) && IsMbx(m)
    ensures |s.mailbox| == NR_MBX && |s.message| == NR_MSG && |boxes| == NR_MBX + 1 == |o.queued|
    ensures |o.own| == NR_MSG + 1 && QueueHeld(s.message, s.mailbox[m - 1], boxes[m], o.queued[m])
  {
  }

  /** Initialisation cuts the list of free mailboxes short after the 128th. */
  const LAST_MBX := 128

  /** Mailboxes are handed out in order; those from firstMbx on have never been allocated. */
  ghost predicate FreeMailboxes(s: Store, firstMbx: int) {
    && |s.mailbox| == NR_MBX && 1 <= firstMbx <= LAST_MBX + 1
    && s.freeMBX == (if firstMbx <= LAST_MBX then firstMbx else 0)
    && forall i :: firstMbx - 1 <= i < LAST_MBX ==> s.mailbox[i].link == if i + 1 < LAST_MBX then i + 2 else 0
  }

  lemma QueueHeldFrame(ms: seq<Msg>, ms': seq<Msg>, mb: Mbx, b: Box, q: seq<int>)
    requires QueueHeld(ms, mb, b, q) && |ms'| == |ms|
    requires forall c :: c in q && 1 <= c <= |ms| ==> ms'[c - 1] == ms[c - 1]
    ensures QueueHeld(ms', mb, b, q)
  {
    ChainFrame(ms, ms', mb.mqHead, q);
    forall i | 0 <= i < |q| ensures Carries(ms', q[i], b.queue[i]) { assert q[i] in q; }
  }

  /** A write to a block that is not queued at m leaves m's queue alone. */
  lemma OtherQueue(s: Store, boxes: seq<Box>, o: Ownership, b: int, x: Msg, m: int)
    requires StoreHolds(s, boxes, o) && IsMsg(b) && IsMbx(m) && o.own[b] != m
    ensures QueueHeld(s.message[b - 1 := x], s.mailbox[m - 1], boxes[m], o.queued[m])
  {
    assert Members(o.own, o.queued[m], m);
    QueueHeldFrame(s.message, s.message[b - 1 := x], s.mailbox[m - 1], boxes[m], o.queued[m]);
  }

  /** A write to a block in hand leaves everything alone. */
  lemma WriteInHand(s: Store, boxes: seq<Box>, o: Ownership, b: int, x: Msg)
    requires StoreHolds(s, boxes, o) && IsMsg(b) && o.own[b] == IN_HAND
    ensures StoreHolds(s.(message := s.message[b - 1 := x]), boxes, o)
  {
    var s' := s.(message := s.message[b - 1 := x]);
    ChainFrame(s.message, s'.message, s.freeMSG, o.free);
    forall m | IsMbx(m) ensures QueueHeld(s'.message, s'.mailbox[m - 1], boxes[m], o.queued[m]) {
      OtherQueue(s, boxes, o, b, x, m);
    }
  }

  lemma AllocHolds(s: Store, boxes: seq<Box>, o: Ownership)
    requires StoreHolds(s, boxes, o) && o.free != []
    ensures IsMsg(s.freeMSG) && s.freeMSG == o.free[0]
    ensures StoreHolds(s.(freeMSG := s.message[s.freeMSG - 1].link, nMsgBlk := s.nMsgBlk - 1), boxes, Take(o))
  {
    TakePartitioned(o);
    ChainTail(s.message, s.freeMSG, o.free);
  }

  /** Giving block b back: its link now leads to the rest of the pool. */
  lemma FreeHolds(s: Store, boxes: seq<Box>, o: Ownership, b: int, x: Msg)
    requires StoreHolds(s, boxes, o) && IsMsg(b) && o.own[b] == IN_HAND && x.link == s.freeMSG
    ensures StoreHolds(s.(message := s.message[b - 1 := x], freeMSG := b, nMsgBlk := s.nMsgBlk + 1), boxes, Give(o, b))
  {
    WriteInHand(s, boxes, o, b, x);
    GivePartitioned(o, b);
    ChainCons(s.message[b - 1 := x], s.freeMSG, o.free, b);
  }

  /** Replacing what the mailbox says besides its queue of messages. */
  lemma SetBoxHolds(s: Store, boxes: seq<Box>, o: Ownership, m: int, mb: Mbx, b: Box)
    requires StoreHolds(s, boxes, o) && IsMbx(m)
    requires QueueHeld(s.message, mb, b, o.queued[m])
    ensures StoreHolds(s.(mailbox := s.mailbox[m - 1 := mb]), boxes[m := b], o)
  {
  }

  /** Hanging block b on at the tail of mailbox m's queue. */
  lemma AppendHolds(s: Store, boxes: seq<Box>, o: Ownership, m: int, b: int, mb: Mbx, box: Box, ms: seq<Msg>)
    requires StoreHolds(s, boxes, o) && IsMbx(m) && IsMsg(b) && o.own[b] == IN_HAND
    requires var t := s.mailbox[m - 1].mqTail;
      var linked := if t > 0 then s.message[t - 1 := s.message[t - 1].(link := b)] else s.message;
      |linked| == NR_MSG && ms == linked[b - 1 := linked[b - 1].(link := 0)]
    requires mb == s.mailbox[m - 1].(mqHead := if s.mailbox[m - 1].mqTail > 0 then s.mailbox[m - 1].mqHead else b,
                                     mqTail := b, mqCount := box.count, mqMissed := box.missed)
    requires box.queue == boxes[m].queue + [s.message[b - 1].body]
    requires box.owner == boxes[m].owner && box.strategy == boxes[m].strategy && box.size == boxes[m].size
    ensures StoreHolds(s.(mailbox := s.mailbox[m - 1 := mb], message := ms), boxes[m := box], Append(o, m, b))
  {
    var q := o.queued[m];
    var o' := Append(o, m, b);
    AppendPartitioned(o, m, b);
    assert Members(o.own, q, m);
    assert QueueHeld(s.message, s.mailbox[m - 1], boxes[m], q);
    if q != [] {
      assert Link(s.message, q, |q| - 1);
      assert q[|q| - 1] in q;
    }
    ChainAppend(s.message, ms, s.mailbox[m - 1].mqHead, q, b);
    forall i | 0 <= i < |q| + 1 ensures Carries(ms, (q + [b])[i], box.queue[i]) {
      if i < |q| { assert Carries(s.message, q[i], boxes[m].queue[i]); }
    }
    ChainFrame(s.message, ms, s.freeMSG, o.free);
    forall k | IsMbx(k)
      ensures QueueHeld(ms, s.mailbox[m - 1 := mb][k - 1], boxes[m := box][k], o'.queued[k])
    {
      if k != m {
        assert Members(o.own, o.queued[k], k);
        QueueHeldFrame(s.message, ms, s.mailbox[k - 1], boxes[k], o.queued[k]);
      }
    }
  }

  /** Counting a repeat in the last block of mailbox m's queue. */
  lemma CoalesceHolds(s: Store, boxes: seq<Box>, o: Ownership, m: int, p: Payload, mb: Mbx, box: Box)
    requires StoreHolds(s, boxes, o) && IsMbx(m) && boxes[m].queue != [] && IsMsg(s.mailbox[m - 1].mqTail)
    requires box.queue == boxes[m].queue[|boxes[m].queue| - 1 := p]
    requires mb == s.mailbox[m - 1].(mqCount := box.count, mqMissed := box.missed)
    requires box.owner == boxes[m].owner && box.strategy == boxes[m].strategy && box.size == boxes[m].size
    ensures var t := s.mailbox[m - 1].mqTail;
      StoreHolds(s.(mailbox := s.mailbox[m - 1 := mb], message := s.message[t - 1 := s.message[t - 1].(body := p)]),
                 boxes[m := box], o)
  {
    var q := o.queued[m];
    var t := s.mailbox[m - 1].mqTail;
    var x := s.message[t - 1].(body := p);
    var ms := s.message[t - 1 := x];
    assert Members(o.own, q, m) && QueueHeld(s.message, s.mailbox[m - 1], boxes[m], q);
    assert t in q;
    ChainFrame(s.message, ms, s.mailbox[m - 1].mqHead, q);
    ChainFrame(s.message, ms, s.freeMSG, o.free);
    forall i | 0 <= i < |q| ensures Carries(ms, q[i], box.queue[i]) {
      assert Carries(s.message, q[i], boxes[m].queue[i]);
    }
    forall k | IsMbx(k)
      ensures QueueHeld(ms, s.mailbox[m - 1 := mb][k - 1], boxes[m := box][k], o.queued[k])
    {
      if k != m { OtherQueue(s, boxes, o, t, x, k); }
    }
  }

  /** Taking the head block of mailbox m's queue in hand. */
  lemma DequeueHolds(s: Store, boxes: seq<Box>, o: Ownership, m: int, mb: Mbx, box: Box)
    requires StoreHolds(s, boxes, o) && IsMbx(m) && boxes[m].queue != []
    requires box.queue == boxes[m].queue[1..]
    requires box.owner == boxes[m].owner && box.strategy == boxes[m].strategy && box.size == boxes[m].size
    requires IsMsg(s.mailbox[m - 1].mqHead)
    requires var link := s.message[s.mailbox[m - 1].mqHead - 1].link;
      mb == s.mailbox[m - 1].(mqHead := link, mqTail := if link <= 0 then 0 else s.mailbox[m - 1].mqTail,
                              mqCount := box.count, mqMissed := box.missed)
    ensures o.queued[m] != [] && s.mailbox[m - 1].mqHead == o.queued[m][0]
    ensures s.message[s.mailbox[m - 1].mqHead - 1].body == boxes[m].queue[0]
    ensures StoreHolds(s.(mailbox := s.mailbox[m - 1 := mb]), boxes[m := box], TakeHead(o, m))
  {
    var q := o.queued[m];
    assert QueueHeld(s.message, s.mailbox[m - 1], boxes[m], q);
    assert Carries(s.message, q[0], boxes[m].queue[0]);
    TakeHeadPartitioned(o, m);
    ChainTail(s.message, s.mailbox[m - 1].mqHead, q);
    forall i | 0 <= i < |q[1..]| ensures Carries(s.message, q[1..][i], box.queue[i]) {
      assert Carries(s.message, q[i + 1], boxes[m].queue[i + 1]);
    }
    if |q| > 1 { assert Link(s.message, q, 1); }
  }

  // ----- conservation

  ghost function QueueLengths(boxes: seq<Box>, m: nat): nat
    requires m < |boxes|
  {
    if m == 0 then 0 else QueueLengths(boxes, m - 1) + |boxes[m].queue|
  }

  lemma {:induction false} QueuedLengths(s: Store, boxes: seq<Box>, o: Ownership, m: nat)
    requires StoreHolds(s, boxes, o) && m <= NR_MBX
    ensures Queued(o, m) == QueueLengths(boxes, m)
  {
    if m > 0 {
      QueuedLengths(s, boxes, o, m - 1);
      assert QueueHeld(s.message, s.mailbox[m - 1], boxes[m], o.queued[m]);
    }
  }

  /** Between two calls the free blocks and the queued messages make up all the blocks there are,
      and nMsgBlk is the number of queued blocks, counted downwards. */
  lemma MessagesConserved(s: Store, boxes: seq<Box>, o: Ownership)
    requires StoreHolds(s, boxes, o) && NoneInHand(o)
    ensures |boxes| == NR_MBX + 1 && |o.free| + QueueLengths(boxes, NR_MBX) == NR_MSG
    ensures s.nMsgBlk + QueueLengths(boxes, NR_MBX) == 0
  {
    BlocksConserved(o);
    QueuedLengths(s, boxes, o, NR_MBX);
  }

  // ----- the queue of threads waiting at a mailbox

  ghost predicate WaitLink(tc: seq<Tcb>, w: seq<int>, i: int)
    requires 0 <= i < |w|
  {
    && 1 <= w[i] <= |tc|
    && tc[w[i] - 1].mbqNext == (if i + 1 < |w| then w[i + 1] else 0)
    && tc[w[i] - 1].mbqPrev == (if i > 0 then w[i - 1] else 0)
  }

  ghost predicate WaitHeld(tc: seq<Tcb>, mb: Mbx, w: seq<int>) {
    && mb.tqHead == (if w == [] then 0 else w[0])
    && mb.tqTail == (if w == [] then 0 else w[|w| - 1])
    && mb.tqCount == |w|
    && forall i {:trigger WaitLink(tc, w, i)} :: 0 <= i < |w| ==> WaitLink(tc, w, i)
  }

  ghost predicate WaitMembers(thr: seq<Thread>, w: seq<int>, m: int)
    requires |thr| == NR_TCB + 1
  {
    && Distinct(w)
    && (forall h :: h in w ==> IsTcb(h) && thr[h].waitMbx == m)
    && (forall h :: IsTcb(h) && thr[h].waitMbx == m ==> h in w)
  }

  ghost predicate NotQueued(tc: seq<Tcb>, h: int)
    requires 1 <= h <= |tc|
  {
    tc[h - 1].mbqNext == 0 && tc[h - 1].mbqPrev == 0
  }

  /** A thread waits at exactly the mailbox its block names. */
  ghost predicate WaitsHold(mailbox: seq<Mbx>, tc: seq<Tcb>, thr: seq<Thread>, boxes: seq<Box>) {
    && |mailbox| == NR_MBX && |tc| == NR_TCB && |thr| == NR_TCB + 1 && |boxes| == NR_MBX + 1
    && (forall h {:trigger thr[h]} :: IsTcb(h) ==> 0 <= thr[h].waitMbx <= NR_MBX)
    && (forall h {:trigger NotQueued(tc, h)} :: IsTcb(h) && thr[h].waitMbx == 0 ==> NotQueued(tc, h))
    && (forall m {:trigger boxes[m]} :: IsMbx(m) ==>
          WaitMembers(thr, boxes[m].waiters, m) && WaitHeld(tc, mailbox[m - 1], boxes[m].waiters))
  }

  ghost predicate SameWaiters(mb: Mbx, mb': Mbx) {
    mb'.tqHead == mb.tqHead && mb'.tqTail == mb.tqTail && mb'.tqCount == mb.tqCount
  }

  lemma WaitHeldFrame(tc: seq<Tcb>, tc': seq<Tcb>, mb: Mbx, mb': Mbx, w: seq<int>)
    requires WaitHeld(tc, mb, w) && |tc'| == |tc| && SameWaiters(mb, mb')
    requires forall h :: h in w && 1 <= h <= |tc| ==>
      tc'[h - 1].mbqNext == tc[h - 1].mbqNext && tc'[h - 1].mbqPrev == tc[h - 1].mbqPrev
    ensures WaitHeld(tc', mb', w)
  {
    forall i | 0 <= i < |w| ensures WaitLink(tc', w, i) {
      assert WaitLink(tc, w, i);
      assert w[i] in w;
    }
  }

  /** List operations and changes of anything but the waiting threads leave the waits alone. */
  lemma WaitsFrame(mailbox: seq<Mbx>, mailbox': seq<Mbx>, tc: seq<Tcb>, tc': seq<Tcb>,
                   thr: seq<Thread>, thr': seq<Thread>, boxes: seq<Box>, boxes': seq<Box>)
    requires WaitsHold(mailbox, tc, thr, boxes)
    requires |tc'| == NR_TCB && |thr'| == |thr| && |mailbox'| == |mailbox| && |boxes'| == |boxes|
    requires forall i :: 0 <= i < NR_TCB ==> tc'[i].mbqNext == tc[i].mbqNext && tc'[i].mbqPrev == tc[i].mbqPrev
    requires forall h :: IsTcb(h) ==> thr'[h].waitMbx == thr[h].waitMbx
    requires forall i :: 0 <= i < NR_MBX ==> SameWaiters(mailbox[i], mailbox'[i])
    requires forall m :: IsMbx(m) ==> boxes'[m].waiters == boxes[m].waiters
    ensures WaitsHold(mailbox', tc', thr', boxes')
  {
    forall h | IsTcb(h) && thr'[h].waitMbx == 0 ensures NotQueued(tc', h) {
      assert thr[h].waitMbx == 0;
      assert NotQueued(tc, h);
    }
    forall m | IsMbx(m)
      ensures WaitMembers(thr', boxes'[m].waiters, m) && WaitHeld(tc', mailbox'[m - 1], boxes'[m].waiters)
    {
      assert boxes[m] == boxes[m];
      WaitHeldFrame(tc, tc', mailbox[m - 1], mailbox'[m - 1], boxes[m].waiters);
    }
  }

  /** Thread h joins the end of mailbox m's queue. */
  lemma JoinHolds(mailbox: seq<Mbx>, tc: seq<Tcb>, thr: seq<Thread>, boxes: seq<Box>, m: int, h: int,
                  tc': seq<Tcb>, mb: Mbx, t: Thread)
    requires WaitsHold(mailbox, tc, thr, boxes) && IsMbx(m) && IsTcb(h) && thr[h].waitMbx == 0
    requires t.waitMbx == m && |tc'| == NR_TCB
    requires var b := mailbox[m - 1];
      && mb.tqHead == (if b.tqHead <= 0 then h else b.tqHead) && mb.tqTail == h && mb.tqCount == b.tqCount + 1
    requires forall g :: IsTcb(g) ==>
      && tc'[g - 1].mbqNext == (if g == h then 0 else if g == mailbox[m - 1].tqTail then h else tc[g - 1].mbqNext)
      && tc'[g - 1].mbqPrev == if g == h then mailbox[m - 1].tqTail else tc[g - 1].mbqPrev
    ensures WaitsHold(mailbox[m - 1 := mb], tc', thr[h := t], boxes[m := boxes[m].(waiters := boxes[m].waiters + [h])])
  {
    var w := boxes[m].waiters;
    assert WaitMembers(thr, w, m) && WaitHeld(tc, mailbox[m - 1], w);
    var w' := w + [h];
    if w != [] { assert WaitLink(tc, w, |w| - 1) && w[|w| - 1] in w && WaitLink(tc, w, 0); }
    forall i | 0 <= i < |w'| ensures WaitLink(tc', w', i) {
      if i < |w| {
        assert WaitLink(tc, w, i);
        assert w[i] in w;
      }
    }
    DistinctAppend(w, h);
    forall g | IsTcb(g) && thr[h := t][g].waitMbx == 0 ensures NotQueued(tc', g) {
      assert NotQueued(tc, g);
    }
    forall k | IsMbx(k) && k != m
      ensures WaitMembers(thr[h := t], boxes[k].waiters, k) && WaitHeld(tc', mailbox[k - 1], boxes[k].waiters)
    {
      assert boxes[k] == boxes[k];
      WaitHeldFrame(tc, tc', mailbox[k - 1], mailbox[k - 1], boxes[k].waiters);
    }
  }

  /** The queue w after its head, h, has been unlinked. */
  ghost predicate Left(tc: seq<Tcb>, tc': seq<Tcb>, h: int, g: int)
    requires |tc| == |tc'| == NR_TCB && IsTcb(h) && IsTcb(g)
  {
    && tc'[g - 1].mbqNext == (if g == h then 0 else tc[g - 1].mbqNext)
    && tc'[g - 1].mbqPrev == (if g == h || g == tc[h - 1].mbqNext then 0 else tc[g - 1].mbqPrev)
  }

  lemma LeaveQueue(tc: seq<Tcb>, tc': seq<Tcb>, mb: Mbx, mb': Mbx, w: seq<int>)
    requires |tc| == |tc'| == NR_TCB && WaitHeld(tc, mb, w) && w != [] && Distinct(w)
    requires IsTcb(w[0]) && forall h :: h in w ==> IsTcb(h)
    requires forall g {:trigger Left(tc, tc', w[0], g)} :: IsTcb(g) ==> Left(tc, tc', w[0], g)
    requires var next := tc[w[0] - 1].mbqNext;
      && mb'.tqHead == next && mb'.tqTail == (if IsTcb(next) then mb.tqTail else 0)
      && mb'.tqCount == mb.tqCount - 1
    ensures WaitHeld(tc', mb', w[1..])
  {
    assert WaitLink(tc, w, 0);
    forall i | 0 <= i < |w| - 1 ensures WaitLink(tc', w[1..], i) {
      assert WaitLink(tc, w, i + 1);
      assert Left(tc, tc', w[0], w[i + 1]);
      assert w[i + 1] != w[0];
      assert i > 0 ==> w[i + 1] != w[1];
    }
    if |w| > 1 { assert WaitLink(tc, w, 1); }
  }

  lemma LeaveMembers(thr: seq<Thread>, w: seq<int>, m: int, t: Thread)
    requires |thr| == NR_TCB + 1 && IsMbx(m) && WaitMembers(thr, w, m) && w != [] && t.waitMbx == 0
    ensures IsTcb(w[0]) && WaitMembers(thr[w[0] := t], w[1..], m)
  {
    assert w == [w[0]] + w[1..] && w[0] in w;
    forall g | g in w[1..] ensures g in w && g != w[0] { }
  }

  /** The first thread waiting at mailbox m leaves. */
  lemma LeaveHolds(mailbox: seq<Mbx>, tc: seq<Tcb>, thr: seq<Thread>, boxes: seq<Box>, m: int,
                   tc': seq<Tcb>, mb: Mbx, t: Thread)
    requires WaitsHold(mailbox, tc, thr, boxes) && IsMbx(m) && boxes[m].waiters != []
    requires t.waitMbx == 0 && |tc'| == NR_TCB
    requires IsTcb(boxes[m].waiters[0])
    requires var next := tc[boxes[m].waiters[0] - 1].mbqNext;
      && mb.tqHead == next && mb.tqTail == (if IsTcb(next) then mailbox[m - 1].tqTail else 0)
      && mb.tqCount == mailbox[m - 1].tqCount - 1
    requires var h := boxes[m].waiters[0];
      forall g {:trigger Left(tc, tc', h, g)} :: IsTcb(g) ==> Left(tc, tc', h, g)
    ensures WaitsHold(mailbox[m - 1 := mb], tc', thr[boxes[m].waiters[0] := t],
                      boxes[m := boxes[m].(waiters := boxes[m].waiters[1..])])
  {
    var w := boxes[m].waiters;
    var h := w[0];
    assert WaitMembers(thr, w, m) && WaitHeld(tc, mailbox[m - 1], w);
    LeaveMembers(thr, w, m, t);
    LeaveQueue(tc, tc', mailbox[m - 1], mb, w);
    assert WaitLink(tc, w, 0);
    if |w| > 1 { assert w[1] in w; }
    forall g | IsTcb(g) && thr[h := t][g].waitMbx == 0 ensures NotQueued(tc', g) {
      assert Left(tc, tc', h, g);
      if g != h { assert NotQueued(tc, g); }
    }
    forall k | IsMbx(k) && k != m
      ensures WaitMembers(thr[h := t], boxes[k].waiters, k) && WaitHeld(tc', mailbox[k - 1], boxes[k].waiters)
    {
      LeaveOther(mailbox, tc, thr, boxes, m, tc', t, k);
    }
  }

  lemma LeaveOther(mailbox: seq<Mbx>, tc: seq<Tcb>, thr: seq<Thread>, boxes: seq<Box>, m: int,
                   tc': seq<Tcb>, t: Thread, k: int)
    requires WaitsHold(mailbox, tc, thr, boxes) && IsMbx(m) && boxes[m].waiters != []
    requires t.waitMbx == 0 && |tc'| == NR_TCB && IsMbx(k) && k != m
    requires IsTcb(boxes[m].waiters[0])
    requires var h := boxes[m].waiters[0];
      forall g {:trigger Left(tc, tc', h, g)} :: IsTcb(g) ==> Left(tc, tc', h, g)
    ensures WaitMembers(thr[boxes[m].waiters[0] := t], boxes[k].waiters, k)
    ensures WaitHeld(tc', mailbox[k - 1], boxes[k].waiters)
  {
    var w := boxes[m].waiters;
    assert WaitMembers(thr, w, m) && WaitHeld(tc, mailbox[m - 1], w);
    assert WaitMembers(thr, boxes[k].waiters, k);
    assert WaitLink(tc, w, 0) && w[0] in w;
    if |w| > 1 { assert w[1] in w; }
    forall g | g in boxes[k].waiters && IsTcb(g)
      ensures tc'[g - 1].mbqNext == tc[g - 1].mbqNext && tc'[g - 1].mbqPrev == tc[g - 1].mbqPrev
    {
      assert Left(tc, tc', w[0], g);
    }
    WaitHeldFrame(tc, tc', mailbox[k - 1], mailbox[k - 1], boxes[k].waiters);
  }
}
