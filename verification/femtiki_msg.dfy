/** Mailboxes and messages (software/Femtiki/source/kernel/msg.c). A panic that would be reached
    is written `assert false`. */
module Mail {
  import opened KernelTypes
  import opened ThreadLists
  import opened ThreadWords
  import opened ThreadTables
  import opened Boxes
  import opened Blocks
  import opened StoreWords
  import opened MailModel
  import opened MailWords

  class MessageStore {
    const threads: ThreadTable
    var mailbox: seq<Mbx>
    var message: seq<Msg>
    var freeMSG: int
    var nMsgBlk: int
    var freeMBX: int
    ghost var firstMbx: nat
    ghost var boxes: seq<Box>
    ghost var own: Ownership

    ghost function Words(): Store
      reads this
    {
      Store(mailbox, message, freeMSG, nMsgBlk, freeMBX)
    }

    ghost function Now(): Core
      reads this, threads
    {
      Core(threads.ts, boxes, |own.free|, firstMbx)
    }

    ghost predicate Valid()
      reads this, threads
    {
      MailHolds(threads.Words(), Words(), Now(), own) && |own.own| == NR_MSG + 1 && NoneInHand(own)
    }

    /** The lists as initialisation leaves them. */
    constructor ()
      ensures Valid() && Now() == InitialCore()
      ensures fresh(threads)
    {
      var t := new ThreadTable();
      var mbx := seq(NR_MBX, _ => ZERO_MBX);
      var nn := 0;
      while nn < NR_MBX
        invariant 0 <= nn <= NR_MBX == |mbx|
        invariant forall i :: 0 <= i < NR_MBX ==> mbx[i] == ZERO_MBX.(link := if i < nn then i + 2 else 0)
      {
        mbx := mbx[nn := mbx[nn].(link := nn + 2)];
        nn := nn + 1;
      }
      var msg := seq(NR_MSG, _ => Msg(0, MT_NONE, NO_PAYLOAD));
      nn := 0;
      while nn < NR_MSG
        invariant 0 <= nn <= NR_MSG == |msg|
        invariant forall i :: 0 <= i < NR_MSG ==> msg[i] == Msg(if i < nn then i + 2 else 0, MT_NONE, NO_PAYLOAD)
      {
        msg := msg[nn := msg[nn].(link := nn + 2)];
        nn := nn + 1;
      }
      threads := t;
      mailbox := mbx[127 := mbx[127].(link := 0)];
      message := msg[NR_MSG - 1 := msg[NR_MSG - 1].(link := 0)];
      freeMSG, nMsgBlk, freeMBX, firstMbx := 1, 0, 1, 1;
      boxes := InitialBoxes();
      own := InitialOwnership();
      new;
      InitialMailHolds(threads.Words(), Words());
    }

    // ----- message blocks

    method AllocMsg(p: Payload) returns (h: int)
      requires StoreHolds(Words(), boxes, own)
      modifies this`message, this`freeMSG, this`nMsgBlk, this`own
      ensures StoreHolds(Words(), boxes, own)
      ensures if old(own).free == [] then h == 0 && own == old(own)
              else h == old(own).free[0] && IsMsg(h) && own == Take(old(own)) && message[h - 1].body == p
    {
      if own.free != [] {
        assert Blocks.Link(message, own.free, 0);
      }
      if freeMSG == 0 {
        return 0;
      }
      AllocHolds(Words(), boxes, own);
      h := freeMSG;
      freeMSG := message[h - 1].link;
      nMsgBlk := nMsgBlk - 1;
      TakePartitioned(own);
      own := Take(own);
      WriteInHand(Words(), boxes, own, h, message[h - 1].(typ := MT_DATA, body := p));
      message := message[h - 1 := message[h - 1].(typ := MT_DATA, body := p)];
    }

    method FreeMsg(h: int)
      requires StoreHolds(Words(), boxes, own) && IsMsg(h) && own.own[h] == IN_HAND
      modifies this`message, this`freeMSG, this`nMsgBlk, this`own
      ensures StoreHolds(Words(), boxes, own) && own == Give(old(own), h)
    {
      FreeHolds(Words(), boxes, own, h, Msg(freeMSG, MT_FREE, NO_PAYLOAD));
      message := message[h - 1 := Msg(freeMSG, MT_FREE, NO_PAYLOAD)];
      freeMSG := h;
      nMsgBlk := nMsgBlk + 1;
      own := Give(own, h);
    }

    // ----- the queue of messages

    /** A repeat of the last message queued at m is counted in that message's block. */
    method CountRepeat(m: int, msg: int) returns (counted: bool)
      requires StoreHolds(Words(), boxes, own) && IsMbx(m) && IsMsg(msg) && own.own[msg] == IN_HAND
      requires !Refuses(boxes[m])
      modifies this`mailbox, this`message, this`freeMSG, this`nMsgBlk, this`boxes, this`own
      ensures counted == Coalesces(old(boxes)[m].queue, old(message[msg - 1].body))
      ensures if counted then
          && boxes == old(boxes)[m := QueueMsg(old(boxes)[m], old(message[msg - 1].body))]
          && own == Give(old(own), msg)
        else
          Words() == old(Words()) && boxes == old(boxes) && own == old(own)
      ensures StoreHolds(Words(), boxes, own)
      ensures SameQueues(old(mailbox), mailbox)
    {
      ghost var b := boxes[m];
      var x := m - 1;
      assert QueueHeld(message, mailbox[x], b, own.queued[m]);
      var tail := mailbox[x].mqTail;
      QueueTail(message, mailbox[x], b, own.queued[m]);
      if tail <= 0 {
        return false;
      }
      var last, now := message[tail - 1].body, message[msg - 1].body;
      if now.d1 % REPEAT == last.d1 % REPEAT && now.d2 == last.d2 && now.d3 == last.d3 && last.d1 < 0xffff0000 {
        var more := Payload(last.d1 + REPEAT, last.d2, last.d3);
        var mb := mailbox[x].(mqCount := mailbox[x].mqCount + 1);
        CoalesceHolds(Words(), boxes, own, m, more, mb, QueueMsg(b, now));
        mailbox := mailbox[x := mb];
        message := message[tail - 1 := message[tail - 1].(body := more)];
        boxes := boxes[m := QueueMsg(b, now)];
        FreeMsg(msg);
        return true;
      }
      return false;
    }

    method LinkAtTail(m: int, msg: int)
      requires StoreHolds(Words(), boxes, own) && IsMbx(m) && IsMsg(msg) && own.own[msg] == IN_HAND
      requires !Refuses(boxes[m]) && !Coalesces(boxes[m].queue, message[msg - 1].body)
      modifies this`mailbox, this`message, this`boxes, this`own
      ensures boxes == old(boxes)[m := QueueMsg(old(boxes)[m], old(message[msg - 1].body))]
      ensures own == Append(old(own), m, msg)
      ensures StoreHolds(Words(), boxes, own)
      ensures SameQueues(old(mailbox), mailbox)
    {
      hide StoreHolds, QueueHeld;
      HeldAt(Words(), boxes, own, m);
      QueueCount(message, mailbox[m - 1], boxes[m], own.queued[m]);
      ghost var s := Words();
      ghost var b := QueueMsg(boxes[m], message[msg - 1].body);
      var x := m - 1;
      QueueTail(message, mailbox[x], boxes[m], own.queued[m]);
      var tail := mailbox[x].mqTail;
      var mb := mailbox[x].(mqHead := if tail > 0 then mailbox[x].mqHead else msg, mqTail := msg,
                            mqCount := mailbox[x].mqCount + 1);
      if tail > 0 {
        message := message[tail - 1 := message[tail - 1].(link := msg)];
      }
      message := message[msg - 1 := message[msg - 1].(link := 0)];
      mailbox := mailbox[x := mb];
      AppendHolds(s, boxes, own, m, msg, mb, b, message);
      boxes := boxes[m := b];
      own := Append(own, m, msg);
    }

    /** A block for which the queue has no room goes back to the pool. */
    method Refuse(m: int, msg: int)
      requires StoreHolds(Words(), boxes, own) && IsMbx(m) && IsMsg(msg) && own.own[msg] == IN_HAND
      requires Refuses(boxes[m])
      modifies this`mailbox, this`message, this`freeMSG, this`nMsgBlk, this`boxes, this`own
      ensures boxes == old(boxes)[m := QueueMsg(old(boxes)[m], old(message[msg - 1].body))]
      ensures own == Give(old(own), msg)
      ensures StoreHolds(Words(), boxes, own)
      ensures SameQueues(old(mailbox), mailbox)
    {
      ghost var b := QueueMsg(boxes[m], message[msg - 1].body);
      FreeMsg(msg);
      var x := m - 1;
      assert QueueHeld(message, mailbox[x], boxes[m], own.queued[m]);
      var mb := mailbox[x].(mqMissed := Bump(mailbox[x].mqMissed));
      SetBoxHolds(Words(), boxes, own, m, mb, b);
      mailbox := mailbox[x := mb];
      boxes := boxes[m := b];
    }

    method MBXQueueMsg(m: int, msg: int) returns (rr: Error)
      requires StoreHolds(Words(), boxes, own) && IsMbx(m) && IsMsg(msg) && own.own[msg] == IN_HAND
      requires Steady(boxes[m])
      modifies this`mailbox, this`message, this`freeMSG, this`nMsgBlk, this`boxes, this`own
      ensures var p := old(message[msg - 1].body); var b := old(boxes)[m];
        && boxes == old(boxes)[m := QueueMsg(b, p)]
        && rr == (if Refuses(b) then E_QueFull else E_Ok)
        && own == if Returned(b, p) then Give(old(own), msg) else Append(old(own), m, msg)
      ensures StoreHolds(Words(), boxes, own)
      ensures SameQueues(old(mailbox), mailbox)
    {
      var x := m - 1;
      assert QueueHeld(message, mailbox[x], boxes[m], own.queued[m]);
      if mailbox[x].mqCount + 1 > mailbox[x].mqSize {
        match mailbox[x].strategy {
          case MQS_UNLIMITED =>
          case MQS_NEWEST =>
            assert false;  // an overflow, which a steady queue does not have
          case MQS_OLDEST =>
            Refuse(m, msg);
            return E_QueFull;
        }
      }
      var counted := CountRepeat(m, msg);
      if !counted {
        LinkAtTail(m, msg);
      }
      return E_Ok;
    }

    method MBXDequeueMsg(m: int) returns (msg: int)
      requires StoreHolds(Words(), boxes, own) && IsMbx(m)
      modifies this`mailbox, this`message, this`boxes, this`own
      ensures var b := old(boxes)[m];
        && boxes == old(boxes)[m := DequeueMsg(b)]
        && if b.count > 0 && b.queue != [] then
             && IsMsg(msg) && |message| == NR_MSG
             && message[msg - 1].body == b.queue[0] && message[msg - 1].link == msg
             && old(own).queued[m] != [] && msg == old(own).queued[m][0] && own == TakeHead(old(own), m)
           else msg == 0 && own == old(own)
      ensures StoreHolds(Words(), boxes, own)
      ensures SameQueues(old(mailbox), mailbox)
    {
      hide StoreHolds, QueueHeld, TakeHead;
      HeldAt(Words(), boxes, own, m);
      QueueCount(message, mailbox[m - 1], boxes[m], own.queued[m]);
      ghost var b := boxes[m];
      var x := m - 1;
      if mailbox[x].mqCount == 0 {
        assert boxes[m := DequeueMsg(b)] == boxes;
        return 0;
      }
      var count := mailbox[x].mqCount - 1;
      msg := mailbox[x].mqHead;
      if msg <= 0 {
        QueueHead(message, mailbox[x], b, own.queued[m]);
        SetBoxHolds(Words(), boxes, own, m, mailbox[x].(mqCount := count), DequeueMsg(b));
        mailbox := mailbox[x := mailbox[x].(mqCount := count)];
        boxes := boxes[m := DequeueMsg(b)];
        return 0;
      }
      QueueHead(message, mailbox[x], b, own.queued[m]);
      var link := message[msg - 1].link;
      var mb := mailbox[x].(mqCount := count, mqHead := link, mqTail := if link <= 0 then 0 else mailbox[x].mqTail);
      DequeueHolds(Words(), boxes, own, m, mb, DequeueMsg(b));
      TakeHeadFacts(Words(), boxes, own, m);
      mailbox := mailbox[x := mb];
      boxes := boxes[m := DequeueMsg(b)];
      own := TakeHead(own, m);
      WriteInHand(Words(), boxes, own, msg, message[msg - 1].(link := msg));
      message := message[msg - 1 := message[msg - 1].(link := msg)];
    }

    // ----- the queue of waiting threads

    method MBXQueueThread(m: int, h: int)
      requires Valid() && IsMbx(m) && IsTcb(h) && threads.ts.thr[h].waitMbx == 0
      requires Shaped(Now())
      modifies this`mailbox, this`boxes, threads`tcbs, threads`ts
      ensures Valid() && Now() == QueueThread(old(Now()), m, h)
    {
      JoinMail(threads.Words(), Words(), Now(), own, m, h);
      var x, t := m - 1, h - 1;
      if threads.tcbs[t].mbqNext > 0 || threads.tcbs[t].mbqPrev > 0 {
        assert false;
      }
      var mb := mailbox[x];
      threads.tcbs := threads.tcbs[t := Waiting(threads.tcbs[t], m, if mb.tqHead <= 0 then 0 else mb.tqTail)];
      if mb.tqHead <= 0 {
        mailbox := mailbox[x := mb.(tqHead := h, tqTail := h, tqCount := 1)];
      } else {
        threads.tcbs := WithMbqNext(threads.tcbs, mb.tqTail, h);
        mailbox := mailbox[x := mb.(tqTail := h, tqCount := mb.tqCount + 1)];
      }
      threads.ts := QueueThread(Now(), m, h).ts;
      boxes := boxes[m := boxes[m].(waiters := boxes[m].waiters + [h])];
    }

    method MBXDequeueThread(m: int) returns (h: int, rr: Error)
      requires Valid() && IsMbx(m) && Shaped(Now())
      requires boxes[m].waiters != [] ==> Sleeping(threads.ts, boxes[m].waiters[0])
      modifies this`mailbox, this`boxes, threads
      ensures if old(boxes)[m].waiters == [] then
          h == 0 && rr == E_NoThread && Now() == old(Now())
        else
          h == old(boxes)[m].waiters[0] && rr == E_Ok && Now() == DequeueThread(old(Now()), m)
      ensures Valid()
    {
      hide StoreHolds, Holds;
      ghost var w, s, c := threads.Words(), Words(), Now();
      WaitEnds(mailbox, threads.tcbs, threads.ts.thr, boxes, m);
      if !IsTcb(mailbox[m - 1].tqHead) {
        return 0, E_NoThread;
      }
      h := mailbox[m - 1].tqHead;
      rr := E_Ok;
      UnlinkWaiter(m, h);
      LeaveMail(w, s, c, own, m, threads.Words(), threads.ts);
      threads.tcbs := threads.tcbs[h - 1 := NotWaiting(threads.tcbs[h - 1])];
      threads.ts := DequeueThread(c, m).ts;
      boxes := boxes[m := boxes[m].(waiters := boxes[m].waiters[1..])];
    }

    /** The first half of a dequeue: the mailbox's queue starts at the next thread, and h is off
        the timeout list. */
    method UnlinkWaiter(m: int, h: int)
      requires Valid() && IsMbx(m) && IsTcb(h) && boxes[m].waiters != [] && h == boxes[m].waiters[0]
      requires Sleeping(threads.ts, h)
      modifies this`mailbox, threads
      ensures mailbox == old(mailbox)[m - 1 := Leaving(old(mailbox)[m - 1], old(threads.tcbs)[h - 1].mbqNext)]
      ensures SameMailboxLinks(WithMbqPrev(old(threads.tcbs), old(threads.tcbs)[h - 1].mbqNext, 0), threads.tcbs)
      ensures threads.ts == if old(threads.ts).thr[h].status.timeout then RemoveTimeout(old(threads.ts), h)
                            else old(threads.ts)
      ensures threads.Valid()
    {
      var next := threads.tcbs[h - 1].mbqNext;
      mailbox := mailbox[m - 1 := Leaving(mailbox[m - 1], next)];
      if IsTcb(next) {
        SetLinkHolds(threads.Words(), threads.ts, next, threads.tcbs[next - 1].(mbqPrev := 0));
      }
      threads.tcbs := WithMbqPrev(threads.tcbs, next, 0);
      assert Slot(threads.tcbs, threads.ts, h);
      if threads.tcbs[h - 1].info.status.timeout {
        threads.TCBRemoveFromTimeoutList(h);
      }
    }

    // ----- the calls that do not switch threads

    method FMTK_PostMsg(hMbx: int, p: Payload) returns (rr: Error)
      requires Valid() && Shaped(Now()) && Receptive(Now(), hMbx)
      modifies this, threads
      ensures Valid() && Now() == Post(old(Now()), hMbx, p) && rr == PostResult(old(Now()), hMbx)
    {
      hide Holds, StoreHolds, WaitsHold;
      if hMbx <= 0 || hMbx > NR_MBX {
        return E_Arg;
      }
      PoolFacts(threads.Words(), Words(), Now(), own, hMbx);
      if mailbox[hMbx - 1].owner <= 0 || mailbox[hMbx - 1].owner > NR_ACB {
        return E_NotAlloc;
      }
      if freeMSG <= 0 || freeMSG > NR_MSG {
        return E_NoMoreMsgBlks;
      }
      ghost var c := Now();
      var thread;
      thread, rr := MBXDequeueThread(hMbx);
      if thread == 0 {
        rr := DepositMsg(hMbx, p);
        return;
      }
      MakeReceiverReady(hMbx, thread, p, c);
      rr := E_Ok;
    }

    method DepositMsg(m: int, p: Payload) returns (rr: Error)
      requires Valid() && Shaped(Now()) && IsMbx(m) && Steady(boxes[m]) && own.free != []
      modifies this`mailbox, this`message, this`freeMSG, this`nMsgBlk, this`boxes, this`own
      ensures Valid() && Now() == Deposit(old(Now()), m, p)
      ensures rr == if Refuses(old(boxes)[m]) then E_QueFull else E_Ok
    {
      hide Holds, StoreHolds, WaitsHold;
      ghost var w, s, c := threads.Words(), Words(), Now();
      var msg := AllocMsg(p);
      TakePartitionedIn(s, boxes, old(own));
      rr := MBXQueueMsg(m, msg);
      KeepWaits(w, s, c, Words(), boxes, m);
    }

    /** The receiver that was dequeued is made ready and given the message. */
    method MakeReceiverReady(m: int, thread: int, p: Payload, ghost c: Core)
      requires Valid() && Shaped(c) && IsMbx(m) && c.boxes[m].waiters != []
      requires Now() == DequeueThread(c, m) && thread == c.boxes[m].waiters[0]
      requires IsTcb(thread) && threads.ts.loc[thread] == OffList
      modifies this`boxes, threads
      ensures Valid() && Now() == Deliver(c, m, p)
    {
      ghost var d := Now();
      hide Holds, StoreHolds;
      SlotFacts(threads.Words(), threads.ts, thread);
      if threads.tcbs[thread - 1].info.status.timeout {
        assert false;  // the dequeue has already taken the thread off the timeout list
      }
      var rr := threads.TCBInsertIntoReadyQueue(thread);
      SlotFacts(threads.Words(), threads.ts, thread);
      var t := thread - 1;
      var info := threads.tcbs[t].info.(msgType := MT_DATA, msg := p);
      SetInfoHolds(threads.Words(), threads.ts, thread, threads.tcbs[t].(info := info));
      threads.tcbs := threads.tcbs[t := threads.tcbs[t].(info := info)];
      threads.ts := SetThread(threads.ts, thread, info);
      boxes := boxes[m := HandOver(c.boxes[m], p)];
      assert threads.ts == Deliver(c, m, p).ts;
      assert boxes == Deliver(c, m, p).boxes;
      WaitsFrame(mailbox, mailbox, old(threads.tcbs), threads.tcbs, d.ts.thr, threads.ts.thr, d.boxes, boxes);
      HistoryHolds(Words(), d.boxes, own, m, HandOver(c.boxes[m], p));
    }

    /** Takes the oldest message out of mailbox m, if there is one. */
    method FetchMsg(m: int) returns (found: bool, p: Payload)
      requires Valid() && Shaped(Now()) && IsMbx(m)
      modifies this`mailbox, this`message, this`freeMSG, this`nMsgBlk, this`boxes, this`own
      ensures Valid() && Now() == Fetch(old(Now()), m)
      ensures found == (old(boxes)[m].count > 0 && old(boxes)[m].queue != [])
      ensures p == if found then old(boxes)[m].queue[0] else NO_PAYLOAD
    {
      hide Holds, StoreHolds, WaitsHold;
      ghost var w, s, c := threads.Words(), Words(), Now();
      var msg := MBXDequeueMsg(m);
      if msg > 0 {
        TakeHeadFacts(s, c.boxes, old(own), m);
        p := message[msg - 1].body;
        FreeMsg(msg);
      } else {
        p := NO_PAYLOAD;
      }
      found := msg > 0;
      KeepWaits(w, s, c, Words(), boxes, m);
    }

    /** Checking for a message, and removing it if asked to. Without removal an empty mailbox is not
        noticed: the words before the table of blocks are returned as its message. */
    method FMTK_CheckMsg(hMbx: int, remove: bool, before: Payload) returns (rr: Error, p: Payload)
      requires Valid() && Shaped(Now()) && hMbx >= 0
      modifies this`mailbox, this`message, this`freeMSG, this`nMsgBlk, this`boxes, this`own
      ensures Valid() && Now() == if remove then Check(old(Now()), hMbx) else old(Now())
      ensures rr == CheckResult(old(Now()), hMbx, remove)
      ensures p == if rr != E_Ok then NO_PAYLOAD
                   else if old(boxes)[hMbx].queue == [] then before
                   else old(boxes)[hMbx].queue[0]
    {
      if hMbx == 0 || hMbx > NR_MBX {
        return E_Arg, NO_PAYLOAD;
      }
      PoolFacts(threads.Words(), Words(), Now(), own, hMbx);
      if mailbox[hMbx - 1].owner == 0 || mailbox[hMbx - 1].owner > NR_ACB {
        return E_NotAlloc, NO_PAYLOAD;
      }
      if !remove {
        var head := mailbox[hMbx - 1].mqHead;
        QueueHead(message, mailbox[hMbx - 1], boxes[hMbx], own.queued[hMbx]);
        p := if head > 0 then message[head - 1].body else before;
        return E_Ok, p;
      }
      var found;
      found, p := FetchMsg(hMbx);
      rr := if found then E_Ok else E_NoMsg;
    }

    method FMTK_EmptyMbx(hMbx: int) returns (rr: Error)
      requires Valid() && Shaped(Now())
      modifies this`mailbox, this`message, this`freeMSG, this`nMsgBlk, this`boxes, this`own
      ensures Valid()
      ensures if IsMbx(hMbx) then rr == E_Ok && Now() == Emptied(old(Now()), hMbx)
              else rr == E_Arg && Now() == old(Now())
    {
      if hMbx <= 0 || hMbx > NR_MBX {
        return E_Arg;
      }
      ghost var c := Now();
      var more := true;
      while more
        invariant Valid() && Shaped(Now())
        invariant Emptied(c, hMbx) == if more then Emptied(Now(), hMbx) else Now()
        decreases more, boxes[hMbx].count
      {
        ghost var b := boxes[hMbx];
        var p;
        more, p := FetchMsg(hMbx);
      }
      return E_Ok;
    }

    method FMTK_AllocMbx(app: int) returns (hMbx: int, rr: Error)
      requires Valid() && Shaped(Now()) && 0 <= app <= NR_ACB
      requires firstMbx <= LAST_MBX ==> FreshBox(boxes[firstMbx])
      modifies this`mailbox, this`freeMBX, this`boxes, this`firstMbx
      ensures Valid()
      ensures if old(firstMbx) > LAST_MBX then rr == E_NoMoreMbx && Now() == old(Now())
              else rr == E_Ok && hMbx == old(firstMbx) && Now() == AllocatedMbx(old(Now()), app)
    {
      ghost var w, s, c := threads.Words(), Words(), Now();
      if freeMBX <= 0 || freeMBX > NR_MBX {
        return 0, E_NoMoreMbx;
      }
      hMbx := freeMBX;
      rr := E_Ok;
      var x := hMbx - 1;
      freeMBX := mailbox[x].link;
      var mb := Mbx(mailbox[x].link, if app == 0 then 1 else app, 0, 0, 0, 0, MQS_NEWEST, 0, 8, 0, 0);
      AllocMbxHolds(w, s, c, own, app);
      mailbox := mailbox[x := mb];
      boxes := boxes[hMbx := NewBox(app)];
      firstMbx := firstMbx + 1;
    }

    /** A new policy for a mailbox, whatever is queued there. */
    method SetMbxMsgQueStrategy(hMbx: int, strategy: int, size: nat, app: int) returns (rr: Error)
      requires Valid() && Shaped(Now())
      modifies this`mailbox, this`boxes
      ensures Valid() && Now() == WithStrategy(old(Now()), hMbx, strategy, size, app)
      ensures rr == StrategyResult(old(Now()), hMbx, strategy, app)
    {
      if hMbx <= 0 || hMbx > NR_MBX {
        return E_Arg;
      }
      if strategy > 2 {
        return E_Arg;
      }
      var x := hMbx - 1;
      assert QueueHeld(message, mailbox[x], boxes[hMbx], own.queued[hMbx]);
      if mailbox[x].owner != app && app > 1 {
        return E_NotOwner;
      }
      ghost var w, s, c := threads.Words(), Words(), Now();
      ghost var b := boxes[hMbx].(strategy := Policy(strategy), size := size);
      SetBoxHolds(s, boxes, own, hMbx, mailbox[x].(strategy := Policy(strategy), mqSize := size), b);
      hide Holds, StoreHolds, WaitsHold;
      mailbox := mailbox[x := mailbox[x].(strategy := Policy(strategy), mqSize := size)];
      boxes := boxes[hMbx := b];
      KeepWaits(w, s, c, Words(), boxes, hMbx);
      return E_Ok;
    }
  }
}
