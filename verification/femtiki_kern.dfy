/** The kernel's calls and interrupts (software/Femtiki/source/kernel/Femtiki_kern.c, and the
    calls of msg.c that switch threads), on one core. */
module Kern {
  import opened KernelTypes
  import opened Seqs
  import opened ThreadLists
  import opened ThreadWords
  import opened ThreadTables
  import opened Boxes
  import opened StoreWords
  import opened MailModel
  import opened MailWords
  import opened Mail
  import opened KernelState
  import opened KernelInvariant
  import opened TickLoop
  import opened KernelRuns
  import opened KernelWords
  import T = Timeouts

  class Kernel {
    const store: MessageStore
    const threads: ThreadTable
    var running: int
    var invert: nat
    var missed: nat
    ghost var phase: seq<Phase>
    ghost var charged: int

    ghost function Now(): State
      reads this, store, store.threads
    {
      State(store.Now(), running, invert, missed, phase, charged)
    }

    /** The words hold the abstract state. */
    ghost predicate Held()
      reads this, store, store.threads
    {
      store.threads == threads && store.Valid() && threads.Valid()
    }

    /** Between two steps the state also keeps the invariant of every run. */
    ghost predicate Valid()
      reads this, store, store.threads
    {
      Held() && Inv(Now())
    }

    /** FMTK_Initialize: the lists, two mailboxes for the system and the idle thread. */
    constructor ()
      ensures Valid() && Now() == InitialState()
      ensures fresh(store) && fresh(threads)
    {
      hide Holds, StoreHolds, WaitsHold, FreeMailboxes, Inv, InitialThreads, InitialBoxes, StartThreadCore;
      var s := new MessageStore();
      store := s;
      threads := s.threads;
      running, invert, missed := BOOT, 0, 0;
      phase, charged := seq(NR_TCB + 1, _ => Working), 0;
      new;
      BootShaped();
      InitialInv();
      StartInv(phase);
      var keyboard, rr := store.FMTK_AllocMbx(1);
      var system;
      system, rr := store.FMTK_AllocMbx(1);
      var idle;
      idle, rr := StartThread(15, CPU);
    }

    // ----- choosing the thread to run

    method SelectThreadToRunHelper(nn: nat) returns (r: int)
      requires threads.Valid() && nn < LEVELS && Indexes(threads.ts)
      modifies threads`readyQ, threads`ts
      ensures threads.Valid() && (threads.ts, r) == PickAt(old(threads.ts), nn)
      ensures r <= 0 ==> threads.ts == old(threads.ts)
    {
      hide Holds, WellFormed, FirstEligible, PickAt;
      ghost var ring := threads.ts.rings[nn];
      RingWalk(threads.Words(), threads.ts, nn);
      var h := threads.readyQ[nn];
      if h > 0 && h <= NR_TCB {
        var h1 := h;
        var kk := 0;
        var more := true;
        while more
          invariant 0 <= kk <= |ring| && h1 == ring[if kk < |ring| then kk else 0]
          invariant more <==> kk < |ring|
          invariant forall j :: 0 <= j < kk ==> !Eligible(threads.ts.thr[ring[j]])
          decreases |ring| - kk
        {
          var p := threads.tcbs[h1 - 1];
          if p.info.affinity == CPU || p.info.affinity == ANY_CPU {
            FirstFound(threads.ts, nn, kk);
            RotateHolds(threads.Words(), threads.ts, nn, kk);
            threads.readyQ := threads.readyQ[nn := p.next];
            threads.ts := Rotate(threads.ts, nn, kk + 1);
            return h1;
          }
          h1 := p.next;
          kk := kk + 1;
          more := IsTcb(h1) && h1 != h && kk < NR_TCB;
        }
      }
      FirstFound(threads.ts, nn, |ring|);
      return -1;
    }

    method SelectThreadToRun() returns (h: int)
      requires threads.Valid() && Indexes(threads.ts)
      modifies this`invert, threads`readyQ, threads`ts
      ensures invert == old(invert) + 1 && threads.Valid()
      ensures var (ts, h0) := Pick(old(threads.ts), old(invert) + 1);
        threads.ts == ts && h == if h0 > 0 then h0 else running
    {
      hide Holds, PickAt, FirstEligible;
      invert := invert + 1;
      ghost var ts0 := threads.ts;
      var nn;
      if invert % 32 == 0 {
        nn := 0;
        while nn < 32
          invariant 0 <= nn <= 32 && invert == old(invert) + 1 && threads.Valid() && threads.ts == ts0
          invariant PickUp(ts0, 0) == PickUp(ts0, nn)
        {
          h := SelectThreadToRunHelper(nn);
          if h > 0 {
            return;
          }
          nn := nn + 1;
        }
        return running;
      }
      nn := 31;
      while nn >= 0
        invariant -1 <= nn <= 31 && invert == old(invert) + 1 && threads.Valid() && threads.ts == ts0
        invariant PickDown(ts0, LEVELS - 1) == PickDown(ts0, nn)
      {
        h := SelectThreadToRunHelper(nn);
        if h > 0 {
          return;
        }
        nn := nn - 1;
      }
      return running;
    }

    // ----- switching threads

    /** Flags thread h as running or as preempted. */
    method SetFlags(h: int, on: bool)
      requires Held() && IsTcb(h) && |threads.ts.thr| == NR_TCB + 1
      modifies threads`tcbs, threads`ts
      ensures Held() && threads.ts == Flag(old(threads.ts), h, on)
    {
      ghost var w, c := threads.Words(), store.Now();
      SlotFacts(w, threads.ts, h);
      var b := threads.tcbs[h - 1];
      var b' := b.(info := b.info.(status := b.info.status.(preempt := !on, running := on)));
      SetInfoHolds(w, threads.ts, h, b');
      threads.tcbs := threads.tcbs[h - 1 := b'];
      threads.ts := SetThread(threads.ts, h, b'.info);
      hide Holds;
      ThreadMail(w, store.Words(), c, store.own, threads.Words(), threads.ts);
    }

    /** Makes the next thread the running one. */
    method SwitchThread()
      requires Held() && Sound(Now())
      modifies this`running, this`invert, threads
      ensures Held() && Now() == SwitchTo(old(Now()))
    {
      hide Holds, Pick;
      ghost var w, c := threads.Words(), store.Now();
      var ht := SelectThreadToRun();
      ThreadMail(w, store.Words(), c, store.own, threads.Words(), threads.ts);
      SetFlags(ht, true);
      running := ht;
    }

    method FMTK_RescheduleISR()
      requires Held() && Sound(Now())
      modifies this`running, this`invert, threads
      ensures Held() && Now() == Resched(old(Now()))
    {
      SetFlags(running, false);
      SwitchThread();
    }

    // ----- the calls of a thread

    /** The list part of FMTK_StartThread. */
    method StartThread(priority: int, affinity: int) returns (ht: int, rr: Error)
      requires Held() && Shaped(store.Now())
      modifies threads
      ensures Held() && store.Now() == StartThreadCore(old(store.Now()), priority, affinity)
      ensures if IsTcb(old(threads.ts).firstFree) then rr == E_Ok && ht == old(threads.ts).firstFree
              else rr == E_NoMoreTCBs
    {
      hide Holds, TakeTcb;
      ghost var w, c := threads.Words(), store.Now();
      TakeTcbHolds(w, threads.ts, priority, affinity);
      ht := threads.freeTCB;
      if ht <= 0 || ht > NR_TCB {
        return 0, E_NoMoreTCBs;
      }
      SlotFacts(w, threads.ts, ht);
      threads.freeTCB := threads.tcbs[ht - 1].next;
      threads.tcbs := threads.tcbs[ht - 1 := Taken(threads.tcbs[ht - 1], priority, affinity)];
      threads.ts := TakeTcb(threads.ts, priority, affinity);
      var bad := threads.TCBInsertIntoReadyQueue(ht);
      StartedWaits(c, priority, affinity);
      ThreadMail(w, store.Words(), c, store.own, threads.Words(), threads.ts);
      rr := E_Ok;
    }

    method FMTK_Sleep(timeout: int)
      requires Valid() && Enabled(Now(), Sleep(timeout))
      modifies this`running, this`invert, threads
      ensures Valid() && Now() == Apply(old(Now()), Sleep(timeout))
    {
      hide Holds, StoreHolds, WaitsHold, CoreOk, RemoveReady, InsertTimeout, Resched;
      ghost var s, w := Now(), threads.Words();
      StepKeeps(s, Sleep(timeout));
      InvSound(s);
      CoreFacts(s.core, s.phase, running);
      RemoveReadyKeeps(s.core, s.phase, running);
      var ht := running;
      var rr := threads.TCBRemoveFromReadyQueue(ht);
      threads.TCBInsertIntoTimeoutList(ht, timeout);
      SleepWaits(s.core, ht, timeout);
      ThreadMail(w, store.Words(), s.core, store.own, threads.Words(), threads.ts);
      SleepSound(s, timeout);
      FMTK_RescheduleISR();
    }

    method FMTK_SetThreadPriority(ht: int, priority: int) returns (rr: Error)
      requires Valid() && Enabled(Now(), SetPriority(ht, priority))
      modifies threads
      ensures Valid() && Now() == Apply(old(Now()), SetPriority(ht, priority))
      ensures rr == if 0 <= priority <= 31 then E_Ok else E_Arg
    {
      hide Holds, StoreHolds, WaitsHold, CoreOk, RemoveReady, InsertReady;
      ghost var s, w := Now(), threads.Words();
      StepKeeps(s, SetPriority(ht, priority));
      InvSound(s);
      if priority > 31 || priority < 0 {
        return E_Arg;
      }
      CoreFacts(s.core, s.phase, ht);
      SlotFacts(w, threads.ts, ht);
      var t := ht - 1;
      var status := threads.tcbs[t].info.status;
      if status.running || status.ready {
        RemoveReadyLoc(s.core.ts, ht);
        rr := threads.TCBRemoveFromReadyQueue(ht);
        SetThePriority(ht, priority);
        rr := threads.TCBInsertIntoReadyQueue(ht);
      } else {
        SetThePriority(ht, priority);
      }
      SetPriorityWaits(s.core, ht, priority);
      ThreadMail(w, store.Words(), s.core, store.own, threads.Words(), threads.ts);
      rr := E_Ok;
    }

    method SetThePriority(h: int, priority: nat)
      requires threads.Valid() && IsTcb(h) && |threads.ts.thr| == NR_TCB + 1
      modifies threads`tcbs, threads`ts
      ensures threads.Valid() && SameMailboxLinks(old(threads.tcbs), threads.tcbs)
      ensures threads.ts == SetThread(old(threads.ts), h, old(threads.ts).thr[h].(priority := priority))
    {
      SlotFacts(threads.Words(), threads.ts, h);
      var b := threads.tcbs[h - 1];
      var b' := b.(info := b.info.(priority := priority));
      SetInfoHolds(threads.Words(), threads.ts, h, b');
      threads.tcbs := threads.tcbs[h - 1 := b'];
      threads.ts := SetThread(threads.ts, h, b'.info);
    }

    /** Sending: as posting, but a thread that was waiting runs before the sender goes on. */
    method FMTK_SendMsg(hMbx: int, p: Payload) returns (rr: Error)
      requires Valid() && Enabled(Now(), Send(hMbx, p))
      modifies this, store, threads
      ensures Valid() && Now() == Apply(old(Now()), Send(hMbx, p))
      ensures Shaped(old(Now()).core) && rr == PostResult(old(Now()).core, hMbx)
    {
      hide Holds, StoreHolds, WaitsHold, CoreOk, DequeueThread, Deliver, Deposit, Resched;
      ghost var s := Now();
      StepKeeps(s, Send(hMbx, p));
      InvSound(s);
      if hMbx <= 0 || hMbx > NR_MBX {
        return E_Arg;
      }
      PoolFacts(threads.Words(), store.Words(), store.Now(), store.own, hMbx);
      if store.mailbox[hMbx - 1].owner <= 0 || store.mailbox[hMbx - 1].owner > NR_ACB {
        return E_NotAlloc;
      }
      if store.freeMSG <= 0 || store.freeMSG > NR_MSG {
        return E_NoMoreMsgBlks;
      }
      DequeuedFacts(s, hMbx);
      var thread;
      thread, rr := store.MBXDequeueThread(hMbx);
      if thread == 0 {
        rr := store.DepositMsg(hMbx, p);
        return;
      }
      store.MakeReceiverReady(hMbx, thread, p, s.core);
      phase := PostPhase(s, hMbx, p);
      PostKeeps(s, hMbx, p);
      InvSound(Now());
      FMTK_RescheduleISR();
      rr := E_Ok;
    }

    method FMTK_PostMsg(hMbx: int, p: Payload) returns (rr: Error)
      requires Valid() && Sound(Now()) && Receptive(store.Now(), hMbx)
      modifies this`phase, store, threads
      ensures Valid() && Now() == PostStep(old(Now()), hMbx, p) && rr == PostResult(old(Now()).core, hMbx)
    {
      hide Holds, StoreHolds, WaitsHold, CoreOk;
      ghost var s := Now();
      PostKeeps(s, hMbx, p);
      rr := store.FMTK_PostMsg(hMbx, p);
      phase := PostPhase(s, hMbx, p);
    }

    // ----- waiting for a message

    /** Up to the point where the thread has its message, or has blocked and another one runs. */
    method FMTK_WaitMsg(hMbx: int, timelimit: int) returns (rr: Error, p: Payload)
      requires Valid() && Enabled(Now(), Wait(hMbx, timelimit))
      modifies this, store, threads
      ensures Valid() && Now() == Apply(old(Now()), Wait(hMbx, timelimit))
      ensures Shaped(old(Now()).core) && rr == CheckResult(old(Now()).core, hMbx, true)
      ensures p == if rr == E_Ok then old(store.boxes)[hMbx].queue[0] else NO_PAYLOAD
    {
      hide Holds, StoreHolds, WaitsHold, CoreOk, Resched;
      ghost var s := Now();
      StepKeeps(s, Wait(hMbx, timelimit));
      InvSound(s);
      if hMbx == 0 || hMbx > NR_MBX {
        return E_Arg, NO_PAYLOAD;
      }
      PoolFacts(threads.Words(), store.Words(), store.Now(), store.own, hMbx);
      if store.mailbox[hMbx - 1].owner == 0 || store.mailbox[hMbx - 1].owner > NR_ACB {
        return E_NotAlloc, NO_PAYLOAD;
      }
      WaitersFacts(s.core, s.phase, hMbx);
      FetchKeeps(s.core, s.phase, hMbx);
      var found;
      found, p := store.FetchMsg(hMbx);
      if found {
        return E_Ok, p;
      }
      Block(hMbx, timelimit);
      rr := E_NoMsg;
    }

    /** The running thread queues up at the mailbox and gives way. */
    method Block(hMbx: int, timelimit: int)
      requires Valid() && IsMbx(hMbx) && Sound(Now()) && Allocated(store.boxes[hMbx])
      requires store.boxes[hMbx].queue == [] && running != IDLE && phase[running] == Working
      modifies this, store, threads
      ensures Held() && Now() == BlockStep(old(Now()), hMbx, timelimit)
    {
      hide Holds, StoreHolds, WaitsHold, CoreOk, RemoveReady, QueueThread, InsertTimeout, Resched;
      ghost var s, w := Now(), threads.Words();
      var hThread := running;
      CoreFacts(s.core, s.phase, hThread);
      RemoveReadyKeeps(s.core, s.phase, hThread);
      BlockSound(s, hMbx, timelimit);
      var rr := threads.TCBRemoveFromReadyQueue(hThread);
      RemovedWaits(s.core, hThread);
      ThreadMail(w, store.Words(), s.core, store.own, threads.Words(), threads.ts);
      store.MBXQueueThread(hMbx, hThread);
      if timelimit > 0 {
        ghost var c, w2 := store.Now(), threads.Words();
        threads.TCBInsertIntoTimeoutList(hThread, timelimit);
        TimedWaits(c, hThread, timelimit);
        ThreadMail(w2, store.Words(), c, store.own, threads.Words(), threads.ts);
      }
      phase := phase[running := InWait];
      FMTK_RescheduleISR();
    }

    /** The rest of the call, once the thread runs again: it always finds a message. */
    method FinishWaitMsg() returns (rr: Error, p: Payload)
      requires Valid() && Enabled(Now(), Resume)
      modifies this`phase, threads`tcbs, threads`ts
      ensures Valid() && Now() == Apply(old(Now()), Resume)
      ensures rr == E_Ok && old(phase)[running] == Woken(p)
    {
      hide Holds, StoreHolds, WaitsHold, CoreOk;
      ghost var s, w := Now(), threads.Words();
      StepKeeps(s, Resume);
      InvSound(s);
      CoreFacts(s.core, s.phase, running);
      SlotFacts(w, threads.ts, running);
      var b := threads.tcbs[running - 1];
      if b.info.msgType == MT_NONE {
        assert false;
      }
      p := b.info.msg;
      rr := E_Ok;
      SetInfoHolds(w, threads.ts, running, b.(info := b.info.(msgType := MT_NONE)));
      threads.tcbs := threads.tcbs[running - 1 := b.(info := b.info.(msgType := MT_NONE))];
      threads.ts := SetThread(threads.ts, running, b.info.(msgType := MT_NONE));
      phase := phase[running := Working];
      ThreadMail(w, store.Words(), s.core, store.own, threads.Words(), threads.ts);
    }

    // ----- the timer tick

    /** The timer interrupt; elapsed is the time since the running thread was last charged. */
    method FMTK_TimerTickISR(elapsed: nat)
      requires Valid() && CanExpire(Now())
      modifies this, store, threads
      ensures Valid() && Now() == Apply(old(Now()), Tick(elapsed))
    {
      hide Holds, StoreHolds, WaitsHold, CoreOk, Pick, Expire, ChargeHead, SwitchTo, ExpiredWaiterAt;
      ghost var s := Now();
      StepKeeps(s, Tick(elapsed));
      InvSound(s);
      CoreFacts(s.core, s.phase, running);
      SlotFacts(threads.Words(), threads.ts, running);
      var t := running;
      if threads.tcbs[t - 1].info.priority == 31 {
        missed := missed + 1;
        return;
      }
      SetFlags(t, false);
      FlagRunning(s);
      ExpireKeeps(Now());
      ExpireTimeouts();
      InvSound(Now());
      SlotFacts(threads.Words(), threads.ts, running);
      CoreFacts(store.Now(), phase, running);
      if threads.tcbs[t - 1].info.priority < 28 && elapsed > 3 {
        SwitchThread();
      } else {
        SetFlags(t, true);
      }
    }

    /** The first of the timeout list, whose time is up, goes to its ring; if it waits for a
        message, by way of a timer message to its mailbox. */
    method ExpireFirst()
      requires Valid() && HeadExpired(Now())
      modifies this`phase, store, threads
      ensures Valid() && Sound(old(Now())) && IsTcb(old(threads.ts).sleepers[0].h)
      ensures Now() == ExpireOne(old(Now()))
    {
      hide Holds, StoreHolds, WaitsHold, CoreOk;
      ghost var s, w := Now(), threads.Words();
      HeadFacts(s);
      HeadHeld(w, threads.ts);
      ExpireOneKeeps(s);
      var ht := threads.timeoutList;
      var b := threads.tcbs[ht - 1];
      CoreFacts(s.core, s.phase, ht);
      if b.info.status.waitmsg {
        HeadWaits(s);
        if b.info.waitMbx > 0 && b.info.waitMbx <= NR_TCB {
          HeadReceptive(s);
          var rr := FMTK_PostMsg(b.info.waitMbx, TIMER_MSG);
        } else {
          assert false;
        }
      } else {
        var h := threads.TCBPopTimeoutList();
        var rr := threads.TCBInsertIntoReadyQueue(ht);
        PoppedWaits(s.core);
        ThreadMail(w, store.Words(), s.core, store.own, threads.Words(), threads.ts);
      }
    }

    method ChargeFirst()
      requires Valid() && threads.ts.sleepers != []
      modifies this`missed, this`charged, threads`tcbs, threads`ts
      ensures Held() && Now() == ChargeHead(old(Now()))
    {
      hide Holds, StoreHolds, WaitsHold, CoreOk;
      ghost var s, w := Now(), threads.Words();
      ChargeHolds(w, threads.ts, missed + 1);
      SlotFacts(w, threads.ts, threads.timeoutList);
      var tol := threads.timeoutList - 1;
      threads.tcbs := threads.tcbs[tol := threads.tcbs[tol].(timeout := threads.tcbs[tol].timeout - missed - 1)];
      threads.ts := ChargeHead(s).core.ts;
      charged := charged + missed + 1;
      missed := 0;
      ThreadMail(w, store.Words(), s.core, store.own, threads.Words(), threads.ts);
    }

    /** The loop over the timeout list. */
    method ExpireTimeouts()
      requires Valid() && CanExpire(Now())
      modifies this`missed, this`phase, this`charged, store, threads
      ensures Valid() && Now() == ChargeHead(Expire(old(Now())))
    {
      hide Holds, StoreHolds, WaitsHold, CoreOk, Expire, ExpireOne, WaitersAhead, ExpiredWaiterAt;
      ghost var s := Now();
      InvSound(s);
      ExpireKeeps(s);
      ChargeKeeps(Expire(s));
      var more := true;
      while more && threads.timeoutList > 0 && threads.timeoutList <= NR_TCB
        invariant Held()
        invariant more ==> Inv(Now()) && Sound(Now()) && CanExpire(Now()) && Expire(Now()) == Expire(s)
        invariant !more ==> Now() == ChargeHead(Expire(s))
        decreases more, |threads.ts.sleepers|, if more then WaitersAhead(Now()) else 0
      {
        HeadHeld(threads.Words(), threads.ts);
        ExpireStep(Now());
        var tol := threads.timeoutList - 1;
        if threads.tcbs[tol].timeout <= 0 {
          ExpireOneProgress(Now());
          ExpireFirst();
        } else {
          ChargeFirst();
          more := false;
        }
      }
      HeadHeld(threads.Words(), threads.ts);
      if more { ExpireStep(Now()); }
    }
  }

  /** The words of a kernel between two calls: the neighbours of a ready thread, other than the
      first thread, are ready threads of its priority that point back at it. */
  lemma RingsAreCircular(k: Kernel, h: int)
    requires k.Valid() && IsTcb(h) && |k.threads.tcbs| == NR_TCB
    requires k.threads.tcbs[h - 1].info.status.ready && h != BOOT
    ensures var tc := k.threads.tcbs; var next, prev := tc[h - 1].next, tc[h - 1].prev;
      && IsTcb(next) && IsTcb(prev) && tc[next - 1].prev == h && tc[prev - 1].next == h
      && tc[next - 1].info.priority == tc[h - 1].info.priority == tc[prev - 1].info.priority
      && tc[next - 1].info.status.ready && tc[prev - 1].info.status.ready
  {
    var m, ts, c, ph := k.threads.Words(), k.threads.ts, k.store.Now(), k.phase;
    SlotFacts(m, ts, h);
    CoreFacts(c, ph, h);
    var i := OnRingFacts(m, ts, h);
    var r := ts.rings[ts.thr[h].priority];
    var j, l := if i + 1 < |r| then i + 1 else 0, if i > 0 then i - 1 else |r| - 1;
    RingNeighbour(m, ts, ts.thr[h].priority, j);
    RingNeighbour(m, ts, ts.thr[h].priority, l);
    CoreFacts(c, ph, r[j]);
    CoreFacts(c, ph, r[l]);
  }

  lemma RingNeighbour(m: Image, ts: Threads, p: nat, j: nat)
    requires Holds(m, ts) && p < LEVELS && j < |ts.rings[p]|
    ensures var r := ts.rings[p];
      && |m.tcbs| == NR_TCB && IsTcb(r[j]) && ts.loc[r[j]] == OnRing(p) && m.tcbs[r[j] - 1].info == ts.thr[r[j]]
      && m.tcbs[r[j] - 1].next == Succ(r, j) && m.tcbs[r[j] - 1].prev == Pred(r, j)
  {
    var r := ts.rings[p];
    assert Ring(m.tcbs, m.readyQ[p], r) && RingMembers(ts.loc, r, p);
    assert r[j] in r && RingLink(m.tcbs, r, j);
    SlotFacts(m, ts, r[j]);
  }

  /** A thread flagged as timed is on the timeout list: it is the head if it has no predecessor,
      and its neighbours are flagged and point back at it. */
  lemma TimeoutListIsDouble(k: Kernel, h: int)
    requires k.Valid() && IsTcb(h) && |k.threads.tcbs| == NR_TCB && k.threads.tcbs[h - 1].info.status.timeout
    ensures var tc := k.threads.tcbs; var next, prev := tc[h - 1].next, tc[h - 1].prev;
      && (prev == 0 <==> k.threads.timeoutList == h)
      && (next != 0 ==>
            && IsTcb(next) && tc[next - 1].prev == h
            && tc[next - 1].info.status.timeout && tc[next - 1].timeout >= 0)
      && (prev != 0 ==> IsTcb(prev) && tc[prev - 1].next == h && tc[prev - 1].info.status.timeout)
  {
    var m, ts, c, ph := k.threads.Words(), k.threads.ts, k.store.Now(), k.phase;
    SlotFacts(m, ts, h);
    CoreFacts(c, ph, h);
    var i := TimedFacts(m, ts, h);
    if i + 1 < |ts.sleepers| {
      ListNeighbour(m, ts, i + 1);
      CoreFacts(c, ph, ts.sleepers[i + 1].h);
    }
    if i > 0 {
      ListNeighbour(m, ts, i - 1);
      CoreFacts(c, ph, ts.sleepers[i - 1].h);
    }
  }

  lemma ListNeighbour(m: Image, ts: Threads, j: nat)
    requires Holds(m, ts) && j < |ts.sleepers|
    ensures var l := ts.sleepers; var h := l[j].h;
      && |m.tcbs| == NR_TCB && IsTcb(h) && ts.loc[h] == OnTimeoutList && m.tcbs[h - 1].info == ts.thr[h]
      && m.tcbs[h - 1].next == HandleAt(l, j + 1) && m.tcbs[h - 1].prev == HandleAt(l, j - 1)
      && m.tcbs[h - 1].timeout == l[j].delta && (j > 0 ==> l[j].delta >= 0)
  {
    var h := ts.sleepers[j].h;
    assert ListLink(m.tcbs, ts.sleepers, j) && T.Listed(ts.sleepers, h);
    SlotFacts(m, ts, h);
  }

  /** Between two calls no mailbox has both a message and a waiting thread. */
  lemma NoMessageAndWaiter(k: Kernel, m: int)
    requires k.Valid() && IsMbx(m) && |k.store.mailbox| == NR_MBX
    ensures k.store.mailbox[m - 1].tqHead <= 0 || k.store.mailbox[m - 1].mqHead <= 0
  {
    hide CoreOk, Holds;
    var s, c := k.store, k.store.Now();
    WaitEnds(s.mailbox, k.threads.tcbs, c.ts.thr, c.boxes, m);
    WaitersFacts(c, k.phase, m);
    HeldAt(s.Words(), c.boxes, s.own, m);
    QueueHead(s.message, s.mailbox[m - 1], c.boxes[m], s.own.queued[m]);
  }

  /** A search of a ring from its head ends where FirstEligible says. */
  lemma FirstFound(ts: Threads, p: nat, k: nat)
    requires Indexes(ts) && p < LEVELS && k <= |ts.rings[p]|
    requires forall j :: 0 <= j < k ==> !Eligible(ts.thr[ts.rings[p][j]])
    requires k < |ts.rings[p]| ==> Eligible(ts.thr[ts.rings[p][k]])
    ensures PickAt(ts, p) == if k < |ts.rings[p]| then (Rotate(ts, p, k + 1), ts.rings[p][k]) else (ts, -1)
  {
    assert forall j :: 0 <= j < |ts.rings[p]| ==> 0 <= ts.rings[p][j] < |ts.thr|;
    var i := FirstEligible(ts.thr, ts.rings[p]);
  }

  lemma SleepWaits(c: Core, h: int, timeout: int)
    requires Shaped(c) && IsTcb(h)
    ensures var ts' := InsertTimeout(RemoveReady(c.ts, h), h, timeout);
      |ts'.thr| == |c.ts.thr| && forall g :: IsTcb(g) ==> ts'.thr[g].waitMbx == c.ts.thr[g].waitMbx
  {
  }

  /** The state of a blocked thread just before the switch. */
  ghost function Blocked(s: State, m: int, timelimit: int): State
    requires Sound(s) && IsMbx(m)
  {
    var c2 := QueueThread(s.core.(ts := RemoveReady(s.core.ts, s.running)), m, s.running);
    s.(core := if timelimit > 0 then c2.(ts := InsertTimeout(c2.ts, s.running, timelimit)) else c2,
       phase := s.phase[s.running := InWait])
  }

  /** Blocking, with the switch to another thread. */
  ghost function BlockStep(s: State, m: int, timelimit: int): State
    requires Inv(s) && Sound(s) && IsMbx(m) && Allocated(s.core.boxes[m]) && s.core.boxes[m].queue == []
    requires s.running != IDLE && s.phase[s.running] == Working
  {
    BlockSound(s, m, timelimit);
    Resched(Blocked(s, m, timelimit))
  }

  lemma BlockSound(s: State, m: int, timelimit: int)
    requires Inv(s) && Shaped(s.core) && IsMbx(m) && Allocated(s.core.boxes[m]) && s.core.boxes[m].queue == []
    requires Sound(s) && s.running != IDLE && s.phase[s.running] == Working
    ensures Sound(Blocked(s, m, timelimit))
    ensures Shaped(s.core.(ts := RemoveReady(s.core.ts, s.running)))
    ensures var c2 := QueueThread(s.core.(ts := RemoveReady(s.core.ts, s.running)), m, s.running);
      Shaped(c2) && c2.ts.loc[s.running] == OffList
    ensures RemoveReady(s.core.ts, s.running).thr[s.running].waitMbx == 0
  {
    hide CoreOk;
    CoreFacts(s.core, s.phase, s.running);
    BlockKeeps(s, m, timelimit);
  }

  lemma RemovedWaits(c: Core, h: int)
    requires Shaped(c) && IsTcb(h)
    ensures var ts' := RemoveReady(c.ts, h);
      |ts'.thr| == |c.ts.thr| && forall g :: IsTcb(g) ==> ts'.thr[g].waitMbx == c.ts.thr[g].waitMbx
  {
  }

  lemma TimedWaits(c: Core, h: int, timeout: int)
    requires Shaped(c) && IsTcb(h)
    ensures var ts' := InsertTimeout(c.ts, h, timeout);
      |ts'.thr| == |c.ts.thr| && forall g :: IsTcb(g) ==> ts'.thr[g].waitMbx == c.ts.thr[g].waitMbx
  {
  }

  /** One turn of the expiry loop brings its end nearer. */
  lemma ExpireStep(s: State)
    requires Inv(s) && CanExpire(s)
    ensures HeadExpired(s) ==>
      && Sound(s) && IsTcb(s.core.ts.sleepers[0].h)
      && Inv(ExpireOne(s)) && Sound(ExpireOne(s))
      && CanExpire(ExpireOne(s)) && Expire(s) == Expire(ExpireOne(s))
    ensures !HeadExpired(s) ==> Expire(s) == s
  {
    if HeadExpired(s) {
      ExpireOneProgress(s);
      CanExpireNext(s);
      InvSound(ExpireOne(s));
    }
  }

  lemma PoppedWaits(c: Core)
    requires Shaped(c) && c.ts.sleepers != [] && IsTcb(c.ts.sleepers[0].h)
    ensures var ts' := InsertReady(PopTimeout(c.ts), c.ts.sleepers[0].h);
      |ts'.thr| == |c.ts.thr| && forall g :: IsTcb(g) ==> ts'.thr[g].waitMbx == c.ts.thr[g].waitMbx
  {
  }

  lemma HeadReceptive(s: State)
    requires Inv(s) && Sound(s) && HeadExpired(s) && IsTcb(s.core.ts.sleepers[0].h)
    requires s.core.ts.thr[s.core.ts.sleepers[0].h].waitMbx != 0
    ensures Receptive(s.core, s.core.ts.thr[s.core.ts.sleepers[0].h].waitMbx)
  {
    HeadWaits(s);
    DequeuedFacts(s, s.core.ts.thr[s.core.ts.sleepers[0].h].waitMbx);
  }

  lemma SleepSound(s: State, timeout: int)
    requires Inv(s) && Sound(s) && s.running != IDLE && s.phase[s.running] == Working
    ensures Sound(s.(core := s.core.(ts := InsertTimeout(RemoveReady(s.core.ts, s.running), s.running, timeout))))
  {
    hide CoreOk;
    CoreFacts(s.core, s.phase, s.running);
    RemoveReadyKeeps(s.core, s.phase, s.running);
    var c1 := s.core.(ts := RemoveReady(s.core.ts, s.running));
    InsertTimeoutKeeps(c1, s.phase, s.running, timeout);
    CoreOkShaped(c1.(ts := InsertTimeout(c1.ts, s.running, timeout)), s.phase);
  }

  lemma SetPriorityWaits(c: Core, h: int, priority: int)
    requires Shaped(c) && IsTcb(h)
    ensures var ts' := SetPriorityCore(c, h, priority).ts;
      |ts'.thr| == |c.ts.thr| && forall g :: IsTcb(g) ==> ts'.thr[g].waitMbx == c.ts.thr[g].waitMbx
  {
  }

  lemma RemoveReadyLoc(ts: Threads, h: int)
    requires Sized(ts) && IsTcb(h) && ts.thr[h].priority < LEVELS
    ensures Sized(RemoveReady(ts, h)) && RemoveReady(ts, h).loc[h] == OffList
  {
  }

  /** What a dequeue of the first waiter leaves behind. */
  lemma DequeuedFacts(s: State, m: int)
    requires Inv(s) && Sound(s) && IsMbx(m)
    ensures s.core.boxes[m].waiters != [] ==>
      var h := s.core.boxes[m].waiters[0];
      && IsTcb(h) && Sleeping(s.core.ts, h) && |DequeueThread(s.core, m).ts.loc| == NR_TCB + 1
      && DequeueThread(s.core, m).ts.loc[h] == OffList
  {
    if s.core.boxes[m].waiters != [] { DequeueKeeps(s.core, s.phase, m); }
  }

  lemma StartedWaits(c: Core, priority: int, affinity: int)
    requires Shaped(c) && IsTcb(c.ts.firstFree)
    ensures var ts' := StartThreadCore(c, priority, affinity).ts;
      |ts'.thr| == |c.ts.thr| && forall g :: IsTcb(g) ==> ts'.thr[g].waitMbx == c.ts.thr[g].waitMbx
  {
  }
}
