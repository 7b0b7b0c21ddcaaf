/** What holds in every run of the kernel. */
module KernelTheorems {
  import opened KernelTypes
  import opened Seqs
  import opened ThreadLists
  import opened Boxes
  import opened MailModel
  import opened StoreWords
  import opened KernelState
  import opened KernelInvariant
  import opened TickLoop
  import opened KernelRuns
  import T = Timeouts

  // ----- safety of every run from start-up

  /** s is a state that the kernel can get into. */
  ghost predicate Reachable(s: State) {
    InitialInv();
    exists steps :: Possible(InitialState(), steps) && s == Run(InitialState(), steps)
  }

  lemma ReachableInv(s: State)
    requires Reachable(s)
    ensures Inv(s) && Sound(s)
  {
    InitialInv();
    var steps :| Possible(InitialState(), steps) && s == Run(InitialState(), steps);
    RunKeeps(InitialState(), steps);
    InvSound(s);
  }

  /** Thread h is on at most one of the 32 ready rings and the timeout list, and its flags and
      its mailbox say where it is. Only the first thread may be flagged ready and be on no ring. */
  ghost predicate Placed(c: Core, h: int)
    requires Shaped(c) && |c.ts.rings| == LEVELS && IsTcb(h)
  {
    var t := c.ts.thr[h];
    && (forall p :: 0 <= p < LEVELS && h in c.ts.rings[p] ==>
          p == t.priority && t.status.ready && !T.Listed(c.ts.sleepers, h) && t.waitMbx == 0)
    && (t.status.ready ==> h == BOOT || (t.priority < LEVELS && h in c.ts.rings[t.priority]))
    && (t.status.timeout <==> T.Listed(c.ts.sleepers, h))
    && (t.status.waitmsg <==> t.waitMbx != 0)
    && (forall m :: IsMbx(m) ==> (h in c.boxes[m].waiters <==> t.waitMbx == m))
  }

  /** In every reachable state every thread is where its record says. */
  lemma ThreadsArePlaced(s: State, h: int)
    requires Reachable(s) && IsTcb(h)
    ensures Shaped(s.core) && |s.core.ts.rings| == LEVELS && Placed(s.core, h)
  {
    hide CoreOk;
    ReachableInv(s);
    CoreFacts(s.core, s.phase, h);
    LocAgrees(s.core, s.phase, h);
    WaitersAgree(s.core, s.phase, h);
  }

  lemma LocAgrees(c: Core, phase: seq<Phase>, h: int)
    requires CoreOk(c, phase) && IsTcb(h)
    ensures |c.ts.loc| == NR_TCB + 1 && |c.ts.rings| == LEVELS
    ensures T.Listed(c.ts.sleepers, h) <==> c.ts.loc[h] == OnTimeoutList
    ensures forall p :: 0 <= p < LEVELS ==> (h in c.ts.rings[p] <==> c.ts.loc[h] == OnRing(p))
    ensures c.ts.loc[h].OnRing? ==> c.ts.loc[h].level < LEVELS
  {
    forall p | 0 <= p < LEVELS ensures h in c.ts.rings[p] <==> c.ts.loc[h] == OnRing(p) {
      assert RingMembers(c.ts.loc, c.ts.rings[p], p);
    }
  }

  lemma WaitersAgree(c: Core, phase: seq<Phase>, h: int)
    requires CoreOk(c, phase) && IsTcb(h)
    ensures |c.boxes| == NR_MBX + 1 && |c.ts.thr| == NR_TCB + 1
    ensures forall m :: IsMbx(m) ==> (h in c.boxes[m].waiters <==> c.ts.thr[h].waitMbx == m)
  {
    forall m | IsMbx(m) ensures h in c.boxes[m].waiters <==> c.ts.thr[h].waitMbx == m {
      assert MailboxOk(c.ts.thr, c.boxes[m], m, c.firstMbx);
    }
  }

  /** In every reachable state a mailbox is a FIFO channel without loss or duplication, holds
      no message while a thread waits at it, counts at least the blocks it holds, and dequeueing
      finds nothing only when it is empty. */
  lemma MailboxesAreChannels(s: State, m: int)
    requires Reachable(s) && IsMbx(m)
    ensures Shaped(s.core)
    ensures var b := s.core.boxes[m];
      && ((forall p :: p in b.sent ==> Narrow(p)) ==> b.got + Expand(b.queue) == b.sent)
      && (b.queue == [] || b.waiters == [])
      && |b.queue| <= b.count
      && (b.queue != [] ==> DequeueMsg(b).queue == b.queue[1..] && DequeueMsg(b).got == b.got + Copies(b.queue[0]))
  {
    ReachableInv(s);
    assert MailboxOk(s.core.ts.thr, s.core.boxes[m], m, s.core.firstMbx);
  }

  /** Setting the priority of a ready thread moves it to the tail of its new level; the others
      keep their order, and the rings it was on neither before nor after do not change. */
  lemma SetPriorityMoves(c: Core, phase: seq<Phase>, h: int, priority: int)
    requires CoreOk(c, phase) && Shaped(c) && IsTcb(h) && c.ts.loc[h].OnRing? && 0 <= priority <= 31
    ensures var c' := SetPriorityCore(c, h, priority);
      && |c.ts.rings| == |c'.ts.rings| == LEVELS && h in c.ts.rings[c.ts.thr[h].priority]
      && c'.ts.rings[priority] == Without(c.ts.rings[priority], h) + [h]
      && (forall p :: 0 <= p < LEVELS && p != priority ==> c'.ts.rings[p] == Without(c.ts.rings[p], h))
      && (forall p :: 0 <= p < LEVELS && p != c.ts.thr[h].priority ==> h !in c.ts.rings[p])
      && c'.ts.sleepers == c.ts.sleepers && c'.boxes == c.boxes
  {
    CoreFacts(c, phase, h);
    LocAgrees(c, phase, h);
  }

  // ----- a blocked receiver gets the message that woke it

  /** What sending and posting demand of a mailbox, for a kernel in order: only that a message that
      has to be queued does not overflow a mailbox of the drop-oldest policy. */
  lemma ReceptiveIsSteady(s: State, m: int)
    requires Inv(s)
    ensures Sound(s)
    ensures Receptive(s.core, m) <==> (IsMbx(m) && s.core.boxes[m].waiters == [] ==> Steady(s.core.boxes[m]))
  {
    hide CoreOk;
    InvSound(s);
    if IsMbx(m) && s.core.boxes[m].waiters != [] { DequeueKeeps(s.core, s.phase, m); }
  }

  /** A message sent to a mailbox where h waits first marks h as woken by it. */
  lemma SendWakes(s: State, m: int, p: Payload)
    requires Inv(s) && IsMbx(m) && Receptive(s.core, m)
    requires s.core.boxes[m].waiters != [] && s.core.pool > 0
    ensures var h := s.core.boxes[m].waiters[0];
      && IsTcb(h) && s.phase[h] == InWait
      && (s.phase[s.running] == Working ==> Apply(s, Send(m, p)).phase == s.phase[h := Woken(p)])
      && Apply(s, PostMsg(m, p)).phase == s.phase[h := Woken(p)]
  {
    hide CoreOk, WellFormed, Pick, T.Remove;
    InvSound(s);
    WaitersFacts(s.core, s.phase, m);
    DequeueKeeps(s.core, s.phase, m);
    CoreFacts(s.core, s.phase, s.core.boxes[m].waiters[0]);
    if s.phase[s.running] == Working {
      PostKeeps(s, m, p);
      var s1 := PostStep(s, m, p);
      CoreFacts(s1.core, s1.phase, s1.running);
      ReschedKeeps(s1);
    }
  }

  /** No step changes the phase of a thread that is not waiting, unless the thread does it itself. */
  lemma PhaseStays(s: State, step: Step, h: int)
    requires Inv(s) && Enabled(s, step) && IsTcb(h) && s.phase[h] != InWait
    requires step.Resume? || step.Wait? ==> s.running != h
    ensures |Apply(s, step).phase| == NR_TCB + 1 && Apply(s, step).phase[h] == s.phase[h]
  {
    hide CoreOk;
    InvSound(s);
    CoreFacts(s.core, s.phase, s.running);
    match step
    case Send(m, msg) =>
      SendPhase(s, m, msg, h);
      PostKeeps(s, m, msg);
      var s1 := PostStep(s, m, msg);
      CoreFacts(s1.core, s1.phase, s1.running);
      ReschedKeeps(s1);
    case PostMsg(m, msg) => SendPhase(s, m, msg, h);
    case Reschedule => ReschedKeeps(s);
    case Tick(elapsed) => TickPhase(s, elapsed, h);
    case _ =>
  }

  /** Until it runs again, no step takes the message away or exchanges it. */
  lemma WokenStays(s: State, step: Step, h: int)
    requires Inv(s) && Enabled(s, step) && IsTcb(h) && s.phase[h].Woken?
    requires step.Resume? ==> s.running != h
    ensures |Apply(s, step).phase| == NR_TCB + 1 && Apply(s, step).phase[h] == s.phase[h]
  {
    PhaseStays(s, step, h);
  }

  lemma SendPhase(s: State, m: int, p: Payload, h: int)
    requires Inv(s) && Sound(s) && IsTcb(h) && s.phase[h] != InWait
    ensures |PostStep(s, m, p).phase| == NR_TCB + 1 && PostStep(s, m, p).phase[h] == s.phase[h]
  {
    hide CoreOk;
    CoreFacts(s.core, s.phase, h);
    if IsMbx(m) && s.core.boxes[m].waiters != [] {
      DequeueKeeps(s.core, s.phase, m);
      CoreFacts(s.core, s.phase, s.core.boxes[m].waiters[0]);
    }
  }

  lemma {:induction false} ExpirePhase(s: State, h: int)
    requires Inv(s) && CanExpire(s) && IsTcb(h) && s.phase[h] != InWait
    ensures |Expire(s).phase| == NR_TCB + 1 && Expire(s).phase[h] == s.phase[h]
    decreases |s.core.ts.sleepers|, WaitersAhead(s)
  {
    if HeadExpired(s) {
      ExpireOneProgress(s);
      CanExpireNext(s);
      SendPhase(s, s.core.ts.thr[s.core.ts.sleepers[0].h].waitMbx, TIMER_MSG, h);
      ExpirePhase(ExpireOne(s), h);
    }
  }

  lemma TickPhase(s: State, elapsed: nat, h: int)
    requires Inv(s) && CanExpire(s) && IsTcb(h) && s.phase[h] != InWait
    ensures |TickStep(s, elapsed).phase| == NR_TCB + 1 && TickStep(s, elapsed).phase[h] == s.phase[h]
  {
    hide CoreOk;
    CoreFacts(s.core, s.phase, s.running);
    if s.core.ts.thr[s.running].priority != 31 {
      var s0 := s.(core := s.core.(ts := Flag(s.core.ts, s.running, false)));
      FlagRunning(s);
      ExpireKeeps(s0);
      ExpirePhase(s0, h);
      var s1 := ChargeHead(Expire(s0));
      ChargeKeeps(Expire(s0));
      SwitchToKeeps(s1);
    }
  }

  /** The run leaves thread h alone: h does not pick up a message in it. */
  ghost predicate NoResume(s: State, steps: seq<Step>, h: int)
    requires Inv(s) && Possible(s, steps)
    decreases |steps|
  {
    steps != [] ==>
      (steps[0].Resume? ==> s.running != h) &&
      (StepKeeps(s, steps[0]); NoResume(Apply(s, steps[0]), steps[1..], h))
  }

  /** A blocked receiver returns from FMTK_WaitMsg with exactly the message whose send woke it,
      whatever the kernel does between that send and the moment it runs again. */
  lemma {:induction false} ReceiverGetsItsMessage(s: State, p: Payload, h: int, steps: seq<Step>)
    requires Inv(s) && IsTcb(h) && s.phase[h] == Woken(p)
    requires Possible(s, steps) && NoResume(s, steps, h)
    ensures var s' := Run(s, steps);
      && Inv(s') && s'.phase[h] == Woken(p)
      && s'.core.ts.thr[h].msgType == MT_DATA && s'.core.ts.thr[h].msg == p
      && (s'.running == h ==>
            && Enabled(s', Resume)
            && Apply(s', Resume) == s'.(core := s'.core.(ts := s'.core.ts.(
                 thr := s'.core.ts.thr[h := s'.core.ts.thr[h].(msgType := MT_NONE)])), phase := s'.phase[h := Working]))
    decreases |steps|
  {
    if steps == [] {
      InvSound(s);
      CoreFacts(s.core, s.phase, h);
    } else {
      StepKeeps(s, steps[0]);
      WokenStays(s, steps[0], h);
      ReceiverGetsItsMessage(Apply(s, steps[0]), p, h, steps[1..]);
    }
  }
}
