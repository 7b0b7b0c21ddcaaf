/** What each step of the kernel does to the time that sleeping threads have left. */
module KernelTiming {
  import opened KernelTypes
  import opened Seqs
  import opened ThreadLists
  import opened Boxes
  import opened MailModel
  import opened StoreWords
  import opened KernelState
  import opened KernelInvariant
  import opened TickLoop
  import opened TickLag
  import opened KernelRuns
  import opened KernelTheorems
  import T = Timeouts

  /** Thread h sleeps: it is on the timeout list, and not because it waits for a message. */
  ghost predicate Asleep(s: State, h: int) {
    && Inv(s) && IsTcb(h)
    && |s.phase| == NR_TCB + 1 && s.phase[h] == Working
    && T.Listed(s.core.ts.sleepers, h)
  }

  /** The ticks still to be charged before h may wake up. */
  ghost function Left(s: State, h: int): int
    requires T.Listed(s.core.ts.sleepers, h)
  {
    T.Deadline(s.core.ts.sleepers, h)
  }

  lemma AsleepFacts(s: State, h: int)
    requires Asleep(s, h)
    ensures Inv(s) && Sound(s) && IsTcb(h) && T.Listed(s.core.ts.sleepers, h)
    ensures h != s.running && s.core.ts.thr[h].waitMbx == 0 && s.core.ts.loc[h] == OnTimeoutList
    ensures T.DistinctHandles(s.core.ts.sleepers) && T.TailNonNegative(s.core.ts.sleepers)
  {
    InvSound(s);
    CoreFacts(s.core, s.phase, h);
    CoreFacts(s.core, s.phase, s.running);
    LocAgrees(s.core, s.phase, h);
  }

  // ----- every step but the tick

  lemma PostSleepers(s: State, m: int, p: Payload) returns (w: int)
    requires Inv(s) && Sound(s) && Receptive(s.core, m)
    ensures var s' := PostStep(s, m, p);
      && s'.charged == s.charged && s'.missed == s.missed
      && (s'.core.ts.sleepers == s.core.ts.sleepers
          || (IsTcb(w) && s.phase[w] == InWait && s'.core.ts.sleepers == T.Remove(s.core.ts.sleepers, w)
              && IsMbx(m) && s.core.boxes[m].waiters != [] && w == s.core.boxes[m].waiters[0]))
  {
    hide CoreOk;
    w := 0;
    if IsMbx(m) && Allocated(s.core.boxes[m]) && s.core.pool > 0 && s.core.boxes[m].waiters != [] {
      DeliverKeeps(s.core, s.phase, m, p);
      DequeueKeeps(s.core, s.phase, m);
      w := s.core.boxes[m].waiters[0];
      CoreFacts(s.core, s.phase, w);
    }
  }

  lemma {:induction false} EmptiedSleepers(c: Core, m: int)
    requires Shaped(c) && IsMbx(m)
    ensures Emptied(c, m).ts == c.ts
    decreases c.boxes[m].count
  {
    if HasMessage(c.boxes[m]) { EmptiedSleepers(Fetch(c, m), m); }
  }

  /** The timeout that the running thread asks for in this step, if it asks for one. */
  function AskedFor(step: Step): int {
    match step
    case Sleep(timeout) => timeout
    case Wait(m, timelimit) => timelimit
    case _ => 0
  }

  /** No step but the tick charges anybody, and the timeout list only gains the running thread or
      loses a thread that waits for a message. */
  lemma StepSleepers(s: State, step: Step) returns (w: int)
    requires Inv(s) && Enabled(s, step) && !step.Tick?
    ensures var s' := Apply(s, step); var l, l' := s.core.ts.sleepers, s'.core.ts.sleepers;
      && s'.charged == s.charged && s'.missed == s.missed
      && (|| l' == l
          || (l' == T.Insert(l, s.running, AskedFor(step)) && !T.Listed(l, s.running)
              && (step.Wait? ==> AskedFor(step) > 0) && (step.Wait? || step.Sleep?))
          || (IsTcb(w) && |s.phase| == NR_TCB + 1 && s.phase[w] == InWait && l' == T.Remove(l, w)
              && (step.Send? || step.PostMsg?) && IsMbx(step.mbx) && |s.core.boxes| == NR_MBX + 1
              && s.core.boxes[step.mbx].waiters != [] && w == s.core.boxes[step.mbx].waiters[0]))
  {
    hide CoreOk;
    InvSound(s);
    CoreFacts(s.core, s.phase, s.running);
    LocAgrees(s.core, s.phase, s.running);
    w := 0;
    match step
    case Send(m, msg) =>
      w := PostSleepers(s, m, msg);
      PostKeeps(s, m, msg);
      var s1 := PostStep(s, m, msg);
      CoreFacts(s1.core, s1.phase, s1.running);
      ReschedKeeps(s1);
    case PostMsg(m, msg) => w := PostSleepers(s, m, msg);
    case Sleep(timeout) => SleepSleepers(s, timeout);
    case Wait(m, timelimit) => WaitSleepers(s, m, timelimit);
    case Empty(m) => if IsMbx(m) { EmptiedSleepers(s.core, m); }
    case Reschedule => ReschedKeeps(s);
    case _ =>
  }

  lemma SleepSleepers(s: State, timeout: int)
    requires Inv(s) && Sound(s) && s.running != IDLE && s.phase[s.running] == Working
    ensures var s' := SleepStep(s, timeout);
      && s'.charged == s.charged && s'.missed == s.missed && s'.phase == s.phase
      && s'.core.ts.sleepers == T.Insert(s.core.ts.sleepers, s.running, timeout)
  {
    hide CoreOk;
    CoreFacts(s.core, s.phase, s.running);
    RemoveReadyKeeps(s.core, s.phase, s.running);
    var c1 := s.core.(ts := RemoveReady(s.core.ts, s.running));
    InsertTimeoutKeeps(c1, s.phase, s.running, timeout);
    ReschedKeeps(s.(core := s.core.(ts := InsertTimeout(c1.ts, s.running, timeout))));
  }

  lemma WaitSleepers(s: State, m: int, timelimit: int)
    requires Inv(s) && Sound(s) && s.running != IDLE && s.phase[s.running] == Working && m >= 0
    ensures var s' := WaitStep(s, m, timelimit);
      && s'.charged == s.charged && s'.missed == s.missed
      && (s'.core.ts.sleepers == s.core.ts.sleepers
          || (timelimit > 0 && s'.core.ts.sleepers == T.Insert(s.core.ts.sleepers, s.running, timelimit)))
  {
    hide CoreOk;
    CoreFacts(s.core, s.phase, s.running);
    if IsMbx(m) && s.core.boxes[m].owner != 0 && s.core.boxes[m].owner <= NR_ACB && !HasMessage(s.core.boxes[m]) {
      WaitersFacts(s.core, s.phase, m);
      FetchKeeps(s.core, s.phase, m);
      BlockSleepers(s.(core := Fetch(s.core, m)), m, timelimit);
    }
  }

  lemma BlockSleepers(s: State, m: int, timelimit: int)
    requires Inv(s) && Shaped(s.core) && IsMbx(m) && Allocated(s.core.boxes[m]) && s.core.boxes[m].queue == []
    requires s.running != IDLE && s.phase[s.running] == Working
    ensures var c2 := QueueThread(s.core.(ts := RemoveReady(s.core.ts, s.running)), m, s.running);
      var c3 := if timelimit > 0 then c2.(ts := InsertTimeout(c2.ts, s.running, timelimit)) else c2;
      var s3 := s.(core := c3, phase := s.phase[s.running := InWait]);
      && Sound(s3)
      && var s' := Resched(s3);
      && s'.charged == s.charged && s'.missed == s.missed
      && s'.core.ts.sleepers == if timelimit > 0 then T.Insert(s.core.ts.sleepers, s.running, timelimit)
                                else s.core.ts.sleepers
  {
    hide CoreOk;
    CoreFacts(s.core, s.phase, s.running);
    RemoveReadyKeeps(s.core, s.phase, s.running);
    var c1 := s.core.(ts := RemoveReady(s.core.ts, s.running));
    QueueThreadKeeps(c1, s.phase, m, s.running);
    var c2 := QueueThread(c1, m, s.running);
    var ph := s.phase[s.running := InWait];
    if timelimit > 0 {
      InsertTimeoutKeeps(c2, ph, s.running, timelimit);
      ReschedKeeps(s.(core := c2.(ts := InsertTimeout(c2.ts, s.running, timelimit)), phase := ph));
    } else {
      ReschedKeeps(s.(core := c2, phase := ph));
    }
  }

  /** No step but the tick brings a sleeper's time forward or puts it off. */
  lemma OtherStepTiming(s: State, step: Step, h: int)
    requires Asleep(s, h) && Enabled(s, step) && !step.Tick?
    ensures var s' := Apply(s, step);
      Asleep(s', h) && Left(s', h) == Left(s, h) && s'.charged == s.charged && s'.missed == s.missed
  {
    hide CoreOk;
    AsleepFacts(s, h);
    StepKeeps(s, step);
    PhaseStays(s, step, h);
    var w := StepSleepers(s, step);
    var l := s.core.ts.sleepers;
    T.RemoveDeadlines(l, w);
    if !T.Listed(l, s.running) { T.InsertDeadlines(l, s.running, AskedFor(step)); }
  }

  // ----- the tick

  /** Whether the tick runs the expiry loop. */
  ghost predicate Counts(s: State)
    requires Sound(s)
  {
    s.core.ts.thr[s.running].priority != 31
  }

  lemma AsleepPlain(s: State, g: int)
    requires Inv(s)
    ensures |s.core.ts.thr| == NR_TCB + 1 && (Asleep(s, g) <==> Plain(s.core.ts.sleepers, s.core.ts.thr, g))
  {
    hide CoreOk;
    ListFacts(s);
    if IsTcb(g) { CoreFacts(s.core, s.phase, g); }
  }

  /** The lag in terms of sleepers: nobody is further behind, and somebody is that far behind. */
  ghost predicate IsLagOf(s: State, k: nat) {
    && (forall g :: Asleep(s, g) ==> Left(s, g) + k >= 0)
    && (k > 0 ==> exists g :: Asleep(s, g) && Left(s, g) + k == 0)
  }

  lemma LagMeans(s: State, k: nat)
    requires Inv(s)
    ensures IsLagOf(s, k) <==> k == LagOf(s)
  {
    hide CoreOk, Asleep;
    ListFacts(s);
    var l, thr := s.core.ts.sleepers, s.core.ts.thr;
    forall g ensures Asleep(s, g) <==> Plain(l, thr, g) { AsleepPlain(s, g); }
    assert IsLagOf(s, k) <==> IsLag(l, thr, k);
    if IsLagOf(s, k) { LagUnique(l, thr, k, LagOf(s)); }
  }

  lemma SamePhaseLag(s: State, s': State)
    requires Inv(s) && Inv(s') && s'.core.ts.sleepers == s.core.ts.sleepers && s'.phase == s.phase
    ensures LagOf(s') == LagOf(s)
  {
    hide CoreOk;
    forall g ensures Asleep(s, g) <==> Asleep(s', g) { }
    LagMeans(s, LagOf(s));
    LagMeans(s', LagOf(s));
  }

  /** The running thread is flagged as preempted: the state in which the loop starts. */
  ghost function Preempted(s: State): State
    requires Sound(s)
  {
    s.(core := s.core.(ts := Flag(s.core.ts, s.running, false)))
  }

  /** The parts of a tick that counts. */
  lemma TickParts(s: State, elapsed: nat)
    requires Inv(s) && Sound(s) && CanExpire(s) && Counts(s)
    ensures var s0 := Preempted(s);
      && Inv(s0) && CanExpire(s0) && s0.core.ts.sleepers == s.core.ts.sleepers && s0.phase == s.phase
      && s0.core.boxes == s.core.boxes && s0.missed == s.missed && s0.charged == s.charged && LagOf(s0) == LagOf(s)
      && var e := Expire(s0);
      && Inv(e) && !HeadExpired(e) && Turn(s0, e)
      && var s' := TickStep(s, elapsed);
      && Inv(s') && s'.core.ts.sleepers == ChargeHead(e).core.ts.sleepers && s'.core.ts.loc == e.core.ts.loc
      && s'.phase == e.phase && s'.core.boxes == e.core.boxes
      && s'.missed == ChargeHead(e).missed && s'.charged == ChargeHead(e).charged
  {
    hide CoreOk;
    CoreFacts(s.core, s.phase, s.running);
    var s0 := Preempted(s);
    FlagRunning(s);
    SamePhaseLag(s, s0);
    ExpireKeeps(s0);
    TickKeeps(s, elapsed);
    var s1 := ChargeHead(Expire(s0));
    ChargeKeeps(Expire(s0));
    CoreFacts(s1.core, s1.phase, s1.running);
    SwitchToKeeps(s1);
  }

  /** Charging the head, once the expired threads are gone. */
  lemma ChargedTiming(s: State, h: int)
    requires Inv(s) && !HeadExpired(s)
    ensures T.Listed(s.core.ts.sleepers, h) <==> T.Listed(ChargeHead(s).core.ts.sleepers, h)
    ensures T.Listed(s.core.ts.sleepers, h) ==>
      var s' := ChargeHead(s);
      && T.Deadline(s'.core.ts.sleepers, h) == T.Deadline(s.core.ts.sleepers, h) - s.missed - 1
      && T.Deadline(s.core.ts.sleepers, h) > 0
      && s'.missed == 0 && s'.charged == s.charged + s.missed + 1
  {
    var l := s.core.ts.sleepers;
    if l != [] {
      T.ChargeDeadlines(l, s.missed + 1);
      if T.Listed(l, h) { T.DeadlineFromHead(l, h); }
    }
  }

  /** What a tick that counts does to the entry of h, whoever h is. */
  lemma TickEntry(s: State, elapsed: nat, h: int)
    requires Inv(s) && Sound(s) && CanExpire(s) && Counts(s)
    ensures var s' := TickStep(s, elapsed); var cost := s.missed + 1;
      T.Listed(s'.core.ts.sleepers, h) ==>
        && T.Listed(s.core.ts.sleepers, h) && Left(s', h) == Left(s, h) + LagOf(s) - cost
        && Left(s', h) + cost > 0 && s'.charged == s.charged + cost && s'.missed == 0
  {
    hide CoreOk;
    TickParts(s, elapsed);
    ListFacts(s);
    ExpireShifts(Preempted(s));
    ChargedTiming(Expire(Preempted(s)), h);
  }

  /** A tick that does not count is only counted as missed. A tick that counts leaves a sleeper
      asleep if and only if it has time left, the lag of the list added; its time then comes nearer
      by what the tick charges less the lag, and so by exactly what it charges if and only if no
      plain sleeper has run below zero. */
  lemma TickTiming(s: State, elapsed: nat, h: int)
    requires Asleep(s, h) && CanExpire(s)
    ensures Sound(s)
    ensures var s' := TickStep(s, elapsed); var cost := s'.charged - s.charged;
      && |s'.core.ts.loc| == NR_TCB + 1 && |s.core.ts.thr| == NR_TCB + 1 && Inv(s') && cost >= 0
      && if !Counts(s) then
           Asleep(s', h) && Left(s', h) == Left(s, h) && cost == 0 && s'.missed == s.missed + 1
         else
           && (Asleep(s', h) <==> Left(s, h) + LagOf(s) > 0)
           && (Asleep(s', h) ==> Left(s', h) == Left(s, h) - cost + LagOf(s))
           && (Asleep(s', h) ==> cost == s.missed + 1 && s'.missed == 0)
           && (Asleep(s', h) ==>
                 (Left(s', h) == Left(s, h) - cost <==> PlainInTime(s.core.ts.sleepers, s.core.ts.thr)))
           && (!Asleep(s', h) ==> s'.core.ts.loc[h].OnRing?)
  {
    hide CoreOk;
    AsleepFacts(s, h);
    CoreFacts(s.core, s.phase, s.running);
    TickKeeps(s, elapsed);
    if Counts(s) {
      TickParts(s, elapsed);
      TickEntry(s, elapsed, h);
      var s0 := Preempted(s);
      ExpireShifts(s0);
      AsleepPlain(s0, h);
      ExpirePhase(s0, h);
      ChargedTiming(Expire(s0), h);
      ListFacts(Expire(s0));
      ListFacts(s);
      LagInTime(s.core.ts.sleepers, s.core.ts.thr);
      TickCharges(s, elapsed);
    }
  }

  lemma TickCharges(s: State, elapsed: nat)
    requires Inv(s) && Sound(s) && CanExpire(s)
    ensures TickStep(s, elapsed).charged >= s.charged
    ensures s.missed == 0 && Counts(s) ==> TickStep(s, elapsed).missed == 0
  {
    if Counts(s) { TickParts(s, elapsed); }
  }

  // ----- the lag from step to step

  /** After a tick that counts a plain sleeper is below zero if and only if the missed ticks were
      more than it had left. */
  lemma LagAfterTick(s: State, elapsed: nat)
    requires Inv(s) && Sound(s) && CanExpire(s) && Counts(s)
    ensures Inv(TickStep(s, elapsed)) && (s.missed == 0 ==> LagOf(TickStep(s, elapsed)) == 0)
    ensures LagOf(TickStep(s, elapsed)) == 0 <==>
      forall g :: Asleep(s, g) && Left(s, g) + LagOf(s) > 0 ==> Left(s, g) + LagOf(s) > s.missed
  {
    hide CoreOk, Expire, TickStep, CanExpire;
    TickParts(s, elapsed);
    var s' := TickStep(s, elapsed);
    LagMeans(s', 0);
    forall g | Asleep(s', g)
      ensures Asleep(s, g) && Left(s', g) == Left(s, g) + LagOf(s) - s.missed - 1
    {
      TickEntry(s, elapsed, g);
      TickKeepsPlain(s, elapsed, g);
    }
    forall g | Asleep(s, g) && Left(s, g) + LagOf(s) > 0
      ensures Asleep(s', g) && Left(s', g) == Left(s, g) + LagOf(s) - s.missed - 1
    {
      TickTiming(s, elapsed, g);
    }
    assert IsLagOf(s', 0) <==> forall g :: Asleep(s', g) ==> Left(s', g) >= 0;
    forall g | Asleep(s', g) && s.missed == 0 ensures Left(s', g) >= 0 { TickEntry(s, elapsed, g); }
    if LagOf(s') == 0 {
      forall g | Asleep(s, g) && Left(s, g) + LagOf(s) > 0 ensures Left(s, g) + LagOf(s) > s.missed {
        assert Asleep(s', g) && Left(s', g) >= 0;
      }
    }
    if forall g :: Asleep(s, g) && Left(s, g) + LagOf(s) > 0 ==> Left(s, g) + LagOf(s) > s.missed {
      forall g | Asleep(s', g) ensures Left(s', g) >= 0 {
        TickEntry(s, elapsed, g);
        assert Asleep(s, g) && Left(s, g) + LagOf(s) > 0;
      }
    }
  }

  lemma TickKeepsPlain(s: State, elapsed: nat, g: int)
    requires Inv(s) && Sound(s) && CanExpire(s) && Counts(s) && Asleep(TickStep(s, elapsed), g)
    ensures Asleep(s, g)
  {
    hide CoreOk;
    TickParts(s, elapsed);
    var s0 := Preempted(s);
    var e := Expire(s0);
    ChargedTiming(e, g);
    ListFacts(e);
    ListFacts(s0);
    AsleepPlain(e, g);
    AsleepPlain(s0, g);
  }

  /** A waiting thread starts to work again only by way of a message. */
  lemma WaitEndsWithMessage(s: State, step: Step, h: int)
    requires Inv(s) && Enabled(s, step) && !step.Tick? && IsTcb(h) && s.phase[h] == InWait
    ensures |Apply(s, step).phase| == NR_TCB + 1 && Apply(s, step).phase[h] != Working
  {
    hide CoreOk;
    InvSound(s);
    CoreFacts(s.core, s.phase, s.running);
    CoreFacts(s.core, s.phase, h);
    match step
    case Send(m, msg) =>
      PostKeeps(s, m, msg);
      var s1 := PostStep(s, m, msg);
      CoreFacts(s1.core, s1.phase, s1.running);
      ReschedKeeps(s1);
    case Reschedule => ReschedKeeps(s);
    case _ =>
  }

  /** Whoever sleeps after a step other than the tick slept before, or has just asked to. */
  lemma NewSleeper(s: State, step: Step, g: int)
    requires Inv(s) && Enabled(s, step) && !step.Tick? && Asleep(Apply(s, step), g)
    ensures Asleep(s, g) || (step.Sleep? && g == s.running && Left(Apply(s, step), g) == step.timeout)
  {
    hide CoreOk;
    InvSound(s);
    CoreFacts(s.core, s.phase, g);
    ListFacts(s);
    var w := StepSleepers(s, step);
    var l := s.core.ts.sleepers;
    T.RemoveDeadlines(l, w);
    if !T.Listed(l, s.running) { T.InsertDeadlines(l, s.running, AskedFor(step)); }
    if s.phase[g] == InWait { WaitEndsWithMessage(s, step, g); }
    if g == s.running && step.Wait? && !T.Listed(l, g) { BlocksOrNot(s, step.mbx, step.timelimit); }
  }

  /** Waiting leaves the running thread in wait, or the timeout list alone. */
  lemma BlocksOrNot(s: State, m: int, timelimit: int)
    requires Inv(s) && Sound(s) && Enabled(s, Wait(m, timelimit))
    ensures var s' := WaitStep(s, m, timelimit);
      s'.core.ts.sleepers == s.core.ts.sleepers || s'.phase == s.phase[s.running := InWait]
  {
    hide CoreOk;
    WaitSleepers(s, m, timelimit);
  }

  function Max(a: int, b: int): int {
    if a < b then b else a
  }

  /** No step but the tick changes the lag, unless a thread asks to sleep for a negative time that
      is longer than the lag. */
  lemma LagAfterOther(s: State, step: Step)
    requires Inv(s) && Enabled(s, step) && !step.Tick?
    ensures Inv(Apply(s, step))
    ensures LagOf(Apply(s, step)) == if step.Sleep? then Max(LagOf(s), 0 - step.timeout) else LagOf(s)
  {
    hide CoreOk, Apply, Enabled;
    StepKeeps(s, step);
    InvSound(s);
    var s' := Apply(s, step);
    var k := LagOf(s);
    var k': nat := if step.Sleep? then Max(k, 0 - step.timeout) else k;
    LagMeans(s, k);
    forall g | Asleep(s, g) ensures Asleep(s', g) && Left(s', g) == Left(s, g) { OtherStepTiming(s, step, g); }
    forall g | Asleep(s', g)
      ensures Asleep(s, g) || (step.Sleep? && g == s.running && Left(s', g) == step.timeout)
    {
      NewSleeper(s, step, g);
    }
    if step.Sleep? { SleepStarts(s, step.timeout); }
    if k' > 0 {
      if k' == k {
        var g :| Asleep(s, g) && Left(s, g) + k == 0;
        assert Asleep(s', g) && Left(s', g) + k' == 0;
      } else {
        assert Asleep(s', s.running) && Left(s', s.running) + k' == 0;
      }
    }
    LagMeans(s', k');
  }

  /** Falling asleep. */
  lemma SleepStarts(s: State, to: int)
    requires Inv(s) && Enabled(s, Sleep(to))
    ensures var s' := Apply(s, Sleep(to));
      && Asleep(s', s.running) && Left(s', s.running) == to
      && s'.charged == s.charged && s'.missed == s.missed
  {
    hide CoreOk;
    InvSound(s);
    StepKeeps(s, Sleep(to));
    CoreFacts(s.core, s.phase, s.running);
    LocAgrees(s.core, s.phase, s.running);
    SleepSleepers(s, to);
    T.InsertDeadlines(s.core.ts.sleepers, s.running, to);
  }

  /** When a waiter's time is up, the timer message goes to whoever has waited longest at its
      mailbox, with whatever time that thread has left: it reaches the thread whose time is up
      if and only if that thread is the first in line. */
  lemma TimerWakesTheFirstInLine(s: State)
    requires Inv(s) && HeadExpired(s) && s.core.pool > 0
    requires Sound(s) && IsTcb(s.core.ts.sleepers[0].h) && s.core.ts.thr[s.core.ts.sleepers[0].h].waitMbx != 0
    ensures var h := s.core.ts.sleepers[0].h; var m := s.core.ts.thr[h].waitMbx;
      && IsMbx(m) && s.core.boxes[m].waiters != []
      && var w := s.core.boxes[m].waiters[0]; var s' := ExpireOne(s);
      && IsTcb(w) && s'.phase == s.phase[w := Woken(TIMER_MSG)] && s'.core.ts.loc[w].OnRing?
      && (T.Listed(s'.core.ts.sleepers, h) <==> w != h)
  {
    hide CoreOk;
    HeadFacts(s);
    HeadWaits(s);
    var h := s.core.ts.sleepers[0].h;
    var m := s.core.ts.thr[h].waitMbx;
    DequeueKeeps(s.core, s.phase, m);
    DeliverKeeps(s.core, s.phase, m, TIMER_MSG);
    T.RemoveDeadlines(s.core.ts.sleepers, s.core.boxes[m].waiters[0]);
  }
}
