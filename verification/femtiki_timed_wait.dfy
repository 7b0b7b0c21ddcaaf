/** When a wait with a time limit ends, for a thread that is alone in line at its mailbox and to
    whom nothing is sent (software/Femtiki/source/kernel/msg.c, FMTK_WaitMsg). */
module KernelTimedWait {
  import opened KernelTypes
  import opened ThreadLists
  import opened MailModel
  import opened KernelState
  import opened KernelInvariant
  import opened TickLoop
  import opened TickLag
  import opened KernelRuns
  import opened KernelTheorems
  import opened KernelTiming
  import opened KernelWaking
  import T = Timeouts

  /** The step neither sends to mailbox m nor waits there. */
  predicate Spares(step: Step, m: int) {
    match step
    case Send(k, msg) => k != m
    case PostMsg(k, msg) => k != m
    case Wait(k, timelimit) => k != m
    case _ => true
  }

  ghost predicate Spared(steps: seq<Step>, m: int) {
    forall i :: 0 <= i < |steps| ==> Spares(steps[i], m)
  }

  lemma {:induction false} EmptiedWaiters(c: Core, k: int, m: int)
    requires Shaped(c) && IsMbx(k) && IsMbx(m)
    ensures Shaped(Emptied(c, k)) && Emptied(c, k).boxes[m].waiters == c.boxes[m].waiters
    decreases c.boxes[k].count
  {
    if HasMessage(c.boxes[k]) { EmptiedWaiters(Fetch(c, k), k, m); }
  }

  lemma PostWaiters(s: State, k: int, p: Payload, m: int)
    requires Inv(s) && Sound(s) && Receptive(s.core, k) && IsMbx(m) && k != m
    ensures Inv(PostStep(s, k, p)) && |PostStep(s, k, p).core.boxes| == NR_MBX + 1
    ensures PostStep(s, k, p).core.boxes[m].waiters == s.core.boxes[m].waiters
  {
    hide CoreOk;
    PostKeeps(s, k, p);
  }

  lemma WaitWaiters(s: State, k: int, timelimit: int, m: int)
    requires Inv(s) && Sound(s) && Enabled(s, Wait(k, timelimit)) && IsMbx(m) && k != m
    ensures Inv(WaitStep(s, k, timelimit)) && |WaitStep(s, k, timelimit).core.boxes| == NR_MBX + 1
    ensures WaitStep(s, k, timelimit).core.boxes[m].waiters == s.core.boxes[m].waiters
  {
    hide CoreOk;
    WaitKeeps(s, k, timelimit);
    WaitSleepers(s, k, timelimit);
  }

  /** A step that spares a mailbox leaves the line there as it is. */
  lemma StepWaiters(s: State, step: Step, m: int)
    requires Inv(s) && Enabled(s, step) && !step.Tick? && IsMbx(m) && Spares(step, m)
    ensures |s.core.boxes| == |Apply(s, step).core.boxes| == NR_MBX + 1
    ensures Apply(s, step).core.boxes[m].waiters == s.core.boxes[m].waiters
  {
    hide CoreOk;
    InvSound(s);
    CoreFacts(s.core, s.phase, s.running);
    match step
    case Send(k, msg) =>
      PostWaiters(s, k, msg, m);
      var s1 := PostStep(s, k, msg);
      CoreFacts(s1.core, s1.phase, s1.running);
      ReschedKeeps(s1);
    case PostMsg(k, msg) => PostWaiters(s, k, msg, m);
    case Wait(k, timelimit) => WaitWaiters(s, k, timelimit, m);
    case Empty(k) => if IsMbx(k) { EmptiedWaiters(s.core, k, m); }
    case AllocMbx(app) => Unallocated(s, m);
    case _ =>
  }

  lemma Unallocated(s: State, m: int)
    requires Inv(s) && IsMbx(m)
    ensures |s.core.boxes| == NR_MBX + 1 && (m >= s.core.firstMbx ==> s.core.boxes[m].waiters == [])
  {
    assert MailboxOk(s.core.ts.thr, s.core.boxes[m], m, s.core.firstMbx);
  }

  /** No step that spares the mailbox, but the tick, does anything to a thread alone in line. */
  lemma OtherStepAlone(s: State, step: Step, h: int, m: int)
    requires AloneInLine(s, h, m) && Enabled(s, step) && !step.Tick? && Spares(step, m)
    ensures var s' := Apply(s, step);
      AloneInLine(s', h, m) && Left(s', h) == Left(s, h) && s'.charged == s.charged && s'.missed == s.missed
  {
    hide CoreOk, Apply, Enabled;
    AloneFacts(s, h, m);
    ListFacts(s);
    StepKeeps(s, step);
    StepWaiters(s, step, m);
    var w := StepSleepers(s, step);
    var l := s.core.ts.sleepers;
    if step.Send? || step.PostMsg? {
      if IsMbx(step.mbx) && s.core.boxes[step.mbx].waiters != [] {
        assert s.core.boxes[step.mbx].waiters[0] in s.core.boxes[step.mbx].waiters;
      }
    }
    T.RemoveDeadlines(l, w);
    if !T.Listed(l, s.running) { T.InsertDeadlines(l, s.running, AskedFor(step)); }
  }

  /** A tick that counts leaves the thread in line if and only if it has time left, the lag of the
      list added; else the thread has the timer message and is on its ring. */
  lemma TickAlone(s: State, elapsed: nat, h: int, m: int)
    requires AloneInLine(s, h, m) && CanExpire(s)
    ensures Sound(s)
    ensures var s' := TickStep(s, elapsed);
      if !Counts(s) then AloneInLine(s', h, m) && Left(s', h) == Left(s, h)
      else if Left(s, h) + LagOf(s) > 0 then
        AloneInLine(s', h, m) && Left(s', h) == Left(s, h) + LagOf(s) - s.missed - 1
      else TimedOut(s', h)
  {
    hide CoreOk;
    AloneFacts(s, h, m);
    CoreFacts(s.core, s.phase, s.running);
    TickKeeps(s, elapsed);
    if Counts(s) {
      TickParts(s, elapsed);
      TickEntry(s, elapsed, h);
      ExpireAlone(Preempted(s), h, m);
      ChargedTiming(Expire(Preempted(s)), h);
    }
  }

  // ----- whole runs

  /** Thread h is alone in line at mailbox m all through the run. */
  ghost predicate WaitsOn(s: State, steps: seq<Step>, h: int, m: int)
    requires Inv(s) && Possible(s, steps)
    decreases |steps|
  {
    && AloneInLine(s, h, m)
    && (steps != [] ==> (StepKeeps(s, steps[0]); WaitsOn(Apply(s, steps[0]), steps[1..], h, m)))
  }

  lemma StepAlone(s: State, step: Step, h: int, m: int)
    requires AloneInLine(s, h, m) && s.missed == 0 && Enabled(s, step) && Spares(step, m)
    requires step.Tick? ==> CountedTick(s, step)
    ensures var s' := Apply(s, step);
      && Inv(s') && s'.missed == 0 && LagOf(s') == LagAfter(step, LagOf(s))
      && (AloneInLine(s', h, m) <==> step.Tick? ==> Left(s, h) + LagOf(s) > 0)
      && (AloneInLine(s', h, m) ==> Left(s', h) == Left(s, h) + if step.Tick? then LagOf(s) - 1 else 0)
      && (!AloneInLine(s', h, m) ==> TimedOut(s', h))
  {
    hide CoreOk, Enabled, Apply;
    AloneFacts(s, h, m);
    LagFollows(s, step);
    if step.Tick? {
      TickIsApplied(s, step);
      TickAlone(s, step.elapsed, h, m);
      if TimedOut(Apply(s, step), h) { TimedOutFacts(Apply(s, step), h, m); }
    } else {
      OtherStepAlone(s, step, h, m);
    }
  }

  lemma TimedOutFacts(s: State, h: int, m: int)
    requires Inv(s) && TimedOut(s, h)
    ensures !AloneInLine(s, h, m)
  {
    hide CoreOk;
    if AloneInLine(s, h, m) { AloneFacts(s, h, m); }
  }

  /** In a run without missed ticks and without a step at its mailbox, a thread stays in line if and
      only if its time limit outlasts the steps, just as a sleeper's time does. */
  lemma {:induction false} WaitsThrough(s: State, steps: seq<Step>, h: int, m: int)
    requires AloneInLine(s, h, m) && s.missed == 0 && Possible(s, steps) && Unmissed(s, steps) && Spared(steps, m)
    ensures WaitsOn(s, steps, h, m) <==> Outlasts(steps, Left(s, h), LagOf(s))
    ensures WaitsOn(s, steps, h, m) ==>
      && AloneInLine(Run(s, steps), h, m)
      && Left(Run(s, steps), h) == Left(s, h) - Ticks(steps) + Delay(steps, LagOf(s))
    decreases |steps|
  {
    hide CoreOk, Enabled, Apply, AloneInLine, LagOf;
    AloneFacts(s, h, m);
    if steps != [] {
      assert Spares(steps[0], m) && Spared(steps[1..], m);
      StepAlone(s, steps[0], h, m);
      if AloneInLine(Apply(s, steps[0]), h, m) { WaitsThrough(Apply(s, steps[0]), steps[1..], h, m); }
    }
  }

  /** Starting to wait at an allocated mailbox where there is no message and nobody else. */
  lemma TimedWaitStarts(s: State, m: int, limit: int)
    requires Inv(s) && Enabled(s, Wait(m, limit)) && limit > 0 && IsMbx(m)
    requires |s.core.boxes| == NR_MBX + 1 && Allocated(s.core.boxes[m])
    requires s.core.boxes[m].waiters == [] && s.core.boxes[m].queue == []
    ensures var s' := Apply(s, Wait(m, limit));
      && AloneInLine(s', s.running, m) && Left(s', s.running) == limit
      && LagOf(s') == LagOf(s) && s'.missed == s.missed
  {
    hide CoreOk;
    InvSound(s);
    CoreFacts(s.core, s.phase, s.running);
    LocAgrees(s.core, s.phase, s.running);
    StepKeeps(s, Wait(m, limit));
    LagAfterOther(s, Wait(m, limit));
    FetchKeeps(s.core, s.phase, m);
    WaitersFacts(s.core, s.phase, m);
    BlockSleepers(s.(core := Fetch(s.core, m)), m, limit);
    BlockedAlone(s, m, limit);
    T.InsertDeadlines(s.core.ts.sleepers, s.running, limit);
  }

  lemma BlockedAlone(s: State, m: int, limit: int)
    requires Inv(s) && Sound(s) && Enabled(s, Wait(m, limit)) && IsMbx(m) && Allocated(s.core.boxes[m])
    requires s.core.boxes[m].waiters == [] && s.core.boxes[m].queue == []
    ensures var s' := WaitStep(s, m, limit);
      Inv(s') && |s'.core.boxes| == NR_MBX + 1 && s'.core.boxes[m].waiters == [s.running]
  {
    hide CoreOk;
    WaitKeeps(s, m, limit);
  }

  /** A thread alone in line, to whom nothing is sent, is woken by the timer message on exactly the
      tick after its time limit, in a run without missed ticks and negative sleeps. */
  lemma TimesOutExactly(s: State, m: int, limit: int, steps: seq<Step>, elapsed: nat)
    requires Inv(s) && Enabled(s, Wait(m, limit)) && limit > 0 && IsMbx(m)
    requires |s.core.boxes| == NR_MBX + 1 && Allocated(s.core.boxes[m])
    requires s.core.boxes[m].waiters == [] && s.core.boxes[m].queue == []
    requires s.missed == 0 && LagOf(s) == 0
    requires var s1 := Apply(s, Wait(m, limit));
      Inv(s1) && Possible(s1, steps) && Unmissed(s1, steps) && Spared(steps, m)
    requires Ticks(steps) <= limit && Prompt(steps + [Tick(elapsed)])
    ensures var h := s.running; var s1 := Apply(s, Wait(m, limit)); var s2 := Run(s1, steps);
      && WaitsOn(s1, steps, h, m) && AloneInLine(s2, h, m) && Sound(s2)
      && (CanExpire(s2) && Counts(s2) ==>
            var s3 := TickStep(s2, elapsed);
            if Ticks(steps) == limit then TimedOut(s3, h) else AloneInLine(s3, h, m))
  {
    hide CoreOk, Apply, Enabled;
    var h := s.running;
    TimedWaitStarts(s, m, limit);
    var s1 := Apply(s, Wait(m, limit));
    var s2 := Run(s1, steps);
    PromptPrefix(steps, Tick(elapsed));
    DelayPrompt(steps, 0);
    OutlastsPrompt(steps, limit, 0);
    WaitsThrough(s1, steps, h, m);
    AloneFacts(s2, h, m);
    if CanExpire(s2) && Counts(s2) {
      LagIsPending(s1, steps);
      PendingPrompt(steps, 0, elapsed);
      TickAlone(s2, elapsed, h, m);
    }
  }

  lemma PromptPrefix(steps: seq<Step>, step: Step)
    requires Prompt(steps + [step])
    ensures Prompt(steps)
  {
    forall i, j | 0 <= i < j < |steps| && steps[j].Tick? ensures !(steps[i].Sleep? && steps[i].timeout < 0) {
      assert (steps + [step])[j].Tick?;
      assert (steps + [step])[i] == steps[i];
    }
  }
}
