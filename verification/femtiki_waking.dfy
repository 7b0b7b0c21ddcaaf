/** When sleeping threads wake up, over whole runs of the kernel. */
module KernelWaking {
  import opened KernelTypes
  import opened ThreadLists
  import opened MailModel
  import opened KernelState
  import opened KernelInvariant
  import opened TickLoop
  import opened TickLag
  import opened KernelRuns
  import opened KernelTheorems
  import opened KernelTiming
  import T = Timeouts

  /** Thread h is asleep all through the run. */
  ghost predicate SleepsOn(s: State, steps: seq<Step>, h: int)
    requires Inv(s) && Possible(s, steps)
    decreases |steps|
  {
    && Asleep(s, h)
    && (steps != [] ==> (StepKeeps(s, steps[0]); SleepsOn(Apply(s, steps[0]), steps[1..], h)))
  }

  /** The step is a tick, and one that counts. */
  ghost predicate CountedTick(s: State, step: Step)
    requires Inv(s)
  {
    step.Tick? && (InvSound(s); Counts(s))
  }

  /** The lags that the ticks of the run meet, added up. */
  ghost function Lags(s: State, steps: seq<Step>): nat
    requires Inv(s) && Possible(s, steps)
    decreases |steps|
  {
    if steps == [] then 0
    else
      StepKeeps(s, steps[0]);
      (if CountedTick(s, steps[0]) then LagOf(s) else 0) + Lags(Apply(s, steps[0]), steps[1..])
  }

  /** No tick of the run that counts finds a plain sleeper below zero. */
  ghost predicate InTimeTicks(s: State, steps: seq<Step>)
    requires Inv(s) && Possible(s, steps)
    decreases |steps|
  {
    steps != [] ==>
      && (ListFacts(s); CountedTick(s, steps[0]) ==> PlainInTime(s.core.ts.sleepers, s.core.ts.thr))
      && (StepKeeps(s, steps[0]); InTimeTicks(Apply(s, steps[0]), steps[1..]))
  }

  function Ticks(steps: seq<Step>): nat {
    if steps == [] then 0 else (if steps[0].Tick? then 1 else 0) + Ticks(steps[1..])
  }

  /** What one step does to a sleeper that it leaves asleep. */
  lemma StepTiming(s: State, step: Step, h: int)
    requires Asleep(s, h) && Enabled(s, step)
    ensures var s' := Apply(s, step);
      && Inv(s') && s'.charged >= s.charged
      && (!step.Tick? ==> Asleep(s', h))
      && (Asleep(s', h) ==>
            && Left(s', h) == Left(s, h) - (s'.charged - s.charged) + (if CountedTick(s, step) then LagOf(s) else 0)
            && s'.charged + s'.missed == s.charged + s.missed + (if step.Tick? then 1 else 0))
  {
    StepKeeps(s, step);
    if step.Tick? {
      TickTiming(s, step.elapsed, h);
    } else {
      OtherStepTiming(s, step, h);
    }
  }

  /** The law of the clock. What a sleeper has left goes down by what is charged less the lags that
      the ticks meet; charged are the ticks, and the missed ones with the next tick that counts. */
  lemma {:induction false} ClockLaw(s: State, steps: seq<Step>, h: int)
    requires Inv(s) && Possible(s, steps) && SleepsOn(s, steps, h)
    ensures var s' := Run(s, steps);
      && Asleep(s', h) && Left(s', h) == Left(s, h) - (s'.charged - s.charged) + Lags(s, steps)
      && s'.charged - s.charged == Ticks(steps) + s.missed - s'.missed
    decreases |steps|
  {
    hide Asleep, Enabled, Apply;
    if steps != [] {
      StepTiming(s, steps[0], h);
      ClockLaw(Apply(s, steps[0]), steps[1..], h);
    }
  }

  lemma {:induction false} LagsInTime(s: State, steps: seq<Step>)
    requires Inv(s) && Possible(s, steps)
    ensures Lags(s, steps) == 0 <==> InTimeTicks(s, steps)
    decreases |steps|
  {
    hide CoreOk, Enabled, Apply;
    if steps != [] {
      ListFacts(s);
      StepKeeps(s, steps[0]);
      LagInTime(s.core.ts.sleepers, s.core.ts.thr);
      LagsInTime(Apply(s, steps[0]), steps[1..]);
    }
  }

  /** The clock is exact for a sleeper if and only if no tick meets a plain sleeper below zero. */
  lemma ExactClock(s: State, steps: seq<Step>, h: int)
    requires Inv(s) && Possible(s, steps) && SleepsOn(s, steps, h)
    ensures var s' := Run(s, steps);
      && Asleep(s', h) && (Left(s', h) == Left(s, h) - (s'.charged - s.charged) <==> InTimeTicks(s, steps))
  {
    ClockLaw(s, steps, h);
    LagsInTime(s, steps);
  }

  /** Exactly which tick ends the sleep: the next one that counts leaves h asleep if and only if
      less has been charged than h had left, all lags added; else h is on its ring. */
  lemma NextTickWakes(s: State, steps: seq<Step>, elapsed: nat, h: int)
    requires Inv(s) && Possible(s, steps) && SleepsOn(s, steps, h)
    ensures var s2 := Run(s, steps);
      && Inv(s2) && Sound(s2) && T.Listed(s.core.ts.sleepers, h)
      && (CanExpire(s2) && Counts(s2) ==>
            var s3 := TickStep(s2, elapsed);
            if s2.charged - s.charged < Left(s, h) + Lags(s, steps) + LagOf(s2) then Asleep(s3, h)
            else |s3.core.ts.loc| == NR_TCB + 1 && IsTcb(h) && s3.core.ts.loc[h].OnRing?)
  {
    hide CoreOk;
    ClockLaw(s, steps, h);
    InvSound(Run(s, steps));
    if CanExpire(Run(s, steps)) { TickTiming(Run(s, steps), elapsed, h); }
  }

  lemma StepCharges(s: State, step: Step)
    requires Inv(s) && Enabled(s, step)
    ensures Apply(s, step).charged >= s.charged
    ensures s.missed == 0 && !(step.Tick? && !CountedTick(s, step)) ==> Apply(s, step).missed == 0
  {
    hide CoreOk;
    InvSound(s);
    if step.Tick? {
      TickCharges(s, step.elapsed);
    } else {
      var w := StepSleepers(s, step);
    }
  }

  lemma {:induction false} ChargedGrows(s: State, steps: seq<Step>)
    requires Inv(s) && Possible(s, steps)
    ensures Run(s, steps).charged >= s.charged
    decreases |steps|
  {
    if steps != [] {
      StepKeeps(s, steps[0]);
      StepCharges(s, steps[0]);
      ChargedGrows(Apply(s, steps[0]), steps[1..]);
    }
  }

  /** A thread is never woken from its sleep before the charge is due: as long as less has been
      charged to the timeout list than it had left, it sleeps on. */
  lemma {:induction false} NeverEarly(s: State, steps: seq<Step>, h: int)
    requires Asleep(s, h) && Possible(s, steps)
    ensures Run(s, steps).charged >= s.charged
    ensures Run(s, steps).charged - s.charged < Left(s, h) ==>
      && SleepsOn(s, steps, h)
      && Asleep(Run(s, steps), h) && Left(Run(s, steps), h) >= Left(s, h) - (Run(s, steps).charged - s.charged)
    decreases |steps|
  {
    if steps != [] {
      var s' := Apply(s, steps[0]);
      StepTiming(s, steps[0], h);
      ChargedGrows(s', steps[1..]);
      if steps[0].Tick? { TickTiming(s, steps[0].elapsed, h); }
      if Asleep(s', h) { NeverEarly(s', steps[1..], h); }
    }
  }

  /** While no tick meets a plain sleeper below zero, a sleeper with enough left for all ticks, the
      missed ones included, sleeps through them, whatever is inserted, removed, sent or rescheduled. */
  lemma {:induction false} CountsDown(s: State, steps: seq<Step>, h: int)
    requires Asleep(s, h) && Possible(s, steps) && InTimeTicks(s, steps)
    requires s.missed + Ticks(steps) <= Left(s, h)
    ensures var s' := Run(s, steps);
      && SleepsOn(s, steps, h) && Asleep(s', h)
      && Left(s', h) == Left(s, h) - (s'.charged - s.charged) == Left(s, h) - Ticks(steps) - s.missed + s'.missed
    decreases |steps|
  {
    hide CoreOk;
    if steps != [] {
      StepTiming(s, steps[0], h);
      ListFacts(s);
      LagInTime(s.core.ts.sleepers, s.core.ts.thr);
      if steps[0].Tick? { TickTiming(s, steps[0].elapsed, h); }
      CountsDown(Apply(s, steps[0]), steps[1..], h);
    }
  }

  // ----- runs without missed ticks: the clock can be told from the steps alone

  /** Every tick of the run counts. */
  ghost predicate Unmissed(s: State, steps: seq<Step>)
    requires Inv(s) && Possible(s, steps)
    decreases |steps|
  {
    steps != [] ==>
      && (steps[0].Tick? ==> CountedTick(s, steps[0]))
      && (StepKeeps(s, steps[0]); Unmissed(Apply(s, steps[0]), steps[1..]))
  }

  /** The lag after a step, when no tick is missed. */
  function LagAfter(step: Step, lag: nat): nat {
    match step
    case Tick(elapsed) => 0
    case Sleep(timeout) => Max(lag, 0 - timeout)
    case _ => lag
  }

  /** By how much the steps put a sleeper off. */
  function Delay(steps: seq<Step>, lag: nat): nat {
    if steps == [] then 0
    else (if steps[0].Tick? then lag else 0) + Delay(steps[1..], LagAfter(steps[0], lag))
  }

  /** Whether a thread that has `left` ticks left when the list lags by `lag` outlasts the steps. */
  predicate Outlasts(steps: seq<Step>, left: int, lag: nat) {
    steps == [] ||
    if steps[0].Tick? then left + lag > 0 && Outlasts(steps[1..], left + lag - 1, 0)
    else Outlasts(steps[1..], left, LagAfter(steps[0], lag))
  }

  /** No thread asks for a negative time before the last tick. */
  ghost predicate Prompt(steps: seq<Step>) {
    forall i, j :: 0 <= i < j < |steps| && steps[j].Tick? ==> !(steps[i].Sleep? && steps[i].timeout < 0)
  }

  lemma {:induction false} TicksOrNot(steps: seq<Step>)
    ensures Ticks(steps) > 0 <==> exists j :: 0 <= j < |steps| && steps[j].Tick?
  {
    if steps != [] {
      TicksOrNot(steps[1..]);
      if j :| 0 <= j < |steps| && steps[j].Tick? && !steps[0].Tick? { assert steps[1..][j - 1].Tick?; }
    }
  }

  lemma PromptTail(steps: seq<Step>)
    requires steps != []
    ensures Prompt(steps) <==>
      Prompt(steps[1..]) && (Ticks(steps[1..]) > 0 ==> !(steps[0].Sleep? && steps[0].timeout < 0))
  {
    var rest := steps[1..];
    TicksOrNot(rest);
    if Prompt(steps) {
      forall i, j | 0 <= i < j < |rest| && rest[j].Tick? ensures !(rest[i].Sleep? && rest[i].timeout < 0) {
        assert steps[j + 1].Tick?;
        assert rest[i] == steps[i + 1];
      }
      if j :| 0 <= j < |rest| && rest[j].Tick? { assert steps[j + 1].Tick?; }
    }
    if Prompt(rest) && (Ticks(rest) > 0 ==> !(steps[0].Sleep? && steps[0].timeout < 0)) {
      forall i, j | 0 <= i < j < |steps| && steps[j].Tick? ensures !(steps[i].Sleep? && steps[i].timeout < 0) {
        assert rest[j - 1].Tick?;
        if i > 0 { assert rest[i - 1] == steps[i]; }
      }
    }
  }

  /** The steps put nobody off if and only if no negative sleep comes before a tick. */
  lemma {:induction false} DelayPrompt(steps: seq<Step>, lag: nat)
    ensures Delay(steps, lag) == 0 <==> Prompt(steps) && (lag > 0 ==> Ticks(steps) == 0)
  {
    if steps != [] {
      PromptTail(steps);
      DelayPrompt(steps[1..], LagAfter(steps[0], lag));
    }
  }

  /** Then a thread with time left outlasts exactly as many ticks as it asked for. */
  lemma {:induction false} OutlastsPrompt(steps: seq<Step>, left: nat, lag: nat)
    requires Prompt(steps) && (lag > 0 ==> Ticks(steps) == 0)
    ensures Outlasts(steps, left, lag) <==> Ticks(steps) <= left
  {
    if steps != [] {
      PromptTail(steps);
      if steps[0].Tick? {
        if left > 0 { OutlastsPrompt(steps[1..], left - 1, 0); }
      } else {
        OutlastsPrompt(steps[1..], left, LagAfter(steps[0], lag));
      }
    }
  }

  /** The lag after a step of a run without missed ticks. */
  lemma LagFollows(s: State, step: Step)
    requires Inv(s) && Enabled(s, step) && s.missed == 0 && (step.Tick? ==> CountedTick(s, step))
    ensures Inv(Apply(s, step)) && LagOf(Apply(s, step)) == LagAfter(step, LagOf(s)) && Apply(s, step).missed == 0
  {
    StepKeeps(s, step);
    StepCharges(s, step);
    if step.Tick? {
      InvSound(s);
      LagAfterTick(s, step.elapsed);
    } else {
      LagAfterOther(s, step);
    }
  }

  /** One step of such a run, for a sleeper. */
  lemma StepExactly(s: State, step: Step, h: int)
    requires Asleep(s, h) && s.missed == 0 && Enabled(s, step) && (step.Tick? ==> CountedTick(s, step))
    ensures var s' := Apply(s, step);
      && Inv(s') && s'.missed == 0 && LagOf(s') == LagAfter(step, LagOf(s))
      && (Asleep(s', h) <==> step.Tick? ==> Left(s, h) + LagOf(s) > 0)
      && (Asleep(s', h) ==> Left(s', h) == Left(s, h) + if step.Tick? then LagOf(s) - 1 else 0)
  {
    hide CoreOk, Asleep, Enabled, Apply;
    AsleepFacts(s, h);
    StepTiming(s, step, h);
    LagFollows(s, step);
    if step.Tick? {
      TickIsApplied(s, step);
      TickTiming(s, step.elapsed, h);
    }
  }

  /** In a run without missed ticks a thread sleeps on if and only if it outlasts the steps, and
      then each tick has taken one off what it has left and the steps have put it off by the rest. */
  lemma {:induction false} SleepsThrough(s: State, steps: seq<Step>, h: int)
    requires Asleep(s, h) && s.missed == 0 && Possible(s, steps) && Unmissed(s, steps)
    ensures SleepsOn(s, steps, h) <==> Outlasts(steps, Left(s, h), LagOf(s))
    ensures SleepsOn(s, steps, h) ==>
      && Asleep(Run(s, steps), h)
      && Left(Run(s, steps), h) == Left(s, h) - Ticks(steps) + Delay(steps, LagOf(s))
    decreases |steps|
  {
    hide CoreOk, Enabled, Apply, Asleep, LagOf;
    AsleepFacts(s, h);
    if steps != [] {
      StepExactly(s, steps[0], h);
      if Asleep(Apply(s, steps[0]), h) { SleepsThrough(Apply(s, steps[0]), steps[1..], h); }
    }
  }

  lemma TickIsApplied(s: State, step: Step)
    requires Inv(s) && Enabled(s, step) && step.Tick?
    ensures CanExpire(s) && Apply(s, step) == TickStep(s, step.elapsed)
  {
  }

  /** In a run without missed ticks every tick takes exactly one off what a sleeper has left, if and
      only if no thread asks for a negative time before the last tick. */
  lemma ExactTicks(s: State, steps: seq<Step>, h: int)
    requires Inv(s) && s.missed == 0 && LagOf(s) == 0 && Possible(s, steps) && Unmissed(s, steps)
    requires SleepsOn(s, steps, h)
    ensures Asleep(Run(s, steps), h)
    ensures Left(Run(s, steps), h) == Left(s, h) - Ticks(steps) <==> Prompt(steps)
  {
    SleepsThrough(s, steps, h);
    DelayPrompt(steps, 0);
  }

  /** A thread that goes to sleep for `to` ticks, in a run without missed ticks: when it wakes is told
      by the steps. Without a negative sleep before the last tick, it is asleep after its `to` ticks
      and on its ring after the next one. */
  lemma SleepsExactly(s: State, to: int, steps: seq<Step>, elapsed: nat)
    requires Inv(s) && Enabled(s, Sleep(to)) && s.missed == 0
    requires var s1 := Apply(s, Sleep(to));
      Inv(s1) && Possible(s1, steps) && Unmissed(s1, steps)
    ensures var h := s.running; var s1 := Apply(s, Sleep(to)); var s2 := Run(s1, steps);
      && Inv(s2) && Sound(s2)
      && (SleepsOn(s1, steps, h) <==> Outlasts(steps, to, Max(LagOf(s), 0 - to)))
      && (to >= 0 && LagOf(s) == 0 && Prompt(steps) ==>
            && (SleepsOn(s1, steps, h) <==> Ticks(steps) <= to)
            && (CanExpire(s2) && Counts(s2) && Ticks(steps) <= to && Prompt(steps + [Tick(elapsed)]) ==>
                  var s3 := TickStep(s2, elapsed);
                  && |s3.core.ts.loc| == NR_TCB + 1
                  && if Ticks(steps) == to then s3.core.ts.loc[h].OnRing? else Asleep(s3, h)))
  {
    hide CoreOk, Apply, Enabled, Asleep;
    var h := s.running;
    InvSound(s);
    SleepStarts(s, to);
    LagAfterOther(s, Sleep(to));
    var s1 := Apply(s, Sleep(to));
    var s2 := Run(s1, steps);
    SleepsThrough(s1, steps, h);
    RunKeeps(s1, steps);
    InvSound(s2);
    if to >= 0 && LagOf(s) == 0 && Prompt(steps) {
      OutlastsPrompt(steps, to, 0);
      if CanExpire(s2) && Counts(s2) && Ticks(steps) <= to && Prompt(steps + [Tick(elapsed)]) {
        TickTiming(s2, elapsed, h);
        DelayPrompt(steps, 0);
        LagIsPending(s1, steps);
        PendingPrompt(steps, 0, elapsed);
      }
    }
  }

  /** The lag that the steps leave behind. */
  function Pending(steps: seq<Step>, lag: nat): nat {
    if steps == [] then lag else Pending(steps[1..], LagAfter(steps[0], lag))
  }

  lemma {:induction false} LagIsPending(s: State, steps: seq<Step>)
    requires Inv(s) && s.missed == 0 && Possible(s, steps) && Unmissed(s, steps)
    ensures Inv(Run(s, steps)) && LagOf(Run(s, steps)) == Pending(steps, LagOf(s))
    decreases |steps|
  {
    if steps != [] {
      LagFollows(s, steps[0]);
      LagIsPending(Apply(s, steps[0]), steps[1..]);
    }
  }

  lemma {:induction false} DelayAppend(steps: seq<Step>, lag: nat, step: Step)
    ensures Delay(steps + [step], lag) == Delay(steps, lag) + if step.Tick? then Pending(steps, lag) else 0
  {
    if steps != [] {
      DelayAppend(steps[1..], LagAfter(steps[0], lag), step);
      assert (steps + [step])[1..] == steps[1..] + [step];
    }
  }

  lemma PendingPrompt(steps: seq<Step>, lag: nat, elapsed: nat)
    requires lag == 0 && Prompt(steps + [Tick(elapsed)])
    ensures Pending(steps, lag) == 0
  {
    DelayAppend(steps, 0, Tick(elapsed));
    DelayPrompt(steps + [Tick(elapsed)], 0);
  }
}
