/** How long a ready thread waits for its turn in a run of the kernel. */
module KernelTurns {
  import opened KernelTypes
  import opened Seqs
  import opened ThreadLists
  import opened MailModel
  import opened KernelState
  import opened KernelInvariant
  import opened TickLoop
  import opened TickLag
  import opened KernelRuns
  import opened KernelTiming
  import opened KernelFairness

  /** The step makes no thread ready and takes none off its ring. */
  ghost predicate KeepsReady(s: State, step: Step)
    requires Inv(s)
  {
    InvSound(s);
    match step
    case StartThread(priority, affinity) => !IsTcb(s.core.ts.firstFree)
    case Sleep(timeout) => false
    case SetPriority(ht, priority) => IsTcb(ht) && (!(0 <= priority <= 31) || !s.core.ts.thr[ht].status.ready)
    case Send(m, msg) => !WakesSomebody(s, m)
    case PostMsg(m, msg) => !WakesSomebody(s, m)
    case Wait(m, timelimit) => !Blocks(s, m)
    case Tick(elapsed) => !Counts(s) || !HeadExpired(s)
    case _ => true
  }

  ghost predicate WakesSomebody(s: State, m: int)
    requires Sound(s)
  {
    IsMbx(m) && Allocated(s.core.boxes[m]) && s.core.pool > 0 && s.core.boxes[m].waiters != []
  }

  /** Waiting at mailbox m finds no message. */
  ghost predicate Blocks(s: State, m: int)
    requires Sound(s)
  {
    IsMbx(m) && 0 < s.core.boxes[m].owner <= NR_ACB && !HasMessage(s.core.boxes[m])
  }

  /** A tick that finds no expired head switches to the next thread, or does nothing to the rings. */
  lemma TickIsChoice(s: State, elapsed: nat)
    requires Inv(s) && Sound(s) && CanExpire(s) && (!Counts(s) || !HeadExpired(s))
    ensures Choice(s, TickStep(s, elapsed)) || Calm(s, TickStep(s, elapsed))
  {
    hide CoreOk;
    if Counts(s) {
      CoreFacts(s.core, s.phase, s.running);
      TickParts(s, elapsed);
      var s0 := Preempted(s);
      assert Expire(s0) == s0;
      var s1 := ChargeHead(s0);
      ChargeKeeps(s0);
      if s1.core.ts.thr[s1.running].priority < 28 && elapsed > 3 { SwitchIsChoice(s, s1); }
    }
  }

  /** Every other step that leaves the ready set alone is calm. */
  lemma OtherIsCalm(s: State, step: Step)
    requires Inv(s) && Sound(s) && Enabled(s, step) && KeepsReady(s, step) && !step.Reschedule? && !step.Tick?
    ensures Calm(s, Apply(s, step))
  {
    hide CoreOk, Resched, Deliver;
    CoreFacts(s.core, s.phase, s.running);
    match step
    case SetPriority(ht, priority) => CoreFacts(s.core, s.phase, ht);
    case Wait(m, timelimit) => if IsMbx(m) { WaitersFacts(s.core, s.phase, m); }
    case Empty(m) => if IsMbx(m) { EmptiedSleepers(s.core, m); }
    case _ =>
  }

  /** Every step that leaves the ready set alone is a choice, or leaves rings and count alone too. */
  lemma StepIsChoiceOrCalm(s: State, step: Step)
    requires Inv(s) && Enabled(s, step) && KeepsReady(s, step)
    ensures Sound(s) && Inv(Apply(s, step))
    ensures Choice(s, Apply(s, step)) || Calm(s, Apply(s, step))
  {
    hide CoreOk, Choice, Calm, SwitchTo, TickStep;
    InvSound(s);
    StepKeeps(s, step);
    if step.Reschedule? {
      ReschedIsChoice(s);
    } else if step.Tick? {
      TickIsChoice(s, step.elapsed);
    } else {
      OtherIsCalm(s, step);
    }
  }

  /** The run leaves the ready set alone. */
  ghost predicate ReadySetFixed(s: State, steps: seq<Step>)
    requires Inv(s) && Possible(s, steps)
    decreases |steps|
  {
    steps != [] ==>
      && KeepsReady(s, steps[0])
      && (StepKeeps(s, steps[0]); ReadySetFixed(Apply(s, steps[0]), steps[1..]))
  }

  /** Some step of the run chooses thread g. */
  ghost predicate Chosen(s: State, steps: seq<Step>, g: int)
    requires Inv(s) && Possible(s, steps)
    decreases |steps|
  {
    steps != [] &&
    (StepKeeps(s, steps[0]);
     var s' := Apply(s, steps[0]);
     (s'.invert == s.invert + 1 && s'.running == g) || Chosen(s', steps[1..], g))
  }

  /** The states that the run goes through. */
  ghost function States(s: State, steps: seq<Step>): (trace: seq<State>)
    requires Inv(s) && Possible(s, steps)
    ensures |trace| == |steps| + 1 && trace[0] == s
    decreases |steps|
  {
    if steps == [] then [s]
    else
      StepKeeps(s, steps[0]);
      [s] + States(Apply(s, steps[0]), steps[1..])
  }

  lemma {:induction false} StatesEnd(s: State, steps: seq<Step>)
    requires Inv(s) && Possible(s, steps)
    ensures States(s, steps)[|steps|] == Run(s, steps)
    decreases |steps|
  {
    hide Inv, Apply, Enabled;
    if steps != [] {
      StepKeeps(s, steps[0]);
      StatesEnd(Apply(s, steps[0]), steps[1..]);
    }
  }

  lemma {:induction false} StatesFixed(s: State, steps: seq<Step>)
    requires Inv(s) && Possible(s, steps) && ReadySetFixed(s, steps)
    ensures Fixed(States(s, steps))
    decreases |steps|
  {
    hide Choice, Calm, Inv, Apply, Enabled, KeepsReady, Proper;
    InvProper(s);
    if steps != [] {
      var s' := Apply(s, steps[0]);
      StepIsChoiceOrCalm(s, steps[0]);
      StatesFixed(s', steps[1..]);
      var trace, rest := States(s, steps), States(s', steps[1..]);
      forall i | 0 <= i < |trace| ensures Proper(trace[i].core.ts) {
        if i > 0 { assert trace[i] == rest[i - 1]; }
      }
      forall i, j | 0 <= i && j == i + 1 && j < |trace|
        ensures Indexes(trace[i].core.ts) && (Choice(trace[i], trace[j]) || Calm(trace[i], trace[j]))
      {
        ProperIndexes(trace[i].core.ts);
        if i > 0 { assert trace[i] == rest[i - 1] && trace[j] == rest[i]; }
      }
    }
  }

  lemma InvProper(s: State)
    requires Inv(s)
    ensures Proper(s.core.ts)
  {
    CoreProper(s.core, s.phase);
  }

  lemma ProperIndexes(ts: Threads)
    requires Proper(ts)
    ensures Indexes(ts)
  {
  }

  lemma {:induction false} ChosenInStates(s: State, steps: seq<Step>, g: int, i: nat)
    requires Inv(s) && Possible(s, steps) && i < |steps|
    requires var t := States(s, steps);
      Indexes(t[i].core.ts) && Choice(t[i], t[i + 1]) && t[i + 1].running == g
    ensures Chosen(s, steps, g)
    decreases |steps|
  {
    hide Apply, Enabled, Inv;
    StepKeeps(s, steps[0]);
    if i > 0 { ChosenInStates(Apply(s, steps[0]), steps[1..], g, i - 1); }
  }

  lemma TurnInRun(s: State, steps: seq<Step>, g: int)
    requires Inv(s) && Possible(s, steps) && Fixed(States(s, steps)) && GetsATurn(States(s, steps), g)
    ensures Chosen(s, steps, g)
  {
    hide Choice, Inv;
    var t := States(s, steps);
    var i, j :| 0 <= i && j == i + 1 && j < |t| && Choice(t[i], t[j]) && t[j].running == g;
    ChosenInStates(s, steps, g, i);
  }

  /** The ready threads of level p that may run on this processor, which is number 2, or on any. */
  ghost function AbleAt(ts: Threads, p: nat): set<int>
    requires Indexes(ts) && p < LEVELS
  {
    set h | h in ts.rings[p] && 0 <= h < |ts.thr| && ts.thr[h].affinity in {2, 63}
  }

  ghost predicate HighestAble(ts: Threads, p: nat)
    requires Indexes(ts)
  {
    p < LEVELS && AbleAt(ts, p) != {} && forall q :: p < q < LEVELS ==> AbleAt(ts, q) == {}
  }

  ghost predicate LowestAble(ts: Threads, p: nat)
    requires Indexes(ts)
  {
    p < LEVELS && AbleAt(ts, p) != {} && forall q :: 0 <= q < p ==> AbleAt(ts, q) == {}
  }

  /** They are the ones that take turns. */
  lemma QueueIsAble(ts: Threads, p: nat)
    requires Indexes(ts) && p < LEVELS && Distinct(ts.rings[p])
    ensures forall h :: h in Queue(ts, p) <==> h in AbleAt(ts, p)
    ensures |Queue(ts, p)| == |AbleAt(ts, p)| && (Queue(ts, p) == [] <==> AbleAt(ts, p) == {})
  {
    assert forall j :: 0 <= j < |ts.rings[p]| ==> 0 <= ts.rings[p][j] < |ts.thr|;
    forall h ensures h in Queue(ts, p) <==> h in AbleAt(ts, p) { EligiblesMembers(ts.thr, ts.rings[p], h); }
    EligiblesDistinct(ts.thr, ts.rings[p]);
    SetSize(Queue(ts, p));
    assert (set h | h in Queue(ts, p)) == AbleAt(ts, p);
  }

  lemma HighestIsAble(s: State, p: nat)
    requires Inv(s)
    ensures Indexes(s.core.ts) && (HighestAble(s.core.ts, p) <==> Highest(s.core.ts, p))
    ensures LowestAble(s.core.ts, p) <==> Lowest(s.core.ts, p)
    ensures p < LEVELS ==>
      && (forall h :: h in Queue(s.core.ts, p) <==> h in AbleAt(s.core.ts, p))
      && |Queue(s.core.ts, p)| == |AbleAt(s.core.ts, p)|
  {
    InvSound(s);
    forall q | 0 <= q < LEVELS
      ensures forall h :: h in Queue(s.core.ts, q) <==> h in AbleAt(s.core.ts, q)
      ensures |Queue(s.core.ts, q)| == |AbleAt(s.core.ts, q)|
      ensures Queue(s.core.ts, q) == [] <==> AbleAt(s.core.ts, q) == {}
    {
      RingDistinct(s, q);
      QueueIsAble(s.core.ts, q);
    }
  }

  lemma RingDistinct(s: State, p: nat)
    requires Inv(s) && p < LEVELS
    ensures |s.core.ts.rings| == LEVELS && Distinct(s.core.ts.rings[p])
  {
    assert RingMembers(s.core.ts.loc, s.core.ts.rings[p], p);
  }

  /** In every run that leaves the ready set alone, each of the m threads of the highest level that
      may run here is chosen before 2m choices are over. */
  lemma HighestWaitsBounded(s: State, steps: seq<Step>, p: nat, g: int)
    requires Inv(s) && Possible(s, steps) && ReadySetFixed(s, steps) && Indexes(s.core.ts)
    requires HighestAble(s.core.ts, p) && g in AbleAt(s.core.ts, p)
    requires Run(s, steps).invert >= s.invert + 2 * |AbleAt(s.core.ts, p)|
    ensures Chosen(s, steps, g)
  {
    HighestIsAble(s, p);
    StatesFixed(s, steps);
    StatesEnd(s, steps);
    HighestTurnComes(States(s, steps), p, g);
    TurnInRun(s, steps, g);
  }

  /** And each of the m threads of the lowest level before 32m choices are over. */
  lemma LowestWaitsBounded(s: State, steps: seq<Step>, p: nat, g: int)
    requires Inv(s) && Possible(s, steps) && ReadySetFixed(s, steps) && Indexes(s.core.ts)
    requires LowestAble(s.core.ts, p) && g in AbleAt(s.core.ts, p)
    requires Run(s, steps).invert >= s.invert + 32 * |AbleAt(s.core.ts, p)|
    ensures Chosen(s, steps, g)
  {
    HighestIsAble(s, p);
    StatesFixed(s, steps);
    StatesEnd(s, steps);
    LowestTurnComes(States(s, steps), p, g);
    TurnInRun(s, steps, g);
  }
}
