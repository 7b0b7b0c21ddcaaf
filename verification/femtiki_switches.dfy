/** Which steps of the kernel switch threads, and to which thread. */
module KernelSwitches {
  import opened KernelTypes
  import opened Seqs
  import opened ThreadLists
  import opened MailModel
  import opened KernelState
  import opened KernelInvariant
  import opened TickLoop
  import opened TickLag
  import opened KernelRuns
  import opened KernelTheorems
  import opened KernelTiming
  import opened KernelFairness
  import opened KernelTurns

  // ----- the tick

  /** Each ring is as it was, with further threads behind. */
  ghost predicate Appended(s: State, s': State) {
    && |s.core.ts.rings| == |s'.core.ts.rings| == LEVELS
    && forall p :: 0 <= p < LEVELS ==> s.core.ts.rings[p] <= s'.core.ts.rings[p]
  }

  ghost predicate SamePriorities(s: State, s': State) {
    && |s.core.ts.thr| == |s'.core.ts.thr|
    && forall g :: 0 <= g < |s.core.ts.thr| ==> s'.core.ts.thr[g].priority == s.core.ts.thr[g].priority
  }

  lemma ExpireOneAppends(s: State)
    requires Inv(s) && HeadExpired(s)
    ensures Sound(s) && IsTcb(s.core.ts.sleepers[0].h)
    ensures var s' := ExpireOne(s); Appended(s, s') && SamePriorities(s, s') && SameAffinities(s, s')
  {
    hide CoreOk, Deliver;
    HeadFacts(s);
    ExpireOneKeeps(s);
    var m := s.core.ts.thr[s.core.ts.sleepers[0].h].waitMbx;
    if m != 0 {
      HeadWaits(s);
      if s.core.pool > 0 {
        DeliverKeeps(s.core, s.phase, m, TIMER_MSG);
        DeliverZero(s.core, m, TIMER_MSG);
      }
    } else {
      WakeSleeperKeeps(s.core, s.phase);
    }
  }

  /** Nothing is written to slot 0, which stands for no thread. */
  lemma DeliverZero(c: Core, m: int, p: Payload)
    requires Shaped(c) && IsMbx(m) && c.boxes[m].waiters != []
    ensures |Deliver(c, m, p).ts.thr| == |c.ts.thr| == NR_TCB + 1 && Deliver(c, m, p).ts.thr[0] == c.ts.thr[0]
  {
    assert c.boxes[m].waiters[0] in c.boxes[m].waiters;
  }

  /** The expiry loop puts the threads whose time is up behind those that are ready already. */
  lemma {:induction false} ExpireAppends(s: State)
    requires Inv(s) && CanExpire(s)
    ensures var s' := Expire(s); Appended(s, s') && SamePriorities(s, s') && SameAffinities(s, s')
    decreases |s.core.ts.sleepers|, WaitersAhead(s)
  {
    hide CoreOk;
    CoreFacts(s.core, s.phase, s.running);
    if HeadExpired(s) {
      ExpireOneProgress(s);
      CanExpireNext(s);
      ExpireOneAppends(s);
      ExpireAppends(ExpireOne(s));
    }
  }

  /** The state after the expiry loop and the charge of a tick that counts. */
  ghost function Charged(s: State): State
    requires Inv(s) && Sound(s) && CanExpire(s) && Counts(s)
  {
    FlagRunning(s);
    ChargeHead(Expire(Preempted(s)))
  }

  /** A thread of priority 31 only has the tick counted as missed. Any other tick ends the running
      thread's time slice if and only if its priority is below 28 and it has run for more than three
      ticks: then the next thread is chosen from the rings after expiry; else the thread runs on. */
  lemma TickSwitches(s: State, elapsed: nat)
    requires Inv(s) && Sound(s) && CanExpire(s)
    ensures var t := s.core.ts.thr[s.running]; var s' := Apply(s, Tick(elapsed));
      && Inv(s')
      && (t.priority == 31 ==>
            s'.core == s.core && s'.running == s.running && s'.invert == s.invert && s'.missed == s.missed + 1)
      && (t.priority != 31 ==>
            && Counts(s)
            && var e := Charged(s);
            && Inv(e) && Indexes(e.core.ts) && Appended(s, e) && SamePriorities(s, e) && SameAffinities(s, e)
            && e.running == s.running && e.invert == s.invert
            && (Choice(e, s') <==> t.priority < 28 && elapsed > 3)
            && (s'.invert == s.invert + 1 <==> t.priority < 28 && elapsed > 3)
            && (!(t.priority < 28 && elapsed > 3) ==>
                  s'.running == s.running && s'.invert == s.invert && s'.core.ts.rings == e.core.ts.rings))
  {
    hide CoreOk, Choice, Pick, Appended, SamePriorities, SameAffinities;
    TickKeeps(s, elapsed);
    if s.core.ts.thr[s.running].priority != 31 {
      ChargedFacts(s);
      SliceEnds(s, elapsed);
      ChoiceCounts(Charged(s), Apply(s, Tick(elapsed)));
    }
  }

  lemma ChargedFacts(s: State)
    requires Inv(s) && Sound(s) && CanExpire(s) && Counts(s)
    ensures var e := Charged(s);
      && Inv(e) && Sound(e) && Indexes(e.core.ts)
      && Appended(s, e) && SamePriorities(s, e) && SameAffinities(s, e)
      && e.running == s.running && e.invert == s.invert
  {
    hide CoreOk;
    TickParts(s, 0);
    ExpireAppends(Preempted(s));
    ChargeKeeps(Expire(Preempted(s)));
    InvSound(Charged(s));
  }

  /** The last part of the tick. */
  lemma SliceEnds(s: State, elapsed: nat)
    requires Inv(s) && Sound(s) && CanExpire(s) && Counts(s)
    ensures var e := Charged(s); var s' := TickStep(s, elapsed);
      && Indexes(e.core.ts) && |e.core.ts.thr| == NR_TCB + 1 && e.running == s.running
      && if s.core.ts.thr[s.running].priority < 28 && elapsed > 3 then Choice(e, s')
         else s'.running == s.running && s'.invert == s.invert && s'.core.ts.rings == e.core.ts.rings
  {
    hide CoreOk, Choice, Pick, Expire;
    ChargedFacts(s);
    var e := Charged(s);
    FlagRunning(s);
    SwitchIsChoice(e, e);
  }

  lemma ChoiceCounts(s: State, s': State)
    requires Indexes(s.core.ts)
    ensures Choice(s, s') ==> s'.invert == s.invert + 1
  {
    hide Pick;
  }

  // ----- sending

  /** Whether a message for mailbox m wakes a thread: somebody waits there, and a block is free. */
  ghost predicate Wakes(s: State, m: int)
    requires Inv(s)
  {
    InvSound(s);
    1 <= m <= NR_MBX && 0 < s.core.boxes[m].owner <= 32 && s.core.pool > 0 && s.core.boxes[m].waiters != []
  }

  /** Sending is posting, and then, if and only if a receiver is woken, a choice of the next thread.
      Posting never switches. */
  lemma SendSwitches(s: State, m: int, p: Payload)
    requires Inv(s) && Enabled(s, Send(m, p))
    ensures var posted := Apply(s, PostMsg(m, p)); var sent := Apply(s, Send(m, p));
      && Inv(posted) && Indexes(posted.core.ts)
      && posted.running == s.running && posted.invert == s.invert
      && (if Wakes(s, m) then Choice(posted, sent) else sent == posted)
      && (sent.invert == s.invert + 1 <==> Wakes(s, m))
      && sent.core.boxes == posted.core.boxes && sent.phase == posted.phase
      && sent.core.ts.sleepers == posted.core.ts.sleepers && sent.core.pool == posted.core.pool
  {
    hide CoreOk, Choice, Pick, Post, PostPhase, Resched;
    InvSound(s);
    PostKeeps(s, m, p);
    var s1 := PostStep(s, m, p);
    InvSound(s1);
    if Wakes(s, m) {
      ReschedIsChoice(s1);
      ReschedFrame(s1);
      ChoiceCounts(s1, Resched(s1));
    }
  }

  lemma ReschedFrame(s: State)
    requires Inv(s) && Sound(s)
    ensures var s' := Resched(s);
      && s'.core.boxes == s.core.boxes && s'.phase == s.phase && s'.core.ts.sleepers == s.core.ts.sleepers
      && s'.core.pool == s.core.pool
  {
    hide CoreOk;
    CoreFacts(s.core, s.phase, s.running);
    ReschedKeeps(s);
  }

  /** A message for a waiter puts it behind the ready threads of its level and leaves the other rings
      and all other records alone. */
  lemma WokenIsReady(s: State, m: int, p: Payload)
    requires Inv(s) && Enabled(s, PostMsg(m, p)) && Wakes(s, m)
    ensures var h := s.core.boxes[m].waiters[0]; var s' := Apply(s, PostMsg(m, p));
      && IsTcb(h) && |s.core.ts.thr| == |s'.core.ts.thr| == NR_TCB + 1
      && var q := s.core.ts.thr[h].priority;
      && q < LEVELS == |s.core.ts.rings| && s'.core.ts.rings == s.core.ts.rings[q := s.core.ts.rings[q] + [h]]
      && s'.core.ts.thr[h].affinity == s.core.ts.thr[h].affinity && s'.core.ts.thr[h].priority == q
      && s'.core.ts.thr[h].msg == p
      && forall g :: 0 <= g <= NR_TCB && g != h ==> s'.core.ts.thr[g] == s.core.ts.thr[g]
  {
    hide CoreOk, Deliver;
    InvSound(s);
    DeliverKeeps(s.core, s.phase, m, p);
    DeliverZero(s.core, m, p);
    var h := s.core.boxes[m].waiters[0];
    CoreFacts(Deliver(s.core, m, p), s.phase[h := Woken(p)], h);
  }

  // ----- who is chosen

  /** g is the first thread of level p that may run here. */
  ghost predicate FirstAble(ts: Threads, p: nat, g: int)
    requires Indexes(ts) && p < LEVELS
  {
    exists i :: 0 <= i < |ts.rings[p]| && ts.rings[p][i] == g && g in AbleAt(ts, p)
      && forall j :: 0 <= j < i ==> ts.rings[p][j] !in AbleAt(ts, p)
  }

  /** A choice falls on the first thread of the highest level at which somebody may run here, and
      every 32nd time on the first one of the lowest. */
  lemma ChoiceFallsOn(s: State, s': State, hi: nat, lo: nat)
    requires Inv(s) && Indexes(s.core.ts) && Choice(s, s')
    requires HighestAble(s.core.ts, hi) && LowestAble(s.core.ts, lo)
    ensures FirstAble(s.core.ts, if (s.invert + 1) % 32 == 0 then lo else hi, s'.running)
  {
    HighestIsAble(s, hi);
    HighestIsAble(s, lo);
    CoreProper(s.core, s.phase);
    PickTurns(s.core.ts, s.invert + 1, hi, lo);
    FirstOfQueue(s.core.ts, LevelOf(s.invert + 1, hi, lo));
  }

  lemma FirstOfQueue(ts: Threads, p: nat)
    requires Indexes(ts) && p < LEVELS && AbleAt(ts, p) != {}
    ensures FirstAble(ts, p, PickAt(ts, p).1)
  {
    var r := ts.rings[p];
    assert forall j :: 0 <= j < |r| ==> 0 <= ts.rings[p][j] < |ts.thr|;
    var i := FirstEligible(ts.thr, r);
    var h :| h in AbleAt(ts, p);
    var j :| 0 <= j < |r| && r[j] == h;
    assert i <= j;
    assert r[i] == PickAt(ts, p).1 && r[i] in AbleAt(ts, p);
  }

  lemma LevelsExist(s: State, hi: nat) returns (lo: nat)
    requires Inv(s) && Indexes(s.core.ts) && HighestAble(s.core.ts, hi)
    ensures LowestAble(s.core.ts, lo)
  {
    HighestIsAble(s, hi);
    lo := LowestExists(s.core.ts, hi);
    HighestIsAble(s, lo);
  }

  /** A receiver of a higher level than every ready thread that may run here runs as soon as the
      message is sent, unless the choice is one of those that start from the lowest level. */
  lemma ReceiverRunsNext(s: State, m: int, p: Payload)
    requires Inv(s) && Enabled(s, Send(m, p)) && Wakes(s, m) && Indexes(s.core.ts)
    requires |s.core.ts.thr| == NR_TCB + 1 && IsTcb(s.core.boxes[m].waiters[0])
    requires var t := s.core.ts.thr[s.core.boxes[m].waiters[0]];
      && t.affinity in {2, 63}
      && forall q :: t.priority <= q < LEVELS ==> AbleAt(s.core.ts, q) == {}
    requires (s.invert + 1) % 32 != 0
    ensures Apply(s, Send(m, p)).running == s.core.boxes[m].waiters[0]
  {
    hide CoreOk, Choice, Apply, Enabled;
    PostEnabled(s, m, p);
    InvSound(s);
    var posted := Apply(s, PostMsg(m, p));
    var h := s.core.boxes[m].waiters[0];
    var t := s.core.ts.thr[h];
    SendSwitches(s, m, p);
    WokenIsReady(s, m, p);
    var ring, ring' := s.core.ts.rings[t.priority], posted.core.ts.rings[t.priority];
    assert ring' == ring + [h] && ring'[|ring|] == h;
    forall g ensures g in AbleAt(posted.core.ts, t.priority) <==> g == h {
      if g in ring && 0 <= g <= NR_TCB && g != h { assert g !in AbleAt(s.core.ts, t.priority); }
    }
    forall q | t.priority < q < LEVELS ensures AbleAt(posted.core.ts, q) == {} {
      forall g ensures g !in AbleAt(posted.core.ts, q) { assert g !in AbleAt(s.core.ts, q); }
    }
    assert h in AbleAt(posted.core.ts, t.priority);
    assert HighestAble(posted.core.ts, t.priority);
    var lo := LevelsExist(posted, t.priority);
    ChoiceFallsOn(posted, Apply(s, Send(m, p)), t.priority, lo);
  }

  lemma PostEnabled(s: State, m: int, p: Payload)
    requires Inv(s) && Enabled(s, Send(m, p))
    ensures Enabled(s, PostMsg(m, p))
  {
  }

  // ----- giving way

  /** s with thread h off every ring. */
  ghost function Unready(s: State, h: int): State
    requires |s.core.ts.rings| == LEVELS
  {
    var rings := seq(LEVELS, p requires 0 <= p < LEVELS => Without(s.core.ts.rings[p], h));
    s.(core := s.core.(ts := s.core.ts.(rings := rings)))
  }

  lemma UnreadyIndexes(s: State, h: int)
    requires Inv(s)
    ensures |s.core.ts.rings| == LEVELS && Indexes(Unready(s, h).core.ts)
  {
    InvSound(s);
    var u := Unready(s, h);
    forall p, j | 0 <= p < LEVELS && 0 <= j < |u.core.ts.rings[p]|
      ensures 0 <= u.core.ts.rings[p][j] < |u.core.ts.thr|
    {
      assert RingMembers(s.core.ts.loc, s.core.ts.rings[p], p);
      DistinctWithout(s.core.ts.rings[p], h);
      assert u.core.ts.rings[p][j] in s.core.ts.rings[p];
    }
  }

  /** Taking the running thread off its ring leaves the rings without it. */
  lemma RemovedRings(s: State)
    requires Inv(s) && Sound(s) && s.phase[s.running] == Working
    ensures |s.core.ts.rings| == LEVELS
    ensures RemoveReady(s.core.ts, s.running).rings == Unready(s, s.running).core.ts.rings
  {
    var h := s.running;
    var p := s.core.ts.thr[h].priority;
    CoreFacts(s.core, s.phase, h);
    var rings := Unready(s, h).core.ts.rings;
    forall q | 0 <= q < LEVELS ensures rings[q] == RemoveReady(s.core.ts, h).rings[q] {
      if q != p { assert RingMembers(s.core.ts.loc, s.core.ts.rings[q], q); }
    }
  }

  /** A thread that goes to sleep gives way to a thread chosen among the others. */
  lemma SleepGivesWay(s: State, timeout: int)
    requires Inv(s) && Enabled(s, Sleep(timeout))
    ensures |s.core.ts.rings| == LEVELS && Indexes(Unready(s, s.running).core.ts)
    ensures Choice(Unready(s, s.running), Apply(s, Sleep(timeout)))
  {
    hide CoreOk, Choice, Pick, Unready;
    InvSound(s);
    UnreadyIndexes(s, s.running);
    RemovedRings(s);
    CoreFacts(s.core, s.phase, s.running);
    RemoveReadyKeeps(s.core, s.phase, s.running);
    var c1 := s.core.(ts := RemoveReady(s.core.ts, s.running));
    InsertTimeoutKeeps(c1, s.phase, s.running, timeout);
    GivesWay(s, s.(core := s.core.(ts := InsertTimeout(c1.ts, s.running, timeout))));
  }

  /** So does a thread that blocks at a mailbox. */
  lemma WaitGivesWay(s: State, m: int, timelimit: int)
    requires Inv(s) && Enabled(s, Wait(m, timelimit)) && Sound(s) && Blocks(s, m)
    ensures |s.core.ts.rings| == LEVELS && Indexes(Unready(s, s.running).core.ts)
    ensures Choice(Unready(s, s.running), Apply(s, Wait(m, timelimit)))
  {
    hide CoreOk, Choice, Pick, Unready;
    UnreadyIndexes(s, s.running);
    WaitersFacts(s.core, s.phase, m);
    FetchKeeps(s.core, s.phase, m);
    var s1 := s.(core := Fetch(s.core, m));
    RemovedRings(s1);
    assert Unready(s1, s.running).core.ts.rings == Unready(s, s.running).core.ts.rings by { FetchRings(s, m); }
    CoreFacts(s1.core, s1.phase, s1.running);
    RemoveReadyKeeps(s1.core, s1.phase, s1.running);
    var c1 := s1.core.(ts := RemoveReady(s1.core.ts, s1.running));
    QueueThreadKeeps(c1, s1.phase, m, s1.running);
    var c2 := QueueThread(c1, m, s1.running);
    var ph := s1.phase[s1.running := InWait];
    if timelimit > 0 {
      InsertTimeoutKeeps(c2, ph, s1.running, timelimit);
      GivesWay(s, s1.(core := c2.(ts := InsertTimeout(c2.ts, s1.running, timelimit)), phase := ph));
    } else {
      GivesWay(s, s1.(core := c2, phase := ph));
    }
  }

  lemma FetchRings(s: State, m: int)
    requires Inv(s) && Sound(s) && IsMbx(m)
    ensures |s.core.ts.rings| == LEVELS == |Fetch(s.core, m).ts.rings|
    ensures Unready(s.(core := Fetch(s.core, m)), s.running).core.ts.rings == Unready(s, s.running).core.ts.rings
  {
  }

  lemma GivesWay(s: State, s1: State)
    requires Inv(s) && CoreOk(s1.core, s1.phase) && s1.running == s.running && s1.invert == s.invert
    requires |s.core.ts.rings| == LEVELS && Indexes(Unready(s, s.running).core.ts)
    requires s1.core.ts.rings == Unready(s, s.running).core.ts.rings && SameAffinities(s, s1)
    requires s1.core.ts.loc[IDLE].OnRing? && s1.core.ts.thr[IDLE].affinity == CPU
    requires s1.core.ts.loc[s1.running] != FreeTcb
    ensures Sound(s1) && Choice(Unready(s, s.running), Resched(s1))
  {
    hide CoreOk, Choice, Pick;
    CoreOkShaped(s1.core, s1.phase);
    CoreFacts(s1.core, s1.phase, s1.running);
    FlagKeeps(s1.core, s1.phase, s1.running, false);
    SwitchPicks(Unready(s, s.running), s1.(core := s1.core.(ts := Flag(s1.core.ts, s1.running, false))));
  }

  // ----- all steps

  /** The steps that switch threads: a reschedule, sleeping, waiting for a message that is not there,
      sending one that is waited for, and a tick at the end of a time slice. */
  ghost predicate Switches(s: State, step: Step)
    requires Inv(s)
  {
    InvSound(s);
    match step
    case Reschedule => true
    case Sleep(timeout) => true
    case Wait(m, timelimit) => Blocks(s, m)
    case Send(m, msg) => Wakes(s, m)
    case Tick(elapsed) => s.core.ts.thr[s.running].priority < 28 && elapsed > 3
    case _ => false
  }

  /** Exactly these steps make a choice; in all others the running thread runs on. */
  lemma WhoSwitches(s: State, step: Step)
    requires Inv(s) && Enabled(s, step)
    ensures Apply(s, step).invert == s.invert + if Switches(s, step) then 1 else 0
    ensures !Switches(s, step) ==> Apply(s, step).running == s.running
  {
    hide CoreOk, Choice, Pick, Unready;
    InvSound(s);
    match step
    case Reschedule =>
      ReschedIsChoice(s);
      ChoiceCounts(s, Resched(s));
    case Sleep(timeout) =>
      SleepGivesWay(s, timeout);
      GaveWay(s, Apply(s, step));
    case Wait(m, timelimit) => WaitSwitches(s, m, timelimit);
    case Send(m, msg) =>
      PostEnabled(s, m, msg);
      SendSwitches(s, m, msg);
    case Tick(elapsed) => TickSwitches(s, elapsed);
    case _ =>
  }

  lemma WaitSwitches(s: State, m: int, timelimit: int)
    requires Inv(s) && Sound(s) && Enabled(s, Wait(m, timelimit))
    ensures var s' := Apply(s, Wait(m, timelimit));
      s'.invert == s.invert + (if Blocks(s, m) then 1 else 0) && (!Blocks(s, m) ==> s'.running == s.running)
  {
    hide CoreOk, Choice, Pick, Unready, Resched;
    if IsMbx(m) { WaitersFacts(s.core, s.phase, m); }
    if Blocks(s, m) {
      WaitGivesWay(s, m, timelimit);
      GaveWay(s, Apply(s, Wait(m, timelimit)));
    }
  }

  lemma GaveWay(s: State, s': State)
    requires |s.core.ts.rings| == LEVELS && Indexes(Unready(s, s.running).core.ts)
    requires Choice(Unready(s, s.running), s')
    ensures s'.invert == s.invert + 1
  {
    ChoiceCounts(Unready(s, s.running), s');
  }

  // ----- time slices

  /** How many ticks of the run find that the running thread has run for more than three ticks. */
  function Slices(steps: seq<Step>): nat {
    if steps == [] then 0
    else (if steps[0].Tick? && steps[0].elapsed > 3 then 1 else 0) + Slices(steps[1..])
  }

  /** The running thread's priority is below 28, and stays so while the ready set does. */
  lemma StaysLow(s: State, step: Step, p: nat)
    requires Inv(s) && Enabled(s, step) && KeepsReady(s, step) && Indexes(s.core.ts)
    requires HighestAble(s.core.ts, p) && p < 28
    requires |s.core.ts.thr| == NR_TCB + 1 && s.core.ts.thr[s.running].priority < 28
    ensures var s' := Apply(s, step);
      && Inv(s') && Indexes(s'.core.ts) && HighestAble(s'.core.ts, p)
      && |s'.core.ts.thr| == NR_TCB + 1 && s'.core.ts.thr[s'.running].priority < 28
  {
    hide CoreOk, Choice, Calm, Apply, Enabled, KeepsReady;
    var s' := Apply(s, step);
    StepIsChoiceOrCalm(s, step);
    InvSound(s');
    HighestIsAble(s, p);
    HighestIsAble(s', p);
    CoreProper(s.core, s.phase);
    CoreProper(s'.core, s'.phase);
    var lo := LowestExists(s.core.ts, p);
    if Choice(s, s') {
      TurnOrNearer(s, s', p, lo, p, 0);
      ChosenLow(s, s', p, lo);
    } else {
      CalmQueues(s, s');
      assert Highest(s'.core.ts, p) by { forall q | p < q < LEVELS ensures Queue(s'.core.ts, q) == [] { } }
      CalmRunning(s, step);
    }
  }

  lemma ChosenLow(s: State, s': State, p: nat, lo: nat)
    requires Inv(s) && Inv(s') && Indexes(s.core.ts) && Choice(s, s')
    requires Highest(s.core.ts, p) && Lowest(s.core.ts, lo) && p < 28
    ensures |s'.core.ts.thr| == NR_TCB + 1 && IsTcb(s'.running) && s'.core.ts.thr[s'.running].priority < 28
  {
    hide CoreOk, PickAt, PickUp, PickDown, Queue;
    PickedLevel(s, p, lo);
    var level := LevelOf(s.invert + 1, p, lo);
    assert level < 28 by { LowestBelow(s.core.ts, p, lo); }
    LocAgrees(s'.core, s'.phase, s'.running);
    CoreFacts(s'.core, s'.phase, s'.running);
  }

  lemma LowestBelow(ts: Threads, hi: nat, lo: nat)
    requires Indexes(ts) && Highest(ts, hi) && Lowest(ts, lo)
    ensures lo <= hi
  {
  }

  /** The thread chosen is on the ring of the level of the choice, before and after. */
  lemma PickedLevel(s: State, p: nat, lo: nat)
    requires Inv(s) && Indexes(s.core.ts) && Highest(s.core.ts, p) && Lowest(s.core.ts, lo)
    ensures var (ts, h) := Pick(s.core.ts, s.invert + 1); var level := LevelOf(s.invert + 1, p, lo);
      IsTcb(h) && |ts.rings| == LEVELS && level < LEVELS && h in ts.rings[level]
  {
    hide CoreOk, PickAt, Pick;
    CoreFacts(s.core, s.phase, IDLE);
    PickKeeps(s.core, s.phase, s.invert + 1);
    CoreProper(s.core, s.phase);
    PickTurns(s.core.ts, s.invert + 1, p, lo);
    PickAtKeeps(s.core, s.phase, LevelOf(s.invert + 1, p, lo));
    var (ts, h) := Pick(s.core.ts, s.invert + 1);
    LocAgrees(s.core.(ts := ts), s.phase, h);
  }

  lemma CalmRunning(s: State, step: Step)
    requires Inv(s) && Enabled(s, step) && KeepsReady(s, step) && Calm(s, Apply(s, step))
    ensures |s.core.ts.thr| == |Apply(s, step).core.ts.thr| == NR_TCB + 1
    ensures Apply(s, step).running == s.running && IsTcb(s.running)
    ensures Apply(s, step).core.ts.thr[s.running].priority == s.core.ts.thr[s.running].priority
  {
    hide CoreOk, Choice, Pick, Resched;
    InvSound(s);
    WhoSwitches(s, step);
    CoreFacts(s.core, s.phase, s.running);
    match step
    case Tick(elapsed) => TickSwitches(s, elapsed); LastSlice(s, elapsed);
    case Wait(m, timelimit) => if IsMbx(m) { WaitersFacts(s.core, s.phase, m); }
    case Empty(m) => if IsMbx(m) { EmptiedSleepers(s.core, m); }
    case _ =>
  }

  /** The records after a tick without a switch. */
  lemma LastSlice(s: State, elapsed: nat)
    requires Inv(s) && Sound(s) && CanExpire(s) && Apply(s, Tick(elapsed)).invert == s.invert
    ensures |Apply(s, Tick(elapsed)).core.ts.thr| == NR_TCB + 1
    ensures Apply(s, Tick(elapsed)).core.ts.thr[s.running].priority == s.core.ts.thr[s.running].priority
  {
    hide CoreOk, Pick;
    TickSwitches(s, elapsed);
    if Counts(s) {
      TickParts(s, elapsed);
      ExpireAppends(Preempted(s));
    }
  }

  lemma {:induction false} SlicesCount(s: State, steps: seq<Step>, p: nat)
    requires Inv(s) && Possible(s, steps) && ReadySetFixed(s, steps) && Indexes(s.core.ts)
    requires HighestAble(s.core.ts, p) && p < 28
    requires |s.core.ts.thr| == NR_TCB + 1 && s.core.ts.thr[s.running].priority < 28
    ensures Run(s, steps).invert >= s.invert + Slices(steps)
    decreases |steps|
  {
    hide Apply, Enabled, KeepsReady, HighestAble, Inv;
    if steps != [] {
      InvSound(s);
      SliceSwitches(s, steps[0]);
      StaysLow(s, steps[0], p);
      SlicesCount(Apply(s, steps[0]), steps[1..], p);
    }
  }

  lemma SliceSwitches(s: State, step: Step)
    requires Inv(s) && Enabled(s, step) && |s.core.ts.thr| == NR_TCB + 1 && IsTcb(s.running)
    requires s.core.ts.thr[s.running].priority < 28
    ensures Apply(s, step).invert >= s.invert + if step.Tick? && step.elapsed > 3 then 1 else 0
  {
    hide Apply, Enabled, Inv;
    WhoSwitches(s, step);
  }

  /** Time slices: while the ready set stays as it is, 2m ticks, each of which finds that the running
      thread has had its three ticks, give each of the m threads of the highest level its turn, if
      that level is below 28. */
  lemma TicksGiveTurns(s: State, steps: seq<Step>, p: nat, g: int)
    requires Inv(s) && Possible(s, steps) && ReadySetFixed(s, steps) && Indexes(s.core.ts)
    requires HighestAble(s.core.ts, p) && p < 28 && g in AbleAt(s.core.ts, p)
    requires |s.core.ts.thr| == NR_TCB + 1 && s.core.ts.thr[s.running].priority < 28
    requires Slices(steps) >= 2 * |AbleAt(s.core.ts, p)|
    ensures Chosen(s, steps, g)
  {
    SlicesCount(s, steps, p);
    HighestWaitsBounded(s, steps, p, g);
  }
}
