/** Runs of the kernel: any sequence of calls and interrupts from start-up on. */
module KernelRuns {
  import opened KernelTypes
  import opened Seqs
  import opened ThreadLists
  import opened Boxes
  import opened MailModel
  import opened StoreWords
  import opened KernelState
  import opened KernelInvariant
  import opened TickLoop
  import T = Timeouts

  datatype Step =
    | StartThread(priority: int, affinity: int)
    | Sleep(timeout: int)
    | SetPriority(ht: int, priority: int)
    | AllocMbx(app: int)
    | SetStrategy(mbx: int, strategy: int, size: nat, app: int)
    | Send(mbx: int, msg: Payload)
    | PostMsg(mbx: int, msg: Payload)
    | Wait(mbx: int, timelimit: int)
    | Resume
    | Check(mbx: int)
    | Empty(mbx: int)
    | Reschedule
    | Tick(elapsed: nat)

  // ----- the calls

  /** Taking the next unused thread block. */
  ghost function TakeTcb(ts: Threads, priority: int, affinity: int): Threads
    requires Sized(ts) && IsTcb(ts.firstFree)
  {
    var h := ts.firstFree;
    ts.(thr := ts.thr[h := ts.thr[h].(status := TS_NONE, priority := priority % 256, affinity := affinity)],
        loc := ts.loc[h := OffList], firstFree := h + 1)
  }

  ghost function StartThreadCore(c: Core, priority: int, affinity: int): Core
    requires Shaped(c)
  {
    var h := c.ts.firstFree;
    if !IsTcb(h) then c else c.(ts := InsertReady(TakeTcb(c.ts, priority, affinity), h))
  }

  ghost function SetPriorityCore(c: Core, h: int, priority: int): Core
    requires Shaped(c) && IsTcb(h)
  {
    if priority > 31 || priority < 0 then c
    else
      var t := c.ts.thr[h];
      if t.status.running || t.status.ready then
        var ts1 := RemoveReady(c.ts, h);
        c.(ts := InsertReady(SetThread(ts1, h, ts1.thr[h].(priority := priority)), h))
      else
        c.(ts := SetThread(c.ts, h, t.(priority := priority)))
  }

  ghost function SleepStep(s: State, timeout: int): State
    requires Sound(s)
  {
    Resched(s.(core := s.core.(ts := InsertTimeout(RemoveReady(s.core.ts, s.running), s.running, timeout))))
  }

  ghost predicate HasMessage(b: Box) {
    b.count > 0 && b.queue != []
  }

  /** Waiting for a message: taking one, or blocking. */
  ghost function WaitStep(s: State, m: int, timelimit: int): State
    requires Sound(s) && m >= 0
  {
    var c := s.core;
    if !IsMbx(m) || c.boxes[m].owner == 0 || c.boxes[m].owner > NR_ACB then s
    else if HasMessage(c.boxes[m]) then s.(core := Fetch(c, m))
    else
      var c1 := Fetch(c, m);
      var c2 := QueueThread(c1.(ts := RemoveReady(c1.ts, s.running)), m, s.running);
      var c3 := if timelimit > 0 then c2.(ts := InsertTimeout(c2.ts, s.running, timelimit)) else c2;
      Resched(s.(core := c3, phase := s.phase[s.running := InWait]))
  }

  /** A thread that was waiting runs again and picks its message up. */
  ghost function ResumeStep(s: State): State
    requires Sound(s)
  {
    s.(core := s.core.(ts := SetThread(s.core.ts, s.running, s.core.ts.thr[s.running].(msgType := MT_NONE))),
       phase := s.phase[s.running := Working])
  }

  ghost function SendStep(s: State, m: int, p: Payload): State
    requires Inv(s) && Sound(s) && Receptive(s.core, m)
  {
    var s1 := PostStep(s, m, p);
    PostKeeps(s, m, p);
    InvSound(s1);
    if IsMbx(m) && Allocated(s.core.boxes[m]) && s.core.pool > 0 && s.core.boxes[m].waiters != [] then Resched(s1)
    else s1
  }

  /** The timer tick. A thread of the top priority only has the tick counted as missed. */
  ghost function TickStep(s: State, elapsed: nat): State
    requires Inv(s) && CanExpire(s)
  {
    if s.core.ts.thr[s.running].priority == 31 then s.(missed := s.missed + 1)
    else
      var s0 := s.(core := s.core.(ts := Flag(s.core.ts, s.running, false)));
      FlagRunning(s);
      ExpireKeeps(s0);
      var s1 := ChargeHead(Expire(s0));
      ChargeKeeps(Expire(s0));
      InvSound(s1);
      if s1.core.ts.thr[s1.running].priority < 28 && elapsed > 3 then SwitchTo(s1)
      else s1.(core := s1.core.(ts := Flag(s1.core.ts, s1.running, true)))
  }

  lemma PostKeeps(s: State, m: int, p: Payload)
    requires Inv(s) && Sound(s) && Receptive(s.core, m)
    ensures Inv(PostStep(s, m, p))
  {
    hide CoreOk;
    CoreFacts(s.core, s.phase, s.running);
    if IsMbx(m) && Allocated(s.core.boxes[m]) && s.core.pool > 0 {
      if s.core.boxes[m].waiters != [] {
        DeliverTurn(s, m, p);
      } else {
        DepositKeeps(s.core, s.phase, m, p);
      }
    }
  }

  lemma FlagRunning(s: State)
    requires Inv(s)
    ensures var s0 := s.(core := s.core.(ts := Flag(s.core.ts, s.running, false)));
      && Inv(s0) && (CanExpire(s) ==> CanExpire(s0)) && Turn(s, s0)
  {
    hide CoreOk;
    InvSound(s);
    CoreFacts(s.core, s.phase, s.running);
    FlagKeeps(s.core, s.phase, s.running, false);
    var s0 := s.(core := s.core.(ts := Flag(s.core.ts, s.running, false)));
    if CanExpire(s) && s.core.pool == 0 {
      forall i ensures !ExpiredWaiterAt(s0, i) { assert !ExpiredWaiterAt(s, i); }
    }
  }

  lemma ChargeKeeps(s: State)
    requires Inv(s) && !HeadExpired(s)
    ensures Inv(ChargeHead(s))
  {
    var l := s.core.ts.sleepers;
    if l != [] {
      var s' := ChargeHead(s);
      T.ChargeDeadlines(l, s.missed + 1);
      forall p | 0 <= p < LEVELS ensures RingMembers(s'.core.ts.loc, s'.core.ts.rings[p], p) {
        assert RingMembers(s.core.ts.loc, s.core.ts.rings[p], p);
      }
      UpdateThread(s.core, s.phase, IDLE, s'.core.ts, s.phase[IDLE]);
      assert s.phase[IDLE := s.phase[IDLE]] == s.phase;
      assert s.core.(ts := s'.core.ts) == s'.core;
    }
  }

  /** When a step may happen: the source's own demands on its callers, and the assumptions the
      model makes (README.md, "Left out"). */
  ghost predicate Enabled(s: State, step: Step)
    requires Inv(s)
  {
    var free := s.phase[s.running] == Working;
    match step
    case StartThread(priority, affinity) => free
    case Sleep(timeout) => free && s.running != IDLE
    case SetPriority(ht, priority) => free && IsTcb(ht)
    case AllocMbx(app) => free && 0 <= app <= NR_ACB
    case SetStrategy(m, strategy, size, app) =>
      InvSound(s);
      free && (StrategyResult(s.core, m, strategy, app) == E_Ok && strategy > 0 ==> s.core.boxes[m].count <= size)
    case Send(m, msg) => free && Receptive(s.core, m)
    case PostMsg(m, msg) => Receptive(s.core, m)
    case Wait(m, timelimit) => free && s.running != IDLE && m >= 0
    case Resume => s.phase[s.running].Woken?
    case Check(m) => free && m >= 0
    case Empty(m) => free
    case Reschedule => true
    case Tick(elapsed) => CanExpire(s)
  }

  ghost function Apply(s: State, step: Step): State
    requires Inv(s) && Enabled(s, step)
  {
    InvSound(s);
    match step
    case StartThread(priority, affinity) => s.(core := StartThreadCore(s.core, priority, affinity))
    case Sleep(timeout) => SleepStep(s, timeout)
    case SetPriority(ht, priority) => s.(core := SetPriorityCore(s.core, ht, priority))
    case AllocMbx(app) =>
      if IsMbx(s.core.firstMbx) && s.core.firstMbx <= LAST_MBX then s.(core := AllocatedMbx(s.core, app)) else s
    case SetStrategy(m, strategy, size, app) => s.(core := WithStrategy(s.core, m, strategy, size, app))
    case Send(m, msg) => SendStep(s, m, msg)
    case PostMsg(m, msg) => PostStep(s, m, msg)
    case Wait(m, timelimit) => WaitStep(s, m, timelimit)
    case Resume => ResumeStep(s)
    case Check(m) => s.(core := MailModel.Check(s.core, m))
    case Empty(m) => if IsMbx(m) then s.(core := Emptied(s.core, m)) else s
    case Reschedule => Resched(s)
    case Tick(elapsed) => TickStep(s, elapsed)
  }

  // ----- every step keeps the invariant

  lemma StartThreadKeeps(s: State, priority: int, affinity: int)
    requires Inv(s) && Sound(s)
    ensures Inv(s.(core := StartThreadCore(s.core, priority, affinity)))
  {
    var c := s.core;
    var h := c.ts.firstFree;
    if IsTcb(h) {
      var ts1 := TakeTcb(c.ts, priority, affinity);
      TakeTcbKeeps(c, s.phase, priority, affinity);
      InsertReadyKeeps(c.(ts := ts1), s.phase, h);
      assert s.running != h;
    }
  }

  lemma TakeTcbKeeps(c: Core, phase: seq<Phase>, priority: int, affinity: int)
    requires CoreOk(c, phase) && IsTcb(c.ts.firstFree)
    ensures var ts1 := TakeTcb(c.ts, priority, affinity); var h := c.ts.firstFree;
      && CoreOk(c.(ts := ts1), phase) && ts1.loc[h] == OffList && ts1.thr[h].waitMbx == 0 && phase[h] == Working
  {
    var h := c.ts.firstFree;
    var ts1 := TakeTcb(c.ts, priority, affinity);
    assert ThreadOk(c.ts.thr[h], c.ts.loc[h], phase[h], h);
    forall p | 0 <= p < LEVELS ensures RingMembers(ts1.loc, ts1.rings[p], p) {
      SetLocFrame(c.ts.loc, h, OffList, c.ts.rings[p], p);
    }
    SetLocSleepers(c.ts.loc, h, OffList, c.ts.sleepers);
    UpdateThread(c, phase, h, ts1, phase[h]);
    assert phase[h := phase[h]] == phase;
  }

  /** A ready thread moves to the tail of its new level; any other thread stays where it is. */
  lemma SetPriorityKeeps(c: Core, phase: seq<Phase>, h: int, priority: int)
    requires CoreOk(c, phase) && Shaped(c) && IsTcb(h)
    ensures var c' := SetPriorityCore(c, h, priority);
      && CoreOk(c', phase)
      && (forall g :: IsTcb(g) && g != h ==> c'.ts.thr[g] == c.ts.thr[g] && c'.ts.loc[g] == c.ts.loc[g])
      && c'.ts.thr[h].affinity == c.ts.thr[h].affinity && (c.ts.thr[h].status.ready ==> c'.ts.thr[h].status.ready)
      && (c.ts.loc[h].OnRing? ==> c'.ts.loc[h].OnRing?)
  {
    CoreFacts(c, phase, h);
    if 0 <= priority <= 31 {
      var t := c.ts.thr[h];
      if t.status.ready {
        RemoveReadyWellFormed(c.ts, h);
        var ts1 := RemoveReady(c.ts, h);
        var ts2 := SetThread(ts1, h, ts1.thr[h].(priority := priority));
        FlagsWellFormed(ts1, h, ts1.thr[h].(priority := priority));
        InsertReadyWellFormed(ts2, h);
        UpdateThread(c, phase, h, InsertReady(ts2, h), phase[h]);
      } else {
        FlagsWellFormed(c.ts, h, t.(priority := priority));
        UpdateThread(c, phase, h, SetThread(c.ts, h, t.(priority := priority)), phase[h]);
      }
      assert phase[h := phase[h]] == phase;
    }
  }

  lemma SleepKeeps(s: State, timeout: int)
    requires Inv(s) && Sound(s) && s.running != IDLE && s.phase[s.running] == Working
    ensures Inv(SleepStep(s, timeout))
  {
    hide CoreOk;
    CoreFacts(s.core, s.phase, s.running);
    RemoveReadyKeeps(s.core, s.phase, s.running);
    var c1 := s.core.(ts := RemoveReady(s.core.ts, s.running));
    InsertTimeoutKeeps(c1, s.phase, s.running, timeout);
    ReschedKeeps(s.(core := s.core.(ts := InsertTimeout(c1.ts, s.running, timeout))));
  }

  lemma WaitKeeps(s: State, m: int, timelimit: int)
    requires Inv(s) && Sound(s) && s.running != IDLE && s.phase[s.running] == Working && m >= 0
    ensures Inv(WaitStep(s, m, timelimit))
  {
    hide CoreOk;
    var c := s.core;
    CoreFacts(c, s.phase, s.running);
    if IsMbx(m) {
      WaitersFacts(c, s.phase, m);
      FetchKeeps(c, s.phase, m);
      if c.boxes[m].owner > 0 && !HasMessage(c.boxes[m]) {
        BlockKeeps(s.(core := Fetch(c, m)), m, timelimit);
      }
    }
  }

  lemma BlockKeeps(s: State, m: int, timelimit: int)
    requires Inv(s) && Shaped(s.core) && IsMbx(m) && Allocated(s.core.boxes[m]) && s.core.boxes[m].queue == []
    requires s.running != IDLE && s.phase[s.running] == Working
    ensures var c2 := QueueThread(s.core.(ts := RemoveReady(s.core.ts, s.running)), m, s.running);
      var c3 := if timelimit > 0 then c2.(ts := InsertTimeout(c2.ts, s.running, timelimit)) else c2;
      var s3 := s.(core := c3, phase := s.phase[s.running := InWait]);
      Sound(s3) && Inv(Resched(s3))
  {
    hide CoreOk;
    CoreFacts(s.core, s.phase, s.running);
    RemoveReadyKeeps(s.core, s.phase, s.running);
    var c1 := s.core.(ts := RemoveReady(s.core.ts, s.running));
    QueueThreadKeeps(c1, s.phase, m, s.running);
    var c2 := QueueThread(c1, m, s.running);
    var ph := s.phase[s.running := InWait];
    if timelimit > 0 {
      InsertTimeoutKeeps(c2, ph, s.running, timelimit);
      ReschedKeeps(s.(core := c2.(ts := InsertTimeout(c2.ts, s.running, timelimit)), phase := ph));
    } else {
      ReschedKeeps(s.(core := c2, phase := ph));
    }
  }

  lemma ResumeKeeps(s: State)
    requires Inv(s) && Sound(s) && s.phase[s.running].Woken?
    ensures Inv(ResumeStep(s))
  {
    var h := s.running;
    CoreFacts(s.core, s.phase, h);
    var t := s.core.ts.thr[h].(msgType := MT_NONE);
    FlagsWellFormed(s.core.ts, h, t);
    UpdateThread(s.core, s.phase, h, SetThread(s.core.ts, h, t), Working);
  }

  lemma SendKeeps(s: State, m: int, p: Payload)
    requires Inv(s) && Sound(s) && Receptive(s.core, m)
    ensures Inv(SendStep(s, m, p))
  {
    hide CoreOk;
    PostKeeps(s, m, p);
    var s1 := PostStep(s, m, p);
    CoreFacts(s1.core, s1.phase, s1.running);
    ReschedKeeps(s1);
  }

  lemma AllocMbxKeeps(c: Core, phase: seq<Phase>, app: int)
    requires CoreOk(c, phase) && Shaped(c) && c.firstMbx <= LAST_MBX && 0 <= app <= NR_ACB
    ensures CoreOk(AllocatedMbx(c, app), phase)
  {
    var m := c.firstMbx;
    var c' := AllocatedMbx(c, app);
    assert MailboxOk(c.ts.thr, c.boxes[m], m, m);
    forall k | IsMbx(k) ensures MailboxOk(c'.ts.thr, c'.boxes[k], k, c'.firstMbx) {
      assert MailboxOk(c.ts.thr, c.boxes[k], k, m);
    }
  }

  lemma {:induction false} EmptiedKeeps(c: Core, phase: seq<Phase>, m: int)
    requires CoreOk(c, phase) && Shaped(c) && IsMbx(m)
    ensures CoreOk(Emptied(c, m), phase) && Emptied(c, m).ts == c.ts && Emptied(c, m).boxes[m].queue == []
    decreases c.boxes[m].count
  {
    FetchKeeps(c, phase, m);
    WaitersFacts(c, phase, m);
    if HasMessage(c.boxes[m]) {
      CoreOkShaped(Fetch(c, m), phase);
      EmptiedKeeps(Fetch(c, m), phase, m);
    }
  }

  lemma SetStrategyKeeps(c: Core, phase: seq<Phase>, m: int, strategy: int, size: nat, app: int)
    requires CoreOk(c, phase) && Shaped(c)
    requires StrategyResult(c, m, strategy, app) == E_Ok && strategy > 0 ==> c.boxes[m].count <= size
    ensures CoreOk(WithStrategy(c, m, strategy, size, app), phase)
  {
    if StrategyResult(c, m, strategy, app) == E_Ok {
      assert MailboxOk(c.ts.thr, c.boxes[m], m, c.firstMbx);
      UpdateBox(c, phase, m, c.boxes[m].(strategy := Policy(strategy), size := size), c.pool);
    }
  }

  lemma TickKeeps(s: State, elapsed: nat)
    requires Inv(s) && CanExpire(s)
    ensures Inv(TickStep(s, elapsed))
  {
    hide CoreOk;
    CoreFacts(s.core, s.phase, s.running);
    if s.core.ts.thr[s.running].priority != 31 {
      var s0 := s.(core := s.core.(ts := Flag(s.core.ts, s.running, false)));
      FlagRunning(s);
      ExpireKeeps(s0);
      var s1 := ChargeHead(Expire(s0));
      ChargeKeeps(Expire(s0));
      SwitchToKeeps(s1);
      CoreFacts(s1.core, s1.phase, s1.running);
      FlagKeeps(s1.core, s1.phase, s1.running, true);
    }
  }

  /** Every step keeps the invariant. */
  lemma StepKeeps(s: State, step: Step)
    requires Inv(s) && Enabled(s, step)
    ensures Inv(Apply(s, step))
  {
    hide CoreOk;
    InvSound(s);
    CoreFacts(s.core, s.phase, s.running);
    match step
    case StartThread(priority, affinity) => StartThreadKeeps(s, priority, affinity);
    case Sleep(timeout) => SleepKeeps(s, timeout);
    case SetPriority(ht, priority) => SetPriorityKeeps(s.core, s.phase, ht, priority);
    case AllocMbx(app) => if s.core.firstMbx <= LAST_MBX { AllocMbxKeeps(s.core, s.phase, app); }
    case SetStrategy(m, strategy, size, app) => SetStrategyKeeps(s.core, s.phase, m, strategy, size, app);
    case Send(m, msg) => SendKeeps(s, m, msg);
    case PostMsg(m, msg) => PostKeeps(s, m, msg);
    case Wait(m, timelimit) => WaitKeeps(s, m, timelimit);
    case Resume => ResumeKeeps(s);
    case Check(m) => if IsMbx(m) { FetchKeeps(s.core, s.phase, m); }
    case Empty(m) => if IsMbx(m) { EmptiedKeeps(s.core, s.phase, m); }
    case Reschedule => ReschedKeeps(s);
    case Tick(elapsed) => TickKeeps(s, elapsed);
  }

  // ----- runs

  /** Every step of the run is enabled where it happens. */
  ghost predicate Possible(s: State, steps: seq<Step>)
    requires Inv(s)
    decreases |steps|
  {
    steps == [] ||
    (Enabled(s, steps[0]) &&
     (StepKeeps(s, steps[0]); Possible(Apply(s, steps[0]), steps[1..])))
  }

  ghost function Run(s: State, steps: seq<Step>): State
    requires Inv(s) && Possible(s, steps)
    decreases |steps|
  {
    if steps == [] then s
    else
      StepKeeps(s, steps[0]);
      Run(Apply(s, steps[0]), steps[1..])
  }

  lemma {:induction false} RunKeeps(s: State, steps: seq<Step>)
    requires Inv(s) && Possible(s, steps)
    ensures Inv(Run(s, steps))
    decreases |steps|
  {
    if steps != [] {
      StepKeeps(s, steps[0]);
      RunKeeps(Apply(s, steps[0]), steps[1..]);
    }
  }

  /** FMTK_Initialize: two mailboxes are allocated, and the idle thread is started. */
  ghost function InitialState(): State {
    BootShaped();
    State(StartThreadCore(AllocatedMbx(AllocatedMbx(InitialCore(), 1), 1), 15, CPU), BOOT, 0, 0,
          seq(NR_TCB + 1, _ => Working), 0)
  }

  lemma BootShaped()
    ensures Shaped(InitialCore()) && IsMbx(InitialCore().firstMbx)
    ensures var c := AllocatedMbx(InitialCore(), 1); Shaped(c) && IsMbx(c.firstMbx) && Shaped(AllocatedMbx(c, 1))
  {
  }

  lemma InitialCoreOk(phase: seq<Phase>)
    requires |phase| == NR_TCB + 1 && forall h :: IsTcb(h) ==> phase[h] == Working
    ensures CoreOk(InitialCore(), phase) && InitialCore().ts.firstFree == IDLE
  {
    var c := InitialCore();
    forall h | IsTcb(h) ensures ThreadOk(c.ts.thr[h], c.ts.loc[h], phase[h], h) { }
    forall m | IsMbx(m) ensures MailboxOk(c.ts.thr, c.boxes[m], m, c.firstMbx) { }
  }

  /** What the first two allocations may rely on. */
  lemma StartInv(phase: seq<Phase>)
    requires |phase| == NR_TCB + 1 && forall h :: IsTcb(h) ==> phase[h] == Working
    ensures FreshBox(InitialBoxes()[1]) && FreshBox(InitialBoxes()[2])
  {
  }

  lemma InitialInv()
    ensures Inv(InitialState())
  {
    BootShaped();
    var s := InitialState();
    InitialCoreOk(s.phase);
    AllocMbxKeeps(InitialCore(), s.phase, 1);
    var c1 := AllocatedMbx(InitialCore(), 1);
    AllocMbxKeeps(c1, s.phase, 1);
    var c := AllocatedMbx(c1, 1);
    TakeTcbKeeps(c, s.phase, 15, CPU);
    InsertReadyKeeps(c.(ts := TakeTcb(c.ts, 15, CPU)), s.phase, IDLE);
  }
}
