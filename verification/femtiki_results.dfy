/** What the results of the mailbox calls tell, and in which order waiting threads are served. */
module KernelResults {
  import opened KernelTypes
  import opened ThreadLists
  import opened Boxes
  import opened MailModel
  import opened KernelState
  import opened KernelInvariant
  import opened TickLoop
  import opened KernelRuns
  import opened KernelTheorems
  import opened KernelTiming
  import opened KernelTurns
  import opened KernelSwitches
  import opened KernelTimedWait
  import T = Timeouts

  // ----- results

  /** E_Ok says that the message was accepted, E_QueFull that it was counted as missed by a mailbox
      that keeps the oldest and is full; every other error leaves all as it was. */
  lemma PostTells(s: State, m: int, p: Payload)
    requires Inv(s) && Enabled(s, PostMsg(m, p)) && Sound(s)
    ensures var r := PostResult(s.core, m); var s' := Apply(s, PostMsg(m, p));
      && (r == E_Arg <==> m < 1 || m > 1024)
      && (r == E_NotAlloc <==> 1 <= m <= 1024 && !(1 <= s.core.boxes[m].owner <= 32))
      && (r == E_NoMoreMsgBlks <==> 1 <= m <= 1024 && 1 <= s.core.boxes[m].owner <= 32 && s.core.pool == 0)
      && (r in {E_Ok, E_QueFull, E_Arg, E_NotAlloc, E_NoMoreMsgBlks})
      && (r in {E_Arg, E_NotAlloc, E_NoMoreMsgBlks} ==> s' == s)
      && (r in {E_Ok, E_QueFull} ==>
            && Shaped(s'.core) && 1 <= m <= 1024
            && var b, b' := s.core.boxes[m], s'.core.boxes[m];
            && (r == E_Ok <==> b'.sent == b.sent + [p])
            && (r == E_QueFull <==> b.waiters == [] && b.strategy == MQS_OLDEST && b.count >= b.size)
            && (r == E_QueFull ==> b' == b.(missed := if b.missed < 0xFFFF_FFFF then b.missed + 1 else b.missed)))
      && (forall k :: 1 <= k <= 1024 && k != m ==>
            |s'.core.boxes| == NR_MBX + 1 && s'.core.boxes[k] == s.core.boxes[k])
  {
    hide CoreOk, Deliver;
    PostKeeps(s, m, p);
    InvSound(Apply(s, PostMsg(m, p)));
    if IsMbx(m) && s.core.boxes[m].waiters != [] && Allocated(s.core.boxes[m]) {
      DelivererBox(s.core, m, p);
    }
  }

  lemma DelivererBox(c: Core, m: int, p: Payload)
    requires Shaped(c) && IsMbx(m) && c.boxes[m].waiters != []
    ensures Deliver(c, m, p).boxes == c.boxes[m := HandOver(c.boxes[m], p)] && Deliver(c, m, p).pool == c.pool
  {
  }

  /** Checking for a message with removal returns E_Ok if and only if a message comes out, E_NoMsg if
      and only if an allocated mailbox has none. */
  lemma CheckTells(s: State, m: int)
    requires Inv(s) && Enabled(s, Check(m)) && Sound(s)
    ensures var r := CheckResult(s.core, m, true); var s' := Apply(s, Check(m));
      && (r == E_Arg <==> m == 0 || m > 1024)
      && (r == E_NotAlloc <==> 1 <= m <= 1024 && !(1 <= s.core.boxes[m].owner <= 32))
      && (r in {E_Arg, E_NotAlloc} ==> s' == s)
      && (r in {E_Ok, E_NoMsg} ==>
            && Shaped(s'.core) && 1 <= m <= 1024
            && var b, b' := s.core.boxes[m], s'.core.boxes[m];
            && (r == E_NoMsg <==> b'.got == b.got) && (r == E_NoMsg ==> b.queue == [])
            && (r == E_Ok ==> b.queue != [] && b'.got == b.got + Copies(b.queue[0]) && b'.queue == b.queue[1..]))
  {
    if IsMbx(m) { WaitersFacts(s.core, s.phase, m); }
  }

  /** Waiting takes the oldest message if there is one, and then changes nothing else; with an error
      it changes nothing. Else the running thread blocks: it is the last in line, is not ready, and is
      on the timeout list if and only if its time limit is positive, with just that time left. */
  lemma WaitTells(s: State, m: int, timelimit: int)
    requires Inv(s) && Enabled(s, Wait(m, timelimit)) && Sound(s)
    ensures var r := CheckResult(s.core, m, true); var s' := Apply(s, Wait(m, timelimit)); var h := s.running;
      && (r in {E_Arg, E_NotAlloc} ==> s' == s)
      && (r == E_Ok ==>
            && 1 <= m <= 1024 && Shaped(s'.core) && s.core.boxes[m].queue != []
            && s' == s.(core := s.core.(boxes := s.core.boxes[m := s'.core.boxes[m]], pool := s.core.pool + 1))
            && s'.core.boxes[m].got == s.core.boxes[m].got + Copies(s.core.boxes[m].queue[0])
            && s'.core.boxes[m].queue == s.core.boxes[m].queue[1..])
      && (r == E_NoMsg ==>
            && 1 <= m <= 1024 && Shaped(s'.core) && |s'.phase| == NR_TCB + 1
            && s'.phase == s.phase[h := InWait] && s'.core.boxes[m].waiters == s.core.boxes[m].waiters + [h]
            && s'.core.boxes[m].got == s.core.boxes[m].got
            && s'.core.ts.thr[h].waitMbx == m && !s'.core.ts.thr[h].status.ready
            && (timelimit <= 0 ==> s'.core.ts.sleepers == s.core.ts.sleepers)
            && (timelimit > 0 ==>
                  T.Listed(s'.core.ts.sleepers, h) && T.Deadline(s'.core.ts.sleepers, h) == timelimit))
  {
    hide CoreOk;
    StepKeeps(s, Wait(m, timelimit));
    InvSound(Apply(s, Wait(m, timelimit)));
    if IsMbx(m) { WaitersFacts(s.core, s.phase, m); }
    if CheckResult(s.core, m, true) == E_NoMsg {
      BlockedTells(s, m, timelimit);
      var s' := Apply(s, Wait(m, timelimit));
      CoreFacts(s'.core, s'.phase, s.running);
      WaitersAgree(s'.core, s'.phase, s.running);
      assert s.running in s'.core.boxes[m].waiters;
    }
  }

  lemma BlockedTells(s: State, m: int, timelimit: int)
    requires Inv(s) && Enabled(s, Wait(m, timelimit)) && Sound(s) && Blocks(s, m)
    ensures var s' := Apply(s, Wait(m, timelimit)); var h := s.running;
      && |s'.core.boxes| == NR_MBX + 1 && s'.phase == s.phase[h := InWait]
      && s'.core.boxes[m].waiters == s.core.boxes[m].waiters + [h]
      && s'.core.boxes[m].got == s.core.boxes[m].got
      && (timelimit <= 0 ==> s'.core.ts.sleepers == s.core.ts.sleepers)
      && (timelimit > 0 ==> T.Listed(s'.core.ts.sleepers, h) && T.Deadline(s'.core.ts.sleepers, h) == timelimit)
  {
    hide CoreOk;
    WaitersFacts(s.core, s.phase, m);
    FetchKeeps(s.core, s.phase, m);
    CoreFacts(s.core, s.phase, s.running);
    LocAgrees(s.core, s.phase, s.running);
    BlockSleepers(s.(core := Fetch(s.core, m)), m, timelimit);
    BlockFrame(s.(core := Fetch(s.core, m)), m, timelimit);
    T.InsertDeadlines(s.core.ts.sleepers, s.running, timelimit);
  }

  /** What blocking leaves to the reschedule. */
  lemma BlockFrame(s: State, m: int, timelimit: int)
    requires Inv(s) && Sound(s) && IsMbx(m) && Allocated(s.core.boxes[m]) && s.core.boxes[m].queue == []
    requires s.running != IDLE && s.phase[s.running] == Working
    ensures var c2 := QueueThread(s.core.(ts := RemoveReady(s.core.ts, s.running)), m, s.running);
      var c3 := if timelimit > 0 then c2.(ts := InsertTimeout(c2.ts, s.running, timelimit)) else c2;
      var s3 := s.(core := c3, phase := s.phase[s.running := InWait]);
      && Sound(s3) && Resched(s3).phase == s3.phase && Resched(s3).core.boxes == c2.boxes
  {
    hide CoreOk, Pick;
    BlockKeeps(s, m, timelimit);
  }

  /** A new mailbox belongs to its application, or to the system, holds nothing and keeps the eight
      newest messages; after the 128th there is none. */
  lemma AllocGets(s: State, app: int)
    requires Inv(s) && Enabled(s, AllocMbx(app)) && Sound(s)
    ensures var m := s.core.firstMbx; var s' := Apply(s, AllocMbx(app));
      if m > 128 then s' == s
      else
        && s' == s.(core := s'.core) && s'.core.firstMbx == m + 1
        && s'.core.ts == s.core.ts && s'.core.pool == s.core.pool
        && 1 <= m <= 128 && s'.core.boxes == s.core.boxes[m := s'.core.boxes[m]]
        && var b := s'.core.boxes[m];
        && b.owner == (if app == 0 then 1 else app) && b.strategy == MQS_NEWEST && b.size == 8
        && b.count == 0 && b.missed == 0 && b.queue == [] && b.waiters == [] && b.sent == [] && b.got == []
  {
    CoreFacts(s.core, s.phase, s.running);
  }

  /** A policy is set by its number, by the mailbox's owner or an application of number 0 or 1: 1
      keeps the oldest messages, 2 the newest, and every other number keeps all. */
  lemma StrategyTells(c: Core, m: int, strategy: int, size: nat, app: int)
    requires Shaped(c)
    ensures var r := StrategyResult(c, m, strategy, app); var c' := WithStrategy(c, m, strategy, size, app);
      && (r == E_Arg <==> m < 1 || m > 1024 || strategy > 2)
      && (r == E_NotOwner <==> 1 <= m <= 1024 && strategy <= 2 && c.boxes[m].owner != app && app > 1)
      && (r in {E_Ok, E_Arg, E_NotOwner}) && (r != E_Ok ==> c' == c)
      && (r == E_Ok ==>
            && c' == c.(boxes := c.boxes[m := c'.boxes[m]])
            && c'.boxes[m] == c.boxes[m].(strategy := c'.boxes[m].strategy, size := size)
            && (c'.boxes[m].strategy == MQS_OLDEST <==> strategy == 1)
            && (c'.boxes[m].strategy == MQS_NEWEST <==> strategy == 2))
  {
  }

  /** Emptying gives every queued block back to the pool and touches no other mailbox. */
  lemma {:induction false} EmptiedGives(c: Core, m: int)
    requires Shaped(c) && IsMbx(m) && |c.boxes[m].queue| <= c.boxes[m].count
    ensures var c' := Emptied(c, m);
      && c'.pool == c.pool + |c.boxes[m].queue| && c'.ts == c.ts && c'.firstMbx == c.firstMbx
      && c'.boxes == c.boxes[m := EmptyBox(c.boxes[m])]
    decreases c.boxes[m].count
  {
    if HasMessage(c.boxes[m]) { EmptiedGives(Fetch(c, m), m); }
  }

  // ----- the line at a mailbox

  /** The thread that joins the line at mailbox m in this step, if one does. */
  ghost function Joins(s: State, step: Step, m: int): seq<int>
    requires Inv(s)
  {
    InvSound(s);
    if step.Wait? && step.mbx == m && Blocks(s, m) then [s.running] else []
  }

  /** line' is what is left of line when some of the first have gone. */
  ghost predicate Served(line: seq<int>, line': seq<int>) {
    exists k :: 0 <= k <= |line| && line' == line[k..]
  }

  lemma ServedAll(line: seq<int>)
    ensures Served(line, line)
  {
    assert line == line[0..];
  }

  lemma ServedFirst(line: seq<int>)
    requires line != []
    ensures Served(line, line[1..])
  {
  }

  lemma ServedTrans(a: seq<int>, b: seq<int>, c: seq<int>, more: seq<int>)
    requires Served(a, b) && Served(b + more, c)
    ensures Served(a + more, c)
  {
    var j :| 0 <= j <= |a| && b == a[j..];
    var k :| 0 <= k <= |b + more| && c == (b + more)[k..];
    assert b + more == (a + more)[j..];
    assert c == (a + more)[j + k..];
  }

  lemma {:induction false} ExpireLine(s: State, m: int)
    requires Inv(s) && CanExpire(s) && IsMbx(m)
    ensures |s.core.boxes| == |Expire(s).core.boxes| == NR_MBX + 1
    ensures Served(s.core.boxes[m].waiters, Expire(s).core.boxes[m].waiters)
    decreases |s.core.ts.sleepers|, WaitersAhead(s)
  {
    hide CoreOk, Served;
    CoreFacts(s.core, s.phase, IDLE);
    ServedAll(s.core.boxes[m].waiters);
    if HeadExpired(s) {
      ExpireOneProgress(s);
      CanExpireNext(s);
      ExpireOneLine(s, m);
      ExpireLine(ExpireOne(s), m);
      var a, b, c := s.core.boxes[m].waiters, ExpireOne(s).core.boxes[m].waiters, Expire(s).core.boxes[m].waiters;
      assert a + [] == a && b + [] == b;
      ServedTrans(a, b, c, []);
    }
  }

  lemma ExpireOneLine(s: State, m: int)
    requires Inv(s) && HeadExpired(s) && IsMbx(m)
    ensures Sound(s) && IsTcb(s.core.ts.sleepers[0].h)
    ensures |s.core.boxes| == |ExpireOne(s).core.boxes| == NR_MBX + 1
    ensures Served(s.core.boxes[m].waiters, ExpireOne(s).core.boxes[m].waiters)
  {
    hide CoreOk, Deliver;
    HeadFacts(s);
    ServedAll(s.core.boxes[m].waiters);
    var k := s.core.ts.thr[s.core.ts.sleepers[0].h].waitMbx;
    if k != 0 {
      HeadWaits(s);
      DelivererBox(s.core, k, TIMER_MSG);
    }
  }

  /** In every step the line at a mailbox loses threads from its front only, and the running thread
      joins it at its end if it blocks there. */
  lemma StepLine(s: State, step: Step, m: int)
    requires Inv(s) && Enabled(s, step) && IsMbx(m)
    ensures |s.core.boxes| == |Apply(s, step).core.boxes| == NR_MBX + 1
    ensures Served(s.core.boxes[m].waiters + Joins(s, step, m), Apply(s, step).core.boxes[m].waiters)
  {
    hide CoreOk, Deliver;
    InvSound(s);
    var line := s.core.boxes[m].waiters;
    assert line + [] == line;
    ServedAll(line);
    if step.Tick? {
      TickLine(s, step.elapsed, m);
    } else if Spares(step, m) {
      StepWaiters(s, step, m);
    } else if step.Wait? {
      WaitLine(s, m, step.timelimit);
    } else if step.Send? {
      PostEnabled(s, m, step.msg);
      SendSwitches(s, m, step.msg);
      PostLine(s, m, step.msg);
    } else {
      PostLine(s, m, step.msg);
    }
  }

  lemma TickLine(s: State, elapsed: nat, m: int)
    requires Inv(s) && Enabled(s, Tick(elapsed)) && IsMbx(m)
    ensures |s.core.boxes| == |Apply(s, Tick(elapsed)).core.boxes| == NR_MBX + 1
    ensures Served(s.core.boxes[m].waiters, Apply(s, Tick(elapsed)).core.boxes[m].waiters)
  {
    hide CoreOk;
    InvSound(s);
    ServedAll(s.core.boxes[m].waiters);
    if Counts(s) {
      TickParts(s, elapsed);
      ExpireLine(Preempted(s), m);
    }
  }

  lemma PostLine(s: State, m: int, p: Payload)
    requires Inv(s) && Enabled(s, PostMsg(m, p)) && IsMbx(m)
    ensures |s.core.boxes| == |Apply(s, PostMsg(m, p)).core.boxes| == NR_MBX + 1
    ensures Served(s.core.boxes[m].waiters, Apply(s, PostMsg(m, p)).core.boxes[m].waiters)
  {
    hide CoreOk, Deliver, Served, Steady;
    InvSound(s);
    ServedAll(s.core.boxes[m].waiters);
    if s.core.boxes[m].waiters != [] {
      DelivererBox(s.core, m, p);
      ServedFirst(s.core.boxes[m].waiters);
    }
  }

  lemma WaitLine(s: State, m: int, timelimit: int)
    requires Inv(s) && Enabled(s, Wait(m, timelimit)) && IsMbx(m)
    ensures |s.core.boxes| == |Apply(s, Wait(m, timelimit)).core.boxes| == NR_MBX + 1
    ensures Served(s.core.boxes[m].waiters + Joins(s, Wait(m, timelimit), m),
                   Apply(s, Wait(m, timelimit)).core.boxes[m].waiters)
  {
    hide CoreOk;
    InvSound(s);
    WaitersFacts(s.core, s.phase, m);
    var line := s.core.boxes[m].waiters;
    ServedAll(line + Joins(s, Wait(m, timelimit), m));
    assert line + [] == line;
    WaitSleepers(s, m, timelimit);
    if Blocks(s, m) {
      FetchKeeps(s.core, s.phase, m);
      CoreFacts(s.core, s.phase, s.running);
      BlockSleepers(s.(core := Fetch(s.core, m)), m, timelimit);
      WaitKeeps(s, m, timelimit);
    }
  }

  /** All that join the line in a run, in order. */
  ghost function Joiners(s: State, steps: seq<Step>, m: int): seq<int>
    requires Inv(s) && Possible(s, steps)
    decreases |steps|
  {
    if steps == [] then []
    else
      StepKeeps(s, steps[0]);
      Joins(s, steps[0], m) + Joiners(Apply(s, steps[0]), steps[1..], m)
  }

  /** First come, first served: over any run the line at a mailbox is the old line with all that came
      after it, in the order in which they came, less some from the front. */
  lemma {:induction false} LineIsFifo(s: State, steps: seq<Step>, m: int)
    requires Inv(s) && Possible(s, steps) && IsMbx(m)
    ensures |s.core.boxes| == |Run(s, steps).core.boxes| == NR_MBX + 1
    ensures Served(s.core.boxes[m].waiters + Joiners(s, steps, m), Run(s, steps).core.boxes[m].waiters)
    decreases |steps|
  {
    hide CoreOk, Apply, Enabled, Served, Joins;
    CoreFacts(s.core, s.phase, IDLE);
    var line := s.core.boxes[m].waiters;
    if steps == [] {
      assert line + [] == line;
      ServedAll(line);
    } else {
      StepKeeps(s, steps[0]);
      StepLine(s, steps[0], m);
      var s1 := Apply(s, steps[0]);
      LineIsFifo(s1, steps[1..], m);
      var joins, rest := Joins(s, steps[0], m), Joiners(s1, steps[1..], m);
      ServedTrans(line + joins, s1.core.boxes[m].waiters, Run(s, steps).core.boxes[m].waiters, rest);
      assert line + (joins + rest) == (line + joins) + rest;
    }
  }
}
