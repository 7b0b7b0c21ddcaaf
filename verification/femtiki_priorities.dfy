/** What priority a thread has, and what the flags of the running thread say. */
module KernelPriorities {
  import opened KernelTypes
  import opened Seqs
  import opened ThreadLists
  import opened MailModel
  import opened KernelState
  import opened KernelInvariant
  import opened TickLoop
  import opened KernelRuns
  import opened KernelTheorems
  import opened KernelTiming
  import opened KernelFairness
  import opened KernelTurns
  import T = Timeouts

  /** Starting a thread takes the next unused block, if there is one, whose record then has the
      affinity and the priority asked for, as a byte. With a priority that exists it is the last of
      its ring, may run here if and only if its affinity is 2 or 63, and is flagged as ready; with
      any other it is on no list. Nobody else is touched. */
  lemma StartThreadGets(s: State, priority: int, affinity: int)
    requires Inv(s) && Enabled(s, StartThread(priority, affinity))
    ensures var h := s.core.ts.firstFree; var s' := Apply(s, StartThread(priority, affinity)); var p := priority % 256;
      && |s.core.ts.thr| == |s'.core.ts.thr| == |s'.core.ts.loc| == NR_TCB + 1
      && |s.core.ts.rings| == |s'.core.ts.rings| == LEVELS
      && Indexes(s.core.ts) && Indexes(s'.core.ts)
      && s'.core.ts.sleepers == s.core.ts.sleepers && s'.core.boxes == s.core.boxes
      && s'.running == s.running && s'.invert == s.invert && s'.missed == s.missed
      && if !(1 <= h <= 256) then s' == s
         else
           && s'.core.ts.firstFree == h + 1
           && s'.core.ts.thr[h].priority == p && s'.core.ts.thr[h].affinity == affinity
           && s'.core.ts.thr[h].waitMbx == 0
           && (forall g :: 0 <= g <= NR_TCB && g != h ==> s'.core.ts.thr[g] == s.core.ts.thr[g])
           && (forall q :: 0 <= q < LEVELS && q != p ==> s'.core.ts.rings[q] == s.core.ts.rings[q])
           && (p < 32 ==>
                 && s'.core.ts.rings[p] == s.core.ts.rings[p] + [h] && s'.core.ts.thr[h].status.ready
                 && AbleAt(s'.core.ts, p) == AbleAt(s.core.ts, p) + if affinity in {2, 63} then {h} else {})
           && (p >= 32 ==> s'.core.ts.loc[h] == OffList && !s'.core.ts.thr[h].status.ready)
  {
    hide CoreOk;
    InvSound(s);
    StepKeeps(s, StartThread(priority, affinity));
    InvSound(Apply(s, StartThread(priority, affinity)));
    if IsTcb(s.core.ts.firstFree) {
      FreshOffRings(s);
      if priority % 256 < 32 { StartedAble(s, priority, affinity); }
    }
  }

  /** An unused block is on no ring. */
  lemma FreshOffRings(s: State)
    requires Inv(s) && IsTcb(s.core.ts.firstFree)
    ensures |s.core.ts.rings| == LEVELS && |s.core.ts.thr| == NR_TCB + 1
    ensures forall p :: 0 <= p < LEVELS ==> s.core.ts.firstFree !in s.core.ts.rings[p]
    ensures s.core.ts.thr[s.core.ts.firstFree].waitMbx == 0
  {
    var h := s.core.ts.firstFree;
    LocAgrees(s.core, s.phase, h);
    CoreFacts(s.core, s.phase, h);
  }

  lemma StartedAble(s: State, priority: int, affinity: int)
    requires Inv(s) && Sound(s) && IsTcb(s.core.ts.firstFree) && priority % 256 < 32
    ensures var p := priority % 256; var h := s.core.ts.firstFree;
      var ts := s.core.ts; var ts' := StartThreadCore(s.core, priority, affinity).ts;
      && Indexes(ts') && |ts'.rings| == LEVELS
      && AbleAt(ts', p) == AbleAt(ts, p) + if affinity in {2, 63} then {h} else {}
  {
    hide CoreOk;
    FreshOffRings(s);
    StartThreadKeeps(s, priority, affinity);
    CoreOkShaped(StartThreadCore(s.core, priority, affinity), s.phase);
    var p, h := priority % 256, s.core.ts.firstFree;
    var ts, ts' := s.core.ts, StartThreadCore(s.core, priority, affinity).ts;
    assert ts'.rings[p] == ts.rings[p] + [h];
    forall g
      ensures g in AbleAt(ts', p) <==> g in AbleAt(ts, p) || (g == h && affinity in {2, 63})
    {
    }
  }

  /** At start-up the idle thread, in the second block, is alone on ring 15 and all other rings are
      empty; the first thread is running, and the first two mailboxes belong to the system. */
  lemma IdleAtStart()
    ensures var s := InitialState();
      && Inv(s) && |s.core.ts.rings| == LEVELS && |s.core.ts.thr| == NR_TCB + 1 && |s.core.boxes| == NR_MBX + 1
      && s.core.ts.rings[15] == [2] && s.core.ts.thr[2].priority == 15 && s.core.ts.thr[2].affinity == 2
      && (forall p :: 0 <= p < 32 && p != 15 ==> s.core.ts.rings[p] == [])
      && s.running == 1 && s.core.ts.firstFree == 3 && s.core.ts.sleepers == [] && s.core.firstMbx == 3
      && s.core.boxes[1].owner == 1 && s.core.boxes[2].owner == 1
      && var t := s.core.ts.thr[1];
      && t.priority == 15 && t.affinity == 2 && t.status.running && t.status.ready && !t.status.preempt
      && forall h :: 3 <= h <= 256 ==> s.core.ts.thr[h].priority == 15 && s.core.ts.thr[h].affinity == 63
  {
    InitialInv();
  }

  /** Setting the priority of a thread that is not ready changes its record and nothing else, and a
      priority out of range changes nothing for anybody. */
  lemma SetPriorityElsewhere(s: State, h: int, priority: int)
    requires Inv(s) && Enabled(s, SetPriority(h, priority)) && Sound(s)
    requires !s.core.ts.thr[h].status.ready || !(0 <= priority <= 31)
    ensures var s' := Apply(s, SetPriority(h, priority));
      if 0 <= priority <= 31 then
        s' == s.(core := s.core.(ts := s.core.ts.(thr := s.core.ts.thr[h := s.core.ts.thr[h].(priority := priority)])))
      else s' == s
  {
    hide CoreOk;
    CoreFacts(s.core, s.phase, h);
  }

  /** And in every case the thread has the priority asked for. */
  lemma SetPriorityGets(s: State, h: int, priority: int)
    requires Inv(s) && Enabled(s, SetPriority(h, priority)) && 0 <= priority <= 31
    ensures var s' := Apply(s, SetPriority(h, priority));
      && |s.core.ts.thr| == |s'.core.ts.thr| == NR_TCB + 1
      && s'.core.ts.thr[h].priority == priority && s'.core.ts.thr[h].affinity == s.core.ts.thr[h].affinity
      && s'.core.ts.thr[h].waitMbx == s.core.ts.thr[h].waitMbx
      && (s'.core.ts.thr[h].status.ready <==> s.core.ts.thr[h].status.ready)
      && forall g :: 0 <= g <= NR_TCB && g != h ==> s'.core.ts.thr[g] == s.core.ts.thr[g]
  {
    hide CoreOk;
    InvSound(s);
    CoreFacts(s.core, s.phase, h);
  }

  /** After a reschedule exactly the chosen one of the two threads is flagged as running, and the
      other as preempted. */
  lemma ReschedFlags(s: State)
    requires Inv(s)
    ensures Sound(s)
    ensures var s' := Resched(s);
      && |s.core.ts.thr| == |s'.core.ts.thr| == NR_TCB + 1 && IsTcb(s'.running)
      && s'.core.ts.thr[s'.running].status.running && !s'.core.ts.thr[s'.running].status.preempt
      && (s'.running != s.running ==>
            !s'.core.ts.thr[s.running].status.running && s'.core.ts.thr[s.running].status.preempt)
      && forall g :: 0 <= g <= NR_TCB && g != s.running && g != s'.running ==>
           s'.core.ts.thr[g] == s.core.ts.thr[g]
  {
    hide CoreOk, Pick;
    InvSound(s);
    CoreFacts(s.core, s.phase, s.running);
    ReschedKeeps(s);
  }

  /** After a tick that counts the running thread is flagged as running too, whether it has been
      switched to or not. */
  lemma TickFlags(s: State, elapsed: nat)
    requires Inv(s) && Sound(s) && CanExpire(s) && Counts(s)
    ensures var s' := Apply(s, Tick(elapsed));
      && |s'.core.ts.thr| == NR_TCB + 1 && IsTcb(s'.running)
      && s'.core.ts.thr[s'.running].status.running && !s'.core.ts.thr[s'.running].status.preempt
  {
    hide CoreOk, Pick;
    CoreFacts(s.core, s.phase, s.running);
    TickParts(s, elapsed);
    var e := ChargeHead(Expire(Preempted(s)));
    ChargeKeeps(Expire(Preempted(s)));
    CoreFacts(e.core, e.phase, e.running);
    SwitchToKeeps(e);
  }
}
