/** Every kernel operation keeps the invariant. */
module KernelInvariant {
  import opened KernelTypes
  import opened Seqs
  import opened ThreadLists
  import opened Boxes
  import opened MailModel
  import opened StoreWords
  import opened KernelState
  import T = Timeouts

  /** Changing thread h, with its list and phase, keeps a core in order when the new record is
      in order and h waits where it waited. */
  lemma UpdateThread(c: Core, phase: seq<Phase>, h: int, ts': Threads, ph: Phase)
    requires CoreOk(c, phase) && IsTcb(h) && WellFormed(ts')
    requires forall g :: IsTcb(g) && g != h ==> ts'.thr[g] == c.ts.thr[g] && ts'.loc[g] == c.ts.loc[g]
    requires ThreadOk(ts'.thr[h], ts'.loc[h], ph, h)
    requires ts'.thr[h].waitMbx == c.ts.thr[h].waitMbx
    ensures CoreOk(c.(ts := ts'), phase[h := ph])
  {
    forall m | IsMbx(m) ensures MailboxOk(ts'.thr, c.boxes[m], m, c.firstMbx) {
      assert MailboxOk(c.ts.thr, c.boxes[m], m, c.firstMbx);
    }
  }

  /** Changing what a mailbox holds, but not who waits there. */
  lemma UpdateBox(c: Core, phase: seq<Phase>, m: int, b: Box, pool: nat)
    requires CoreOk(c, phase) && IsMbx(m)
    requires BoxOk(b) && b.waiters == c.boxes[m].waiters && b.owner == c.boxes[m].owner
    requires m >= c.firstMbx ==> b.queue == [] && b.count == 0
    ensures CoreOk(c.(boxes := c.boxes[m := b], pool := pool), phase)
  {
    var c' := c.(boxes := c.boxes[m := b], pool := pool);
    assert MailboxOk(c.ts.thr, c.boxes[m], m, c.firstMbx);
    forall k | IsMbx(k) ensures MailboxOk(c'.ts.thr, c'.boxes[k], k, c'.firstMbx) {
      assert MailboxOk(c.ts.thr, c.boxes[k], k, c.firstMbx);
    }
  }

  lemma CoreFacts(c: Core, phase: seq<Phase>, h: int)
    requires CoreOk(c, phase) && IsTcb(h)
    ensures |c.ts.thr| == |c.ts.loc| == |phase| == NR_TCB + 1 && |c.ts.rings| == LEVELS && |c.boxes| == NR_MBX + 1
    ensures ThreadOk(c.ts.thr[h], c.ts.loc[h], phase[h], h)
    ensures 0 <= c.ts.thr[h].waitMbx < c.firstMbx <= LAST_MBX + 1
  {
  }

  // ----- thread lists

  lemma InsertReadyKeeps(c: Core, phase: seq<Phase>, h: int)
    requires CoreOk(c, phase) && IsTcb(h) && c.ts.loc[h] == OffList && c.ts.thr[h].waitMbx == 0
    requires phase[h] == Working
    ensures CoreOk(c.(ts := InsertReady(c.ts, h)), phase)
    ensures c.ts.thr[h].priority < LEVELS ==> InsertReady(c.ts, h).thr[h].status.ready
  {
    InsertReadyWellFormed(c.ts, h);
    UpdateThread(c, phase, h, InsertReady(c.ts, h), phase[h]);
    assert phase[h := phase[h]] == phase;
  }

  lemma RemoveReadyKeeps(c: Core, phase: seq<Phase>, h: int)
    requires CoreOk(c, phase) && IsTcb(h) && c.ts.thr[h].status.ready && phase[h] == Working
    ensures CoreOk(c.(ts := RemoveReady(c.ts, h)), phase)
    ensures RemoveReady(c.ts, h).thr[h] == c.ts.thr[h].(status := TS_NONE) && RemoveReady(c.ts, h).loc[h] == OffList
  {
    RemoveReadyWellFormed(c.ts, h);
    UpdateThread(c, phase, h, RemoveReady(c.ts, h), phase[h]);
    assert phase[h := phase[h]] == phase;
  }

  lemma InsertTimeoutKeeps(c: Core, phase: seq<Phase>, h: int, to: int)
    requires CoreOk(c, phase) && IsTcb(h) && c.ts.loc[h] == OffList && c.ts.thr[h].priority < LEVELS
    requires !c.ts.thr[h].status.ready && !phase[h].Woken?
    ensures CoreOk(c.(ts := InsertTimeout(c.ts, h, to)), phase)
  {
    InsertTimeoutWellFormed(c.ts, h, to);
    UpdateThread(c, phase, h, InsertTimeout(c.ts, h, to), phase[h]);
    assert phase[h := phase[h]] == phase;
  }

  /** A sleeper that does not wait for a message goes back to its ring. */
  lemma WakeSleeperKeeps(c: Core, phase: seq<Phase>)
    requires CoreOk(c, phase) && c.ts.sleepers != []
    ensures var h := c.ts.sleepers[0].h;
      IsTcb(h) && c.ts.loc[h] == OnTimeoutList && c.ts.thr[h].priority < LEVELS
    ensures var h := c.ts.sleepers[0].h; c.ts.thr[h].waitMbx == 0 ==>
      var ts' := InsertReady(PopTimeout(c.ts), h);
      && CoreOk(c.(ts := ts'), phase)
      && ts'.loc[h] == OnRing(ts'.thr[h].priority) && ts'.sleepers == c.ts.sleepers[1..]
      && ts'.rings == c.ts.rings[ts'.thr[h].priority := c.ts.rings[ts'.thr[h].priority] + [h]]
  {
    var h := c.ts.sleepers[0].h;
    PopTimeoutWellFormed(c.ts);
    assert ThreadOk(c.ts.thr[h], c.ts.loc[h], phase[h], h);
    if c.ts.thr[h].waitMbx == 0 {
      var ts1 := PopTimeout(c.ts);
      InsertReadyWellFormed(ts1, h);
      UpdateThread(c, phase, h, InsertReady(ts1, h), phase[h]);
      assert phase[h := phase[h]] == phase;
    }
  }

  lemma FlagKeeps(c: Core, phase: seq<Phase>, h: int, running: bool)
    requires CoreOk(c, phase) && IsTcb(h) && (running ==> c.ts.thr[h].status.ready)
    requires c.ts.loc[h] != FreeTcb
    ensures CoreOk(c.(ts := Flag(c.ts, h, running)), phase)
  {
    var ts' := Flag(c.ts, h, running);
    forall p | 0 <= p < LEVELS ensures RingMembers(ts'.loc, ts'.rings[p], p) {
      assert RingMembers(c.ts.loc, c.ts.rings[p], p);
    }
    UpdateThread(c, phase, h, ts', phase[h]);
    assert phase[h := phase[h]] == phase;
  }

  // ----- choosing a thread

  lemma PickAtKeeps(c: Core, phase: seq<Phase>, p: nat)
    requires CoreOk(c, phase) && p < LEVELS
    ensures Indexes(c.ts)
    ensures var (ts, h) := PickAt(c.ts, p);
      && CoreOk(c.(ts := ts), phase) && ts.thr == c.ts.thr && ts.loc == c.ts.loc && ts.sleepers == c.ts.sleepers
      && (h > 0 ==> IsTcb(h) && c.ts.loc[h] == OnRing(p) && Eligible(c.ts.thr[h]))
      && (h <= 0 ==> ts == c.ts && forall g :: IsTcb(g) && c.ts.loc[g] == OnRing(p) ==> !Eligible(c.ts.thr[g]))
  {
    CoreOkShaped(c, phase);
    var r := c.ts.rings[p];
    assert RingMembers(c.ts.loc, r, p);
    assert forall j :: 0 <= j < |r| ==> 0 <= c.ts.rings[p][j] < |c.ts.thr|;
    var i := FirstEligible(c.ts.thr, r);
    if i < |r| {
      assert r[i] in r;
      RotateWellFormed(c.ts, p, i + 1);
      var ts := Rotate(c.ts, p, i + 1);
      forall h | IsTcb(h) ensures ThreadOk(ts.thr[h], ts.loc[h], phase[h], h) {
        assert ThreadOk(c.ts.thr[h], c.ts.loc[h], phase[h], h);
      }
      forall m | IsMbx(m) ensures MailboxOk(ts.thr, c.boxes[m], m, c.firstMbx) {
        assert MailboxOk(c.ts.thr, c.boxes[m], m, c.firstMbx);
      }
    } else {
      assert forall g :: g in r ==> exists j :: 0 <= j < |r| && r[j] == g;
    }
  }

  lemma {:induction false} PickDownKeeps(c: Core, phase: seq<Phase>, p: int)
    requires CoreOk(c, phase) && -1 <= p < LEVELS
    ensures Indexes(c.ts)
    ensures var (ts, h) := PickDown(c.ts, p);
      && CoreOk(c.(ts := ts), phase) && ts.thr == c.ts.thr && ts.loc == c.ts.loc && ts.sleepers == c.ts.sleepers
      && (h > 0 ==> IsTcb(h) && c.ts.loc[h].OnRing? && Eligible(c.ts.thr[h]))
      && (h <= 0 ==> forall g :: IsTcb(g) && c.ts.loc[g].OnRing? && c.ts.loc[g].level <= p ==> !Eligible(c.ts.thr[g]))
    decreases p + 1
  {
    CoreOkShaped(c, phase);
    if p >= 0 {
      PickAtKeeps(c, phase, p);
      PickDownKeeps(c, phase, p - 1);
    }
  }

  lemma {:induction false} PickUpKeeps(c: Core, phase: seq<Phase>, p: int)
    requires CoreOk(c, phase) && 0 <= p <= LEVELS
    ensures Indexes(c.ts)
    ensures var (ts, h) := PickUp(c.ts, p);
      && CoreOk(c.(ts := ts), phase) && ts.thr == c.ts.thr && ts.loc == c.ts.loc && ts.sleepers == c.ts.sleepers
      && (h > 0 ==> IsTcb(h) && c.ts.loc[h].OnRing? && Eligible(c.ts.thr[h]))
      && (h <= 0 ==> forall g :: IsTcb(g) && c.ts.loc[g].OnRing? && c.ts.loc[g].level >= p ==> !Eligible(c.ts.thr[g]))
    decreases LEVELS - p
  {
    CoreOkShaped(c, phase);
    if p < LEVELS {
      PickAtKeeps(c, phase, p);
      PickUpKeeps(c, phase, p + 1);
    }
  }

  /** With the idle thread ready, the choice always falls on a ready, eligible thread, and the
      fallback to the running thread is never taken. */
  lemma PickKeeps(c: Core, phase: seq<Phase>, invert: nat)
    requires CoreOk(c, phase)
    requires c.ts.loc[IDLE].OnRing? && c.ts.thr[IDLE].affinity == CPU
    ensures Indexes(c.ts)
    ensures var (ts, h) := Pick(c.ts, invert);
      && CoreOk(c.(ts := ts), phase) && ts.thr == c.ts.thr && ts.loc == c.ts.loc && ts.sleepers == c.ts.sleepers
      && IsTcb(h) && c.ts.loc[h].OnRing? && Eligible(c.ts.thr[h])
  {
    CoreOkShaped(c, phase);
    PickDownKeeps(c, phase, LEVELS - 1);
    PickUpKeeps(c, phase, 0);
    assert Eligible(c.ts.thr[IDLE]);
  }

  /** Picking a thread and flagging it as running. */
  lemma PickAndFlagKeeps(c: Core, phase: seq<Phase>, invert: nat)
    requires CoreOk(c, phase)
    requires c.ts.loc[IDLE].OnRing? && c.ts.thr[IDLE].affinity == CPU
    ensures Indexes(c.ts)
    ensures var (ts, h) := Pick(c.ts, invert);
      && IsTcb(h) && c.ts.loc[h].OnRing? && |ts.thr| == NR_TCB + 1
      && var ts' := Flag(ts, h, true);
      && CoreOk(c.(ts := ts'), phase) && ts'.loc == c.ts.loc && ts'.sleepers == c.ts.sleepers
      && ts'.thr[h].status.ready && ts'.thr[IDLE].affinity == CPU
  {
    PickKeeps(c, phase, invert);
    var (ts, h) := Pick(c.ts, invert);
    CoreFacts(c, phase, h);
    CoreFacts(c, phase, IDLE);
    FlagKeeps(c.(ts := ts), phase, h, true);
  }

  lemma SwitchToKeeps(s: State)
    requires Inv(s)
    ensures Sound(s) && Inv(SwitchTo(s))
    ensures var s' := SwitchTo(s);
      && s'.core.ts.loc == s.core.ts.loc && s'.core.ts.sleepers == s.core.ts.sleepers
      && s'.core.boxes == s.core.boxes && s'.core.pool == s.core.pool && s'.phase == s.phase
      && s'.missed == s.missed && s'.charged == s.charged
  {
    hide CoreOk;
    InvSound(s);
    PickAndFlagKeeps(s.core, s.phase, s.invert + 1);
  }

  /** Switching away from a thread that is about to block: only then is it off every ring. */
  lemma ReschedKeeps(s: State)
    requires CoreOk(s.core, s.phase) && IsTcb(s.running) && s.core.ts.loc[s.running] != FreeTcb
    requires s.core.ts.loc[IDLE].OnRing? && s.core.ts.thr[IDLE].affinity == CPU
    ensures Sound(s) && Inv(Resched(s))
    ensures var s' := Resched(s);
      && s'.core.ts.loc == s.core.ts.loc && s'.core.ts.sleepers == s.core.ts.sleepers
      && s'.core.boxes == s.core.boxes && s'.core.pool == s.core.pool && s'.phase == s.phase
      && s'.missed == s.missed && s'.charged == s.charged
  {
    hide CoreOk;
    CoreFacts(s.core, s.phase, s.running);
    CoreOkShaped(s.core, s.phase);
    FlagKeeps(s.core, s.phase, s.running, false);
    var s1 := s.(core := s.core.(ts := Flag(s.core.ts, s.running, false)));
    CoreOkShaped(s1.core, s1.phase);
    PickAndFlagKeeps(s1.core, s1.phase, s1.invert + 1);
  }

  // ----- mailboxes

  lemma DequeueKeeps(c: Core, phase: seq<Phase>, m: int)
    requires CoreOk(c, phase) && IsMbx(m) && c.boxes[m].waiters != []
    ensures Shaped(c) && IsTcb(c.boxes[m].waiters[0]) && c.boxes[m].waiters[0] in c.boxes[m].waiters
    ensures var h := c.boxes[m].waiters[0]; var c' := DequeueThread(c, m);
      && Sleeping(c.ts, h) && c.ts.thr[h].waitMbx == m && c.ts.thr[h].priority < LEVELS
      && WellFormed(c'.ts) && c'.ts.loc == c.ts.loc[h := OffList] && !c'.ts.thr[h].status.timeout
      && c'.ts.thr == c.ts.thr[h := c'.ts.thr[h]] && !c'.ts.thr[h].status.running
      && c'.ts.thr[h] == c.ts.thr[h].(status := c'.ts.thr[h].status, waitMbx := 0)
      && !c'.ts.thr[h].status.waitmsg
      && c'.ts.sleepers == T.Remove(c.ts.sleepers, h) && c'.ts.rings == c.ts.rings
  {
    CoreOkShaped(c, phase);
    var b := c.boxes[m];
    var h := b.waiters[0];
    assert MailboxOk(c.ts.thr, b, m, c.firstMbx);
    assert h in b.waiters;
    assert ThreadOk(c.ts.thr[h], c.ts.loc[h], phase[h], h);
    if c.ts.thr[h].status.timeout {
      RemoveTimeoutWellFormed(c.ts, h);
      FlagsWellFormed(RemoveTimeout(c.ts, h), h, DequeueThread(c, m).ts.thr[h]);
    } else {
      assert !T.Listed(c.ts.sleepers, h);
      T.RemoveAbsent(c.ts.sleepers, h);
      FlagsWellFormed(c.ts, h, DequeueThread(c, m).ts.thr[h]);
      assert c.ts.loc[h := OffList] == c.ts.loc;
    }
  }

  lemma FlagsWellFormed(ts: Threads, h: int, t: Thread)
    requires WellFormed(ts) && IsTcb(h)
    ensures WellFormed(SetThread(ts, h, t))
  {
    forall p | 0 <= p < LEVELS ensures RingMembers(ts.loc, SetThread(ts, h, t).rings[p], p) {
      assert RingMembers(ts.loc, ts.rings[p], p);
    }
  }

  /** A message for a waiter: the waiter is ready, holds the message, and waits no more. */
  lemma DeliverKeeps(c: Core, phase: seq<Phase>, m: int, p: Payload)
    requires CoreOk(c, phase) && IsMbx(m) && c.boxes[m].waiters != [] && Allocated(c.boxes[m])
    ensures Shaped(c) && IsTcb(c.boxes[m].waiters[0])
    ensures var h := c.boxes[m].waiters[0]; var c' := Deliver(c, m, p);
      && CoreOk(c', phase[h := Woken(p)]) && c.ts.thr[h].priority < LEVELS == |c.ts.rings|
      && c'.ts.loc[h] == OnRing(c.ts.thr[h].priority) && c'.ts.sleepers == T.Remove(c.ts.sleepers, h)
      && (forall g :: IsTcb(g) && g != h ==> c'.ts.thr[g] == c.ts.thr[g] && c'.ts.loc[g] == c.ts.loc[g])
      && c'.ts.thr[h].affinity == c.ts.thr[h].affinity && c'.ts.thr[h].status.ready
      && c'.ts.thr[h].priority == c.ts.thr[h].priority
      && c'.ts.rings == c.ts.rings[c.ts.thr[h].priority := c.ts.rings[c.ts.thr[h].priority] + [h]]
  {
    hide CoreOk, WellFormed;
    DequeueKeeps(c, phase, m);
    CoreFacts(c, phase, c.boxes[m].waiters[0]);
    var h := c.boxes[m].waiters[0];
    var c1 := DequeueThread(c, m);
    var c' := Deliver(c, m, p);
    InsertReadyWellFormed(c1.ts, h);
    FlagsWellFormed(InsertReady(c1.ts, h), h, c'.ts.thr[h]);
    DeliveredOk(c, phase, m, p, c');
  }

  /** The records and mailboxes after a hand-over. */
  lemma DeliveredOk(c: Core, phase: seq<Phase>, m: int, p: Payload, c': Core)
    requires CoreOk(c, phase) && IsMbx(m) && c.boxes[m].waiters != [] && Allocated(c.boxes[m])
    requires WellFormed(c'.ts) && c'.firstMbx == c.firstMbx && c'.boxes == c.boxes[m := HandOver(c.boxes[m], p)]
    requires var h := c.boxes[m].waiters[0];
      && IsTcb(h) && ThreadOk(c'.ts.thr[h], c'.ts.loc[h], Woken(p), h) && c'.ts.thr[h].waitMbx == 0
      && forall g :: IsTcb(g) && g != h ==> c'.ts.thr[g] == c.ts.thr[g] && c'.ts.loc[g] == c.ts.loc[g]
    ensures CoreOk(c', phase[c.boxes[m].waiters[0] := Woken(p)])
  {
    var h := c.boxes[m].waiters[0];
    assert MailboxOk(c.ts.thr, c.boxes[m], m, c.firstMbx);
    HandOverKeeps(c.boxes[m], p);
    forall k | IsMbx(k) ensures MailboxOk(c'.ts.thr, c'.boxes[k], k, c'.firstMbx) {
      assert MailboxOk(c.ts.thr, c.boxes[k], k, c.firstMbx);
      if k == m { LeaveMembers(c.ts.thr, c.boxes[m].waiters, m, c'.ts.thr[h]); }
    }
  }

  lemma DepositKeeps(c: Core, phase: seq<Phase>, m: int, p: Payload)
    requires CoreOk(c, phase) && IsMbx(m) && c.boxes[m].waiters == [] && Allocated(c.boxes[m])
    requires Steady(c.boxes[m]) && c.pool > 0
    ensures Shaped(c) && CoreOk(Deposit(c, m, p), phase)
  {
    CoreOkShaped(c, phase);
    assert MailboxOk(c.ts.thr, c.boxes[m], m, c.firstMbx);
    QueueMsgKeeps(c.boxes[m], p);
    UpdateBox(c, phase, m, QueueMsg(c.boxes[m], p), Deposit(c, m, p).pool);
  }

  lemma FetchKeeps(c: Core, phase: seq<Phase>, m: int)
    requires CoreOk(c, phase) && IsMbx(m)
    ensures Shaped(c) && CoreOk(Fetch(c, m), phase)
    ensures Fetch(c, m).boxes[m].queue == [] || c.boxes[m].queue != []
  {
    CoreOkShaped(c, phase);
    assert MailboxOk(c.ts.thr, c.boxes[m], m, c.firstMbx);
    DequeueMsgKeeps(c.boxes[m]);
    UpdateBox(c, phase, m, DequeueMsg(c.boxes[m]), Fetch(c, m).pool);
  }

  /** A mailbox with a waiter has no message, and is allocated. */
  lemma WaitersFacts(c: Core, phase: seq<Phase>, m: int)
    requires CoreOk(c, phase) && IsMbx(m)
    ensures |c.boxes[m].queue| <= c.boxes[m].count
    ensures c.boxes[m].waiters != [] ==> c.boxes[m].queue == [] && Allocated(c.boxes[m])
    ensures 0 <= c.boxes[m].owner <= NR_ACB
  {
    assert MailboxOk(c.ts.thr, c.boxes[m], m, c.firstMbx);
  }

  /** The running thread, taken off its ring, joins the waiters of a mailbox without messages. */
  lemma QueueThreadKeeps(c: Core, phase: seq<Phase>, m: int, h: int)
    requires CoreOk(c, phase) && IsMbx(m) && IsTcb(h) && Allocated(c.boxes[m]) && c.boxes[m].queue == []
    requires c.ts.loc[h] == OffList && c.ts.thr[h].status == TS_NONE && c.ts.thr[h].priority < LEVELS
    requires phase[h] == Working
    ensures Shaped(c) && CoreOk(QueueThread(c, m, h), phase[h := InWait])
    ensures var c' := QueueThread(c, m, h); c'.ts.loc == c.ts.loc && c'.ts.sleepers == c.ts.sleepers
  {
    CoreOkShaped(c, phase);
    var c' := QueueThread(c, m, h);
    FlagsWellFormed(c.ts, h, c'.ts.thr[h]);
    forall g | IsTcb(g)
      ensures ThreadOk(c'.ts.thr[g], c'.ts.loc[g], phase[h := InWait][g], g) && 0 <= c'.ts.thr[g].waitMbx < c'.firstMbx
    {
      assert ThreadOk(c.ts.thr[g], c.ts.loc[g], phase[g], g);
      assert MailboxOk(c.ts.thr, c.boxes[m], m, c.firstMbx);
    }
    forall k | IsMbx(k) ensures MailboxOk(c'.ts.thr, c'.boxes[k], k, c'.firstMbx) {
      assert MailboxOk(c.ts.thr, c.boxes[k], k, c.firstMbx);
      if k == m { DistinctAppend(c.boxes[m].waiters, h); }
    }
  }
}
