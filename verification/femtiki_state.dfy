/** The kernel as a state machine: one step is one kernel call, or one interrupt, run to its end
    (software/Femtiki/source/kernel/Femtiki_kern.c and msg.c, on one core). */
module KernelState {
  import opened KernelTypes
  import opened Seqs
  import opened ThreadLists
  import opened Boxes
  import opened MailModel
  import opened StoreWords
  import T = Timeouts

  const CPU := 2
  const ANY_CPU := 63
  const IDLE := 2
  const FM_TIMER := 0x0113
  const TIMER_MSG := Payload(FM_TIMER, 0xffffffff, 0xffffffff)

  /** Where a thread is with respect to FMTK_WaitMsg: not in it, blocked in it, or made ready by
      a message that it has not yet picked up. */
  datatype Phase = Working | InWait | Woken(m: Payload)

  /** charged is the sum of all ticks charged to the timeout list so far. */
  datatype State = State(core: Core, running: int, invert: nat, missed: nat,
                         phase: seq<Phase>, charged: int)

  // ----- choosing the thread to run

  predicate Eligible(t: Thread) {
    t.affinity == CPU || t.affinity == ANY_CPU
  }

  /** The position of the first thread of r that may run here. */
  function FirstEligible(thr: seq<Thread>, r: seq<int>): (i: nat)
    requires forall j :: 0 <= j < |r| ==> 0 <= r[j] < |thr|
    ensures i <= |r|
    ensures forall j :: 0 <= j < i ==> !Eligible(thr[r[j]])
    ensures i < |r| ==> Eligible(thr[r[i]])
  {
    if r == [] then 0
    else if Eligible(thr[r[0]]) then 0
    else 1 + FirstEligible(thr, r[1..])
  }

  /** The next thread of level p, or -1; the ring then starts behind it. */
  ghost function PickAt(ts: Threads, p: nat): (r: (Threads, int))
    requires Indexes(ts) && p < LEVELS
    ensures r.0.thr == ts.thr && (r.1 > 0 ==> r.1 < |ts.thr|)
  {
    var i := FirstEligible(ts.thr, ts.rings[p]);
    if i < |ts.rings[p]| then (Rotate(ts, p, i + 1), ts.rings[p][i]) else (ts, -1)
  }

  ghost function PickDown(ts: Threads, p: int): (r: (Threads, int))
    requires Indexes(ts) && p < LEVELS
    ensures r.0.thr == ts.thr && (r.1 > 0 ==> r.1 < |ts.thr|)
    decreases p + 1
  {
    if p < 0 then (ts, -1)
    else if PickAt(ts, p).1 > 0 then PickAt(ts, p) else PickDown(ts, p - 1)
  }

  ghost function PickUp(ts: Threads, p: int): (r: (Threads, int))
    requires Indexes(ts) && 0 <= p
    ensures r.0.thr == ts.thr && (r.1 > 0 ==> r.1 < |ts.thr|)
    decreases LEVELS - p
  {
    if p >= LEVELS then (ts, -1)
    else if PickAt(ts, p).1 > 0 then PickAt(ts, p) else PickUp(ts, p + 1)
  }

  /** Every 32nd choice looks at the levels from the lowest up. */
  ghost function Pick(ts: Threads, invert: nat): (r: (Threads, int))
    requires Indexes(ts)
    ensures r.0.thr == ts.thr && (r.1 > 0 ==> r.1 < |ts.thr|)
  {
    if invert % 32 == 0 then PickUp(ts, 0) else PickDown(ts, LEVELS - 1)
  }

  function Flag(ts: Threads, h: int, running: bool): Threads
    requires 0 <= h < |ts.thr|
  {
    var t := ts.thr[h];
    SetThread(ts, h, t.(status := t.status.(preempt := !running, running := running)))
  }

  ghost predicate Sound(s: State) {
    && Shaped(s.core) && Indexes(s.core.ts)
    && IsTcb(s.running) && |s.phase| == NR_TCB + 1
  }

  /** Switching to the next thread, once the running thread is flagged as preempted. */
  ghost function SwitchTo(s: State): State
    requires Sound(s)
  {
    var (ts, h0) := Pick(s.core.ts, s.invert + 1);
    var h := if h0 > 0 then h0 else s.running;
    s.(core := s.core.(ts := Flag(ts, h, true)), running := h, invert := s.invert + 1)
  }

  ghost function Resched(s: State): State
    requires Sound(s)
  {
    SwitchTo(s.(core := s.core.(ts := Flag(s.core.ts, s.running, false))))
  }

  // ----- messages

  /** What a post does to the threads' phases. */
  ghost function PostPhase(s: State, m: int, p: Payload): seq<Phase>
    requires Sound(s)
  {
    if IsMbx(m) && Allocated(s.core.boxes[m]) && s.core.pool > 0 && s.core.boxes[m].waiters != [] then
      assert s.core.boxes[m].waiters[0] in s.core.boxes[m].waiters;
      s.phase[s.core.boxes[m].waiters[0] := Woken(p)]
    else s.phase
  }

  ghost function PostStep(s: State, m: int, p: Payload): State
    requires Sound(s)
  {
    s.(core := Post(s.core, m, p), phase := PostPhase(s, m, p))
  }

  // ----- the timer tick

  ghost predicate HeadExpired(s: State) {
    s.core.ts.sleepers != [] && s.core.ts.sleepers[0].delta <= 0
  }

  /** One turn of the expiry loop, for an expired head. A thread that waits for a message is
      moved by posting a timer message to its mailbox. */
  ghost function ExpireOne(s: State): State
    requires Sound(s) && HeadExpired(s) && IsTcb(s.core.ts.sleepers[0].h)
  {
    var h := s.core.ts.sleepers[0].h;
    var m := s.core.ts.thr[h].waitMbx;
    if m != 0 then PostStep(s, m, TIMER_MSG)
    else s.(core := s.core.(ts := InsertReady(PopTimeout(s.core.ts), h)))
  }

  /** What the loop ends with: the head, not expired, is charged. */
  ghost function ChargeHead(s: State): State {
    if s.core.ts.sleepers == [] then s
    else s.(core := s.core.(ts := s.core.ts.(sleepers := T.Charge(s.core.ts.sleepers, s.missed + 1))),
            missed := 0, charged := s.charged + s.missed + 1)
  }

  // ----- what every reachable state keeps

  ghost predicate ThreadOk(t: Thread, l: Loc, ph: Phase, h: int) {
    && (l.OnRing? ==> l.level == t.priority && t.status.ready)
    && (t.status.ready ==> l.OnRing? || (h == BOOT && l == OffList))
    && (t.status.timeout <==> l == OnTimeoutList)
    && (t.status.waitmsg <==> t.waitMbx != 0)
    && (t.status.waitmsg ==> !t.status.ready)
    && (t.status.running ==> t.status.ready)
    && (l == FreeTcb ==> t.status == TS_NONE && t.waitMbx == 0 && ph == Working)
    && (ph == InWait <==> t.waitMbx != 0)
    && (ph.Woken? ==> l.OnRing? && t.msgType == MT_DATA && t.msg == ph.m)
    && (l.OnRing? || l == OnTimeoutList || t.waitMbx != 0 || t.status.ready ==> t.priority < LEVELS)
  }

  ghost predicate MailboxOk(thr: seq<Thread>, b: Box, m: int, firstMbx: int)
    requires |thr| == NR_TCB + 1
  {
    && BoxOk(b) && WaitMembers(thr, b.waiters, m)
    && (if m < firstMbx then Allocated(b) else FreshBox(b) && b.count == 0)
  }

  ghost predicate CoreOk(c: Core, phase: seq<Phase>) {
    && WellFormed(c.ts) && |phase| == NR_TCB + 1 && |c.boxes| == NR_MBX + 1
    && 1 <= c.firstMbx <= LAST_MBX + 1
    && (forall h {:trigger c.ts.thr[h]} {:trigger c.ts.loc[h]} :: IsTcb(h) ==>
          ThreadOk(c.ts.thr[h], c.ts.loc[h], phase[h], h))
    && (forall h {:trigger c.ts.thr[h]} :: IsTcb(h) ==> 0 <= c.ts.thr[h].waitMbx < c.firstMbx)
    && (forall m {:trigger c.boxes[m]} :: IsMbx(m) ==> MailboxOk(c.ts.thr, c.boxes[m], m, c.firstMbx))
  }

  /** The invariant of every run. */
  ghost predicate Inv(s: State) {
    && CoreOk(s.core, s.phase)
    && IsTcb(s.running) && s.core.ts.thr[s.running].status.ready
    && s.core.ts.loc[IDLE].OnRing? && s.core.ts.thr[IDLE].affinity == CPU
  }

  lemma CoreOkShaped(c: Core, phase: seq<Phase>)
    requires CoreOk(c, phase)
    ensures Shaped(c) && Indexes(c.ts)
  {
    forall m, h | IsMbx(m) && h in c.boxes[m].waiters ensures IsTcb(h) {
      assert MailboxOk(c.ts.thr, c.boxes[m], m, c.firstMbx);
    }
    forall p, j | 0 <= p < LEVELS && 0 <= j < |c.ts.rings[p]| ensures 0 <= c.ts.rings[p][j] < |c.ts.thr| {
      assert RingMembers(c.ts.loc, c.ts.rings[p], p);
      assert c.ts.rings[p][j] in c.ts.rings[p];
    }
  }

  lemma InvSound(s: State)
    requires Inv(s)
    ensures Sound(s)
  {
    CoreOkShaped(s.core, s.phase);
  }
}
