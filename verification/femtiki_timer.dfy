/** The timer interrupt's loop in the other revision of the kernel, where a timeout never goes by
    way of a mailbox (software/Femtiki/source/kernel/Femtiki.c, FMTK_TimerIRQ). */
module TimerLoop {
  import opened KernelTypes
  import opened Seqs
  import opened ThreadLists
  import opened ThreadWords
  import opened ThreadTables
  import opened KernelWords
  import T = Timeouts

  /** Threads of the timeout list can go to a ring. */
  ghost predicate Wakeable(ts: Threads) {
    WellFormed(ts) && forall h :: IsTcb(h) && ts.loc[h] == OnTimeoutList ==> ts.thr[h].priority < LEVELS
  }

  ghost function WakeHead(ts: Threads): Threads
    requires Wakeable(ts) && ts.sleepers != []
  {
    PopTimeoutWellFormed(ts);
    InsertReady(PopTimeout(ts), ts.sleepers[0].h)
  }

  lemma WakeHeadKeeps(ts: Threads)
    requires Wakeable(ts) && ts.sleepers != []
    ensures var h := ts.sleepers[0].h; var ts' := WakeHead(ts);
      && IsTcb(h) && Wakeable(ts') && ts'.sleepers == ts.sleepers[1..] && ts'.loc[h] == OnRing(ts.thr[h].priority)
      && ts'.thr[h].priority == ts.thr[h].priority
      && forall g :: IsTcb(g) && g != h ==> ts'.loc[g] == ts.loc[g] && ts'.thr[g] == ts.thr[g]
  {
    PopTimeoutWellFormed(ts);
    InsertReadyWellFormed(PopTimeout(ts), ts.sleepers[0].h);
  }

  /** All threads from the head on that have no time left. */
  ghost function WakeDue(ts: Threads): Threads
    requires Wakeable(ts)
    decreases |ts.sleepers|
  {
    if ts.sleepers == [] || ts.sleepers[0].delta > 0 then ts
    else
      WakeHeadKeeps(ts);
      WakeDue(WakeHead(ts))
  }

  /** A thread that leaves the list had no time left, and is on the ring of its priority; who
      stays has time left, and no less than before, and exactly as much if no delta was negative. */
  lemma {:induction false} WakesTheDue(ts: Threads, g: int)
    requires Wakeable(ts) && T.Listed(ts.sleepers, g)
    ensures var ts' := WakeDue(ts); var l, l' := ts.sleepers, ts'.sleepers;
      && Wakeable(ts') && IsTcb(g)
      && if T.Listed(l', g) then
           && T.Deadline(l', g) > 0 && T.Deadline(l', g) >= T.Deadline(l, g)
           && ((forall i :: 0 <= i < |l| ==> l[i].delta >= 0) ==> T.Deadline(l', g) == T.Deadline(l, g))
         else T.Deadline(l, g) <= 0 && ts'.loc[g] == OnRing(ts.thr[g].priority)
    decreases |ts.sleepers|
  {
    var l := ts.sleepers;
    if l[0].delta > 0 {
      T.DeadlineFromHead(l, g);
    } else {
      WakeHeadKeeps(ts);
      var ts1 := WakeHead(ts);
      T.PopDeadlines(l);
      if g == l[0].h {
        StaysAwake(ts1, g);
      } else {
        WakesTheDue(ts1, g);
        if forall i :: 0 <= i < |l| ==> l[i].delta >= 0 {
          assert l[0].delta == 0;
          forall i | 0 <= i < |l[1..]| ensures l[1..][i].delta >= 0 {
            assert l[i + 1].delta >= 0;
          }
        }
      }
    }
  }

  lemma {:induction false} StaysAwake(ts: Threads, g: int)
    requires Wakeable(ts) && IsTcb(g) && ts.loc[g].OnRing?
    ensures Wakeable(WakeDue(ts)) && WakeDue(ts).loc[g] == ts.loc[g] && !T.Listed(WakeDue(ts).sleepers, g)
    decreases |ts.sleepers|
  {
    if ts.sleepers != [] && ts.sleepers[0].delta <= 0 {
      WakeHeadKeeps(ts);
      PopTimeoutWellFormed(ts);
      StaysAwake(WakeHead(ts), g);
    }
  }

  lemma HeadLeft(ts: Threads)
    requires Wakeable(ts)
    ensures Wakeable(WakeDue(ts)) && (WakeDue(ts).sleepers != [] ==> WakeDue(ts).sleepers[0].delta > 0)
    decreases |ts.sleepers|
  {
    if ts.sleepers != [] && ts.sleepers[0].delta <= 0 {
      WakeHeadKeeps(ts);
      HeadLeft(WakeHead(ts));
    }
  }

  class Timer {
    const threads: ThreadTable
    var missed: nat

    constructor (t: ThreadTable)
      ensures threads == t && missed == 0
    {
      threads := t;
      missed := 0;
    }

    /** The loop over the timeout list. */
    method ExpireTimeouts()
      requires threads.Valid() && Wakeable(threads.ts)
      modifies this`missed, threads
      ensures threads.Valid()
      ensures var due := WakeDue(old(threads.ts));
        if due.sleepers == [] then threads.ts == due && missed == old(missed)
        else threads.ts == due.(sleepers := T.Charge(due.sleepers, old(missed) + 1)) && missed == 0
    {
      hide Holds, WellFormed, InsertReady, PopTimeout;
      ghost var due := WakeDue(threads.ts);
      HeadHeld(threads.Words(), threads.ts);
      while threads.timeoutList > 0 && threads.timeoutList <= NR_TCB
        invariant threads.Valid() && Wakeable(threads.ts) && WakeDue(threads.ts) == due && missed == old(missed)
        invariant if threads.ts.sleepers == [] then threads.timeoutList == 0 else IsTcb(threads.timeoutList)
        decreases |threads.ts.sleepers|
      {
        HeadHeld(threads.Words(), threads.ts);
        var tol := threads.timeoutList - 1;
        if threads.tcbs[tol].timeout <= 0 {
          WakeHeadKeeps(threads.ts);
          PoppedLoc(threads.ts);
          var h := threads.TCBPopTimeoutList();
          var rr := threads.TCBInsertIntoReadyQueue(h);
          HeadHeld(threads.Words(), threads.ts);
        } else {
          ChargeHolds(threads.Words(), threads.ts, missed + 1);
          threads.tcbs := threads.tcbs[tol := threads.tcbs[tol].(timeout := threads.tcbs[tol].timeout - missed - 1)];
          threads.ts := threads.ts.(sleepers := T.Charge(threads.ts.sleepers, missed + 1));
          missed := 0;
          return;
        }
      }
    }
  }

  lemma PoppedLoc(ts: Threads)
    requires Wakeable(ts) && ts.sleepers != []
    ensures IsTcb(ts.sleepers[0].h) && |ts.thr| == |ts.loc| == NR_TCB + 1 && |ts.rings| == LEVELS
    ensures PopTimeout(ts).loc[ts.sleepers[0].h] == OffList
    ensures WakeHead(ts) == InsertReady(PopTimeout(ts), ts.sleepers[0].h)
  {
    PopTimeoutWellFormed(ts);
  }
}
