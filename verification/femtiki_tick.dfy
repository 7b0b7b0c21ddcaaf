/** The expiry loop of the timer tick
    (software/Femtiki/source/kernel/Femtiki_kern.c, FMTK_TimerTickISR). */
module TickLoop {
  import opened KernelTypes
  import opened Seqs
  import opened ThreadLists
  import opened Boxes
  import opened MailModel
  import opened StoreWords
  import opened KernelState
  import opened KernelInvariant
  import T = Timeouts

  /** The thread of the i-th entry waits for a message, and every entry up to it has expired. */
  ghost predicate ExpiredWaiterAt(s: State, i: int)
    requires |s.core.ts.thr| == NR_TCB + 1
  {
    var l := s.core.ts.sleepers;
    && 0 <= i < |l| && IsTcb(l[i].h) && s.core.ts.thr[l[i].h].waitMbx != 0
    && forall j :: 0 <= j <= i ==> l[j].delta <= 0
  }

  /** The loop comes to an end: the pool is not empty, or no waiter's turn comes. */
  ghost predicate CanExpire(s: State)
    requires |s.core.ts.thr| == NR_TCB + 1
  {
    s.core.pool > 0 || forall i :: !ExpiredWaiterAt(s, i)
  }

  /** How many threads wait at the mailbox of the head of the timeout list. */
  ghost function WaitersAhead(s: State): nat
    requires Inv(s)
  {
    var l := s.core.ts.sleepers;
    if l == [] then 0
    else
      WakeSleeperKeeps(s.core, s.phase);
      CoreFacts(s.core, s.phase, l[0].h);
      |s.core.boxes[s.core.ts.thr[l[0].h].waitMbx].waiters|
  }

  lemma {:induction false} RemoveLength(l: seq<T.Entry>, h: int)
    ensures |T.Remove(l, h)| == if T.Listed(l, h) then |l| - 1 else |l|
  {
    if l != [] {
      T.ListedTail(l, h);
      if l[0].h != h { RemoveLength(l[1..], h); }
    }
  }

  /** The head thread, which has expired. */
  lemma HeadFacts(s: State)
    requires Inv(s) && HeadExpired(s)
    ensures Sound(s)
    ensures var h := s.core.ts.sleepers[0].h;
      && IsTcb(h) && s.core.ts.loc[h] == OnTimeoutList && T.Listed(s.core.ts.sleepers, h)
      && T.DistinctHandles(s.core.ts.sleepers) && T.TailNonNegative(s.core.ts.sleepers)
      && 0 <= s.core.ts.thr[h].waitMbx <= LAST_MBX
  {
    InvSound(s);
    WakeSleeperKeeps(s.core, s.phase);
    CoreFacts(s.core, s.phase, s.core.ts.sleepers[0].h);
    assert T.Listed(s.core.ts.sleepers, s.core.ts.sleepers[0].h);
  }

  /** The head thread, when it waits at a mailbox. */
  lemma HeadWaits(s: State)
    requires Inv(s) && HeadExpired(s)
    requires IsTcb(s.core.ts.sleepers[0].h) && s.core.ts.thr[s.core.ts.sleepers[0].h].waitMbx != 0
    ensures var m := s.core.ts.thr[s.core.ts.sleepers[0].h].waitMbx;
      && IsMbx(m) && s.core.boxes[m].waiters != [] && Allocated(s.core.boxes[m])
      && s.core.ts.sleepers[0].h in s.core.boxes[m].waiters
  {
    var h := s.core.ts.sleepers[0].h;
    var m := s.core.ts.thr[h].waitMbx;
    CoreFacts(s.core, s.phase, h);
    assert MailboxOk(s.core.ts.thr, s.core.boxes[m], m, s.core.firstMbx);
    WaitersFacts(s.core, s.phase, m);
  }

  /** What one turn of the loop does to the lists. */
  ghost predicate Turn(s: State, s': State) {
    && |s.core.ts.loc| == |s'.core.ts.loc| == |s.core.ts.thr| == |s'.core.ts.thr| == NR_TCB + 1
    && s'.running == s.running && s'.invert == s.invert && s'.missed == s.missed && s'.charged == s.charged
    && s'.core.pool == s.core.pool && s'.core.firstMbx == s.core.firstMbx
    && (forall g :: IsTcb(g) && s.core.ts.loc[g] != OnTimeoutList && s.core.ts.loc[g] != OffList ==>
          s'.core.ts.loc[g] == s.core.ts.loc[g])
    && (forall g :: IsTcb(g) && s'.core.ts.loc[g] == OnTimeoutList ==> s.core.ts.loc[g] == OnTimeoutList)
    && (forall g :: IsTcb(g) && s.core.ts.loc[g] == OnTimeoutList && s'.core.ts.loc[g] != OnTimeoutList ==>
          s'.core.ts.loc[g].OnRing?)
    && (forall g :: IsTcb(g) && s'.core.ts.loc[g] == OnTimeoutList ==>
          s'.core.ts.thr[g].waitMbx == s.core.ts.thr[g].waitMbx)
  }

  lemma ExpireOneKeeps(s: State)
    requires Inv(s) && HeadExpired(s)
    ensures Sound(s) && IsTcb(s.core.ts.sleepers[0].h)
    ensures Inv(ExpireOne(s))
    ensures Turn(s, ExpireOne(s))
  {
    HeadFacts(s);
    var h := s.core.ts.sleepers[0].h;
    var m := s.core.ts.thr[h].waitMbx;
    if m != 0 {
      HeadWaits(s);
      if s.core.pool > 0 {
        DeliverKeeps(s.core, s.phase, m, TIMER_MSG);
        DeliverTurn(s, m, TIMER_MSG);
      }
    } else {
      WakeSleeperKeeps(s.core, s.phase);
      PopTurn(s);
    }
  }

  lemma PopTurn(s: State)
    requires Inv(s) && HeadExpired(s) && IsTcb(s.core.ts.sleepers[0].h)
    requires s.core.ts.thr[s.core.ts.sleepers[0].h].waitMbx == 0
    ensures Sound(s) && Turn(s, ExpireOne(s)) && ExpireOne(s).core.ts.thr[s.running].status.ready
    ensures ExpireOne(s).core.ts.loc[IDLE].OnRing? && ExpireOne(s).core.ts.thr[IDLE].affinity == CPU
  {
    hide CoreOk;
    HeadFacts(s);
    CoreFacts(s.core, s.phase, s.running);
    WakeSleeperKeeps(s.core, s.phase);
  }

  lemma DeliverTurn(s: State, m: int, p: Payload)
    requires Inv(s) && IsMbx(m) && s.core.boxes[m].waiters != [] && Allocated(s.core.boxes[m]) && s.core.pool > 0
    ensures Sound(s) && Turn(s, PostStep(s, m, p)) && Inv(PostStep(s, m, p))
  {
    hide CoreOk;
    InvSound(s);
    DeliverKeeps(s.core, s.phase, m, p);
    DequeueKeeps(s.core, s.phase, m);
    CoreFacts(s.core, s.phase, s.running);
    CoreFacts(s.core, s.phase, s.core.boxes[m].waiters[0]);
  }

  /** Each turn shortens the timeout list, or the queue of waiters at the head's mailbox. */
  lemma ExpireOneProgress(s: State)
    requires Inv(s) && HeadExpired(s) && CanExpire(s)
    ensures Sound(s) && IsTcb(s.core.ts.sleepers[0].h) && Inv(ExpireOne(s))
    ensures var s' := ExpireOne(s);
      && |s'.core.ts.sleepers| <= |s.core.ts.sleepers|
      && (|s'.core.ts.sleepers| == |s.core.ts.sleepers| ==> WaitersAhead(s') < WaitersAhead(s))
  {
    hide CoreOk, T.Remove, T.Listed;
    HeadFacts(s);
    ExpireOneKeeps(s);
    var l := s.core.ts.sleepers;
    var h := l[0].h;
    var m := s.core.ts.thr[h].waitMbx;
    if m != 0 {
      HeadWaits(s);
      assert ExpiredWaiterAt(s, 0);
      DeliverKeeps(s.core, s.phase, m, TIMER_MSG);
      var w := s.core.boxes[m].waiters[0];
      RemoveLength(l, w);
      if !T.Listed(l, w) {
        T.RemoveAbsent(l, w);
        assert h != w;
      }
    } else {
      WakeSleeperKeeps(s.core, s.phase);
    }
  }

  lemma CanExpireNext(s: State)
    requires Inv(s) && HeadExpired(s) && CanExpire(s)
    ensures Sound(s) && IsTcb(s.core.ts.sleepers[0].h) && Inv(ExpireOne(s)) && CanExpire(ExpireOne(s))
  {
    HeadFacts(s);
    ExpireOneKeeps(s);
    var s' := ExpireOne(s);
    var l := s.core.ts.sleepers;
    if s.core.pool == 0 {
      assert !ExpiredWaiterAt(s, 0);
      WakeSleeperKeeps(s.core, s.phase);
      assert s'.core.ts.sleepers == l[1..];
      forall i | ExpiredWaiterAt(s', i) ensures ExpiredWaiterAt(s, i + 1) {
        ExpiredShift(s, s', i);
      }
    }
  }

  lemma ExpiredShift(s: State, s': State, i: int)
    requires Inv(s) && Inv(s') && HeadExpired(s) && Turn(s, s')
    requires s'.core.ts.sleepers == s.core.ts.sleepers[1..] && ExpiredWaiterAt(s', i)
    ensures ExpiredWaiterAt(s, i + 1)
  {
    var l := s.core.ts.sleepers;
    assert T.Listed(s'.core.ts.sleepers, l[1..][i].h);
    forall j | 0 <= j <= i + 1 ensures l[j].delta <= 0 {
      if j > 0 { assert l[1..][j - 1].delta <= 0; }
    }
  }

  /** The loop up to the charge: expired threads are moved until the head has time left. */
  ghost function Expire(s: State): State
    requires Inv(s) && CanExpire(s)
    decreases |s.core.ts.sleepers|, WaitersAhead(s)
  {
    if !HeadExpired(s) then s
    else
      ExpireOneProgress(s);
      CanExpireNext(s);
      Expire(ExpireOne(s))
  }

  lemma TurnTrans(s: State, s1: State, s2: State)
    requires Turn(s, s1) && Turn(s1, s2)
    ensures Turn(s, s2)
  {
  }

  /** The loop ends, keeps the invariant, and leaves the timeout list empty or its head with time
      left; every thread it took off the list is on the ring of its priority. */
  lemma {:induction false} ExpireKeeps(s: State)
    requires Inv(s) && CanExpire(s)
    ensures Inv(Expire(s)) && !HeadExpired(Expire(s)) && Turn(s, Expire(s))
    decreases |s.core.ts.sleepers|, WaitersAhead(s)
  {
    if HeadExpired(s) {
      ExpireOneProgress(s);
      CanExpireNext(s);
      ExpireOneKeeps(s);
      ExpireKeeps(ExpireOne(s));
      TurnTrans(s, ExpireOne(s), Expire(s));
    } else {
      InvSound(s);
    }
  }

  // ----- when the loop does not end

  ghost function Turns(s: State, n: nat): State
    decreases n
  {
    if n == 0 then s
    else
      var s1 := Turns(s, n - 1);
      if Inv(s1) && HeadExpired(s1) then
        HeadFacts(s1);
        ExpireOne(s1)
      else s1
  }

  /** The first i entries have expired and wait for no message. */
  ghost predicate PlainSleepers(s: State, i: nat)
    requires |s.core.ts.thr| == NR_TCB + 1 && i <= |s.core.ts.sleepers|
  {
    forall j {:trigger s.core.ts.sleepers[j]} :: 0 <= j < i ==>
      var e := s.core.ts.sleepers[j];
      e.delta <= 0 && IsTcb(e.h) && s.core.ts.thr[e.h].waitMbx == 0
  }

  lemma {:induction false} PopsOff(s: State, i: nat)
    requires Inv(s) && i <= |s.core.ts.sleepers| && PlainSleepers(s, i)
    ensures var s' := Turns(s, i);
      && Inv(s') && s'.core.ts.sleepers == s.core.ts.sleepers[i..] && Turn(s, s')
  {
    hide CoreOk;
    if i > 0 {
      PopsOff(s, i - 1);
      var s1 := Turns(s, i - 1);
      var l := s.core.ts.sleepers;
      assert l[i - 1..][0] == l[i - 1] && l[i - 1..][1..] == l[i..];
      HeadFacts(s1);
      ExpireOneKeeps(s1);
      WakeSleeperKeeps(s1.core, s1.phase);
      TurnTrans(s, s1, Turns(s, i));
    } else {
      InvSound(s);
    }
  }

  lemma {:induction false} FirstWaiter(s: State, i: nat) returns (k: nat)
    requires Inv(s) && ExpiredWaiterAt(s, i)
    ensures k <= i && ExpiredWaiterAt(s, k) && PlainSleepers(s, k)
  {
    hide CoreOk;
    CoreFacts(s.core, s.phase, s.running);
    if j :| 0 <= j < i && IsTcb(s.core.ts.sleepers[j].h) && s.core.ts.thr[s.core.ts.sleepers[j].h].waitMbx != 0 {
      k := FirstWaiter(s, j);
    } else {
      k := i;
      ListedAreThreads(s);
    }
  }

  lemma ListedAreThreads(s: State)
    requires Inv(s)
    ensures forall j :: 0 <= j < |s.core.ts.sleepers| ==>
      IsTcb(s.core.ts.sleepers[j].h) && s.core.ts.loc[s.core.ts.sleepers[j].h] == OnTimeoutList
  {
    forall j | 0 <= j < |s.core.ts.sleepers|
      ensures IsTcb(s.core.ts.sleepers[j].h) && s.core.ts.loc[s.core.ts.sleepers[j].h] == OnTimeoutList
    {
      assert T.Listed(s.core.ts.sleepers, s.core.ts.sleepers[j].h);
    }
  }

  /** With an empty pool, once the first expired waiter is at the head no turn changes anything
      any more: the loop ends if and only if CanExpire holds. */
  lemma ExpireSpins(s: State) returns (n: nat)
    requires Inv(s) && !CanExpire(s)
    ensures var s' := Turns(s, n);
      && Inv(s') && HeadExpired(s') && Sound(s') && IsTcb(s'.core.ts.sleepers[0].h) && ExpireOne(s') == s'
  {
    hide CoreOk;
    CoreFacts(s.core, s.phase, s.running);
    var i :| ExpiredWaiterAt(s, i);
    n := FirstWaiter(s, i);
    PopsOff(s, n);
    var s' := Turns(s, n);
    var l := s.core.ts.sleepers;
    assert s'.core.ts.sleepers[0] == l[n];
    ListedAreThreads(s');
    InvSound(s');
  }
}
