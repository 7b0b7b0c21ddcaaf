/** What an expired head does to everybody else: the expiry loop of the timer tick takes a plain
    sleeper off together with its negative delta, and so puts the others off by as much. */
module TickLag {
  import opened KernelTypes
  import opened ThreadLists
  import opened Boxes
  import opened MailModel
  import opened StoreWords
  import opened KernelState
  import opened KernelInvariant
  import opened TickLoop
  import opened KernelRuns
  import opened KernelTheorems
  import T = Timeouts

  /** Thread g is on the list l and waits for no message. */
  ghost predicate Plain(l: seq<T.Entry>, thr: seq<Thread>, g: int)
    requires |thr| == NR_TCB + 1
  {
    IsTcb(g) && T.Listed(l, g) && thr[g].waitMbx == 0
  }

  /** No plain sleeper has run below zero. */
  ghost predicate PlainInTime(l: seq<T.Entry>, thr: seq<Thread>)
    requires |thr| == NR_TCB + 1
  {
    forall g :: Plain(l, thr, g) ==> T.Deadline(l, g) >= 0
  }

  /** k is how far the plain sleeper that is furthest behind has run below zero. */
  ghost predicate IsLag(l: seq<T.Entry>, thr: seq<Thread>, k: nat)
    requires |thr| == NR_TCB + 1
  {
    && (forall g :: Plain(l, thr, g) ==> T.Deadline(l, g) + k >= 0)
    && (k > 0 ==> exists g :: Plain(l, thr, g) && T.Deadline(l, g) + k == 0)
  }

  lemma LagUnique(l: seq<T.Entry>, thr: seq<Thread>, j: nat, k: nat)
    requires |thr| == NR_TCB + 1 && IsLag(l, thr, j) && IsLag(l, thr, k)
    ensures j == k
  {
  }

  /** The plain sleeper that is due first, or 0 if there is none. */
  lemma {:induction false} FirstDue(l: seq<T.Entry>, thr: seq<Thread>) returns (g: int)
    requires |thr| == NR_TCB + 1 && T.DistinctHandles(l)
    ensures g != 0 ==> Plain(l, thr, g)
    ensures forall f :: Plain(l, thr, f) ==> g != 0 && T.Deadline(l, f) >= T.Deadline(l, g)
  {
    g := 0;
    if l != [] {
      T.PopDeadlines(l);
      g := FirstDue(l[1..], thr);
      var h := l[0].h;
      if IsTcb(h) && thr[h].waitMbx == 0 && (g == 0 || T.Deadline(l, g) > l[0].delta) { g := h; }
      forall f | Plain(l, thr, f) && f != h ensures Plain(l[1..], thr, f) { T.ListedTail(l, f); }
      assert T.Listed(l, h);
    }
  }

  ghost function Lag(l: seq<T.Entry>, thr: seq<Thread>): (k: nat)
    requires |thr| == NR_TCB + 1 && T.DistinctHandles(l)
    ensures IsLag(l, thr, k)
  {
    LagExists(l, thr);
    var k: nat :| IsLag(l, thr, k);
    k
  }

  lemma LagExists(l: seq<T.Entry>, thr: seq<Thread>)
    requires |thr| == NR_TCB + 1 && T.DistinctHandles(l)
    ensures exists k: nat :: IsLag(l, thr, k)
  {
    var g := FirstDue(l, thr);
    if g == 0 || T.Deadline(l, g) >= 0 {
      assert IsLag(l, thr, 0);
    } else {
      assert IsLag(l, thr, 0 - T.Deadline(l, g));
    }
  }

  lemma LagInTime(l: seq<T.Entry>, thr: seq<Thread>)
    requires |thr| == NR_TCB + 1 && T.DistinctHandles(l)
    ensures Lag(l, thr) == 0 <==> PlainInTime(l, thr)
  {
  }

  /** With a plain sleeper in front the lag is what the head has run below zero. */
  lemma PlainHeadLag(l: seq<T.Entry>, thr: seq<Thread>)
    requires |thr| == NR_TCB + 1 && T.DistinctHandles(l) && T.TailNonNegative(l)
    requires l != [] && IsTcb(l[0].h) && thr[l[0].h].waitMbx == 0
    ensures Lag(l, thr) == if l[0].delta < 0 then 0 - l[0].delta else 0
  {
    assert T.Listed(l, l[0].h);
    assert Plain(l, thr, l[0].h) && T.Deadline(l, l[0].h) == l[0].delta;
    forall g | Plain(l, thr, g) ensures T.Deadline(l, g) >= l[0].delta { T.DeadlineFromHead(l, g); }
  }

  /** Lists with the same plain sleepers, due at the same times, have the same lag. */
  lemma SameLag(l: seq<T.Entry>, thr: seq<Thread>, l': seq<T.Entry>, thr': seq<Thread>)
    requires |thr| == |thr'| == NR_TCB + 1 && T.DistinctHandles(l) && T.DistinctHandles(l')
    requires forall g :: Plain(l, thr, g) <==> Plain(l', thr', g)
    requires forall g :: Plain(l, thr, g) && Plain(l', thr', g) ==> T.Deadline(l', g) == T.Deadline(l, g)
    ensures Lag(l', thr') == Lag(l, thr)
  {
    var k := Lag(l, thr);
    if k > 0 {
      var g :| Plain(l, thr, g) && T.Deadline(l, g) + k == 0;
      assert Plain(l', thr', g);
    }
    LagUnique(l', thr', k, Lag(l', thr'));
  }

  // ----- over the expiry loop

  /** The lag of a state's timeout list. */
  ghost function LagOf(s: State): nat
    requires Inv(s)
  {
    Lag(s.core.ts.sleepers, s.core.ts.thr)
  }

  lemma ListFacts(s: State)
    requires Inv(s)
    ensures |s.core.ts.thr| == |s.core.ts.loc| == NR_TCB + 1
    ensures T.DistinctHandles(s.core.ts.sleepers) && T.TailNonNegative(s.core.ts.sleepers)
    ensures forall g :: T.Listed(s.core.ts.sleepers, g) ==> IsTcb(g) && s.core.ts.loc[g] == OnTimeoutList
    ensures forall g :: IsTcb(g) && s.core.ts.loc[g] == OnTimeoutList ==> T.Listed(s.core.ts.sleepers, g)
  {
  }

  /** From l to l', with lags k and k': whoever stays keeps the sum of its deadline and the lag, and
      the plain sleepers that leave have nothing left of it. */
  ghost predicate Shifted(l: seq<T.Entry>, k: nat, l': seq<T.Entry>, k': nat, thr: seq<Thread>)
    requires |thr| == NR_TCB + 1
  {
    && (forall g {:trigger T.Listed(l', g)} :: T.Listed(l', g) ==>
          T.Listed(l, g) && T.Deadline(l', g) + k' == T.Deadline(l, g) + k)
    && (forall g :: Plain(l, thr, g) && !T.Listed(l', g) ==> T.Deadline(l, g) + k <= 0)
  }

  /** A waiter goes: nobody is put off, and the lag is as it was. */
  lemma RemoveShifts(l: seq<T.Entry>, thr: seq<Thread>, w: int, thr': seq<Thread>)
    requires |thr| == |thr'| == NR_TCB + 1 && T.DistinctHandles(l) && T.DistinctHandles(T.Remove(l, w))
    requires IsTcb(w) && thr[w].waitMbx != 0
    requires forall g :: IsTcb(g) && g != w ==> thr'[g].waitMbx == thr[g].waitMbx
    ensures Shifted(l, Lag(l, thr), T.Remove(l, w), Lag(T.Remove(l, w), thr'), thr)
  {
    hide T.Remove, T.Deadline;
    T.RemoveDeadlines(l, w);
    SameLag(l, thr, T.Remove(l, w), thr');
  }

  /** A plain head goes: the others are put off by what it has run below zero, and that was the lag. */
  lemma PopShifts(l: seq<T.Entry>, thr: seq<Thread>, thr': seq<Thread>)
    requires |thr| == |thr'| == NR_TCB + 1 && l != [] && T.DistinctHandles(l) && T.DistinctHandles(l[1..])
    requires l[0].delta <= 0 && T.TailNonNegative(l) && IsTcb(l[0].h) && thr[l[0].h].waitMbx == 0
    requires forall g :: T.Listed(l[1..], g) && IsTcb(g) ==> thr'[g].waitMbx == thr[g].waitMbx
    ensures Shifted(l, Lag(l, thr), l[1..], Lag(l[1..], thr'), thr)
  {
    T.PopDeadlines(l);
    PlainHeadLag(l, thr);
    forall g | Plain(l[1..], thr', g) ensures T.Deadline(l[1..], g) >= 0 { T.DeadlineFromHead(l, g); }
    LagInTime(l[1..], thr');
  }

  /** One turn of the loop keeps the sum of deadline and lag for all who stay. */
  lemma TurnShifts(s: State)
    requires Inv(s) && HeadExpired(s)
    ensures Sound(s) && IsTcb(s.core.ts.sleepers[0].h) && Inv(ExpireOne(s))
    ensures var s' := ExpireOne(s);
      Shifted(s.core.ts.sleepers, LagOf(s), s'.core.ts.sleepers, LagOf(s'), s.core.ts.thr)
  {
    hide CoreOk, T.Remove, T.Deadline, Shifted, Deliver;
    HeadFacts(s);
    ExpireOneKeeps(s);
    var s' := ExpireOne(s);
    ListFacts(s);
    ListFacts(s');
    var l, thr, thr' := s.core.ts.sleepers, s.core.ts.thr, s'.core.ts.thr;
    var m := thr[l[0].h].waitMbx;
    if m != 0 {
      HeadWaits(s);
      if s.core.pool > 0 {
        DeliverKeeps(s.core, s.phase, m, TIMER_MSG);
        DequeueKeeps(s.core, s.phase, m);
        RemoveShifts(l, thr, s.core.boxes[m].waiters[0], thr');
      } else {
        NothingShifts(l, thr);
      }
    } else {
      WakeSleeperKeeps(s.core, s.phase);
      PopShifts(l, thr, thr');
    }
  }

  lemma NothingShifts(l: seq<T.Entry>, thr: seq<Thread>)
    requires |thr| == NR_TCB + 1 && T.DistinctHandles(l)
    ensures Shifted(l, Lag(l, thr), l, Lag(l, thr), thr)
  {
  }

  lemma NoLag(s: State)
    requires Inv(s) && !HeadExpired(s)
    ensures LagOf(s) == 0
    ensures forall g :: T.Listed(s.core.ts.sleepers, g) ==> T.Deadline(s.core.ts.sleepers, g) > 0
  {
    ListFacts(s);
    var l := s.core.ts.sleepers;
    forall g | T.Listed(l, g) ensures T.Deadline(l, g) > 0 { T.DeadlineFromHead(l, g); }
    assert PlainInTime(l, s.core.ts.thr);
  }

  /** The whole loop puts everybody off by the lag, and takes off exactly the plain sleepers that
      even then have no time left. */
  lemma {:induction false} ExpireShifts(s: State)
    requires Inv(s) && CanExpire(s)
    ensures Inv(Expire(s)) && LagOf(Expire(s)) == 0
    ensures Shifted(s.core.ts.sleepers, LagOf(s), Expire(s).core.ts.sleepers, 0, s.core.ts.thr)
    decreases |s.core.ts.sleepers|, WaitersAhead(s)
  {
    hide CoreOk;
    ExpireKeeps(s);
    if HeadExpired(s) {
      ExpireOneProgress(s);
      CanExpireNext(s);
      ExpireOneKeeps(s);
      ExpireShifts(ExpireOne(s));
      TurnShifts(s);
      ShiftedTrans(s, ExpireOne(s), Expire(s).core.ts.sleepers);
    } else {
      NoLag(s);
    }
  }

  lemma ShiftedTrans(s: State, s1: State, l2: seq<T.Entry>)
    requires Inv(s) && Inv(s1) && Turn(s, s1)
    requires Shifted(s.core.ts.sleepers, LagOf(s), s1.core.ts.sleepers, LagOf(s1), s.core.ts.thr)
    requires Shifted(s1.core.ts.sleepers, LagOf(s1), l2, 0, s1.core.ts.thr)
    ensures Shifted(s.core.ts.sleepers, LagOf(s), l2, 0, s.core.ts.thr)
  {
    hide CoreOk;
    ListFacts(s);
    ListFacts(s1);
    var l, l1 := s.core.ts.sleepers, s1.core.ts.sleepers;
    forall g | Plain(l, s.core.ts.thr, g) && !T.Listed(l2, g) ensures T.Deadline(l, g) + LagOf(s) <= 0 {
      if T.Listed(l1, g) { assert Plain(l1, s1.core.ts.thr, g); }
    }
  }

  /** Exactly when the loop leaves the deadlines of those who stay alone. */
  lemma ExpireInTime(s: State, h: int)
    requires Inv(s) && CanExpire(s) && T.Listed(Expire(s).core.ts.sleepers, h)
    ensures |s.core.ts.thr| == NR_TCB + 1 && T.Listed(s.core.ts.sleepers, h)
    ensures T.Deadline(Expire(s).core.ts.sleepers, h) >= T.Deadline(s.core.ts.sleepers, h)
    ensures T.Deadline(Expire(s).core.ts.sleepers, h) == T.Deadline(s.core.ts.sleepers, h)
        <==> PlainInTime(s.core.ts.sleepers, s.core.ts.thr)
  {
    hide CoreOk;
    ListFacts(s);
    ExpireShifts(s);
    LagInTime(s.core.ts.sleepers, s.core.ts.thr);
  }

  // ----- a thread that waits with a time limit, alone in line

  /** Thread h is on the timeout list and the only one that waits at mailbox m. */
  ghost predicate AloneInLine(s: State, h: int, m: int) {
    && Inv(s) && IsTcb(h) && IsMbx(m) && |s.core.boxes| == NR_MBX + 1
    && s.core.boxes[m].waiters == [h] && T.Listed(s.core.ts.sleepers, h)
  }

  lemma AloneFacts(s: State, h: int, m: int)
    requires AloneInLine(s, h, m)
    ensures Inv(s) && Sound(s) && s.core.ts.thr[h].waitMbx == m && s.phase[h] == InWait && h != s.running
    ensures s.core.ts.loc[h] == OnTimeoutList && Allocated(s.core.boxes[m])
    ensures forall g, k :: IsTcb(g) && IsMbx(k) ==> (g in s.core.boxes[k].waiters <==> s.core.ts.thr[g].waitMbx == k)
  {
    InvSound(s);
    ListFacts(s);
    CoreFacts(s.core, s.phase, h);
    CoreFacts(s.core, s.phase, s.running);
    WaitersFacts(s.core, s.phase, m);
    assert h in s.core.boxes[m].waiters;
    forall g, k | IsTcb(g) && IsMbx(k)
      ensures g in s.core.boxes[k].waiters <==> s.core.ts.thr[g].waitMbx == k
    {
      WaitersAgree(s.core, s.phase, g);
    }
  }

  /** The timer has given its message to h, who is on its ring. */
  ghost predicate TimedOut(s: State, h: int) {
    && |s.phase| == |s.core.ts.loc| == NR_TCB + 1 && IsTcb(h)
    && s.phase[h] == Woken(Payload(0x113, 0xffffffff, 0xffffffff)) && s.core.ts.loc[h].OnRing?
  }

  /** A turn of the loop for another thread leaves h in line; a turn for h gives it the message. */
  lemma AloneTurn(s: State, h: int, m: int)
    requires AloneInLine(s, h, m) && HeadExpired(s) && CanExpire(s)
    ensures Sound(s) && IsTcb(s.core.ts.sleepers[0].h)
    ensures if s.core.ts.sleepers[0].h == h then TimedOut(ExpireOne(s), h) else AloneInLine(ExpireOne(s), h, m)
  {
    hide CoreOk, T.Remove;
    HeadFacts(s);
    ExpireOneKeeps(s);
    AloneFacts(s, h, m);
    var l := s.core.ts.sleepers;
    var w := s.core.ts.thr[l[0].h].waitMbx;
    if w != 0 {
      HeadWaits(s);
      assert ExpiredWaiterAt(s, 0);
      DeliverKeeps(s.core, s.phase, w, TIMER_MSG);
      DequeueKeeps(s.core, s.phase, w);
      T.RemoveDeadlines(l, s.core.boxes[w].waiters[0]);
    } else {
      WakeSleeperKeeps(s.core, s.phase);
      T.PopDeadlines(l);
    }
  }

  /** Over the whole loop h stays in line if and only if it has time left, the lag added. */
  lemma {:induction false} ExpireAlone(s: State, h: int, m: int)
    requires AloneInLine(s, h, m) && CanExpire(s)
    ensures if T.Deadline(s.core.ts.sleepers, h) + LagOf(s) > 0 then AloneInLine(Expire(s), h, m)
            else TimedOut(Expire(s), h)
    decreases |s.core.ts.sleepers|, WaitersAhead(s)
  {
    hide CoreOk;
    var l := s.core.ts.sleepers;
    if HeadExpired(s) {
      ExpireOneProgress(s);
      CanExpireNext(s);
      AloneTurn(s, h, m);
      TurnShifts(s);
      ListFacts(s);
      var s1 := ExpireOne(s);
      if l[0].h == h {
        ExpirePhase(s1, h);
        ExpireKeeps(s1);
        HeadLag(s);
      } else {
        ExpireAlone(s1, h, m);
      }
    } else {
      NoLag(s);
    }
  }

  /** The head is never ahead of the plain sleepers. */
  lemma HeadLag(s: State)
    requires Inv(s) && HeadExpired(s)
    ensures s.core.ts.sleepers[0].delta + LagOf(s) <= 0
  {
    hide CoreOk;
    ListFacts(s);
    var l := s.core.ts.sleepers;
    if LagOf(s) > 0 {
      var g :| Plain(l, s.core.ts.thr, g) && T.Deadline(l, g) + LagOf(s) == 0;
      T.DeadlineFromHead(l, g);
    }
  }
}
