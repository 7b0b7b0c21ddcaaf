/** Thread control blocks, the 32 ready rings and the timeout list
    (software/Femtiki/source/kernel/tcb.c). A panic that would be reached is written
    `assert false`. */
module ThreadTables {
  import opened KernelTypes
  import opened ThreadLists
  import opened ThreadWords
  import T = Timeouts

  /** The walk of the insertion: ht belongs after thread q and before thread p. */
  method FindTimeoutPlace(tc: seq<Tcb>, head: int, ghost l: seq<T.Entry>, ht: int, to: int)
    returns (q: int, p: int, rem: int, ghost i: nat)
    requires Walkable(tc, head, l, ht)
    ensures i <= |l|
    ensures q == HandleAt(l, i - 1) && p == HandleAt(l, i) && (q <= 0 <==> i == 0)
    ensures T.Insert(l, ht, to) == Spliced(l, i, rem, ht)
  {
    hide T.Insert, Spliced;
    q, p, rem, i := 0, head, to, 0;
    while p > 0 && rem > tc[p - 1].timeout
      invariant i <= |l|
      invariant q == HandleAt(l, i - 1) && p == HandleAt(l, i) && (q <= 0 <==> i == 0)
      invariant T.Insert(l, ht, to) == l[..i] + T.Insert(l[i..], ht, rem)
      decreases |l| - i
    {
      InsertUnfold(l, i, ht, rem);
      rem := rem - tc[p - 1].timeout;
      q := p;
      if tc[p - 1].next == ht {
        assert false;
      }
      p := tc[p - 1].next;
      i := i + 1;
    }
    InsertHere(l, i, ht, rem);
  }

  class ThreadTable {
    var tcbs: seq<Tcb>
    var readyQ: seq<int>
    var timeoutList: int
    var freeTCB: int
    ghost var ts: Threads

    ghost function Words(): Image
      reads this
    {
      Image(tcbs, readyQ, timeoutList, freeTCB)
    }

    ghost predicate Valid()
      reads this
    {
      Holds(Words(), ts)
    }

    /** The first thread is running; all other blocks are free, in order. */
    constructor ()
      ensures Valid() && ts == InitialThreads() && Settled(tcbs)
    {
      tcbs := seq(NR_TCB, _ => ZERO_TCB)[0 := ZERO_TCB.(info := BOOT_THREAD)];
      readyQ := seq(LEVELS, _ => 0);
      freeTCB, timeoutList := 2, 0;
      ts := InitialThreads();
      new;
      var nn := 1;
      while nn < NR_TCB
        invariant 1 <= nn <= NR_TCB == |tcbs|
        invariant tcbs[0] == ZERO_TCB.(info := BOOT_THREAD)
        invariant forall i :: 1 <= i < nn ==> tcbs[i] == ZERO_TCB.(next := i + 2, prev := i, info := FreeThread(i + 1))
        invariant readyQ == seq(LEVELS, _ => 0) && freeTCB == 2 && timeoutList == 0 && ts == InitialThreads()
      {
        tcbs := tcbs[nn := ZERO_TCB.(next := nn + 2, prev := nn, info := FreeThread(nn + 1))];
        nn := nn + 1;
      }
      tcbs := tcbs[NR_TCB - 1 := tcbs[NR_TCB - 1].(next := 0)];
      InitialHolds(Words());
    }

    method TCBInsertIntoReadyQueue(ht: int) returns (rr: Error)
      requires Valid()
      requires IsTcb(ht) && ts.loc[ht] == OffList
      modifies this
      ensures Valid() && ts == InsertReady(old(ts), ht)
      ensures rr == if old(ts).thr[ht].priority >= LEVELS then E_BadPriority else E_Ok
      ensures SameMailboxLinks(old(tcbs), tcbs)
    {
      hide Holds, WithNext, WithPrev;
      InsertionHolds(Words(), ts, ht);
      var p := ht - 1;
      var level := tcbs[p].info.priority;
      if level > 31 {
        return E_BadPriority;
      }
      var b := Readied(tcbs[p]);
      var hq := readyQ[level];
      if hq <= 0 {
        tcbs := tcbs[p := b.(next := ht, prev := ht)];
        readyQ := readyQ[level := ht];
      } else {
        var q := hq - 1;
        if p == q {
          assert false;
        }
        if tcbs[p].next != 0 || tcbs[p].prev != 0 {
          assert false;
        }
        var last := tcbs[q].prev;
        if last <= 0 {
          assert false;
        }
        tcbs := tcbs[p := b.(next := hq, prev := last)];
        tcbs := WithNext(tcbs, last, ht);
        tcbs := WithPrev(tcbs, hq, ht);
      }
      ts := InsertReady(ts, ht);
      return E_Ok;
    }

    method TCBRemoveFromReadyQueue(ht: int) returns (rr: Error)
      requires Valid()
      requires IsTcb(ht) && (ts.loc[ht] == OffList || ts.loc[ht] == OnRing(ts.thr[ht].priority))
      modifies this
      ensures Valid() && ts == RemoveReady(old(ts), ht)
      ensures rr == if old(ts).thr[ht].priority >= LEVELS then E_BadPriority else E_Ok
      ensures SameMailboxLinks(old(tcbs), tcbs)
    {
      hide Holds, WithNext, WithPrev, RemoveReady;
      RemovalHolds(Words(), ts, ht);
      var t := ht - 1;
      var level := tcbs[t].info.priority;
      if level > 31 {
        return E_BadPriority;
      }
      var hq := readyQ[level];
      var nxt, prv := tcbs[t].next, tcbs[t].prev;
      if ht == hq {
        readyQ := readyQ[level := if nxt == hq then 0 else nxt];
      }
      if nxt != ht {
        tcbs := WithPrev(tcbs, nxt, prv);
        tcbs := WithNext(tcbs, prv, nxt);
      }
      tcbs := tcbs[t := Cleared(tcbs[t])];
      ts := RemoveReady(ts, ht);
      return E_Ok;
    }

    method TCBInsertIntoTimeoutList(ht: int, to: int)
      requires Valid()
      requires IsTcb(ht) && ts.loc[ht] == OffList
      modifies this
      ensures Valid() && ts == InsertTimeout(old(ts), ht, to)
      ensures SameMailboxLinks(old(tcbs), tcbs)
    {
      ghost var m := Words();
      OffListFacts(m, ts, ht);
      WalkFacts(m, ts, ht);
      hide Walkable;
      if timeoutList == ht {
        assert false;
      }
      var t := ht - 1;
      if tcbs[t].next != 0 || tcbs[t].prev != 0 {
        assert false;
      }
      var q, p, rem, i := FindTimeoutPlace(tcbs, timeoutList, ts.sleepers, ht, to);
      LinkByWrites(tcbs, ht, q, p, rem, Timed(tcbs[t], rem));
      LinkSameMailbox(tcbs, ht, q, p, rem, Timed(tcbs[t], rem));
      InsertTimeoutHolds(m, ts, i, rem, ht, to);
      tcbs := tcbs[t := Timed(tcbs[t], rem).(next := p, prev := q)];
      tcbs := WithTimeoutAdded(tcbs, p, -rem);
      tcbs := WithPrev(tcbs, p, ht);
      tcbs := WithNext(tcbs, q, ht);
      if q <= 0 {
        timeoutList := ht;
      }
      ts := InsertTimeout(ts, ht, to);
    }

    method TCBRemoveFromTimeoutList(ht: int)
      requires Valid()
      requires IsTcb(ht) && ts.loc[ht] == OnTimeoutList
      modifies this
      ensures Valid() && ts == RemoveTimeout(old(ts), ht)
      ensures SameMailboxLinks(old(tcbs), tcbs)
    {
      ghost var m := Words();
      var i := TimedFacts(m, ts, ht);
      var t := ht - 1;
      var nxt, prv, left := tcbs[t].next, tcbs[t].prev, tcbs[t].timeout;
      UnlinkByWrites(tcbs, ht, prv, nxt, left);
      UnlinkSameMailbox(tcbs, ht, prv, nxt, left);
      T.RemoveShape(ts.sleepers, i);
      RemoveTimeoutWellFormed(ts, ht);
      CutHolds(m, ts, i, left, RemoveTimeout(ts, ht));
      tcbs := WithPrev(tcbs, nxt, prv);
      tcbs := WithTimeoutAdded(tcbs, nxt, left);
      tcbs := WithNext(tcbs, prv, nxt);
      assert tcbs[t] == m.tcbs[t];
      if ht == timeoutList {
        timeoutList := nxt;
      }
      tcbs := tcbs[t := Cleared(tcbs[t])];
      ts := RemoveTimeout(ts, ht);
    }

    method TCBPopTimeoutList() returns (h: int)
      requires Valid()
      modifies this
      ensures Valid() && SameMailboxLinks(old(tcbs), tcbs)
      ensures if old(ts).sleepers == [] then h == 0 && ts == old(ts)
              else h == old(ts).sleepers[0].h && IsTcb(h) && ts == PopTimeout(old(ts))
    {
      ghost var m := Words();
      if ts.sleepers != [] {
        PopTimeoutWellFormed(ts);
        var i := TimedFacts(m, ts, ts.sleepers[0].h);
      }
      h := timeoutList;
      if IsTcb(timeoutList) {
        var p := timeoutList - 1;
        var nxt := tcbs[p].next;
        UnlinkHeadByWrites(tcbs, h, nxt);
        UnlinkSameMailbox(tcbs, h, 0, nxt, 0);
        assert Cut(ts.sleepers, 0, 0) == ts.sleepers[1..];
        CutHolds(m, ts, 0, 0, PopTimeout(ts));
        timeoutList := nxt;
        tcbs := tcbs[p := Cleared(tcbs[p])];
        tcbs := WithPrev(tcbs, nxt, 0);
        ts := PopTimeout(ts);
      }
    }
  }
}
