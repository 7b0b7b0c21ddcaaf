/** The abstract thread lists: which thread is on which list, and the list operations on them. */
module ThreadLists {
  import opened KernelTypes
  import opened Seqs
  import T = Timeouts

  datatype Loc = FreeTcb | OffList | OnRing(level: nat) | OnTimeoutList

  /** thr and loc are indexed by handle (slot 0 stands for no thread); rings[p] is the ready
      ring of priority p from its head on; handles from firstFree up are still unused. */
  datatype Threads = Threads(thr: seq<Thread>, loc: seq<Loc>, rings: seq<seq<int>>,
                             sleepers: seq<T.Entry>, firstFree: int)

  ghost predicate Sized(ts: Threads) {
    |ts.thr| == |ts.loc| == NR_TCB + 1 && |ts.rings| == LEVELS
  }

  /** The rings name threads. */
  ghost predicate Indexes(ts: Threads) {
    && |ts.rings| == LEVELS
    && forall p, j :: 0 <= p < LEVELS && 0 <= j < |ts.rings[p]| ==> 0 <= ts.rings[p][j] < |ts.thr|
  }

  ghost predicate RingMembers(loc: seq<Loc>, r: seq<int>, p: nat)
    requires |loc| == NR_TCB + 1
  {
    && Distinct(r)
    && (forall h :: h in r ==> IsTcb(h) && loc[h] == OnRing(p))
    && (forall h :: IsTcb(h) && loc[h] == OnRing(p) ==> h in r)
  }

  ghost predicate SleeperMembers(loc: seq<Loc>, l: seq<T.Entry>)
    requires |loc| == NR_TCB + 1
  {
    && T.DistinctHandles(l)
    && T.TailNonNegative(l)
    && (forall h :: T.Listed(l, h) ==> IsTcb(h) && loc[h] == OnTimeoutList)
    && (forall h :: IsTcb(h) && loc[h] == OnTimeoutList ==> T.Listed(l, h))
  }

  /** Every started thread is on exactly the list that loc names, and on no other. */
  ghost predicate WellFormed(ts: Threads) {
    && |ts.thr| == |ts.loc| == NR_TCB + 1
    && |ts.rings| == LEVELS
    && 2 <= ts.firstFree <= NR_TCB + 1
    && (forall h :: IsTcb(h) ==> (ts.loc[h] == FreeTcb <==> h >= ts.firstFree))
    && (forall p :: 0 <= p < LEVELS ==> RingMembers(ts.loc, ts.rings[p], p))
    && (forall h :: IsTcb(h) && ts.loc[h].OnRing? ==> ts.loc[h].level < LEVELS)
    && SleeperMembers(ts.loc, ts.sleepers)
  }

  /** The thread that is running when the kernel starts: ready, but on no ring. */
  const BOOT := 1
  const BOOT_THREAD := Thread(Status(false, false, false, true, true), 15, 2, 0, MT_NONE, NO_PAYLOAD)

  function FreeThread(h: int): Thread {
    Thread(TS_NONE, if h == 2 then 30 else 15, if h == 2 then 2 else 63, 0, MT_NONE, NO_PAYLOAD)
  }

  ghost function InitialThreads(): Threads {
    Threads(seq(NR_TCB + 1, h => if h == BOOT then BOOT_THREAD else FreeThread(h)),
            seq(NR_TCB + 1, h => if h == BOOT then OffList else FreeTcb),
            seq(LEVELS, _ => []), [], 2)
  }

  function SetThread(ts: Threads, h: int, t: Thread): Threads
    requires 0 <= h < |ts.thr|
  {
    ts.(thr := ts.thr[h := t])
  }

  /** Append to the tail of the ring of its priority. */
  function InsertReady(ts: Threads, h: int): Threads
    requires 0 <= h < |ts.thr| && |ts.loc| == |ts.thr| && |ts.rings| == LEVELS
  {
    var t := ts.thr[h];
    if t.priority >= LEVELS then ts
    else
      ts.(thr := ts.thr[h := t.(status := t.status.(ready := true))],
          loc := ts.loc[h := OnRing(t.priority)],
          rings := ts.rings[t.priority := ts.rings[t.priority] + [h]])
  }

  /** Delete from the ring it is on, if any; the flags are cleared either way. */
  function RemoveReady(ts: Threads, h: int): Threads
    requires 0 <= h < |ts.thr| && |ts.loc| == |ts.thr| && |ts.rings| == LEVELS
  {
    var t := ts.thr[h];
    if t.priority >= LEVELS then ts
    else
      ts.(thr := ts.thr[h := t.(status := TS_NONE)],
          loc := ts.loc[h := OffList],
          rings := ts.rings[t.priority := Without(ts.rings[t.priority], h)])
  }

  function InsertTimeout(ts: Threads, h: int, to: int): Threads
    requires 0 <= h < |ts.thr| && |ts.loc| == |ts.thr|
  {
    var t := ts.thr[h];
    ts.(thr := ts.thr[h := t.(status := t.status.(timeout := true))],
        loc := ts.loc[h := OnTimeoutList],
        sleepers := T.Insert(ts.sleepers, h, to))
  }

  function RemoveTimeout(ts: Threads, h: int): Threads
    requires 0 <= h < |ts.thr| && |ts.loc| == |ts.thr|
  {
    ts.(thr := ts.thr[h := ts.thr[h].(status := TS_NONE)],
        loc := ts.loc[h := OffList],
        sleepers := T.Remove(ts.sleepers, h))
  }

  function PopTimeout(ts: Threads): Threads
    requires ts.sleepers != [] && 0 <= ts.sleepers[0].h < |ts.thr| && |ts.loc| == |ts.thr|
  {
    var h := ts.sleepers[0].h;
    ts.(thr := ts.thr[h := ts.thr[h].(status := TS_NONE)],
        loc := ts.loc[h := OffList],
        sleepers := ts.sleepers[1..])
  }

  function Rotate(ts: Threads, p: nat, i: nat): Threads
    requires p < |ts.rings| && i <= |ts.rings[p]|
  {
    ts.(rings := ts.rings[p := RotateTo(ts.rings[p], i)])
  }

  /** Moving h between the off-list state and one list keeps every thread on one list only. */
  lemma SetLocFrame(loc: seq<Loc>, h: int, l: Loc, r: seq<int>, p: nat)
    requires |loc| == NR_TCB + 1 && IsTcb(h)
    requires RingMembers(loc, r, p) && loc[h] != OnRing(p) && l != OnRing(p)
    ensures RingMembers(loc[h := l], r, p)
  {
  }

  lemma SetLocSleepers(loc: seq<Loc>, h: int, l: Loc, s: seq<T.Entry>)
    requires |loc| == NR_TCB + 1 && IsTcb(h)
    requires SleeperMembers(loc, s) && loc[h] != OnTimeoutList && l != OnTimeoutList
    ensures SleeperMembers(loc[h := l], s)
  {
  }

  lemma InsertReadyWellFormed(ts: Threads, h: int)
    requires WellFormed(ts) && IsTcb(h) && ts.loc[h] == OffList
    ensures WellFormed(InsertReady(ts, h))
  {
    var p := ts.thr[h].priority;
    if p < LEVELS {
      var ts' := InsertReady(ts, h);
      forall q | 0 <= q < LEVELS ensures RingMembers(ts'.loc, ts'.rings[q], q) {
        if q == p {
          DistinctAppend(ts.rings[p], h);
        } else {
          SetLocFrame(ts.loc, h, OnRing(p), ts.rings[q], q);
        }
      }
      SetLocSleepers(ts.loc, h, OnRing(p), ts.sleepers);
    }
  }

  lemma RemoveReadyWellFormed(ts: Threads, h: int)
    requires WellFormed(ts) && IsTcb(h)
    requires ts.loc[h] == OffList || ts.loc[h] == OnRing(ts.thr[h].priority)
    ensures WellFormed(RemoveReady(ts, h))
  {
    var p := ts.thr[h].priority;
    if p < LEVELS {
      var ts' := RemoveReady(ts, h);
      forall q | 0 <= q < LEVELS ensures RingMembers(ts'.loc, ts'.rings[q], q) {
        if q == p {
          DistinctWithout(ts.rings[p], h);
        } else {
          SetLocFrame(ts.loc, h, OffList, ts.rings[q], q);
        }
      }
      SetLocSleepers(ts.loc, h, OffList, ts.sleepers);
    }
  }

  lemma InsertTimeoutWellFormed(ts: Threads, h: int, to: int)
    requires WellFormed(ts) && IsTcb(h) && ts.loc[h] == OffList
    ensures WellFormed(InsertTimeout(ts, h, to))
  {
    var ts' := InsertTimeout(ts, h, to);
    forall q | 0 <= q < LEVELS ensures RingMembers(ts'.loc, ts'.rings[q], q) {
      SetLocFrame(ts.loc, h, OnTimeoutList, ts.rings[q], q);
    }
    T.InsertKeepsShape(ts.sleepers, h, to);
    T.InsertDeadlines(ts.sleepers, h, to);
  }

  lemma RemoveTimeoutWellFormed(ts: Threads, h: int)
    requires WellFormed(ts) && IsTcb(h) && ts.loc[h] == OnTimeoutList
    ensures WellFormed(RemoveTimeout(ts, h))
  {
    var ts' := RemoveTimeout(ts, h);
    forall q | 0 <= q < LEVELS ensures RingMembers(ts'.loc, ts'.rings[q], q) {
      SetLocFrame(ts.loc, h, OffList, ts.rings[q], q);
    }
    T.RemoveKeepsShape(ts.sleepers, h);
    T.RemoveDeadlines(ts.sleepers, h);
  }

  lemma PopTimeoutWellFormed(ts: Threads)
    requires WellFormed(ts) && ts.sleepers != []
    ensures IsTcb(ts.sleepers[0].h) && ts.loc[ts.sleepers[0].h] == OnTimeoutList
    ensures WellFormed(PopTimeout(ts))
  {
    var h := ts.sleepers[0].h;
    assert T.Listed(ts.sleepers, h);
    var ts' := PopTimeout(ts);
    forall q | 0 <= q < LEVELS ensures RingMembers(ts'.loc, ts'.rings[q], q) {
      SetLocFrame(ts.loc, h, OffList, ts.rings[q], q);
    }
    T.PopDeadlines(ts.sleepers);
  }

  lemma RotateWellFormed(ts: Threads, p: nat, i: nat)
    requires WellFormed(ts) && p < LEVELS && i <= |ts.rings[p]|
    ensures WellFormed(Rotate(ts, p, i))
  {
    DistinctRotate(ts.rings[p], i);
    var ts' := Rotate(ts, p, i);
    forall q | 0 <= q < LEVELS ensures RingMembers(ts'.loc, ts'.rings[q], q) {
      assert RingMembers(ts.loc, ts.rings[q], q);
    }
  }
}
