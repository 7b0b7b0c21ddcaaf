/** Why the writes of Femtiki_kern.c to the thread control blocks keep the lists in order. */
module KernelWords {
  import opened KernelTypes
  import opened Seqs
  import opened ThreadLists
  import opened ThreadWords
  import opened Blocks
  import opened StoreWords
  import opened MailModel
  import opened MailWords
  import opened KernelState
  import opened KernelRuns
  import T = Timeouts

  /** What the search along a ring may rely on. */
  lemma RingWalk(m: Image, ts: Threads, p: nat)
    requires Holds(m, ts) && p < LEVELS
    ensures var r := ts.rings[p];
      && |m.tcbs| == NR_TCB && |ts.thr| == NR_TCB + 1 && |m.readyQ| == LEVELS && Distinct(r) && |r| <= NR_TCB
      && m.readyQ[p] == (if r == [] then 0 else r[0])
      && forall i :: 0 <= i < |r| ==>
           && IsTcb(r[i]) && m.tcbs[r[i] - 1].info == ts.thr[r[i]]
           && m.tcbs[r[i] - 1].next == r[if i + 1 < |r| then i + 1 else 0]
  {
    var r := ts.rings[p];
    assert Ring(m.tcbs, m.readyQ[p], r) && RingMembers(ts.loc, r, p);
    forall i | 0 <= i < |r|
      ensures IsTcb(r[i]) && m.tcbs[r[i] - 1].info == ts.thr[r[i]]
      ensures m.tcbs[r[i] - 1].next == r[if i + 1 < |r| then i + 1 else 0]
    {
      assert r[i] in r;
      assert RingLink(m.tcbs, r, i) && Slot(m.tcbs, ts, r[i]);
    }
    DistinctBound(r, NR_TCB);
  }

  /** The cut-off after NR_TCB blocks never cuts a ring short: distinct handles are no more. */
  lemma {:induction false} DistinctBound(r: seq<int>, n: nat)
    requires Distinct(r) && forall i :: 0 <= i < |r| ==> 1 <= r[i] <= n
    ensures |r| <= n
    decreases n
  {
    if n > 0 {
      if n in r {
        DistinctWithout(r, n);
        var s := Without(r, n);
        forall i | 0 <= i < |s| ensures 1 <= s[i] <= n - 1 {
          assert s[i] in s;
        }
        DistinctBound(s, n - 1);
      } else {
        forall i | 0 <= i < |r| ensures r[i] <= n - 1 {
          assert r[i] in r;
        }
        DistinctBound(r, n - 1);
      }
    }
  }

  /** Moving the head of a ring. */
  lemma RotateHolds(m: Image, ts: Threads, p: nat, i: nat)
    requires Holds(m, ts) && p < LEVELS && i < |ts.rings[p]|
    ensures Holds(m.(readyQ := m.readyQ[p := ts.rings[p][if i + 1 < |ts.rings[p]| then i + 1 else 0]]),
                  Rotate(ts, p, i + 1))
  {
    var r := ts.rings[p];
    var ts' := Rotate(ts, p, i + 1);
    var n := m.(readyQ := m.readyQ[p := r[if i + 1 < |r| then i + 1 else 0]]);
    RotateWellFormed(ts, p, i + 1);
    forall h | IsTcb(h) ensures Slot(n.tcbs, ts', h) && SameLinks(m.tcbs, n.tcbs, h) {
      assert Slot(m.tcbs, ts, h);
    }
    RingsFrame(m, n, ts, ts', p);
    RotatedRing(m.tcbs, m.readyQ[p], r, i + 1);
  }

  lemma RotatedRing(tc: seq<Tcb>, head: int, r: seq<int>, i: nat)
    requires Ring(tc, head, r) && 0 < i <= |r|
    ensures Ring(tc, r[if i < |r| then i else 0], RotateTo(r, i))
  {
    var s := RotateTo(r, i);
    forall j | 0 <= j < |s| ensures RingLink(tc, s, j) {
      var k := if j < |r| - i then i + j else j - (|r| - i);
      assert s[j] == r[k] && RingLink(tc, r, k);
    }
  }

  /** Charging the head of the timeout list. */
  lemma ChargeHolds(m: Image, ts: Threads, ticks: int)
    requires Holds(m, ts) && ts.sleepers != []
    ensures IsTcb(m.timeoutList) && m.timeoutList == ts.sleepers[0].h
    ensures var h := m.timeoutList;
      && m.tcbs[h - 1].timeout == ts.sleepers[0].delta
      && Holds(m.(tcbs := WithTimeoutAdded(m.tcbs, h, -ticks)), ts.(sleepers := T.Charge(ts.sleepers, ticks)))
  {
    var l := ts.sleepers;
    var h := m.timeoutList;
    assert ListLink(m.tcbs, l, 0) && T.Listed(l, h);
    var n := m.(tcbs := WithTimeoutAdded(m.tcbs, h, -ticks));
    var l' := T.Charge(l, ticks);
    var ts' := ts.(sleepers := l');
    T.ChargeDeadlines(l, ticks);
    forall g | IsTcb(g) ensures Slot(n.tcbs, ts', g) && (ts.loc[g].OnRing? ==> SameLinks(m.tcbs, n.tcbs, g)) {
      assert Slot(m.tcbs, ts, g);
    }
    AllRingsFrame(m, n, ts);
    forall i | 0 <= i < |l'| ensures ListLink(n.tcbs, l', i) {
      assert ListLink(m.tcbs, l, i);
    }
    forall p | 0 <= p < LEVELS ensures RingMembers(ts'.loc, ts'.rings[p], p) {
      assert RingMembers(ts.loc, ts.rings[p], p);
    }
  }

  /** The head of the timeout list, if there is one. */
  lemma HeadHeld(m: Image, ts: Threads)
    requires Holds(m, ts)
    ensures |m.tcbs| == NR_TCB && |ts.thr| == NR_TCB + 1
    ensures if ts.sleepers == [] then m.timeoutList == 0
            else IsTcb(m.timeoutList) && m.timeoutList == ts.sleepers[0].h
                 && m.tcbs[m.timeoutList - 1].timeout == ts.sleepers[0].delta
                 && m.tcbs[m.timeoutList - 1].info == ts.thr[m.timeoutList]
  {
    if ts.sleepers != [] {
      assert ListLink(m.tcbs, ts.sleepers, 0) && T.Listed(ts.sleepers, m.timeoutList);
      assert Slot(m.tcbs, ts, m.timeoutList);
    }
  }

  /** A block as it is taken for a new thread. */
  function Taken(t: Tcb, priority: int, affinity: int): Tcb {
    t.(next := 0, prev := 0, info := t.info.(status := TS_NONE, priority := priority % 256, affinity := affinity))
  }

  lemma TakeTcbHolds(m: Image, ts: Threads, priority: int, affinity: int)
    requires Holds(m, ts)
    ensures IsTcb(m.freeTCB) <==> IsTcb(ts.firstFree)
    ensures IsTcb(ts.firstFree) ==>
      var h := m.freeTCB;
      && h == ts.firstFree && ts.loc[h] == FreeTcb && TakeTcb(ts, priority, affinity).loc[h] == OffList
      && Holds(m.(tcbs := m.tcbs[h - 1 := Taken(m.tcbs[h - 1], priority, affinity)], freeTCB := m.tcbs[h - 1].next),
               TakeTcb(ts, priority, affinity))
  {
    if IsTcb(ts.firstFree) {
      var h := m.freeTCB;
      var ts' := TakeTcb(ts, priority, affinity);
      var n := m.(tcbs := m.tcbs[h - 1 := Taken(m.tcbs[h - 1], priority, affinity)], freeTCB := m.tcbs[h - 1].next);
      assert Slot(m.tcbs, ts, h);
      TakeTcbWellFormed(ts, priority, affinity);
      forall g | IsTcb(g) ensures Slot(n.tcbs, ts', g) && (g != h ==> SameLinks(m.tcbs, n.tcbs, g)) {
        assert Slot(m.tcbs, ts, g);
      }
      AllRingsFrame(m, n, ts);
      assert !T.Listed(ts.sleepers, h);
      ListFrame(m.tcbs, n.tcbs, m.timeoutList, ts.sleepers);
    }
  }

  lemma TakeTcbWellFormed(ts: Threads, priority: int, affinity: int)
    requires WellFormed(ts) && IsTcb(ts.firstFree)
    ensures WellFormed(TakeTcb(ts, priority, affinity))
  {
    var h := ts.firstFree;
    var ts' := TakeTcb(ts, priority, affinity);
    forall p | 0 <= p < LEVELS ensures RingMembers(ts'.loc, ts'.rings[p], p) {
      SetLocFrame(ts.loc, h, OffList, ts.rings[p], p);
    }
    SetLocSleepers(ts.loc, h, OffList, ts.sleepers);
  }

  /** The mailboxes hold on while the thread lists change and nobody starts or ends a wait. */
  lemma ThreadMail(w: Image, s: Store, c: Core, o: Ownership, w': Image, ts': Threads)
    requires MailHolds(w, s, c, o) && Holds(w', ts') && SameMailboxLinks(w.tcbs, w'.tcbs)
    requires |ts'.thr| == |c.ts.thr| && forall g :: IsTcb(g) ==> ts'.thr[g].waitMbx == c.ts.thr[g].waitMbx
    ensures MailHolds(w', s, c.(ts := ts'), o)
  {
    WaitsFrame(s.mailbox, s.mailbox, w.tcbs, w'.tcbs, c.ts.thr, ts'.thr, c.boxes, c.boxes);
  }
}
