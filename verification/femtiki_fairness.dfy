/** How long a ready thread waits to be chosen
    (software/Femtiki/source/kernel/Femtiki_kern.c, SelectThreadToRun and its helper). */
module KernelFairness {
  import opened KernelTypes
  import opened Seqs
  import opened ThreadLists
  import opened MailModel
  import opened KernelState
  import opened KernelInvariant
  import opened Division

  /** The threads of a ring that may run here, in ring order. */
  function Eligibles(thr: seq<Thread>, r: seq<int>): seq<int>
    requires forall j :: 0 <= j < |r| ==> 0 <= r[j] < |thr|
  {
    if r == [] then []
    else (if Eligible(thr[r[0]]) then [r[0]] else []) + Eligibles(thr, r[1..])
  }

  /** The queue of level p: who is chosen there next, and after that. */
  ghost function Queue(ts: Threads, p: nat): seq<int>
    requires Indexes(ts) && p < LEVELS
  {
    Eligibles(ts.thr, ts.rings[p])
  }

  lemma {:induction false} EligiblesConcat(thr: seq<Thread>, a: seq<int>, b: seq<int>)
    requires forall j :: 0 <= j < |a| ==> 0 <= a[j] < |thr|
    requires forall j :: 0 <= j < |b| ==> 0 <= b[j] < |thr|
    ensures Eligibles(thr, a + b) == Eligibles(thr, a) + Eligibles(thr, b)
  {
    if a == [] {
      assert a + b == b;
    } else {
      hide Eligible;
      assert (a + b)[0] == a[0] && (a + b)[1..] == a[1..] + b;
      EligiblesConcat(thr, a[1..], b);
      assert forall j :: 0 <= j < |a + b| ==> 0 <= (a + b)[j] < |thr|;
    }
  }

  lemma {:induction false} EligiblesSplit(thr: seq<Thread>, r: seq<int>)
    requires forall j :: 0 <= j < |r| ==> 0 <= r[j] < |thr|
    ensures var i := FirstEligible(thr, r);
      && Eligibles(thr, r[..i]) == []
      && (i == |r| <==> Eligibles(thr, r) == [])
      && (i < |r| ==> Eligibles(thr, r) == [r[i]] + Eligibles(thr, r[i + 1..]))
  {
    hide Eligible;
    if r != [] {
      var i := FirstEligible(thr, r);
      if i == 0 {
        assert r[..0] == [];
      } else {
        EligiblesSplit(thr, r[1..]);
        assert r[..i][1..] == r[1..][..i - 1];
        if i < |r| { assert r[i + 1..] == r[1..][i..]; }
      }
    }
  }

  lemma {:induction false} EligiblesSame(thr: seq<Thread>, thr': seq<Thread>, r: seq<int>)
    requires |thr| == |thr'| && forall j :: 0 <= j < |r| ==> 0 <= r[j] < |thr|
    requires forall h :: 0 <= h < |thr| ==> thr'[h].affinity == thr[h].affinity
    ensures Eligibles(thr', r) == Eligibles(thr, r)
  {
    if r != [] { EligiblesSame(thr, thr', r[1..]); }
  }

  lemma {:induction false} EligiblesMembers(thr: seq<Thread>, r: seq<int>, h: int)
    requires forall j :: 0 <= j < |r| ==> 0 <= r[j] < |thr|
    ensures h in Eligibles(thr, r) <==> h in r && 0 <= h < |thr| && Eligible(thr[h])
  {
    if r != [] {
      EligiblesMembers(thr, r[1..], h);
      assert r == [r[0]] + r[1..];
    }
  }

  lemma {:induction false} EligiblesDistinct(thr: seq<Thread>, r: seq<int>)
    requires Distinct(r) && forall j :: 0 <= j < |r| ==> 0 <= r[j] < |thr|
    ensures Distinct(Eligibles(thr, r))
  {
    if r != [] {
      EligiblesDistinct(thr, r[1..]);
      EligiblesMembers(thr, r[1..], r[0]);
      assert forall j :: 1 <= j < |r| ==> r[j] != r[0];
    }
  }

  // ----- one level

  /** Choosing at a level takes the first of its queue, who then queues up behind the others; -1
      means that nobody of the level may run here. No other level's queue moves. */
  lemma PickAtTurns(ts: Threads, p: nat)
    requires Indexes(ts) && p < LEVELS
    ensures var q := Queue(ts, p); var (ts', h) := PickAt(ts, p);
      && (q == [] ==> h == -1 && ts' == ts)
      && (q != [] ==> h == q[0])
      && Indexes(ts') && (q != [] ==> Queue(ts', p) == q[1..] + [q[0]])
      && forall k :: 0 <= k < LEVELS && k != p ==> Queue(ts', k) == Queue(ts, k)
  {
    var r := ts.rings[p];
    assert forall j :: 0 <= j < |r| ==> 0 <= ts.rings[p][j] < |ts.thr|;
    EligiblesSplit(ts.thr, r);
    var i := FirstEligible(ts.thr, r);
    if i < |r| {
      RotateIndexes(ts, p, i + 1);
      assert r[..i + 1] == r[..i] + [r[i]];
      EligiblesConcat(ts.thr, r[i + 1..], r[..i + 1]);
      EligiblesConcat(ts.thr, r[..i], [r[i]]);
      assert [r[i]][1..] == [];
    }
  }

  lemma RotateIndexes(ts: Threads, p: nat, i: nat)
    requires Indexes(ts) && p < LEVELS && i <= |ts.rings[p]|
    ensures Indexes(Rotate(ts, p, i))
  {
    var r := ts.rings[p];
    var r' := RotateTo(r, i);
    forall j | 0 <= j < |r'| ensures 0 <= r'[j] < |ts.thr| {
      assert r'[j] == ts.rings[p][if j < |r| - i then j + i else j - (|r| - i)];
    }
  }

  /** The first n choices made at level p. */
  ghost function Picks(ts: Threads, p: nat, n: nat): seq<int>
    requires Indexes(ts) && p < LEVELS
    decreases n
  {
    if n == 0 then []
    else
      PickAtTurns(ts, p);
      [PickAt(ts, p).1] + Picks(PickAt(ts, p).0, p, n - 1)
  }

  /** Round robin: the choices at a level go round its m eligible threads in ring order, so m
      choices in a row take each of them once. */
  lemma {:induction false} RoundRobin(ts: Threads, p: nat, n: nat)
    requires Indexes(ts) && p < LEVELS && Queue(ts, p) != []
    ensures var q := Queue(ts, p);
      && |Picks(ts, p, n)| == n
      && forall k :: 0 <= k < n ==> Picks(ts, p, n)[k] == Nth(q, k)
    decreases n
  {
    hide Queue, PickAt, Nth;
    if n > 0 {
      PickAtTurns(ts, p);
      var q := Queue(ts, p);
      var ts' := PickAt(ts, p).0;
      RoundRobin(ts', p, n - 1);
      forall k | 0 <= k < n ensures Picks(ts, p, n)[k] == Nth(q, k) {
        NextTurn(q, if k > 0 then k - 1 else 0);
        if k > 0 { assert Picks(ts, p, n)[k] == Picks(ts', p, n - 1)[k - 1]; }
      }
    }
  }

  /** The k-th to be served when q is gone round again and again. */
  function Nth(q: seq<int>, k: nat): int
    requires q != []
  {
    q[k % |q|]
  }

  lemma NextTurn(q: seq<int>, k: nat)
    requires q != []
    ensures Nth(q, 0) == q[0] && Nth(q[1..] + [q[0]], k) == Nth(q, k + 1)
  {
    var m := |q|;
    var d, r := k / m, k % m;
    assert k + 1 == d * m + (r + 1);
    if r + 1 == m {
      assert k + 1 == (d + 1) * m;
      QuotientIs(k + 1, m, d + 1, 0);
    } else {
      QuotientIs(k + 1, m, d, r + 1);
    }
  }

  /** All m threads, each once: the first m choices are the queue itself. */
  lemma OneRound(ts: Threads, p: nat)
    requires Indexes(ts) && p < LEVELS && Queue(ts, p) != [] && Distinct(ts.rings[p])
    ensures Picks(ts, p, |Queue(ts, p)|) == Queue(ts, p) && Distinct(Queue(ts, p))
    ensures forall h :: h in Queue(ts, p) <==> h in ts.rings[p] && 0 <= h < |ts.thr| && Eligible(ts.thr[h])
  {
    RoundRobin(ts, p, |Queue(ts, p)|);
    hide PickAt;
    assert forall j :: 0 <= j < |ts.rings[p]| ==> 0 <= ts.rings[p][j] < |ts.thr|;
    EligiblesDistinct(ts.thr, ts.rings[p]);
    forall h ensures h in Queue(ts, p) <==> h in ts.rings[p] && 0 <= h < |ts.thr| && Eligible(ts.thr[h]) {
      EligiblesMembers(ts.thr, ts.rings[p], h);
    }
    forall k | 0 <= k < |Queue(ts, p)| ensures k % |Queue(ts, p)| == k {
      QuotientIs(k, |Queue(ts, p)|, 0, k);
    }
  }

  // ----- all levels

  /** p is the highest level where some thread may run here. */
  ghost predicate Highest(ts: Threads, p: nat)
    requires Indexes(ts)
  {
    p < LEVELS && Queue(ts, p) != [] && forall q :: p < q < LEVELS ==> Queue(ts, q) == []
  }

  /** p is the lowest one. */
  ghost predicate Lowest(ts: Threads, p: nat)
    requires Indexes(ts)
  {
    p < LEVELS && Queue(ts, p) != [] && forall q :: 0 <= q < p ==> Queue(ts, q) == []
  }

  lemma {:induction false} PickDownAt(ts: Threads, top: nat, p: nat)
    requires Indexes(ts) && p <= top < LEVELS && Queue(ts, p) != []
    requires forall h :: h in Queue(ts, p) ==> h > 0
    requires forall q :: p < q <= top ==> Queue(ts, q) == []
    ensures PickDown(ts, top) == PickAt(ts, p)
  {
    PickAtTurns(ts, top);
    assert Queue(ts, p)[0] in Queue(ts, p);
    if top > p { PickDownAt(ts, top - 1, p); }
  }

  lemma {:induction false} PickUpAt(ts: Threads, bottom: nat, p: nat)
    requires Indexes(ts) && bottom <= p < LEVELS && Queue(ts, p) != []
    requires forall h :: h in Queue(ts, p) ==> h > 0
    requires forall q :: bottom <= q < p ==> Queue(ts, q) == []
    ensures PickUp(ts, bottom) == PickAt(ts, p)
    decreases p - bottom
  {
    PickAtTurns(ts, bottom);
    assert Queue(ts, p)[0] in Queue(ts, p);
    if bottom < p { PickUpAt(ts, bottom + 1, p); }
  }

  /** The rings hold threads, not the 0 that stands for none. */
  ghost predicate Proper(ts: Threads) {
    Indexes(ts) && forall p, h {:trigger h in ts.rings[p]} :: 0 <= p < LEVELS && h in ts.rings[p] ==> h > 0
  }

  /** The level at which the choice with this count is made. */
  function LevelOf(invert: nat, highest: nat, lowest: nat): nat {
    if invert % 32 == 0 then lowest else highest
  }

  lemma PickTurns(ts: Threads, invert: nat, hi: nat, lo: nat)
    requires Proper(ts) && Highest(ts, hi) && Lowest(ts, lo)
    ensures Pick(ts, invert) == PickAt(ts, LevelOf(invert, hi, lo))
  {
    var p := LevelOf(invert, hi, lo);
    forall h | h in Queue(ts, p) ensures h > 0 {
      assert forall j :: 0 <= j < |ts.rings[p]| ==> 0 <= ts.rings[p][j] < |ts.thr|;
      EligiblesMembers(ts.thr, ts.rings[p], h);
    }
    if invert % 32 == 0 {
      PickUpAt(ts, 0, lo);
    } else {
      PickDownAt(ts, LEVELS - 1, hi);
    }
  }

  // ----- traces in which the ready set stays as it is

  ghost predicate SameAffinities(s: State, s': State) {
    && |s.core.ts.thr| == |s'.core.ts.thr|
    && forall h :: 0 <= h < |s.core.ts.thr| ==> s'.core.ts.thr[h].affinity == s.core.ts.thr[h].affinity
  }

  /** From s to s' a thread is chosen, and nothing else happens to the rings. */
  ghost predicate Choice(s: State, s': State)
    requires Indexes(s.core.ts)
  {
    var (ts, h) := Pick(s.core.ts, s.invert + 1);
    && s'.invert == s.invert + 1 && s'.running == h
    && s'.core.ts.rings == ts.rings && SameAffinities(s, s')
  }

  /** From s to s' neither the rings nor the count of choices change. */
  ghost predicate Calm(s: State, s': State) {
    s'.invert == s.invert && s'.core.ts.rings == s.core.ts.rings && SameAffinities(s, s')
  }

  /** States one after the other, with choices or calm steps in between. */
  ghost predicate Fixed(trace: seq<State>) {
    && (forall i :: 0 <= i < |trace| ==> Proper(trace[i].core.ts))
    && (forall i, j :: 0 <= i && j == i + 1 && j < |trace| ==>
          Choice(trace[i], trace[j]) || Calm(trace[i], trace[j]))
  }

  /** Thread g is chosen somewhere in the trace. */
  ghost predicate GetsATurn(trace: seq<State>, g: int)
    requires Fixed(trace)
  {
    exists i, j :: 0 <= i && j == i + 1 && j < |trace| && Choice(trace[i], trace[j]) && trace[j].running == g
  }

  /** Rescheduling is a choice. */
  lemma ReschedIsChoice(s: State)
    requires Inv(s)
    ensures Sound(s) && Choice(s, Resched(s)) && Proper(s.core.ts) && Proper(Resched(s).core.ts)
  {
    hide CoreOk;
    InvSound(s);
    CoreFacts(s.core, s.phase, s.running);
    FlagKeeps(s.core, s.phase, s.running, false);
    var s1 := s.(core := s.core.(ts := Flag(s.core.ts, s.running, false)));
    SwitchIsChoice(s, s1);
  }

  /** So is switching, from any state with the rings and affinities of s. */
  lemma SwitchIsChoice(s: State, s1: State)
    requires Inv(s) && Sound(s) && CoreOk(s1.core, s1.phase) && IsTcb(s1.running)
    requires s1.core.ts.loc == s.core.ts.loc && s1.core.ts.rings == s.core.ts.rings && s1.invert == s.invert
    requires SameAffinities(s, s1)
    ensures Sound(s1) && Choice(s, SwitchTo(s1)) && Proper(s.core.ts) && Proper(SwitchTo(s1).core.ts)
  {
    hide CoreOk;
    CoreFacts(s.core, s.phase, IDLE);
    CoreFacts(s1.core, s1.phase, IDLE);
    SwitchPicks(s, s1);
    CoreProper(s.core, s.phase);
  }

  lemma SwitchPicks(s: State, s1: State)
    requires Indexes(s.core.ts) && CoreOk(s1.core, s1.phase) && IsTcb(s1.running)
    requires s1.core.ts.loc[IDLE].OnRing? && s1.core.ts.thr[IDLE].affinity == CPU
    requires s1.core.ts.rings == s.core.ts.rings && s1.invert == s.invert && SameAffinities(s, s1)
    ensures Sound(s1) && Choice(s, SwitchTo(s1)) && Proper(SwitchTo(s1).core.ts)
  {
    hide CoreOk;
    CoreOkShaped(s1.core, s1.phase);
    CoreFacts(s1.core, s1.phase, IDLE);
    PickAndFlagKeeps(s1.core, s1.phase, s1.invert + 1);
    PickSame(s.core.ts, s1.core.ts, s.invert + 1);
    CoreProper(SwitchTo(s1).core, s1.phase);
  }

  lemma CoreProper(c: Core, phase: seq<Phase>)
    requires CoreOk(c, phase)
    ensures Proper(c.ts)
  {
    CoreOkShaped(c, phase);
    forall p, h | 0 <= p < LEVELS && h in c.ts.rings[p] ensures h > 0 {
      assert RingMembers(c.ts.loc, c.ts.rings[p], p);
    }
  }

  /** Same rings, and the same threads may run here. */
  ghost predicate SameQueues(ts: Threads, ts': Threads) {
    && Indexes(ts) && Indexes(ts') && ts'.rings == ts.rings && |ts'.thr| == |ts.thr|
    && forall h :: 0 <= h < |ts.thr| ==> ts'.thr[h].affinity == ts.thr[h].affinity
  }

  /** Flags and the timeout list make no difference to the choice. */
  lemma PickSame(ts: Threads, ts': Threads, invert: nat)
    requires SameQueues(ts, ts')
    ensures var a, b := Pick(ts, invert), Pick(ts', invert);
      a.1 == b.1 && a.0.rings == b.0.rings
  {
    PickDownSame(ts, ts', LEVELS - 1);
    PickUpSame(ts, ts', 0);
  }

  lemma PickAtSame(ts: Threads, ts': Threads, p: nat)
    requires SameQueues(ts, ts') && p < LEVELS
    ensures var a, b := PickAt(ts, p), PickAt(ts', p);
      a.1 == b.1 && a.0.rings == b.0.rings
  {
    assert forall j :: 0 <= j < |ts.rings[p]| ==> 0 <= ts.rings[p][j] < |ts.thr|;
    FirstSame(ts.thr, ts'.thr, ts.rings[p]);
  }

  lemma {:induction false} FirstSame(thr: seq<Thread>, thr': seq<Thread>, r: seq<int>)
    requires |thr| == |thr'| && forall j :: 0 <= j < |r| ==> 0 <= r[j] < |thr|
    requires forall h :: 0 <= h < |thr| ==> thr'[h].affinity == thr[h].affinity
    ensures FirstEligible(thr', r) == FirstEligible(thr, r)
  {
    if r != [] { FirstSame(thr, thr', r[1..]); }
  }

  lemma {:induction false} PickDownSame(ts: Threads, ts': Threads, p: int)
    requires SameQueues(ts, ts') && p < LEVELS
    ensures var a, b := PickDown(ts, p), PickDown(ts', p);
      a.1 == b.1 && a.0.rings == b.0.rings
    decreases p + 1
  {
    if p >= 0 {
      PickAtSame(ts, ts', p);
      PickDownSame(ts, ts', p - 1);
    }
  }

  lemma {:induction false} PickUpSame(ts: Threads, ts': Threads, p: int)
    requires SameQueues(ts, ts') && 0 <= p
    ensures var a, b := PickUp(ts, p), PickUp(ts', p);
      a.1 == b.1 && a.0.rings == b.0.rings
    decreases LEVELS - p
  {
    if p < LEVELS {
      PickAtSame(ts, ts', p);
      PickUpSame(ts, ts', p + 1);
    }
  }

  // ----- bounded waiting

  /** How many of the choices number a + 1 to b look from the highest level down, and how many
      from the lowest up. */
  function Downs(a: nat, b: nat): int {
    b - a - Ups(a, b)
  }

  function Ups(a: nat, b: nat): int {
    b / 32 - a / 32
  }

  /** One step of a trace: who is next at a level either gets the turn or stays next but one
      nearer. */
  lemma TurnOrNearer(s: State, s': State, hi: nat, lo: nat, p: nat, j: nat)
    requires Proper(s.core.ts) && Proper(s'.core.ts) && Choice(s, s')
    requires Highest(s.core.ts, hi) && Lowest(s.core.ts, lo) && p < LEVELS && j < |Queue(s.core.ts, p)|
    ensures Highest(s'.core.ts, hi) && Lowest(s'.core.ts, lo) && s'.invert == s.invert + 1
    ensures var q, q' := Queue(s.core.ts, p), Queue(s'.core.ts, p);
      && |q'| == |q|
      && if LevelOf(s.invert + 1, hi, lo) != p then q' == q
         else if j == 0 then s'.running == q[0] else q'[j - 1] == q[j]
  {
    var level := LevelOf(s.invert + 1, hi, lo);
    PickTurns(s.core.ts, s.invert + 1, hi, lo);
    PickAtTurns(s.core.ts, level);
    var ts := Pick(s.core.ts, s.invert + 1).0;
    forall k | 0 <= k < LEVELS ensures Queue(s'.core.ts, k) == Queue(ts, k) {
      assert forall i :: 0 <= i < |ts.rings[k]| ==> 0 <= ts.rings[k][i] < |ts.thr|;
      EligiblesSame(ts.thr, s'.core.ts.thr, ts.rings[k]);
    }
    forall k | 0 <= k < LEVELS ensures Queue(s'.core.ts, k) == [] <==> Queue(s.core.ts, k) == [] { }
  }

  lemma CalmQueues(s: State, s': State)
    requires Proper(s.core.ts) && Proper(s'.core.ts) && Calm(s, s')
    ensures s'.invert == s.invert
    ensures forall k :: 0 <= k < LEVELS ==> Queue(s'.core.ts, k) == Queue(s.core.ts, k)
  {
    forall k | 0 <= k < LEVELS ensures Queue(s'.core.ts, k) == Queue(s.core.ts, k) {
      assert forall i :: 0 <= i < |s.core.ts.rings[k]| ==> 0 <= s.core.ts.rings[k][i] < |s.core.ts.thr|;
      EligiblesSame(s.core.ts.thr, s'.core.ts.thr, s.core.ts.rings[k]);
    }
  }

  /** Thread g, with j others of its level before it, gets its turn once more than j choices have
      been made at its level. */
  lemma {:induction false} TurnComes(trace: seq<State>, hi: nat, lo: nat, p: nat, j: nat, g: int)
    requires trace != [] && Fixed(trace) && p < LEVELS
    requires Highest(trace[0].core.ts, hi) && Lowest(trace[0].core.ts, lo)
    requires j < |Queue(trace[0].core.ts, p)| && Queue(trace[0].core.ts, p)[j] == g
    requires || (p == hi && j < Downs(trace[0].invert, trace[|trace| - 1].invert))
             || (p == lo && j < Ups(trace[0].invert, trace[|trace| - 1].invert))
    ensures GetsATurn(trace, g)
    decreases |trace|
  {
    hide Choice, Calm, Queue, GetsATurn;
    if |trace| > 1 {
      var s, s', rest := trace[0], trace[1], trace[1..];
      RestFixed(trace, g);
      if Choice(s, s') {
        TurnOrNearer(s, s', hi, lo, p, j);
        var here := LevelOf(s.invert + 1, hi, lo) == p;
        if here && j == 0 {
          HasTurn(trace, g, 0);
        } else {
          TurnComes(rest, hi, lo, p, if here then j - 1 else j, g);
        }
      } else {
        assert Calm(s, s');
        CalmQueues(s, s');
        TurnComes(rest, hi, lo, p, j, g);
      }
    }
  }

  lemma HasTurn(trace: seq<State>, g: int, i: nat)
    requires Fixed(trace) && i + 1 < |trace| && Choice(trace[i], trace[i + 1]) && trace[i + 1].running == g
    ensures GetsATurn(trace, g)
  {
    hide Choice;
  }

  lemma RestFixed(trace: seq<State>, g: int)
    requires trace != [] && Fixed(trace)
    ensures Fixed(trace[1..]) && (GetsATurn(trace[1..], g) ==> GetsATurn(trace, g))
  {
    hide Choice, Calm;
    var rest := trace[1..];
    assert forall i :: 0 <= i < |rest| ==> rest[i] == trace[i + 1];
    if GetsATurn(rest, g) {
      var a, b :| 0 <= a && b == a + 1 && b < |rest| && Choice(rest[a], rest[b]) && rest[b].running == g;
      HasTurn(trace, g, a + 1);
    }
  }

  lemma LowestExists(ts: Threads, hi: nat) returns (lo: nat)
    requires Indexes(ts) && hi < LEVELS && Queue(ts, hi) != []
    ensures Lowest(ts, lo)
  {
    lo := 0;
    while Queue(ts, lo) == []
      invariant lo <= hi && forall q :: 0 <= q < lo ==> Queue(ts, q) == []
      decreases hi - lo
    {
      lo := lo + 1;
    }
  }

  lemma HighestExists(ts: Threads, lo: nat) returns (hi: nat)
    requires Indexes(ts) && lo < LEVELS && Queue(ts, lo) != []
    ensures Highest(ts, hi)
  {
    hi := LEVELS - 1;
    while Queue(ts, hi) == []
      invariant lo <= hi < LEVELS && forall q :: hi < q < LEVELS ==> Queue(ts, q) == []
      decreases hi
    {
      hi := hi - 1;
    }
  }

  /** While the ready set stays as it is, each of the m eligible threads of the highest level is
      chosen within any 2m choices. */
  lemma HighestTurnComes(trace: seq<State>, p: nat, g: int)
    requires trace != [] && Fixed(trace) && Highest(trace[0].core.ts, p) && g in Queue(trace[0].core.ts, p)
    requires trace[|trace| - 1].invert >= trace[0].invert + 2 * |Queue(trace[0].core.ts, p)|
    ensures GetsATurn(trace, g)
  {
    var lo := LowestExists(trace[0].core.ts, p);
    var j :| 0 <= j < |Queue(trace[0].core.ts, p)| && Queue(trace[0].core.ts, p)[j] == g;
    TurnComes(trace, p, lo, p, j, g);
  }

  /** And each of the m eligible threads of the lowest level within any 32m choices. */
  lemma LowestTurnComes(trace: seq<State>, p: nat, g: int)
    requires trace != [] && Fixed(trace) && Lowest(trace[0].core.ts, p) && g in Queue(trace[0].core.ts, p)
    requires trace[|trace| - 1].invert >= trace[0].invert + 32 * |Queue(trace[0].core.ts, p)|
    ensures GetsATurn(trace, g)
  {
    var hi := HighestExists(trace[0].core.ts, p);
    var j :| 0 <= j < |Queue(trace[0].core.ts, p)| && Queue(trace[0].core.ts, p)[j] == g;
    TurnComes(trace, hi, p, p, j, g);
  }
}
