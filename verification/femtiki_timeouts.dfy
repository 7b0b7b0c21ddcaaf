/** The delta-encoded timeout list (software/Femtiki/source/kernel/tcb.c), as a value:
    each entry holds the ticks still to wait after the entry before it. */
module Timeouts {

  datatype Entry = Entry(h: int, delta: int)

  ghost predicate Listed(l: seq<Entry>, h: int) {
    exists i :: 0 <= i < |l| && l[i].h == h
  }

  ghost predicate DistinctHandles(l: seq<Entry>) {
    forall i, j :: 0 <= i < j < |l| ==> l[i].h != l[j].h
  }

  /** Only the head may have run below zero. */
  ghost predicate TailNonNegative(l: seq<Entry>) {
    forall i :: 0 < i < |l| ==> l[i].delta >= 0
  }

  function Insert(l: seq<Entry>, h: int, to: int): seq<Entry> {
    if l == [] then [Entry(h, to)]
    else if to > l[0].delta then [l[0]] + Insert(l[1..], h, to - l[0].delta)
    else [Entry(h, to), Entry(l[0].h, l[0].delta - to)] + l[1..]
  }

  function Remove(l: seq<Entry>, h: int): seq<Entry> {
    if l == [] then []
    else if l[0].h != h then [l[0]] + Remove(l[1..], h)
    else if |l| == 1 then []
    else [Entry(l[1].h, l[1].delta + l[0].delta)] + l[2..]
  }

  /** The absolute number of ticks h still has to wait: the sum of the deltas up to it. */
  ghost function Deadline(l: seq<Entry>, h: int): int
    requires Listed(l, h)
  {
    if l[0].h == h then l[0].delta
    else
      assert Listed(l[1..], h) by { ListedTail(l, h); }
      l[0].delta + Deadline(l[1..], h)
  }

  lemma ListedTail(l: seq<Entry>, h: int)
    requires l != []
    ensures Listed(l, h) <==> l[0].h == h || Listed(l[1..], h)
  {
    if Listed(l, h) && l[0].h != h {
      var i :| 0 <= i < |l| && l[i].h == h;
      assert l[1..][i - 1].h == h;
    }
    if Listed(l[1..], h) {
      var i :| 0 <= i < |l[1..]| && l[1..][i].h == h;
      assert l[i + 1].h == h;
    }
  }

  lemma ListedCons(e: Entry, l: seq<Entry>, h: int)
    ensures Listed([e] + l, h) <==> e.h == h || Listed(l, h)
  {
    assert ([e] + l)[1..] == l;
    ListedTail([e] + l, h);
  }

  lemma DeadlineCons(e: Entry, l: seq<Entry>, h: int)
    requires e.h == h || Listed(l, h)
    ensures Listed([e] + l, h)
    ensures Deadline([e] + l, h) == if e.h == h then e.delta else e.delta + Deadline(l, h)
  {
    ListedCons(e, l, h);
    assert ([e] + l)[1..] == l;
  }

  /** No deadline is before the head's. */
  lemma {:induction false} DeadlineFromHead(l: seq<Entry>, h: int)
    requires Listed(l, h) && TailNonNegative(l)
    ensures Deadline(l, h) >= l[0].delta
  {
    if l[0].h != h {
      ListedTail(l, h);
      DeadlineFromHead(l[1..], h);
    }
  }

  /** Insertion gives h the deadline asked for, whatever its sign, and moves nobody else's. */
  lemma {:induction false} InsertDeadlines(l: seq<Entry>, h: int, to: int)
    requires !Listed(l, h)
    ensures forall g :: Listed(Insert(l, h, to), g) <==> g == h || Listed(l, g)
    ensures Deadline(Insert(l, h, to), h) == to
    ensures forall g :: Listed(l, g) ==> Deadline(Insert(l, h, to), g) == Deadline(l, g)
  {
    if l == [] {
      assert Insert(l, h, to) == [Entry(h, to)] + [];
      forall g ensures Listed(Insert(l, h, to), g) <==> g == h { ListedCons(Entry(h, to), [], g); }
    } else if to > l[0].delta {
      var rest := Insert(l[1..], h, to - l[0].delta);
      ListedTail(l, h);
      InsertDeadlines(l[1..], h, to - l[0].delta);
      forall g
        ensures Listed(Insert(l, h, to), g) <==> g == h || Listed(l, g)
        ensures Listed(l, g) ==> Deadline(Insert(l, h, to), g) == Deadline(l, g)
      {
        ListedTail(l, g);
        ListedCons(l[0], rest, g);
        if Listed(l, g) { DeadlineCons(l[0], rest, g); }
      }
      DeadlineCons(l[0], rest, h);
    } else {
      var e, f := Entry(h, to), Entry(l[0].h, l[0].delta - to);
      assert Insert(l, h, to) == [e] + ([f] + l[1..]);
      DeadlineCons(e, [f] + l[1..], h);
      forall g
        ensures Listed(Insert(l, h, to), g) <==> g == h || Listed(l, g)
        ensures Listed(l, g) ==> Deadline(Insert(l, h, to), g) == Deadline(l, g)
      {
        ListedTail(l, g);
        ListedCons(f, l[1..], g);
        ListedCons(e, [f] + l[1..], g);
        if Listed(l, g) {
          DeadlineCons(f, l[1..], g);
          DeadlineCons(e, [f] + l[1..], g);
        }
      }
    }
  }

  /** Removal takes out h alone and moves nobody else's deadline. */
  lemma {:induction false} RemoveDeadlines(l: seq<Entry>, h: int)
    requires DistinctHandles(l)
    ensures forall g :: Listed(Remove(l, h), g) <==> g != h && Listed(l, g)
    ensures forall g :: g != h && Listed(l, g) ==> Deadline(Remove(l, h), g) == Deadline(l, g)
  {
    if l == [] {
    } else if l[0].h != h {
      RemoveDeadlines(l[1..], h);
      forall g
        ensures Listed(Remove(l, h), g) <==> g != h && Listed(l, g)
        ensures g != h && Listed(l, g) ==> Deadline(Remove(l, h), g) == Deadline(l, g)
      {
        ListedTail(l, g);
        ListedCons(l[0], Remove(l[1..], h), g);
        if g != h && Listed(l, g) { DeadlineCons(l[0], Remove(l[1..], h), g); }
      }
    } else if |l| == 1 {
      forall g ensures Listed(l, g) <==> g == h { ListedTail(l, g); }
    } else {
      var e := Entry(l[1].h, l[1].delta + l[0].delta);
      forall g
        ensures Listed(Remove(l, h), g) <==> g != h && Listed(l, g)
        ensures g != h && Listed(l, g) ==> Deadline(Remove(l, h), g) == Deadline(l, g)
      {
        ListedTail(l, g);
        ListedTail(l[1..], g);
        assert l[1..][1..] == l[2..];
        ListedCons(e, l[2..], g);
        if Listed(l[2..], g) {
          var i :| 0 <= i < |l[2..]| && l[2..][i].h == g;
          assert l[i + 2].h == g;
        }
        if g != h && Listed(l, g) {
          DeadlineCons(e, l[2..], g);
          DeadlineCons(l[1], l[2..], g);
          assert l[1..] == [l[1]] + l[2..];
        }
      }
    }
  }

  /** Taking the head off moves every other deadline by the head's delta. */
  lemma PopDeadlines(l: seq<Entry>)
    requires l != [] && DistinctHandles(l)
    ensures forall g :: Listed(l[1..], g) <==> g != l[0].h && Listed(l, g)
    ensures forall g :: Listed(l[1..], g) ==> Deadline(l[1..], g) == Deadline(l, g) - l[0].delta
  {
    forall g
      ensures Listed(l[1..], g) <==> g != l[0].h && Listed(l, g)
      ensures Listed(l[1..], g) ==> Deadline(l[1..], g) == Deadline(l, g) - l[0].delta
    {
      ListedTail(l, g);
      if Listed(l[1..], g) {
        var i :| 0 <= i < |l[1..]| && l[1..][i].h == g;
        assert l[i + 1].h == g;
      }
    }
  }

  /** Charging c ticks to the head brings every deadline forward by c. */
  function Charge(l: seq<Entry>, c: int): seq<Entry>
    requires l != []
  {
    l[0 := Entry(l[0].h, l[0].delta - c)]
  }

  lemma ChargeDeadlines(l: seq<Entry>, c: int)
    requires l != []
    ensures forall g :: Listed(Charge(l, c), g) <==> Listed(l, g)
    ensures forall g :: Listed(l, g) ==> Deadline(Charge(l, c), g) == Deadline(l, g) - c
  {
    assert Charge(l, c)[1..] == l[1..];
    forall g
      ensures Listed(Charge(l, c), g) <==> Listed(l, g)
      ensures Listed(l, g) ==> Deadline(Charge(l, c), g) == Deadline(l, g) - c
    {
      ListedTail(l, g);
      ListedTail(Charge(l, c), g);
    }
  }

  /** Insertion splits the list at one place. */
  lemma {:induction false} InsertShape(l: seq<Entry>, h: int, to: int) returns (i: nat, rem: int)
    ensures i <= |l|
    ensures if i == 0 then rem == to else rem > 0
    ensures i == |l| ==> Insert(l, h, to) == l + [Entry(h, rem)]
    ensures i < |l| ==> rem <= l[i].delta
    ensures i < |l| ==> Insert(l, h, to) == l[..i] + [Entry(h, rem), Entry(l[i].h, l[i].delta - rem)] + l[i + 1..]
  {
    if l == [] || to <= l[0].delta {
      i, rem := 0, to;
      if l != [] {
        assert l[..0] + [Entry(h, rem), Entry(l[0].h, l[0].delta - rem)] + l[1..]
            == [Entry(h, rem), Entry(l[0].h, l[0].delta - rem)] + l[1..];
      }
    } else {
      var j, r := InsertShape(l[1..], h, to - l[0].delta);
      i, rem := j + 1, r;
      if i < |l| {
        assert l[..i] == [l[0]] + l[1..][..j];
        assert l[i + 1..] == l[1..][j + 1..];
      } else {
        assert [l[0]] + (l[1..] + [Entry(h, rem)]) == l + [Entry(h, rem)];
      }
    }
  }

  /** Every operation keeps the handles distinct and every delta but the head's non-negative. */
  lemma InsertKeepsShape(l: seq<Entry>, h: int, to: int)
    requires DistinctHandles(l) && TailNonNegative(l) && !Listed(l, h)
    ensures DistinctHandles(Insert(l, h, to)) && TailNonNegative(Insert(l, h, to))
  {
    var i, rem := InsertShape(l, h, to);
    var r := Insert(l, h, to);
    assert forall k :: 0 <= k < |l| ==> l[k].h != h;
    forall k | 0 <= k < |r|
      ensures r[k].h == (if k < i then l[k].h else if k == i then h else l[k - 1].h)
      ensures k > 0 ==> r[k].delta >= 0
    {
    }
  }

  lemma {:induction false} RemoveShape(l: seq<Entry>, i: nat)
    requires DistinctHandles(l) && i < |l|
    ensures i + 1 == |l| ==> Remove(l, l[i].h) == l[..i]
    ensures i + 1 < |l| ==>
              Remove(l, l[i].h) == l[..i] + [Entry(l[i + 1].h, l[i + 1].delta + l[i].delta)] + l[i + 2..]
  {
    if i > 0 {
      RemoveShape(l[1..], i - 1);
      assert l[0].h != l[i].h;
      assert l[..i] == [l[0]] + l[1..][..i - 1];
      if i + 1 < |l| { assert l[i + 2..] == l[1..][i + 1..]; }
    }
  }

  lemma {:induction false} RemoveAbsent(l: seq<Entry>, h: int)
    requires !Listed(l, h)
    ensures Remove(l, h) == l
  {
    if l != [] {
      ListedTail(l, h);
      RemoveAbsent(l[1..], h);
    }
  }

  lemma RemoveKeepsShape(l: seq<Entry>, h: int)
    requires DistinctHandles(l) && TailNonNegative(l)
    ensures DistinctHandles(Remove(l, h)) && TailNonNegative(Remove(l, h))
  {
    if Listed(l, h) {
      var i :| 0 <= i < |l| && l[i].h == h;
      RemoveShape(l, i);
      var r := Remove(l, h);
      forall k | 0 <= k < |r|
        ensures r[k].h == (if k < i then l[k].h else l[k + 1].h)
        ensures k > 0 ==> r[k].delta >= 0
      {
      }
    } else {
      RemoveAbsent(l, h);
    }
  }
}
