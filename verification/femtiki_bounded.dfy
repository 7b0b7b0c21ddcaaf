/** Bounded message queues as the earlier revision of the kernel keeps them: dropping the oldest
    or the newest messages (software/Femtiki/source/Femtiki.c, QueueMsg). */
module BoundedQueues {
  import opened KernelTypes
  import opened Seqs
  import opened Blocks

  /** The words that a mailbox's queue and the pool are made of. */
  datatype Words = Words(message: seq<Msg>, mbx: Mbx, freeMSG: int, nMsgBlk: int)

  function LastOf<T>(s: seq<T>, n: nat): seq<T> {
    if |s| <= n then s else s[|s| - n..]
  }

  function FirstOf<T>(s: seq<T>, n: nat): seq<T> {
    if |s| <= n then s else s[..n]
  }

  function Reverse(s: seq<int>): seq<int> {
    if s == [] then [] else Reverse(s[1..]) + [s[0]]
  }

  /** The messages in the blocks of q. */
  function Bodies(ms: seq<Msg>, q: seq<int>): (r: seq<Payload>)
    requires |ms| == NR_MSG && forall i :: 0 <= i < |q| ==> 1 <= q[i] <= NR_MSG
    ensures |r| == |q| && forall i :: 0 <= i < |q| ==> r[i] == ms[q[i] - 1].body
  {
    seq(|q|, i requires 0 <= i < |q| => ms[q[i] - 1].body)
  }

  /** The queue q and the pool are chains without a block in common. */
  ghost predicate Linked(w: Words, q: seq<int>, free: seq<int>) {
    && |w.message| == NR_MSG
    && Distinct(q) && Distinct(free) && (forall b :: b in q ==> b !in free)
    && Chain(w.message, w.mbx.mqHead, q) && Chain(w.message, w.freeMSG, free)
    && (forall i :: 0 <= i < |q| ==> 1 <= q[i] <= NR_MSG)
    && (forall i :: 0 <= i < |free| ==> 1 <= free[i] <= NR_MSG)
  }

  ghost predicate Tailed(w: Words, q: seq<int>) {
    w.mbx.mqTail == if q == [] then 0 else q[|q| - 1]
  }

  /** One turn of the loop that drops the oldest message, word by word. */
  function DropHead(w: Words): Words
    requires IsMsg(w.mbx.mqHead) && |w.message| == NR_MSG
  {
    var h := w.mbx.mqHead;
    w.(message := w.message[h - 1 := w.message[h - 1].(link := w.freeMSG)],
       mbx := w.mbx.(mqHead := w.message[h - 1].link, mqCount := if w.mbx.mqCount > 0 then w.mbx.mqCount - 1 else 0,
                     mqMissed := if w.mbx.mqMissed < MAX_UINT then w.mbx.mqMissed + 1 else w.mbx.mqMissed),
       freeMSG := h, nMsgBlk := w.nMsgBlk + 1)
  }

  /** Linking the new block in at the tail, word by word. */
  function Hang(w: Words, msg: int): Words
    requires IsMsg(msg) && |w.message| == NR_MSG && w.mbx.mqTail <= NR_MSG
  {
    var ms := if w.mbx.mqTail > 0 then w.message[w.mbx.mqTail - 1 := w.message[w.mbx.mqTail - 1].(link := msg)]
              else w.message;
    w.(message := ms[msg - 1 := ms[msg - 1].(link := 0)],
       mbx := w.mbx.(mqHead := if w.mbx.mqTail > 0 then w.mbx.mqHead else msg, mqTail := msg))
  }

  /** Dropping the head of the queue puts its block in front of the pool. */
  lemma DropHeadHolds(w: Words, q: seq<int>, free: seq<int>)
    requires Linked(w, q, free) && q != []
    ensures w.mbx.mqHead == q[0]
    ensures Linked(DropHead(w), q[1..], [q[0]] + free)
    ensures forall i :: 0 <= i < NR_MSG ==> DropHead(w).message[i].body == w.message[i].body
  {
    var ms := DropHead(w).message;
    var h := q[0];
    assert q == [h] + q[1..];
    forall b | b in q[1..] ensures b in q && b != h {
      var i :| 0 <= i < |q[1..]| && q[1..][i] == b;
      assert q[i + 1] == b;
    }
    assert h in q;
    ChainTail(w.message, w.mbx.mqHead, q);
    ChainFrame(w.message, ms, w.message[h - 1].link, q[1..]);
    ChainFrame(w.message, ms, w.freeMSG, free);
    ChainCons(ms, w.freeMSG, free, h);
  }

  lemma HangHolds(w: Words, q: seq<int>, free: seq<int>, msg: int)
    requires Linked(w, q, free) && Tailed(w, q) && IsMsg(msg) && msg !in q && msg !in free
    ensures Linked(Hang(w, msg), q + [msg], free) && Tailed(Hang(w, msg), q + [msg])
    ensures forall i :: 0 <= i < NR_MSG ==> Hang(w, msg).message[i].body == w.message[i].body
  {
    var ms := Hang(w, msg).message;
    if q != [] { assert q[|q| - 1] in q; }
    forall c | c in q && 1 <= c <= NR_MSG
      ensures ms[c - 1].link == if c == q[|q| - 1] then msg else w.message[c - 1].link
    {
    }
    ChainAppend(w.message, ms, w.mbx.mqHead, q, msg);
    ChainFrame(w.message, ms, w.freeMSG, free);
  }

  class MessageQueue {
    var words: Words
    ghost var queue: seq<int>
    ghost var free: seq<int>

    ghost predicate Valid()
      reads this
    {
      Linked(words, queue, free) && Tailed(words, queue) && words.mbx.mqCount == |queue|
    }

    /** The messages queued, oldest first. */
    ghost function Contents(): seq<Payload>
      requires Valid()
      reads this
    {
      Bodies(words.message, queue)
    }

    /** Drop-oldest (MQS_NEWEST) keeps the last mq_size messages, drop-newest (MQS_OLDEST) the
        first mq_size; every block dropped is back in the pool. */
    method QueueMsg(msg: int) returns (rr: Error, ghost dropped: nat)
      requires Valid() && IsMsg(msg) && msg !in queue && msg !in free && words.mbx.mqMissed <= MAX_UINT
      requires words.mbx.strategy == MQS_NEWEST ==> words.mbx.mqCount + 1 <= words.mbx.mqSize || words.mbx.mqSize >= 2
      requires words.mbx.strategy == MQS_OLDEST ==> words.mbx.mqCount <= words.mbx.mqSize
      modifies this
      ensures Valid() && |old(words).message| == NR_MSG
      ensures Contents()
        == Kept(words.mbx.strategy, words.mbx.mqSize, old(Contents()) + [old(words).message[msg - 1].body])
      ensures Advanced(old(words), words, dropped) && rr == if dropped > 0 then E_QueFull else E_Ok
      ensures if words.mbx.strategy == MQS_OLDEST && dropped > 0 then
          dropped == 1 && queue == old(queue) && free == [msg] + old(free)
        else
          && dropped <= |old(queue)| && queue == old(queue)[dropped..] + [msg]
          && free == Reverse(old(queue)[..dropped]) + old(free)
    {
      hide Linked, Reverse, Bodies, Kept;
      QueuedFacts(words, queue, free);
      ghost var p := words.message[msg - 1].body;
      ghost var w0, q0, f0 := words, queue, free;
      ReverseNone(q0);
      rr, dropped := E_Ok, 0;
      words := words.(mbx := words.mbx.(mqCount := words.mbx.mqCount + 1));
      CountFrame(w0, words, queue, free);
      match words.mbx.strategy {
        case MQS_UNLIMITED =>
        case MQS_NEWEST =>
          rr, dropped := DropOldest();
        case MQS_OLDEST =>
          if words.mbx.mqCount > words.mbx.mqSize {
            Return(msg);
            QueuedFacts(words, queue, free);
            KeptFirst(words.mbx.mqSize, w0.message, words.message, q0, p);
            return E_QueFull, 1;
          }
      }
      NotQueued(q0, f0, dropped, msg);
      LinkAtTail(msg);
      QueuedFacts(words, queue, free);
      KeptLast(words.mbx.strategy, words.mbx.mqSize, w0.message, words.message, q0, dropped, msg);
    }

    /** Hangs the new block on at the tail. */
    method LinkAtTail(msg: int)
      requires Linked(words, queue, free) && Tailed(words, queue) && IsMsg(msg) && msg !in queue && msg !in free
      requires words.mbx.mqMissed <= MAX_UINT
      modifies this`words, this`queue
      ensures Linked(words, queue, free) && Tailed(words, queue) && queue == old(queue) + [msg]
      ensures Advanced(old(words), words, 0) && words.mbx.mqCount == old(words.mbx.mqCount)
    {
      hide Linked;
      QueuedFacts(words, queue, free);
      HangHolds(words, queue, free, msg);
      ghost var w := words;
      if words.mbx.mqTail > 0 {
        var tail := words.mbx.mqTail;
        words := words.(message := words.message[tail - 1 := words.message[tail - 1].(link := msg)]);
      } else {
        words := words.(mbx := words.mbx.(mqHead := msg));
      }
      words := words.(mbx := words.mbx.(mqTail := msg));
      words := words.(message := words.message[msg - 1 := words.message[msg - 1].(link := 0)]);
      assert words == Hang(w, msg);
      queue := queue + [msg];
    }

    /** The loop that drops the oldest messages while there are too many, the new one counted. */
    method DropOldest() returns (rr: Error, ghost n: nat)
      requires Linked(words, queue, free) && Tailed(words, queue) && words.mbx.mqCount == |queue| + 1
      requires words.mbx.mqMissed <= MAX_UINT
      requires words.mbx.mqCount <= words.mbx.mqSize || words.mbx.mqSize >= 2
      modifies this
      ensures n == if old(words.mbx.mqCount) > words.mbx.mqSize then old(words.mbx.mqCount) - words.mbx.mqSize else 0
      ensures n <= |old(queue)| && queue == old(queue)[n..] && free == Reverse(old(queue)[..n]) + old(free)
      ensures Linked(words, queue, free) && Tailed(words, queue) && words.mbx.mqCount == |queue| + 1
      ensures Advanced(old(words), words, n) && rr == if n > 0 then E_QueFull else E_Ok
    {
      hide Linked, Reverse, Bodies;
      QueuedFacts(words, queue, free);
      ghost var w0, q0, f0 := words, queue, free;
      rr, n := E_Ok, 0;
      ReverseNone(q0);
      while words.mbx.mqCount > words.mbx.mqSize
        invariant n <= |q0| && queue == q0[n..] && free == Reverse(q0[..n]) + f0
        invariant n == 0 || words.mbx.mqCount >= words.mbx.mqSize
        invariant Linked(words, queue, free) && Tailed(words, queue) && words.mbx.mqCount == |queue| + 1
        invariant Advanced(w0, words, n) && rr == if n > 0 then E_QueFull else E_Ok
      {
        ghost var w := words;
        HeadQueued(words, queue, free);
        DropHeadHolds(words, queue, free);
        ReverseNext(q0, n);
        assert q0[n..][1..] == q0[n + 1..];
        assert [q0[n]] + (Reverse(q0[..n]) + f0) == Reverse(q0[..n + 1]) + f0;
        var head := words.mbx.mqHead;
        var htmp := words.message[head - 1].link;
        words := words.(message := words.message[head - 1 := words.message[head - 1].(link := words.freeMSG)]);
        words := words.(freeMSG := head, nMsgBlk := words.nMsgBlk + 1);
        words := words.(mbx := words.mbx.(mqCount := words.mbx.mqCount - 1, mqHead := htmp));
        if words.mbx.mqMissed < MAX_UINT {
          words := words.(mbx := words.mbx.(mqMissed := words.mbx.mqMissed + 1));
        }
        rr := E_QueFull;
        assert words == DropHead(w);
        queue, free, n := queue[1..], [queue[0]] + free, n + 1;
      }
    }

    /** The new block goes back to the pool. */
    method Return(msg: int)
      requires Linked(words, queue, free) && Tailed(words, queue) && IsMsg(msg) && msg !in queue && msg !in free
      requires words.mbx.mqMissed <= MAX_UINT && words.mbx.mqCount > 0
      modifies this`words, this`free
      ensures Linked(words, queue, free) && Tailed(words, queue) && free == [msg] + old(free)
      ensures words.mbx.mqCount == old(words.mbx.mqCount) - 1
      ensures Advanced(old(words), words, 1)
    {
      ReturnHolds(words, queue, free, msg);
      words := words.(message := words.message[msg - 1 := words.message[msg - 1].(link := words.freeMSG)],
                      freeMSG := msg, nMsgBlk := words.nMsgBlk + 1);
      if words.mbx.mqMissed < MAX_UINT {
        words := words.(mbx := words.mbx.(mqMissed := words.mbx.mqMissed + 1));
      }
      words := words.(mbx := words.mbx.(mqCount := words.mbx.mqCount - 1));
      free := [msg] + free;
    }
  }

  /** From w to v, n blocks went to the pool and no message was written. */
  ghost predicate Advanced(w: Words, v: Words, n: nat) {
    && |w.message| == |v.message| == NR_MSG
    && v.mbx.strategy == w.mbx.strategy && v.mbx.mqSize == w.mbx.mqSize
    && v.nMsgBlk == w.nMsgBlk + n
    && v.mbx.mqMissed == (if w.mbx.mqMissed + n <= MAX_UINT then w.mbx.mqMissed + n else MAX_UINT)
    && forall i :: 0 <= i < NR_MSG ==> v.message[i].body == w.message[i].body
  }

  lemma CountFrame(w: Words, v: Words, q: seq<int>, free: seq<int>)
    requires Linked(w, q, free) && v == w.(mbx := w.mbx.(mqCount := v.mbx.mqCount))
    ensures Linked(v, q, free)
  {
  }

  /** The messages left when the first n of the queue are gone and the new one is queued. */
  lemma KeptLast(strategy: Strategy, size: nat, ms: seq<Msg>, ms': seq<Msg>, q: seq<int>, n: nat, msg: int)
    requires |ms| == |ms'| == NR_MSG && n <= |q| && IsMsg(msg) && forall i :: 0 <= i < |q| ==> 1 <= q[i] <= NR_MSG
    requires forall i :: 0 <= i < NR_MSG ==> ms'[i].body == ms[i].body
    requires strategy != MQS_NEWEST ==> n == 0
    requires strategy == MQS_NEWEST ==> n == if |q| + 1 > size then |q| + 1 - size else 0
    requires strategy == MQS_OLDEST ==> |q| + 1 <= size
    ensures Bodies(ms', q[n..] + [msg]) == Kept(strategy, size, Bodies(ms, q) + [ms[msg - 1].body])
  {
    assert Bodies(ms', q[n..] + [msg]) == (Bodies(ms, q) + [ms[msg - 1].body])[n..];
  }

  /** The new one is dropped. */
  lemma KeptFirst(size: nat, ms: seq<Msg>, ms': seq<Msg>, q: seq<int>, p: Payload)
    requires |ms| == |ms'| == NR_MSG && |q| == size && forall i :: 0 <= i < |q| ==> 1 <= q[i] <= NR_MSG
    requires forall i :: 0 <= i < NR_MSG ==> ms'[i].body == ms[i].body
    ensures Bodies(ms', q) == Kept(MQS_OLDEST, size, Bodies(ms, q) + [p])
  {
  }

  lemma QueuedFacts(w: Words, q: seq<int>, free: seq<int>)
    requires Linked(w, q, free)
    ensures |w.message| == NR_MSG && forall i :: 0 <= i < |q| ==> 1 <= q[i] <= NR_MSG
  {
  }

  lemma HeadQueued(w: Words, q: seq<int>, free: seq<int>)
    requires Linked(w, q, free) && q != []
    ensures |w.message| == NR_MSG && w.mbx.mqHead == q[0] && IsMsg(q[0])
  {
  }

  lemma NotQueued(q: seq<int>, free: seq<int>, n: nat, msg: int)
    requires n <= |q| && msg !in q && msg !in free
    ensures msg !in q[n..] && msg !in Reverse(q[..n]) + free
  {
    ReverseMembers(q[..n], msg);
  }

  lemma {:induction false} ReverseMembers(s: seq<int>, x: int)
    ensures x in Reverse(s) <==> x in s
  {
    if s != [] {
      ReverseMembers(s[1..], x);
      assert s == [s[0]] + s[1..];
    }
  }

  lemma ReverseNone(q: seq<int>)
    ensures Reverse(q[..0]) == []
  {
  }

  /** What is kept of the messages s. */
  function Kept(strategy: Strategy, size: nat, s: seq<Payload>): seq<Payload> {
    match strategy
    case MQS_UNLIMITED => s
    case MQS_NEWEST => LastOf(s, size)
    case MQS_OLDEST => FirstOf(s, size)
  }

  lemma {:induction false} ReverseNext(s: seq<int>, n: nat)
    requires n < |s|
    ensures Reverse(s[..n + 1]) == [s[n]] + Reverse(s[..n])
  {
    if n > 0 {
      assert s[..n + 1][1..] == s[1..][..n] && s[..n][1..] == s[1..][..n - 1];
      ReverseNext(s[1..], n - 1);
    } else {
      assert s[..1][1..] == [] && s[..0] == [];
    }
  }

  /** Giving the new block back to the pool. */
  lemma ReturnHolds(w: Words, q: seq<int>, free: seq<int>, msg: int)
    requires Linked(w, q, free) && IsMsg(msg) && msg !in q && msg !in free
    ensures Linked(w.(message := w.message[msg - 1 := w.message[msg - 1].(link := w.freeMSG)], freeMSG := msg),
                   q, [msg] + free)
  {
    var ms := w.message[msg - 1 := w.message[msg - 1].(link := w.freeMSG)];
    ChainFrame(w.message, ms, w.mbx.mqHead, q);
    ChainFrame(w.message, ms, w.freeMSG, free);
    ChainCons(ms, w.freeMSG, free, msg);
  }

  // ----- whole runs of sends

  /** What a queue holds after the messages ps have been sent to it one by one. */
  function Sent(strategy: Strategy, size: nat, q: seq<Payload>, ps: seq<Payload>): seq<Payload>
    decreases |ps|
  {
    if ps == [] then q else Sent(strategy, size, Kept(strategy, size, q + [ps[0]]), ps[1..])
  }

  /** Cutting twice is cutting once. */
  lemma LastTwice(n: nat, s: seq<Payload>, t: seq<Payload>)
    ensures LastOf(LastOf(s, n) + t, n) == LastOf(s + t, n)
  {
    if |s| > n {
      var k := |s| - n;
      assert s == s[..k] + s[k..];
      DropConcat(s[..k], s[k..] + t, |t|);
      assert s + t == s[..k] + (s[k..] + t);
    }
  }

  lemma DropConcat(a: seq<Payload>, b: seq<Payload>, m: nat)
    requires m <= |b|
    ensures (a + b)[|a| + m..] == b[m..]
  {
  }

  lemma FirstTwice(n: nat, s: seq<Payload>, t: seq<Payload>)
    ensures FirstOf(FirstOf(s, n) + t, n) == FirstOf(s + t, n)
  {
    if |s| > n {
      assert (s + t)[..n] == s[..n];
      assert (s[..n] + t)[..n] == s[..n];
    }
  }

  lemma KeptTwice(strategy: Strategy, size: nat, s: seq<Payload>, t: seq<Payload>)
    requires strategy != MQS_UNLIMITED
    ensures Kept(strategy, size, Kept(strategy, size, s) + t) == Kept(strategy, size, s + t)
  {
    hide LastOf, FirstOf;
    if strategy == MQS_NEWEST { LastTwice(size, s, t); } else { FirstTwice(size, s, t); }
  }

  /** However many messages are sent, a queue that drops the oldest holds the last mq_size of
      them, and a queue that drops the newest the first mq_size. */
  lemma {:induction false} SentKeeps(strategy: Strategy, size: nat, q: seq<Payload>, ps: seq<Payload>)
    requires strategy != MQS_UNLIMITED ==> |q| <= size
    ensures Sent(strategy, size, q, ps) == Kept(strategy, size, q + ps)
    decreases |ps|
  {
    if ps == [] {
      assert q + ps == q;
    } else {
      assert q + ps == (q + [ps[0]]) + ps[1..];
      if strategy != MQS_UNLIMITED { KeptTwice(strategy, size, q + [ps[0]], ps[1..]); }
      SentKeeps(strategy, size, Kept(strategy, size, q + [ps[0]]), ps[1..]);
    }
  }

  // ----- the limit below which dropping the oldest goes wrong

  ghost function DropHeads(w: Words, n: nat): (r: Words)
    decreases n
  {
    if n == 0 then w
    else
      var v := DropHeads(w, n - 1);
      if IsMsg(v.mbx.mqHead) && |v.message| == NR_MSG then DropHead(v) else v
  }

  lemma {:induction false} DropHeadsHolds(w: Words, q: seq<int>, free: seq<int>, n: nat)
    requires Linked(w, q, free) && n <= |q|
    ensures var v := DropHeads(w, n);
      && Linked(v, q[n..], Reverse(q[..n]) + free)
      && v.mbx.mqTail == w.mbx.mqTail && (w.mbx.mqCount >= n ==> v.mbx.mqCount == w.mbx.mqCount - n)
  {
    hide Reverse, DropHead, Chain;
    if n > 0 {
      DropHeadsHolds(w, q, free, n - 1);
      var v := DropHeads(w, n - 1);
      HeadQueued(v, q[n - 1..], Reverse(q[..n - 1]) + free);
      DropCount(v);
      DropHeadHolds(v, q[n - 1..], Reverse(q[..n - 1]) + free);
      assert q[n - 1..][1..] == q[n..];
      ReverseNext(q, n - 1);
      assert [q[n - 1]] + (Reverse(q[..n - 1]) + free) == Reverse(q[..n]) + free;
    } else {
      ReverseNone(q);
      assert q[0..] == q && Reverse(q[..0]) + free == free;
    }
  }

  lemma DropCount(w: Words)
    requires IsMsg(w.mbx.mqHead) && |w.message| == NR_MSG
    ensures DropHead(w).mbx.mqTail == w.mbx.mqTail
    ensures w.mbx.mqCount > 0 ==> DropHead(w).mbx.mqCount == w.mbx.mqCount - 1
  {
  }

  /** Dropping the oldest down to a limit of one empties the queue but leaves its tail where it
      was: the new message is hung on behind a block of the pool, and the head stays nil, so the
      queue is lost, and the pool's second block now leads to the message. This is the case
      exactly when there is an overflow and the limit is not at least two. */
  lemma LimitOneLosesTheQueue(w: Words, q: seq<int>, free: seq<int>, msg: int)
    requires Linked(w, q, free) && Tailed(w, q) && q != [] && IsMsg(msg) && msg !in q && msg !in free
    requires w.mbx.mqSize == 1 && w.mbx.mqCount == |q| + 1
    ensures var v := DropHeads(w, |q|);
      && v.mbx.mqCount == w.mbx.mqSize && |v.message| == NR_MSG && v.mbx.mqTail <= NR_MSG
      && var v' := Hang(v, msg);
      && v'.mbx.mqHead == 0 && v'.mbx.mqCount == 1
      && v'.freeMSG == q[|q| - 1] && v'.message[v'.freeMSG - 1].link == msg
  {
    DropHeadsHolds(w, q, free, |q|);
    assert q[|q|..] == [] && q[..|q|] == q;
    ReverseNext(q, |q| - 1);
    assert q[..|q| - 1 + 1] == q;
    var f := Reverse(q) + free;
    assert f[0] == q[|q| - 1];
    assert q[|q| - 1] in q;
  }

  /** With a limit of zero the loop goes on when the queue is already empty. */
  lemma LimitZeroRunsOff(w: Words, q: seq<int>, free: seq<int>)
    requires Linked(w, q, free) && w.mbx.mqSize == 0 && w.mbx.mqCount == |q| + 1
    ensures var v := DropHeads(w, |q|); v.mbx.mqCount > v.mbx.mqSize && v.mbx.mqHead == 0
  {
    DropHeadsHolds(w, q, free, |q|);
    DropSize(w, |q|);
    assert q[|q|..] == [];
  }

  lemma {:induction false} DropSize(w: Words, n: nat)
    ensures DropHeads(w, n).mbx.mqSize == w.mbx.mqSize
  {
    if n > 0 { DropSize(w, n - 1); }
  }
}
