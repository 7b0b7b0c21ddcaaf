/** Mailboxes as values: a queue of messages, a queue of waiting threads, and the history of
    what was accepted and what was taken out. */
module Boxes {
  import opened KernelTypes

  /** sent lists the accepted messages and got the messages taken out (handed straight to a
      receiver, dequeued or emptied), both since the mailbox was allocated. */
  datatype Box = Box(owner: int, strategy: Strategy, size: nat, count: nat, missed: nat,
                     queue: seq<Payload>, waiters: seq<int>, sent: seq<Payload>, got: seq<Payload>)

  ghost predicate BoxesSized(boxes: seq<Box>) {
    && |boxes| == NR_MBX + 1
    && forall m, h {:trigger h in boxes[m].waiters} :: IsMbx(m) && h in boxes[m].waiters ==> IsTcb(h)
  }

  const REPEAT := 0x10000

  /** One message from a thread that leaves the repeat field alone. */
  predicate Narrow(p: Payload) {
    p.d1 < REPEAT
  }

  function Low(p: Payload): Payload {
    Payload(p.d1 % REPEAT, p.d2, p.d3)
  }

  function Repeat(p: Payload, n: nat): (r: seq<Payload>)
    ensures |r| == n
  {
    seq(n, _ => p)
  }

  /** The messages a block stands for: one, and as many more as its upper half counts. */
  function Copies(p: Payload): seq<Payload> {
    Repeat(Low(p), 1 + p.d1 / REPEAT)
  }

  function Expand(q: seq<Payload>): seq<Payload> {
    if q == [] then [] else Copies(q[0]) + Expand(q[1..])
  }

  /** A repeated message is only counted. */
  predicate Coalesces(q: seq<Payload>, p: Payload) {
    && q != []
    && var last := q[|q| - 1];
    && p.d1 % REPEAT == last.d1 % REPEAT && p.d2 == last.d2 && p.d3 == last.d3
    && last.d1 < 0xffff0000
  }

  function Enqueue(q: seq<Payload>, p: Payload): seq<Payload> {
    if Coalesces(q, p) then
      var last := q[|q| - 1];
      q[|q| - 1 := Payload(last.d1 + REPEAT, last.d2, last.d3)]
    else
      q + [p]
  }

  function Bump(n: nat): nat {
    if n < MAX_UINT then n + 1 else n
  }

  /** The queueing policies that a steady queue can follow: no overflow under MQS_NEWEST, no
      excess left over from another limit under MQS_OLDEST. */
  predicate Steady(b: Box) {
    match b.strategy
    case MQS_UNLIMITED => true
    case MQS_OLDEST => b.count <= b.size
    case MQS_NEWEST => b.count + 1 <= b.size
  }

  predicate Refuses(b: Box) {
    b.strategy == MQS_OLDEST && b.count + 1 > b.size
  }

  /** Queueing a message. */
  function QueueMsg(b: Box, p: Payload): Box {
    if Refuses(b) then b.(missed := Bump(b.missed))
    else b.(count := b.count + 1, queue := Enqueue(b.queue, p), sent := b.sent + [p])
  }

  /** Whether the block that carried p goes straight back to the pool. */
  predicate Returned(b: Box, p: Payload) {
    Refuses(b) || Coalesces(b.queue, p)
  }

  /** Taking the oldest block out. */
  function DequeueMsg(b: Box): Box {
    if b.count == 0 then b
    else if b.queue == [] then b.(count := b.count - 1)
    else b.(count := b.count - 1, queue := b.queue[1..], got := b.got + Copies(b.queue[0]))
  }

  /** Handing p straight to the first waiter. */
  function HandOver(b: Box, p: Payload): Box
    requires b.waiters != []
  {
    b.(waiters := b.waiters[1..], sent := b.sent + [p], got := b.got + Copies(p))
  }

  /** Taking blocks out until dequeueing returns nothing. */
  function EmptyBox(b: Box): Box
    decreases b.count
  {
    if b.count == 0 || b.queue == [] then DequeueMsg(b) else EmptyBox(DequeueMsg(b))
  }

  // ----- what a mailbox keeps

  /** A mailbox is a FIFO channel: while senders leave the repeat field alone, what came out,
      followed by what the queued blocks stand for, is what went in. */
  ghost predicate Fifo(b: Box) {
    (forall p :: p in b.sent ==> Narrow(p)) ==> b.got + Expand(b.queue) == b.sent
  }

  ghost predicate BoxOk(b: Box) {
    && |b.queue| <= b.count
    && (b.strategy == MQS_OLDEST ==> b.count <= b.size)
    && (b.strategy == MQS_NEWEST ==> b.count <= b.size)
    && (b.waiters != [] ==> b.queue == [])
    && Fifo(b)
  }

  lemma {:induction false} ExpandAppend(q: seq<Payload>, p: Payload)
    ensures Expand(q + [p]) == Expand(q) + Copies(p)
  {
    if q == [] {
      assert [p][1..] == [];
    } else {
      assert (q + [p])[1..] == q[1..] + [p];
      ExpandAppend(q[1..], p);
    }
  }

  /** Queueing adds exactly the one message to what the queue stands for, if and only if the
      message leaves the repeat field alone or is coalesced. */
  lemma EnqueueExpands(q: seq<Payload>, p: Payload)
    ensures Expand(Enqueue(q, p)) == Expand(q) + [Low(p)] <==> Narrow(p) || Coalesces(q, p)
    ensures Narrow(p) ==> Low(p) == p
  {
    if Coalesces(q, p) {
      var n := |q| - 1;
      var last := q[n];
      var more := Payload(last.d1 + REPEAT, last.d2, last.d3);
      assert q == q[..n] + [last] && Enqueue(q, p) == q[..n] + [more];
      ExpandAppend(q[..n], last);
      ExpandAppend(q[..n], more);
      assert more.d1 / REPEAT == last.d1 / REPEAT + 1;
      assert Copies(more) == Copies(last) + [Low(p)];
    } else {
      ExpandAppend(q, p);
      if Narrow(p) {
        assert Copies(p) == [p];
      } else {
        assert |Copies(p)| > 1;
      }
    }
  }

  /** The count and the number of blocks drift apart exactly when a message is only counted in the
      last block: taking that block out later undoes one of the two increments. */
  lemma CountDrifts(b: Box, p: Payload)
    requires !Refuses(b)
    ensures QueueMsg(b, p).count - |QueueMsg(b, p).queue| == b.count - |b.queue| <==> !Coalesces(b.queue, p)
  {
  }

  lemma QueueMsgKeeps(b: Box, p: Payload)
    requires BoxOk(b) && Steady(b) && b.waiters == []
    ensures BoxOk(QueueMsg(b, p))
  {
    if !Refuses(b) {
      var b' := QueueMsg(b, p);
      if forall x :: x in b'.sent ==> Narrow(x) {
        assert p in b'.sent;
        forall x | x in b.sent ensures Narrow(x) { assert x in b'.sent; }
        EnqueueExpands(b.queue, p);
        assert b.got + (Expand(b.queue) + [p]) == (b.got + Expand(b.queue)) + [p];
      }
    }
  }

  lemma DequeueMsgKeeps(b: Box)
    requires BoxOk(b)
    ensures BoxOk(DequeueMsg(b))
  {
    if b.count > 0 && b.queue != [] {
      assert b.got + (Copies(b.queue[0]) + Expand(b.queue[1..])) == (b.got + Copies(b.queue[0])) + Expand(b.queue[1..]);
    }
  }

  lemma {:induction false} EmptyBoxKeeps(b: Box)
    requires BoxOk(b)
    ensures BoxOk(EmptyBox(b)) && EmptyBox(b).queue == []
    ensures EmptyBox(b).waiters == b.waiters && EmptyBox(b).owner == b.owner
    ensures EmptyBox(b).strategy == b.strategy && EmptyBox(b).size == b.size
    decreases b.count
  {
    DequeueMsgKeeps(b);
    if b.count > 0 && b.queue != [] { EmptyBoxKeeps(DequeueMsg(b)); }
  }

  lemma HandOverKeeps(b: Box, p: Payload)
    requires BoxOk(b) && b.waiters != []
    ensures BoxOk(HandOver(b, p))
  {
    var b' := HandOver(b, p);
    if forall x :: x in b'.sent ==> Narrow(x) {
      assert p in b'.sent;
      forall x | x in b.sent ensures Narrow(x) { assert x in b'.sent; }
      assert Copies(p) == [p];
    }
  }

  // ----- counting

  /** Every message is accepted, or counted as missed; it is missed if and only if the policy keeps
      the oldest and the mailbox counts as many as it may hold. */
  lemma MessageAccounted(b: Box, p: Payload)
    ensures var b' := QueueMsg(b, p);
      if b.strategy == MQS_OLDEST && b.count >= b.size then
        b' == b.(missed := if b.missed < 0xFFFF_FFFF then b.missed + 1 else b.missed)
      else
        b'.sent == b.sent + [p] && b'.missed == b.missed && b'.count == b.count + 1 && b'.got == b.got
  {
  }

  /** A dequeue lowers the count, also when it finds nothing, and takes out the first block. */
  lemma DequeueCounts(b: Box)
    ensures var b' := DequeueMsg(b);
      && b'.count == (if b.count > 0 then b.count - 1 else 0) && b'.missed == b.missed && b'.sent == b.sent
      && (b.count > 0 && b.queue != [] ==> b'.got == b.got + Copies(b.queue[0]) && b'.queue == b.queue[1..])
      && (b.count == 0 || b.queue == [] ==> b'.got == b.got && b'.queue == b.queue)
  {
  }

  /** Emptying lowers the count once more than there are blocks, so the drift that repeats have left
      in it goes down by one. */
  lemma {:induction false} EmptyCounts(b: Box)
    requires |b.queue| <= b.count
    ensures EmptyBox(b).count == if b.count > |b.queue| then b.count - |b.queue| - 1 else 0
    ensures EmptyBox(b).queue == [] && EmptyBox(b).got == b.got + Expand(b.queue)
    decreases b.count
  {
    if b.count > 0 && b.queue != [] {
      EmptyCounts(DequeueMsg(b));
      assert (b.got + Copies(b.queue[0])) + Expand(b.queue[1..]) == b.got + Expand(b.queue);
    } else {
      assert b.got + [] == b.got;
    }
  }

  /** The queue after p has been queued n times. */
  function Repeated(q: seq<Payload>, p: Payload, n: nat): seq<Payload> {
    if n == 0 then q else Enqueue(Repeated(q, p, n - 1), p)
  }

  /** The first 0x10000 repeats of a message share one block, which counts them in its upper half;
      the next one takes a block of its own. */
  lemma {:induction false} RepeatsShareABlock(p: Payload, n: nat)
    requires p.d1 < 0x10000 && 1 <= n <= 0x10000
    ensures Repeated([], p, n) == [Payload(p.d1 + (n - 1) * 0x10000, p.d2, p.d3)]
    ensures n == 0x10000 ==> Enqueue(Repeated([], p, n), p) == Repeated([], p, n) + [p]
  {
    if n == 1 {
      assert Repeated([], p, 1) == Enqueue(Repeated([], p, 0), p);
    } else {
      RepeatsShareABlock(p, n - 1);
      var d := p.d1 + (n - 2) * 0x10000;
      assert d % 0x10000 == p.d1 % 0x10000;
    }
  }

  /** A different message always takes a block of its own. */
  lemma OthersQueueUp(q: seq<Payload>, p: Payload)
    requires q != []
    requires var last := q[|q| - 1];
      p.d1 % 0x10000 != last.d1 % 0x10000 || p.d2 != last.d2 || p.d3 != last.d3
    ensures Enqueue(q, p) == q + [p]
  {
  }
}
