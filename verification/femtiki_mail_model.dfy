/** Threads and mailboxes together, as values: what queueing, dequeueing, sending and receiving
    do (software/Femtiki/source/kernel/msg.c). */
module MailModel {
  import opened KernelTypes
  import opened ThreadLists
  import opened Boxes

  /** Threads, mailboxes, the number of free message blocks and the next mailbox to allocate. */
  datatype Core = Core(ts: Threads, boxes: seq<Box>, pool: nat, firstMbx: nat)

  /** The sizes that every function on a core needs. */
  ghost predicate Shaped(c: Core) {
    Sized(c.ts) && BoxesSized(c.boxes)
  }

  predicate Allocated(b: Box) {
    0 < b.owner <= NR_ACB
  }

  /** Thread h joins the threads waiting at mailbox m. */
  ghost function QueueThread(c: Core, m: int, h: int): Core
    requires Shaped(c) && IsMbx(m) && IsTcb(h)
  {
    var t := c.ts.thr[h];
    c.(ts := SetThread(c.ts, h, t.(waitMbx := m, status := t.status.(waitmsg := true))),
       boxes := c.boxes[m := c.boxes[m].(waiters := c.boxes[m].waiters + [h])])
  }

  /** The thread that has waited longest at mailbox m stops waiting and sleeping. */
  ghost function DequeueThread(c: Core, m: int): Core
    requires Shaped(c) && IsMbx(m) && c.boxes[m].waiters != []
  {
    var b := c.boxes[m];
    var h := b.waiters[0];
    assert h in b.waiters;
    var ts1 := if c.ts.thr[h].status.timeout then RemoveTimeout(c.ts, h) else c.ts;
    var t := ts1.thr[h];
    c.(ts := SetThread(ts1, h, t.(waitMbx := 0, status := t.status.(waitmsg := false))),
       boxes := c.boxes[m := b.(waiters := b.waiters[1..])])
  }

  /** A message for a mailbox where threads wait: the first of them gets it and is made ready. */
  ghost function Deliver(c: Core, m: int, p: Payload): Core
    requires Shaped(c) && IsMbx(m) && c.boxes[m].waiters != []
  {
    var h := c.boxes[m].waiters[0];
    var c1 := DequeueThread(c, m);
    assert h in c.boxes[m].waiters;
    var ts2 := InsertReady(c1.ts, h);
    c1.(ts := SetThread(ts2, h, ts2.thr[h].(msgType := MT_DATA, msg := p)),
        boxes := c.boxes[m := HandOver(c.boxes[m], p)])
  }

  /** A message for a mailbox where no thread waits. */
  ghost function Deposit(c: Core, m: int, p: Payload): Core
    requires Shaped(c) && IsMbx(m) && c.pool > 0
  {
    var b := c.boxes[m];
    c.(boxes := c.boxes[m := QueueMsg(b, p)], pool := if Returned(b, p) then c.pool else c.pool - 1)
  }

  /** Sending and posting, before any thread is switched. */
  ghost function Post(c: Core, m: int, p: Payload): Core
    requires Shaped(c)
  {
    if !IsMbx(m) || !Allocated(c.boxes[m]) || c.pool == 0 then c
    else if c.boxes[m].waiters != [] then Deliver(c, m, p)
    else Deposit(c, m, p)
  }

  ghost function PostResult(c: Core, m: int): Error
    requires Shaped(c)
  {
    if !IsMbx(m) then E_Arg
    else if !Allocated(c.boxes[m]) then E_NotAlloc
    else if c.pool == 0 then E_NoMoreMsgBlks
    else if c.boxes[m].waiters == [] && Refuses(c.boxes[m]) then E_QueFull
    else E_Ok
  }

  /** Taking the oldest message out and giving its block back. */
  ghost function Fetch(c: Core, m: int): Core
    requires Shaped(c) && IsMbx(m)
  {
    var b := c.boxes[m];
    c.(boxes := c.boxes[m := DequeueMsg(b)],
       pool := if b.count > 0 && b.queue != [] then c.pool + 1 else c.pool)
  }

  /** Checking for a message with removal. */
  ghost function Check(c: Core, m: int): Core
    requires Shaped(c) && m >= 0
  {
    if !IsMbx(m) || c.boxes[m].owner == 0 || c.boxes[m].owner > NR_ACB then c else Fetch(c, m)
  }

  ghost function CheckResult(c: Core, m: int, remove: bool): Error
    requires Shaped(c) && m >= 0
  {
    if !IsMbx(m) then E_Arg
    else if c.boxes[m].owner == 0 || c.boxes[m].owner > NR_ACB then E_NotAlloc
    else if !remove || (c.boxes[m].count > 0 && c.boxes[m].queue != []) then E_Ok
    else E_NoMsg
  }

  /** A mailbox as allocation leaves it: the eight most recent messages are to be kept. */
  function NewBox(app: int): Box {
    Box(if app == 0 then 1 else app, MQS_NEWEST, 8, 0, 0, [], [], [], [])
  }

  /** A mailbox that was never allocated. */
  ghost predicate FreshBox(b: Box) {
    b.owner == 0 && b.queue == [] && b.waiters == []
  }

  ghost function AllocatedMbx(c: Core, app: int): Core
    requires Shaped(c) && IsMbx(c.firstMbx)
  {
    c.(boxes := c.boxes[c.firstMbx := NewBox(app)], firstMbx := c.firstMbx + 1)
  }

  /** The policy that a number stands for: the queueing routine treats every other number as it
      treats MQS_UNLIMITED. */
  function Policy(strategy: int): Strategy {
    if strategy == 1 then MQS_OLDEST else if strategy == 2 then MQS_NEWEST else MQS_UNLIMITED
  }

  ghost function WithStrategy(c: Core, m: int, strategy: int, size: nat, app: int): Core
    requires Shaped(c)
  {
    if StrategyResult(c, m, strategy, app) != E_Ok then c
    else c.(boxes := c.boxes[m := c.boxes[m].(strategy := Policy(strategy), size := size)])
  }

  ghost function StrategyResult(c: Core, m: int, strategy: int, app: int): Error
    requires Shaped(c)
  {
    if !IsMbx(m) || strategy > 2 then E_Arg
    else if c.boxes[m].owner != app && app > 1 then E_NotOwner
    else E_Ok
  }

  ghost function Emptied(c: Core, m: int): Core
    requires Shaped(c) && IsMbx(m)
    decreases c.boxes[m].count
  {
    var b := c.boxes[m];
    if b.count == 0 || b.queue == [] then Fetch(c, m) else Emptied(Fetch(c, m), m)
  }

  /** A waiting thread is on no ready ring; its flag says whether it is on the timeout list. */
  ghost predicate Sleeping(ts: Threads, h: int)
    requires |ts.thr| == |ts.loc| == NR_TCB + 1 && IsTcb(h)
  {
    ts.loc[h] == if ts.thr[h].status.timeout then OnTimeoutList else OffList
  }

  const NO_BOX := Box(0, MQS_UNLIMITED, 0, 0, 0, [], [], [], [])

  ghost function InitialBoxes(): seq<Box> {
    seq(NR_MBX + 1, _ => NO_BOX)
  }

  ghost function InitialCore(): Core {
    Core(InitialThreads(), InitialBoxes(), NR_MSG, 1)
  }

  /** What a mailbox must be like to take a message: its first waiter is asleep, or its queue
      is steady. */
  ghost predicate Receptive(c: Core, m: int)
    requires Shaped(c)
  {
    IsMbx(m) ==>
      var b := c.boxes[m];
      && (b.waiters != [] ==> b.waiters[0] in b.waiters && Sleeping(c.ts, b.waiters[0]))
      && (b.waiters == [] ==> Steady(b))
  }
}
