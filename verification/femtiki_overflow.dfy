/** What an overflow does to the words of a mailbox's queue in the later revision of the kernel
    (software/Femtiki/source/kernel/msg.c, MBXQueueMsg): it leaves the queue and the pool in order
    if and only if nothing has to be dropped from the queue. */
module Overflows {
  import opened KernelTypes
  import opened Seqs
  import opened Boxes
  import opened Blocks
  import opened BoundedQueues

  /** The words can be read as a queue and a pool without a block in common. */
  ghost predicate Intact(w: Words) {
    exists q, free :: Linked(w, q, free) && Tailed(w, q)
  }

  /** What a queue must be like for queueing to drop nothing from it: no overflow under MQS_NEWEST,
      no excess left over from another limit under MQS_OLDEST. */
  predicate DropsNothing(mbx: Mbx) {
    match mbx.strategy
    case MQS_UNLIMITED => true
    case MQS_NEWEST => mbx.mqCount + 1 <= mbx.mqSize
    case MQS_OLDEST => mbx.mqCount <= mbx.mqSize
  }

  /** All links are handles or nil. */
  ghost predicate LinksInTable(w: Words) {
    && |w.message| == NR_MSG && 0 <= w.freeMSG <= NR_MSG
    && 0 <= w.mbx.mqHead <= NR_MSG && 0 <= w.mbx.mqTail <= NR_MSG
    && forall i :: 0 <= i < NR_MSG ==> 0 <= w.message[i].link <= NR_MSG
  }

  /** FreeMsg, word by word. */
  function Freed(w: Words, h: int): Words
    requires |w.message| == NR_MSG
  {
    if !IsMsg(h) then w
    else w.(message := w.message[h - 1 := Msg(w.freeMSG, MT_FREE, NO_PAYLOAD)], freeMSG := h, nMsgBlk := w.nMsgBlk + 1)
  }

  // ----- words that are no queue and pool

  /** The head of the queue is the pool's first or second block. */
  ghost predicate HeadFree(w: Words)
    requires |w.message| == NR_MSG
  {
    IsMsg(w.mbx.mqHead) && IsMsg(w.freeMSG)
    && (w.freeMSG == w.mbx.mqHead || w.message[w.freeMSG - 1].link == w.mbx.mqHead)
  }

  /** The head is nil but the tail is not. */
  predicate HeadLost(w: Words) {
    w.mbx.mqHead == 0 && w.mbx.mqTail > 0
  }

  /** The last block leads on to another one. */
  ghost predicate TailOpen(w: Words)
    requires |w.message| == NR_MSG
  {
    IsMsg(w.mbx.mqTail) && w.message[w.mbx.mqTail - 1].link != 0
  }

  /** The head is the pool's first block. */
  ghost predicate HeadFirst(w: Words) {
    IsMsg(w.mbx.mqHead) && w.freeMSG == w.mbx.mqHead
  }

  ghost predicate Torn(w: Words)
    requires |w.message| == NR_MSG
  {
    HeadFree(w) || HeadLost(w) || TailOpen(w)
  }

  lemma LinkedNotTorn(w: Words, q: seq<int>, free: seq<int>)
    requires Linked(w, q, free) && Tailed(w, q)
    ensures !Torn(w)
  {
    assert q != [] ==> Link(w.message, q, |q| - 1) && q[0] in q;
    assert free != [] ==> Link(w.message, free, 0) && free[0] in free;
    assert |free| > 1 ==> free[1] in free;
  }

  lemma IntactNotTorn(w: Words)
    requires |w.message| == NR_MSG
    ensures Torn(w) ==> !Intact(w)
  {
    if Intact(w) {
      var q, free :| Linked(w, q, free) && Tailed(w, q);
      LinkedNotTorn(w, q, free);
    }
  }

  lemma FreedIntact(w: Words, q: seq<int>, free: seq<int>, msg: int)
    requires Linked(w, q, free) && Tailed(w, q) && IsMsg(msg) && msg !in q && msg !in free
    ensures Linked(Freed(w, msg), q, [msg] + free) && Tailed(Freed(w, msg), q)
  {
    var ms := Freed(w, msg).message;
    ChainFrame(w.message, ms, w.mbx.mqHead, q);
    ChainFrame(w.message, ms, w.freeMSG, free);
    ChainCons(ms, w.freeMSG, free, msg);
  }

  /** Counts, sizes and contents are not links. */
  lemma SameLinks(w: Words, v: Words, q: seq<int>, free: seq<int>)
    requires Linked(w, q, free) && Tailed(w, q) && |v.message| == NR_MSG
    requires v.freeMSG == w.freeMSG && v.mbx.mqHead == w.mbx.mqHead && v.mbx.mqTail == w.mbx.mqTail
    requires forall i :: 0 <= i < NR_MSG ==> v.message[i].link == w.message[i].link
    ensures Linked(v, q, free) && Tailed(v, q)
  {
    ChainFrame(w.message, v.message, w.mbx.mqHead, q);
    ChainFrame(w.message, v.message, w.freeMSG, free);
  }

  lemma EndsInTable(w: Words, q: seq<int>, free: seq<int>)
    requires Linked(w, q, free) && Tailed(w, q)
    ensures w.mbx.mqTail == 0 <==> w.mbx.mqHead == 0
    ensures q == [] <==> w.mbx.mqHead == 0
    ensures q != [] ==> IsMsg(w.mbx.mqHead) && IsMsg(w.mbx.mqTail)
  {
  }

  // ----- the routine

  class QueueWords {
    var words: Words

    constructor (w: Words)
      ensures words == w
    {
      words := w;
    }

    method FreeMsg(h: int)
      requires LinksInTable(words) && h <= NR_MSG
      modifies this
      ensures words == Freed(old(words), h) && LinksInTable(words)
    {
      if h > 0 && h <= NR_MSG {
        words := words.(message := words.message[h - 1 := Msg(words.freeMSG, MT_FREE, NO_PAYLOAD)],
                        freeMSG := h, nMsgBlk := words.nMsgBlk + 1);
      }
    }

    method Miss()
      requires words.mbx.mqCount > 0
      modifies this
      ensures words == old(words).(mbx := old(words).mbx.(mqCount := old(words).mbx.mqCount - 1,
                                                          mqMissed := words.mbx.mqMissed))
    {
      var mbx := words.mbx;
      words := words.(mbx := mbx.(mqMissed := if mbx.mqMissed < MAX_UINT then mbx.mqMissed + 1 else mbx.mqMissed,
                                  mqCount := mbx.mqCount - 1));
    }

    /** The loop of MQS_NEWEST: it frees the successor of the head and makes that the head. It reads
        outside the table once the head is nil. */
    method DropOldest() returns (inside: bool)
      requires LinksInTable(words) && words.mbx.mqCount > words.mbx.mqSize
      requires words.mbx.mqTail == 0 <==> words.mbx.mqHead == 0
      modifies this
      ensures LinksInTable(words) && words.mbx.mqTail == old(words).mbx.mqTail
      ensures inside ==>
        words.mbx.mqTail > 0 && (HeadLost(words) || HeadFirst(words))
    {
      inside := true;
      var turns := 0;
      while words.mbx.mqCount > words.mbx.mqSize
        invariant LinksInTable(words) && words.mbx.mqTail == old(words).mbx.mqTail
        invariant turns == 0 ==> words == old(words)
        invariant turns > 0 ==>
          words.mbx.mqTail > 0 && (HeadLost(words) || HeadFirst(words))
        decreases words.mbx.mqCount
      {
        if words.mbx.mqHead <= 0 {
          return false;
        }
        var htmp := words.message[words.mbx.mqHead - 1].link;
        FreeMsg(htmp);
        Miss();
        words := words.(mbx := words.mbx.(mqHead := htmp));
        turns := turns + 1;
      }
    }

    /** The loop of MQS_OLDEST, once the new message is back in the pool: it frees the last block and
        makes the one before it the last, whose link stays as it was. */
    method TrimNewest(msg: int)
      requires LinksInTable(words) && words.mbx.mqCount > words.mbx.mqSize && IsMsg(msg) && words.freeMSG == msg
      requires exists path :: Walk(words, path)
      modifies this
      ensures |words.message| == NR_MSG && Torn(words)
    {
      ghost var path :| Walk(words, path);
      var last := msg;
      var turns := 0;
      while words.mbx.mqCount > words.mbx.mqSize
        invariant LinksInTable(words) && IsMsg(last)
        invariant turns == 0 ==> words == old(words) && last == msg
        invariant turns > 0 ==> Torn(words) && last == words.mbx.mqTail
        invariant Walk(words, path) || HeadLost(words)
        decreases words.mbx.mqCount
      {
        var tmp := words.mbx.mqHead;
        ghost var i := 0;
        while tmp != words.mbx.mqTail
          invariant HeadLost(words) ==> tmp == 0
          invariant HeadLost(words) || path == [] || (i < |path| && tmp == path[i])
          invariant path == [] && !HeadLost(words) ==> tmp == 0 == words.mbx.mqTail
          invariant i == 0 ==> tmp == words.mbx.mqHead && (turns == 0 ==> last == msg)
          invariant i == 0 && turns > 0 ==> last == words.mbx.mqTail
          invariant i > 0 ==> i < |path| && last == path[i - 1]
          invariant forall j :: 0 <= j < i && j < |path| ==> path[j] != words.mbx.mqTail
          decreases |path| - i
        {
          if tmp <= 0 {
            return;  // the source goes on outside the table
          }
          last := tmp;
          tmp := words.message[tmp - 1].link;
          i := i + 1;
        }
        ghost var w, p := words, path;
        words := words.(mbx := words.mbx.(mqTail := last));
        FreeMsg(tmp);
        Miss();
        path := Trimmed(w, p, i, last, turns == 0);
        TrimTears(w, p, i, last, msg, turns == 0, words);
        turns := turns + 1;
      }
    }

    /** The new message is counted as a repeat of the last one, or hung on behind it. */
    method HangOn(msg: int)
      requires LinksInTable(words) && IsMsg(msg)
      modifies this
      ensures |words.message| == NR_MSG
      ensures forall q, free :: Linked(old(words), q, free) && Tailed(old(words), q) && msg !in q && msg !in free ==>
        Intact(words)
      ensures old(words.mbx.mqTail) > 0 && (HeadLost(old(words)) || HeadFirst(old(words))) ==> Torn(words)
    {
      ghost var w := words;
      var tail := words.mbx.mqTail;
      if tail > 0 && Coalesces([words.message[tail - 1].body], words.message[msg - 1].body) {
        var last := words.message[tail - 1].body;
        var more := Payload(last.d1 + REPEAT, last.d2, last.d3);
        words := words.(message := words.message[tail - 1 := words.message[tail - 1].(body := more)]);
        ghost var v := words;
        FreeMsg(msg);
        forall q, free | Linked(w, q, free) && Tailed(w, q) && msg !in q && msg !in free ensures Intact(words) {
          SameLinks(w, v, q, free);
          FreedIntact(v, q, free, msg);
        }
        return;
      }
      if tail > 0 {
        words := words.(message := words.message[tail - 1 := words.message[tail - 1].(link := msg)]);
      } else {
        words := words.(mbx := words.mbx.(mqHead := msg));
      }
      words := words.(mbx := words.mbx.(mqTail := msg),
                      message := words.message[msg - 1 := words.message[msg - 1].(link := 0)]);
      assert words == Hang(w, msg);
      forall q, free | Linked(w, q, free) && Tailed(w, q) && msg !in q && msg !in free ensures Intact(words) {
        HangHolds(w, q, free, msg);
      }
    }

    /** Queueing a message keeps the queue and the pool in order if and only if the policy drops
        nothing from the queue; a queue without blocks that counts too many makes MQS_NEWEST read
        outside the table. */
    method MBXQueueMsg(msg: int, ghost q: seq<int>, ghost free: seq<int>) returns (inside: bool, rr: Error)
      requires LinksInTable(words) && Linked(words, q, free) && Tailed(words, q)
      requires IsMsg(msg) && msg !in q && msg !in free
      modifies this
      ensures inside ==> (Intact(words) <==> DropsNothing(old(words).mbx))
      ensures !inside ==> !DropsNothing(old(words).mbx) && old(words).mbx.strategy == MQS_NEWEST
      ensures rr == E_QueFull <==>
        old(words).mbx.strategy != MQS_UNLIMITED && old(words).mbx.mqCount + 1 > old(words).mbx.mqSize
    {
      hide Linked, HeadFree, TailOpen;
      EndsInTable(words, q, free);
      inside, rr := true, E_Ok;
      words := words.(mbx := words.mbx.(mqCount := words.mbx.mqCount + 1));
      SameLinks(old(words), words, q, free);
      match words.mbx.strategy {
        case MQS_UNLIMITED =>
        case MQS_NEWEST =>
          if words.mbx.mqCount > words.mbx.mqSize {
            rr := E_QueFull;
            inside := DropOldest();
            if !inside {
              return;
            }
          }
        case MQS_OLDEST =>
          if words.mbx.mqCount > words.mbx.mqSize {
            rr := E_QueFull;
            ghost var w := words;
            FreedIntact(words, q, free, msg);
            FreeMsg(msg);
            ghost var v := words;
            Miss();
            SameLinks(v, words, q, [msg] + free);
            if words.mbx.mqCount > words.mbx.mqSize {
              QueueWalk(words, q, [msg] + free);
              TrimNewest(msg);
              IntactNotTorn(words);
            }
            return;
          }
      }
      HangOn(msg);
      IntactNotTorn(words);
    }
  }

  /** The links lead from the head to the tail by way of path. */
  ghost predicate Walk(w: Words, path: seq<int>)
  {
    && |w.message| == NR_MSG
    && (forall i :: 0 <= i < |path| ==> IsMsg(path[i]))
    && (forall i :: 0 <= i && i + 1 < |path| ==> w.message[path[i] - 1].link == path[i + 1])
    && w.mbx.mqHead == (if path == [] then 0 else path[0])
    && w.mbx.mqTail == (if path == [] then 0 else path[|path| - 1])
  }

  ghost function Trimmed(w: Words, path: seq<int>, i: nat, last: int, first: bool): seq<int> {
    if 0 < i <= |path| then path[..i]
    else if path == [] then []
    else if first then [path[0], last]
    else [path[0]]
  }

  lemma TrimTears(w: Words, path: seq<int>, i: nat, last: int, msg: int, first: bool, v: Words)
    requires LinksInTable(w) && IsMsg(last) && IsMsg(msg)
    requires (Walk(w, path) && i < |path| && path[i] == w.mbx.mqTail && forall j :: 0 <= j < i ==> path[j] != path[i])
          || (Walk(w, path) && path == [] && i == 0 && first)
    requires i > 0 ==> last == path[i - 1]
    requires i == 0 ==> if first then last == msg && w.freeMSG == msg else last == w.mbx.mqTail
    requires |v.message| == NR_MSG && v == Freed(w.(mbx := v.mbx), w.mbx.mqTail)
    requires v.mbx.mqHead == w.mbx.mqHead && v.mbx.mqTail == last
    ensures Torn(v) && (Walk(v, Trimmed(w, path, i, last, first)) || HeadLost(v))
  {
    if path != [] && i == 0 {
      assert path[0] == w.mbx.mqHead == w.mbx.mqTail;
      assert v.freeMSG == v.mbx.mqHead;
    } else if path != [] {
      assert path[i - 1] != path[i];
      assert v.message[path[i - 1] - 1].link == path[i];
    }
  }

  lemma QueueWalk(w: Words, q: seq<int>, free: seq<int>)
    requires Linked(w, q, free) && Tailed(w, q)
    ensures Walk(w, q)
  {
    forall i | 0 <= i && i + 1 < |q| ensures w.message[q[i] - 1].link == q[i + 1] { assert Link(w.message, q, i); }
  }
}
