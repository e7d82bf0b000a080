// The code of rt_mq_send, rt_mq_urgent, rt_mq_recv and rt_mq_control: cells linked
// through next, and the pointers msg_queue_head, msg_queue_tail, msg_queue_free.
// Each method is one stretch of a call that nothing can interrupt.
module MessageQueueCode {
  import opened Bytes
  import opened Ipc
  import opened MessageQueue

  const NULL := -1

  // ----- Singly linked lists

  /** first and the next fields lead through exactly these cells. */
  ghost predicate Chain(next: seq<int>, first: int, cells: seq<nat>) {
    && first == (if cells == [] then NULL else cells[0])
    && (forall i :: 0 <= i < |cells| ==> cells[i] < |next|)
    && (forall i, j :: 0 <= i && j == i + 1 && j < |cells| ==> next[cells[i]] == cells[j])
    && (cells != [] ==> next[cells[|cells| - 1]] == NULL)
  }

  /** A cell that is in a place of its own is not linked from the lists of another place. */
  lemma ChainElsewhere(next: seq<int>, first: int, cells: seq<nat>, place: seq<Place>, p: Place, c: nat, v: int)
    requires Chain(next, first, cells) && Listed(cells, place, p) && c < |place| == |next| && place[c] != p
    ensures Chain(next[c := v], first, cells)
  {
  }

  lemma ChainPop(next: seq<int>, first: int, cells: seq<nat>)
    requires Chain(next, first, cells) && cells != []
    ensures 0 <= first < |next| && Chain(next, next[first], cells[1..])
  {
  }

  lemma ChainPush(next: seq<int>, first: int, cells: seq<nat>, place: seq<Place>, p: Place, c: nat)
    requires Chain(next, first, cells) && Listed(cells, place, p) && c < |place| == |next| && place[c] != p
    ensures Chain(next[c := first], c, [c] + cells)
  {
  }

  lemma ChainAppend(next: seq<int>, first: int, cells: seq<nat>, place: seq<Place>, p: Place, c: nat)
    requires Chain(next, first, cells) && Listed(cells, place, p) && c < |place| == |next| && place[c] != p
    requires next[c] == NULL
    ensures cells == [] ==> Chain(next, c, cells + [c])
    ensures cells != [] ==> cells[|cells| - 1] < |next| && Chain(next[cells[|cells| - 1] := c], first, cells + [c])
  {
  }

  // ----- The links of a queue

  /** The pointers and links show the lists of q; an ordinary send has cut the link of its cell once it copies. */
  ghost predicate Shows(next: seq<int>, free: int, head: int, tail: int, q: Queue) {
    && |next| == |q.place|
    && Chain(next, free, q.free) && Chain(next, head, Cells(q.queued))
    && tail == (if q.queued == [] then NULL else q.queued[|q.queued| - 1].cell)
    && Severed(next, q.senders)
  }

  ghost predicate Severed(next: seq<int>, senders: map<Tid, Sender>) {
    forall t :: t in senders ==>
      && senders[t].buffer != [] && senders[t].cell < |next|
      && (senders[t].copied > 0 && !senders[t].urgent ==> next[senders[t].cell] == NULL)
  }

  /** Writing the link of a cell that no sender holds. */
  lemma SeveredElsewhere(next: seq<int>, senders: map<Tid, Sender>, place: seq<Place>, c: nat, v: int)
    requires Severed(next, senders) && SendersOwn(senders, place) && c < |place| == |next| && !place[c].Sent?
    ensures Severed(next[c := v], senders)
  {
  }

  lemma SeveredLeave(next: seq<int>, senders: map<Tid, Sender>, place: seq<Place>, t: Tid, v: int)
    requires Severed(next, senders) && SendersOwn(senders, place) && |place| == |next| && t in senders
    ensures Severed(next[senders[t].cell := v], senders - {t}) && Severed(next, senders - {t})
    ensures senders[t].copied > 0 && !senders[t].urgent ==> next[senders[t].cell] == NULL
  {
  }

  lemma SenderFilled(next: seq<int>, senders: map<Tid, Sender>, t: Tid)
    requires Severed(next, senders) && t in senders
    ensures |senders[t].buffer| > 0
  {
  }

  lemma SendBeginShows(next: seq<int>, free: int, head: int, tail: int, q: Queue, t: Tid, buffer: seq<byte>,
      urgent: bool)
    requires Shows(next, free, head, tail, q) && Partitioned(q) && buffer != [] && |buffer| <= q.msgSize && q.free != []
    ensures 0 <= free < |next|
    ensures Shows(next, next[free], head, tail, SendBegin(q, t, buffer, urgent).0)
  {
    ChainPop(next, free, q.free);
    hide Chain;
  }

  lemma SendByteShows(next: seq<int>, free: int, head: int, tail: int, q: Queue, t: Tid)
    requires Shows(next, free, head, tail, q) && Partitioned(q) && Intact(q) && Legal(q, DoCopyIn(t))
    ensures q.senders[t].cell < |next|
    ensures var s := q.senders[t];
            var next' := if s.copied == 0 && !s.urgent then next[s.cell := NULL] else next;
            Shows(next', free, head, tail, SendByte(q, t))
  {
    hide Chain, Listed, Intact, ReceiversOwn;
    var s := q.senders[t];
    ChainElsewhere(next, free, q.free, q.place, Free, s.cell, NULL);
    ChainElsewhere(next, head, Cells(q.queued), q.place, Queued, s.cell, NULL);
  }

  lemma AppendShows(next: seq<int>, free: int, head: int, tail: int, q: Queue, t: Tid)
    requires Shows(next, free, head, tail, q) && Partitioned(q) && Legal(q, DoCommit(t)) && !q.senders[t].urgent
    ensures tail == NULL <==> head == NULL
    ensures tail != NULL ==> 0 <= tail < |next|
    ensures var c := q.senders[t].cell;
            var next' := if tail == NULL then next else next[tail := c];
            Shows(next', free, if head == NULL then c else head, c, SendCommit(q, t))
  {
    hide Chain, Listed, Severed, ReceiversOwn, WakeFirst;
    var s := q.senders[t];
    SeveredLeave(next, q.senders, q.place, t, NULL);
    assert s.copied > 0 by { SenderFilled(next, q.senders, t); }
    ChainAppend(next, head, Cells(q.queued), q.place, Queued, s.cell);
    ChainFirst(next, head, Cells(q.queued));
    CellsPush(Item(s.cell, s.buffer), q.queued);
    if q.queued != [] {
      LastPlace(q);
      ChainElsewhere(next, free, q.free, q.place, Free, tail, s.cell);
      SeveredElsewhere(next, q.senders, q.place, tail, s.cell);
      SeveredLeave(next[tail := s.cell], q.senders, q.place, t, NULL);
    }
  }

  lemma LastPlace(q: Queue)
    requires Partitioned(q) && q.queued != []
    ensures var c := q.queued[|q.queued| - 1].cell; c < |q.place| && q.place[c] == Queued
  {
    assert Cells(q.queued)[|q.queued| - 1] == q.queued[|q.queued| - 1].cell;
  }

  lemma PrependShows(next: seq<int>, free: int, head: int, tail: int, q: Queue, t: Tid)
    requires Shows(next, free, head, tail, q) && Partitioned(q) && Legal(q, DoCommit(t)) && q.senders[t].urgent
    ensures var c := q.senders[t].cell;
            c < |next| && Shows(next[c := head], free, c, if tail == NULL then c else tail, SendCommit(q, t))
  {
    hide Chain, Listed, Severed, ReceiversOwn, WakeFirst;
    SeveredLeave(next, q.senders, q.place, t, head);
    var s := q.senders[t];
    ChainPush(next, head, Cells(q.queued), q.place, Queued, s.cell);
    ChainElsewhere(next, free, q.free, q.place, Free, s.cell, head);
    CellsPush(Item(s.cell, s.buffer), q.queued);
    ChainFirst(next, head, Cells(q.queued));
  }

  lemma RecvTryShows(next: seq<int>, free: int, head: int, tail: int, q: Queue, w: Waiter, want: nat, wait: bool)
    requires Shows(next, free, head, tail, q) && Partitioned(q) && q.queued != []
    ensures 0 <= head < |next| && head == q.queued[0].cell
    ensures Shows(next, free, next[head], if tail == head then NULL else tail, RecvTry(q, w, want, wait).0)
  {
    hide Proceed;
    ChainPop(next, head, Cells(q.queued));
    assert Cells(q.queued[1..]) == Cells(q.queued)[1..];
    LastIsHead(q);
    hide Chain;
  }

  lemma LastIsHead(q: Queue)
    requires Partitioned(q) && q.queued != []
    ensures q.queued[0].cell == q.queued[|q.queued| - 1].cell <==> |q.queued| == 1
  {
    assert Cells(q.queued)[0] == q.queued[0].cell;
    assert Cells(q.queued)[|q.queued| - 1] == q.queued[|q.queued| - 1].cell;
  }

  lemma RecvFinishShows(next: seq<int>, free: int, head: int, tail: int, q: Queue, t: Tid)
    requires Shows(next, free, head, tail, q) && Partitioned(q) && t in q.receivers
    ensures var c := q.receivers[t].item.cell;
            c < |next| && Shows(next[c := free], c, head, tail, RecvFinish(q, t))
  {
    var c := q.receivers[t].item.cell;
    ChainPush(next, free, q.free, q.place, Free, c);
    ChainElsewhere(next, head, Cells(q.queued), q.place, Queued, c, free);
    SeveredElsewhere(next, q.senders, q.place, c, free);
    hide Listed, SendersOwn, Chain;
  }

  /** One round of the reset loop. */
  lemma DrainShows(next: seq<int>, free: int, head: int, tail: int, q: Queue)
    requires Shows(next, free, head, tail, q) && Partitioned(q) && q.queued != []
    ensures 0 <= head < |next| == |q.place| && head == q.queued[0].cell
    ensures Shows(next[head := free], head, next[head], if tail == head then NULL else tail, Drained(q))
  {
    hide Chain, Listed, Severed, SendersOwn, ReceiversOwn;
    var cells := Cells(q.queued);
    ChainPop(next, head, cells);
    ChainFirst(next, head, cells);
    LastIsHead(q);
    ListedTail(cells, q.place, Queued, Free);
    ListedHead(cells, q.place, Queued);
    ChainElsewhere(next, next[head], cells[1..], q.place[head := Free], Queued, head, free);
    ChainPush(next, free, q.free, q.place, Free, head);
    SeveredElsewhere(next, q.senders, q.place, head, free);
    assert Cells(q.queued[1..]) == cells[1..];
    assert |q.queued| > 1 ==> q.queued[1..][|q.queued| - 2] == q.queued[|q.queued| - 1];
  }

  lemma ListedHead(cells: seq<nat>, place: seq<Place>, p: Place)
    requires Listed(cells, place, p) && cells != []
    ensures cells[0] < |place| && place[cells[0]] == p
  {
  }

  lemma DrainPartitions(q: Queue)
    requires Partitioned(q) && q.queued != []
    ensures q.queued[0].cell < |q.place| && Partitioned(Drained(q))
  {
    var cells := Cells(q.queued);
    ListedTail(cells, q.place, Queued, Free);
    ListedPush(cells[0], q.free, q.place, Free);
    assert Cells(q.queued[1..]) == cells[1..];
  }

  /** The head of the queue becomes the head of the free list. */
  function Drained(q: Queue): Queue
    requires q.queued != [] && q.queued[0].cell < |q.place|
  {
    var cell := q.queued[0].cell;
    q.(queued := q.queued[1..], free := [cell] + q.free, place := q.place[cell := Free])
  }

  // ----- The code

  class Object {
    const msgSize: nat
    const flag: Flag
    const next: array<int>
    const text: array<seq<byte>>
    var head: int
    var tail: int
    var free: int
    var entry: nat
    var waiting: seq<Waiter>
    ghost var q: Queue

    ghost predicate Valid()
      reads this, next, text
    {
      && q.msgSize == msgSize && q.flag == flag && text[..] == q.text
      && Shows(next[..], free, head, tail, q)
      && entry == |q.queued| && waiting == q.side.waiting
      && Inv(q)
    }

    /** rt_mq_init. */
    constructor (max: nat, msgSize: nat, flag: Flag)
      ensures Valid() && q == Init(max, msgSize, flag) && fresh(next) && fresh(text)
    {
      this.msgSize, this.flag := msgSize, flag;
      next := new int[max];
      text := new seq<byte>[max](i => seq(msgSize, k => 0));
      head, tail, free, entry, waiting := NULL, NULL, NULL, 0, [];
      q := Init(max, msgSize, flag);
      new;
      for temp := 0 to max
        invariant head == NULL && tail == NULL && entry == 0 && waiting == [] && q == Init(max, msgSize, flag)
        invariant text[..] == q.text
        invariant Chain(next[..], free, Descending(temp))
      {
        next[temp] := free;
        free := temp;
      }
      InitInv(max, msgSize, flag);
    }

    // ----- rt_mq_send and rt_mq_urgent

    method SendEnter(t: Tid, buffer: seq<byte>, urgent: bool) returns (code: Code, msg: int)
      requires Valid() && Legal(q, DoSend(t, buffer, urgent))
      modifies this`free, this`q
      ensures Valid() && (q, code) == SendBegin(old(q), t, buffer, urgent)
      ensures code == Ok ==> t in q.senders && msg == q.senders[t].cell
    {
      hide Chain, Severed, Listed, Intact, Phases, NoLostWakeUp, Uninvolved, SendersOwn, ReceiversOwn;
      StepKeeps(q, DoSend(t, buffer, urgent));
      InRange(q);
      if |buffer| > msgSize { return Error, NULL; }
      msg := free;
      ChainFirst(next[..], free, q.free);
      if msg == NULL { return Full, NULL; }
      SendBeginShows(next[..], free, head, tail, q, t, buffer, urgent);
      free := next[msg];
      q := SendBegin(q, t, buffer, urgent).0;
      code := Ok;
    }

    /** The copy of the k-th byte; an ordinary send cuts the link of its cell before it starts. */
    method SendCopy(t: Tid, msg: nat, k: nat, buffer: seq<byte>, urgent: bool)
      requires Valid() && Legal(q, DoCopyIn(t)) && q.senders[t] == Sender(msg, buffer, k, urgent)
      modifies this`q, next, text
      ensures Valid() && q == SendByte(old(q), t)
    {
      hide Chain, Severed, Partitioned, Phases, NoLostWakeUp, Uninvolved, ReceiverIntact, ItemsIntact;
      StepKeeps(q, DoCopyIn(t));
      SendByteShows(next[..], free, head, tail, q, t);
      if k == 0 && !urgent {
        next[msg] := NULL;
      }
      text[msg] := text[msg][k := buffer[k]];
      q := SendByte(q, t);
    }

    /** Links the cell of thread t at the end, or at the head when urgent, and resumes a receiver. */
    method SendLeave(t: Tid, msg: nat, urgent: bool)
      requires Valid() && Legal(q, DoCommit(t)) && msg == q.senders[t].cell && urgent == q.senders[t].urgent
      modifies this, next
      ensures Valid() && q == SendCommit(old(q), t)
    {
      hide Shows, Partitioned, Intact, Phases, NoLostWakeUp, Idle, SendCommit;
      StepKeeps(q, DoCommit(t));
      CommitFields(q, t);
      if urgent {
        PrependShows(next[..], free, head, tail, q, t);
        next[msg] := head;
        head := msg;
        if tail == NULL { tail := msg; }
      } else {
        AppendShows(next[..], free, head, tail, q, t);
        if tail != NULL {
          next[tail] := msg;
        }
        tail := msg;
        if head == NULL { head := msg; }
      }
      entry := entry + 1;
      if waiting != [] { waiting := waiting[1..]; }
      q := SendCommit(q, t);
    }

    // ----- rt_mq_recv

    /** One round of the receive loop. */
    method RecvEnter(w: Waiter, want: nat, wait: bool) returns (code: Code, msg: int)
      requires Valid() && Legal(q, DoRecv(w, want, wait))
      modifies this
      ensures Valid() && (q, code) == RecvTry(old(q), w, want, wait)
      ensures (code == Ok <==> old(entry) > 0) && (code == Blocked ==> wait) && (code == TimedOut ==> !wait)
      ensures code == Ok ==> w.id in q.receivers && msg == q.receivers[w.id].item.cell
    {
      hide Chain, Severed, Intact, Phases, NoLostWakeUp, Uninvolved, SendersOwn, ReceiversOwn, Enqueue, Listed;
      StepKeeps(q, DoRecv(w, want, wait));
      InRange(q) by { assert Partitioned(q); }
      msg := NULL;
      if entry == 0 {
        if wait {
          waiting := ListSuspend(waiting, w, flag);
          code := Blocked;
        } else {
          code := TimedOut;
        }
      } else {
        RecvTryShows(next[..], free, head, tail, q, w, want, wait);
        msg := head;
        head := next[msg];
        if tail == msg { tail := NULL; }
        entry := entry - 1;
        code := Ok;
      }
      q := RecvTry(q, w, want, wait).0;
    }

    method RecvCopy(t: Tid, msg: nat, k: nat) returns (b: byte)
      requires Valid() && Legal(q, DoCopyOut(t)) && msg == q.receivers[t].item.cell && k == |q.receivers[t].got|
      modifies this`q
      ensures Valid() && q == Step(old(q), DoCopyOut(t))
      ensures t in q.receivers && q.receivers[t].got == old(q).receivers[t].got + [b]
    {
      hide Chain, Severed, Listed, Phases, NoLostWakeUp, Uninvolved, SendersOwn, ReceiversOwn, SenderIntact,
          ItemsIntact;
      StepKeeps(q, DoCopyOut(t));
      b := text[msg][k];
      q := RecvByte(q, t);
    }

    method RecvLeave(t: Tid, msg: nat)
      requires Valid() && Legal(q, DoFinish(t)) && msg == q.receivers[t].item.cell
      modifies this`free, this`q, next
      ensures Valid() && q == RecvFinish(old(q), t)
    {
      hide Chain, Severed, Partitioned, Intact, Phases, NoLostWakeUp, Uninvolved;
      StepKeeps(q, DoFinish(t));
      RecvFinishShows(next[..], free, head, tail, q, t);
      next[msg] := free;
      free := msg;
      q := RecvFinish(q, t);
    }

    /** rt_thread_timeout takes the thread off the suspend list. */
    method Remove(t: Tid)
      requires Valid() && Waits(waiting, t)
      modifies this`waiting, this`q
      ensures Valid() && q == TimeOut(old(q), t)
    {
      hide Chain, Severed, Intact, Phases, NoLostWakeUp, Partitioned;
      StepKeeps(q, DoExpire(t));
      waiting := Without(waiting, t);
      q := TimeOut(q, t);
    }

    /** rt_mq_control with RT_IPC_CMD_RESET. */
    method Reset()
      requires Valid()
      modifies this, next
      ensures Valid() && q == MessageQueue.Reset(old(q))
    {
      hide Chain, Severed, Listed, Intact, Phases, NoLostWakeUp, SendersOwn, ReceiversOwn;
      StepKeeps(q, DoReset);
      ResetKeeps(q);
      InRange(q);
      ghost var done := MessageQueue.Reset(q);
      while waiting != []
        invariant q == old(q) && next[..] == old(next[..])
        invariant head == old(head) && tail == old(tail) && free == old(free) && entry == old(entry)
      {
        waiting := waiting[1..];
      }
      q := q.(side := Clear(q.side));
      while head != NULL
        invariant Shows(next[..], free, head, tail, q) && Partitioned(q) && waiting == []
        invariant q.text == text[..] && q.msgSize == msgSize && q.flag == flag
        invariant (forall i :: 0 <= i < |q.queued| ==> q.queued[i].cell < |q.place|) && Drain(q) == done
        decreases |q.queued|
      {
        ChainFirst(next[..], head, Cells(q.queued));
        DrainShows(next[..], free, head, tail, q);
        DrainPartitions(q);
        var msg := head;
        head := next[msg];
        if tail == msg { tail := NULL; }
        next[msg] := free;
        free := msg;
        q := Drained(q);
      }
      ChainFirst(next[..], head, Cells(q.queued));
      entry := 0;
    }
  }

  lemma CommitFields(q: Queue, t: Tid)
    requires Partitioned(q) && t in q.senders
    ensures q.senders[t].cell < |q.place|
    ensures var q' := SendCommit(q, t);
            && q'.msgSize == q.msgSize && q'.flag == q.flag && q'.text == q.text && |q'.queued| == |q.queued| + 1
            && q'.side.waiting == if q.side.waiting == [] then [] else q.side.waiting[1..]
  {
  }

  lemma ChainFirst(next: seq<int>, first: int, cells: seq<nat>)
    requires Chain(next, first, cells)
    ensures first == if cells == [] then NULL else cells[0]
  {
  }
}
