// The message queue of thread_pool/rt-thread/src/ipc.c as a state machine.
//
// Every stretch of code that runs with interrupts off is one step.  Between the
// steps of a call the calling thread owns a pool cell and copies a message into
// or out of it, one byte a step, while other threads go on.
module MessageQueue {
  import opened Bytes
  import opened Ipc
  import Lists

  /** A queued cell, and the message that was sent in it. */
  datatype Item = Item(cell: nat, msg: seq<byte>)

  /** A thread between the two critical sections of rt_mq_send or rt_mq_urgent. */
  datatype Sender = Sender(cell: nat, buffer: seq<byte>, copied: nat, urgent: bool)

  /** A thread between the two critical sections of rt_mq_recv. */
  datatype Receiver = Receiver(item: Item, want: nat, got: seq<byte>)

  /** Whom a cell belongs to. */
  datatype Place = Free | Queued | Sent(who: Tid) | Read(who: Tid)

  /** text holds the bytes of the cells, free the free list, queued the message list. */
  datatype Queue = Queue(msgSize: nat, flag: Flag, text: seq<seq<byte>>, free: seq<nat>, queued: seq<Item>,
                         senders: map<Tid, Sender>, receivers: map<Tid, Receiver>, side: Side, place: seq<Place>)

  function Min(a: nat, b: nat): nat { if a < b then a else b }

  /** The messages in the queue, in the order in which they will leave. */
  function Messages(q: Queue): (r: seq<seq<byte>>)
    ensures |r| == |q.queued| && forall i :: 0 <= i < |r| ==> r[i] == q.queued[i].msg
  {
    seq(|q.queued|, i requires 0 <= i < |q.queued| => q.queued[i].msg)
  }

  // ----- The invariant

  /** A list names different cells, all of them in place p. */
  ghost predicate Listed(cells: seq<nat>, place: seq<Place>, p: Place) {
    && (forall i :: 0 <= i < |cells| ==> cells[i] < |place| && place[cells[i]] == p)
    && (forall i, j :: 0 <= i < j < |cells| ==> cells[i] != cells[j])
  }

  function Cells(items: seq<Item>): (r: seq<nat>)
    ensures |r| == |items| && forall i :: 0 <= i < |r| ==> r[i] == items[i].cell
  {
    seq(|items|, i requires 0 <= i < |items| => items[i].cell)
  }

  ghost predicate SendersOwn(senders: map<Tid, Sender>, place: seq<Place>) {
    forall t :: t in senders ==> senders[t].cell < |place| && place[senders[t].cell] == Sent(t)
  }

  ghost predicate ReceiversOwn(receivers: map<Tid, Receiver>, place: seq<Place>) {
    forall t :: t in receivers ==> receivers[t].item.cell < |place| && place[receivers[t].item.cell] == Read(t)
  }

  /** Every cell is in exactly one place, and the lists and the threads together account for all of them. */
  ghost predicate Partitioned(q: Queue) {
    && Listed(q.free, q.place, Free)
    && Listed(Cells(q.queued), q.place, Queued)
    && SendersOwn(q.senders, q.place)
    && ReceiversOwn(q.receivers, q.place)
    && |q.free| + |q.queued| + |q.senders| + |q.receivers| == |q.place|
  }

  /** The first bytes of a cell are those of a message. */
  predicate Carries(text: seq<seq<byte>>, n: nat, cell: nat, msg: seq<byte>) {
    && cell < |text| && |text[cell]| == n && |msg| <= n
    && text[cell][..|msg|] == msg
  }

  ghost predicate ItemsIntact(items: seq<Item>, text: seq<seq<byte>>, n: nat) {
    forall i :: 0 <= i < |items| ==> Carries(text, n, items[i].cell, items[i].msg)
  }

  predicate SenderIntact(s: Sender, text: seq<seq<byte>>, n: nat) {
    s.copied <= |s.buffer| <= n && Carries(text, n, s.cell, s.buffer[..s.copied])
  }

  /** The cell holds the whole message, and what is copied so far is a prefix of the cell. */
  predicate ReceiverIntact(r: Receiver, text: seq<seq<byte>>, n: nat) {
    && |r.got| <= Min(r.want, n)
    && Carries(text, n, r.item.cell, r.item.msg) && Carries(text, n, r.item.cell, r.got)
  }

  ghost predicate Intact(q: Queue) {
    && |q.text| == |q.place|
    && (forall c :: 0 <= c < |q.text| ==> |q.text[c]| == q.msgSize)
    && ItemsIntact(q.queued, q.text, q.msgSize)
    && (forall t :: t in q.senders ==> SenderIntact(q.senders[t], q.text, q.msgSize))
    && (forall t :: t in q.receivers ==> ReceiverIntact(q.receivers[t], q.text, q.msgSize))
  }

  /** A thread is in at most one call. */
  ghost predicate Phases(q: Queue) {
    && Consistent(q.side) && (q.flag.Prio? ==> Sorted(q.side.waiting))
    && (forall t :: t in q.senders ==> t !in q.receivers && Uninvolved(q.side, t))
    && (forall t :: t in q.receivers ==> Uninvolved(q.side, t))
  }

  ghost predicate Inv(q: Queue) {
    Partitioned(q) && Intact(q) && Phases(q) && NoLostWakeUp(q.side, |q.queued|)
  }

  predicate Idle(q: Queue, t: Tid) { t !in q.senders && t !in q.receivers && Uninvolved(q.side, t) }

  // ----- The steps

  datatype Code = Ok | Error | Full | TimedOut | Blocked

  /** rt_mq_init: the pool loop pushes the cells in ascending order. */
  function Descending(n: nat): (r: seq<nat>)
    ensures |r| == n && forall i :: 0 <= i < n ==> r[i] == n - 1 - i
  {
    if n == 0 then [] else [n - 1] + Descending(n - 1)
  }

  function Init(max: nat, msgSize: nat, flag: Flag): Queue {
    Queue(msgSize, flag, seq(max, i => seq(msgSize, k => 0)), Descending(max), [], map[], map[], Side([], {}),
          seq(max, i => Free))
  }

  /** First section of rt_mq_send and rt_mq_urgent: pop a free cell. */
  function SendBegin(q: Queue, t: Tid, buffer: seq<byte>, urgent: bool): (Queue, Code)
    requires forall i :: 0 <= i < |q.free| ==> q.free[i] < |q.place|
  {
    if |buffer| > q.msgSize then (q, Error)
    else if q.free == [] then (q, Full)
    else
      var cell := q.free[0];
      (q.(free := q.free[1..], senders := q.senders[t := Sender(cell, buffer, 0, urgent)],
          place := q.place[cell := Sent(t)]), Ok)
  }

  /** One byte of the copy into the cell. */
  function SendByte(q: Queue, t: Tid): Queue
    requires t in q.senders && q.senders[t].cell < |q.text| && q.senders[t].copied < |q.senders[t].buffer|
    requires q.senders[t].copied < |q.text[q.senders[t].cell]|
  {
    var s := q.senders[t];
    q.(text := q.text[s.cell := q.text[s.cell][s.copied := s.buffer[s.copied]]],
       senders := q.senders[t := s.(copied := s.copied + 1)])
  }

  /** Second section of rt_mq_send and rt_mq_urgent: link the cell, resume a receiver. */
  function SendCommit(q: Queue, t: Tid): Queue
    requires t in q.senders && q.senders[t].cell < |q.place|
  {
    var s := q.senders[t];
    var item := Item(s.cell, s.buffer);
    q.(queued := if s.urgent then [item] + q.queued else q.queued + [item],
       senders := q.senders - {t}, side := WakeFirst(q.side), place := q.place[s.cell := Queued])
  }

  /** One round of the loop of rt_mq_recv, by a new caller or a woken thread; wait says whether time is left. */
  function RecvTry(q: Queue, w: Waiter, want: nat, wait: bool): (Queue, Code)
    requires forall i :: 0 <= i < |q.queued| ==> q.queued[i].cell < |q.place|
  {
    if q.queued != [] then
      var item := q.queued[0];
      (q.(queued := q.queued[1..], receivers := q.receivers[w.id := Receiver(item, want, [])],
          side := Proceed(q.side, w.id), place := q.place[item.cell := Read(w.id)]), Ok)
    else if !wait then (q.(side := Proceed(q.side, w.id)), TimedOut)
    else (q.(side := Block(q.side, w, q.flag)), Blocked)
  }

  /** One byte of the copy out of the cell. */
  function RecvByte(q: Queue, t: Tid): Queue
    requires t in q.receivers && q.receivers[t].item.cell < |q.text|
    requires |q.receivers[t].got| < |q.text[q.receivers[t].item.cell]|
  {
    var r := q.receivers[t];
    q.(receivers := q.receivers[t := r.(got := r.got + [q.text[r.item.cell][|r.got|]])])
  }

  /** Second section of rt_mq_recv: the cell goes back to the free list. */
  function RecvFinish(q: Queue, t: Tid): Queue
    requires t in q.receivers && q.receivers[t].item.cell < |q.place|
  {
    var cell := q.receivers[t].item.cell;
    q.(free := [cell] + q.free, receivers := q.receivers - {t}, place := q.place[cell := Free])
  }

  function TimeOut(q: Queue, t: Tid): Queue { q.(side := Expire(q.side, t)) }

  /** One round of the loop of the reset. */
  function DrainOne(q: Queue): Queue
    requires q.queued != [] && q.queued[0].cell < |q.place|
  {
    var cell := q.queued[0].cell;
    q.(queued := q.queued[1..], free := [cell] + q.free, place := q.place[cell := Free])
  }

  /** The loop of the reset: the head of the queue becomes the head of the free list. */
  function Drain(q: Queue): Queue
    requires forall i :: 0 <= i < |q.queued| ==> q.queued[i].cell < |q.place|
    decreases |q.queued|
  {
    if q.queued == [] then q else Drain(DrainOne(q))
  }

  /** rt_mq_control with RT_IPC_CMD_RESET. */
  function Reset(q: Queue): Queue
    requires forall i :: 0 <= i < |q.queued| ==> q.queued[i].cell < |q.place|
  {
    Drain(q.(side := Clear(q.side)))
  }

  // ----- Runs

  datatype Op =
    | DoSend(t: Tid, buffer: seq<byte>, urgent: bool)
    | DoCopyIn(t: Tid)
    | DoCommit(t: Tid)
    | DoRecv(w: Waiter, want: nat, wait: bool)
    | DoCopyOut(t: Tid)
    | DoFinish(t: Tid)
    | DoExpire(t: Tid)
    | DoReset

  /** The step is the next one of the thread that takes it. */
  predicate Legal(q: Queue, op: Op) {
    match op
    case DoSend(t, buffer, _) => buffer != [] && Idle(q, t)
    case DoCopyIn(t) => t in q.senders && q.senders[t].copied < |q.senders[t].buffer|
    case DoCommit(t) => t in q.senders && q.senders[t].copied == |q.senders[t].buffer|
    case DoRecv(w, want, _) =>
      0 < want && w.id !in q.senders && w.id !in q.receivers && !Waits(q.side.waiting, w.id)
    case DoCopyOut(t) => t in q.receivers && |q.receivers[t].got| < Min(q.receivers[t].want, q.msgSize)
    case DoFinish(t) => t in q.receivers && |q.receivers[t].got| == Min(q.receivers[t].want, q.msgSize)
    case DoExpire(t) => Waits(q.side.waiting, t)
    case DoReset => true
  }

  function Step(q: Queue, op: Op): Queue
    requires Inv(q) && Legal(q, op)
  {
    match op
    case DoSend(t, buffer, urgent) => SendBegin(q, t, buffer, urgent).0
    case DoCopyIn(t) => SendByte(q, t)
    case DoCommit(t) => SendCommit(q, t)
    case DoRecv(w, want, wait) => RecvTry(q, w, want, wait).0
    case DoCopyOut(t) => RecvByte(q, t)
    case DoFinish(t) => RecvFinish(q, t)
    case DoExpire(t) => TimeOut(q, t)
    case DoReset => Reset(q)
  }

  // ----- Preservation, step by step

  lemma InitInv(max: nat, msgSize: nat, flag: Flag)
    ensures Inv(Init(max, msgSize, flag))
  {
  }

  lemma InRange(q: Queue)
    requires Partitioned(q)
    ensures forall i :: 0 <= i < |q.free| ==> q.free[i] < |q.place|
    ensures forall i :: 0 <= i < |q.queued| ==> q.queued[i].cell < |q.place|
  {
    assert forall i :: 0 <= i < |q.queued| ==> q.queued[i].cell == Cells(q.queued)[i];
  }

  lemma MapSizes<V>(m: map<Tid, V>, t: Tid, v: V)
    ensures |m[t := v]| == if t in m then |m| else |m| + 1
    ensures t in m ==> |m - {t}| == |m| - 1
  {
    assert m[t := v].Keys == m.Keys + {t};
    assert (m - {t}).Keys == m.Keys - {t};
  }

  // A list loses its head, gains a head or a last cell, or does not care about a cell that moves.

  lemma ListedTail(cells: seq<nat>, place: seq<Place>, p: Place, p': Place)
    requires Listed(cells, place, p) && cells != [] && p != p'
    ensures cells[0] < |place| && Listed(cells[1..], place[cells[0] := p'], p)
  {
  }

  lemma ListedPush(c: nat, cells: seq<nat>, place: seq<Place>, p: Place)
    requires Listed(cells, place, p) && c < |place| && place[c] != p
    ensures Listed([c] + cells, place[c := p], p) && Listed(cells + [c], place[c := p], p)
  {
  }

  lemma ListedOther(cells: seq<nat>, place: seq<Place>, p: Place, c: nat, p': Place)
    requires Listed(cells, place, p) && c < |place| && place[c] != p && p' != p
    ensures Listed(cells, place[c := p'], p)
  {
  }

  /** Thread t hands over its cell, or gets one. */
  lemma SenderLeaves(senders: map<Tid, Sender>, receivers: map<Tid, Receiver>, place: seq<Place>, t: Tid)
    requires SendersOwn(senders, place) && ReceiversOwn(receivers, place) && t in senders
    ensures senders[t].cell < |place| && place[senders[t].cell] == Sent(t)
    ensures SendersOwn(senders - {t}, place[senders[t].cell := Queued])
    ensures ReceiversOwn(receivers, place[senders[t].cell := Queued])
  {
  }

  lemma SenderJoins(senders: map<Tid, Sender>, receivers: map<Tid, Receiver>, place: seq<Place>, t: Tid, s: Sender)
    requires SendersOwn(senders, place) && ReceiversOwn(receivers, place) && t !in senders
    requires s.cell < |place| && place[s.cell] == Free
    ensures SendersOwn(senders[t := s], place[s.cell := Sent(t)])
    ensures ReceiversOwn(receivers, place[s.cell := Sent(t)])
  {
  }

  lemma ReceiverLeaves(senders: map<Tid, Sender>, receivers: map<Tid, Receiver>, place: seq<Place>, t: Tid)
    requires SendersOwn(senders, place) && ReceiversOwn(receivers, place) && t in receivers
    ensures receivers[t].item.cell < |place| && place[receivers[t].item.cell] == Read(t)
    ensures SendersOwn(senders, place[receivers[t].item.cell := Free])
    ensures ReceiversOwn(receivers - {t}, place[receivers[t].item.cell := Free])
  {
  }

  lemma ReceiverJoins(senders: map<Tid, Sender>, receivers: map<Tid, Receiver>, place: seq<Place>, t: Tid, r: Receiver)
    requires SendersOwn(senders, place) && ReceiversOwn(receivers, place) && t !in receivers
    requires r.item.cell < |place| && place[r.item.cell] == Queued
    ensures SendersOwn(senders, place[r.item.cell := Read(t)])
    ensures ReceiversOwn(receivers[t := r], place[r.item.cell := Read(t)])
  {
  }

  lemma SendBeginPartitions(q: Queue, t: Tid, buffer: seq<byte>, urgent: bool)
    requires Partitioned(q) && Idle(q, t)
    ensures Partitioned(SendBegin(q, t, buffer, urgent).0)
  {
    hide Uninvolved, SendersOwn, ReceiversOwn;
    if |buffer| <= q.msgSize && q.free != [] {
      var s := Sender(q.free[0], buffer, 0, urgent);
      MapSizes(q.senders, t, s);
      SenderJoins(q.senders, q.receivers, q.place, t, s);
      ListedTail(q.free, q.place, Free, Sent(t));
      ListedOther(Cells(q.queued), q.place, Queued, q.free[0], Sent(t));
    }
  }

  lemma SendBeginIntact(q: Queue, t: Tid, buffer: seq<byte>, urgent: bool)
    requires Partitioned(q) && Intact(q)
    ensures Intact(SendBegin(q, t, buffer, urgent).0)
  {
    hide ReceiverIntact;
    assert buffer[..0] == [];
  }

  /** A byte written into one cell leaves what the other cells carry. */
  lemma WriteElsewhere(text: seq<seq<byte>>, n: nat, cell: nat, bytes: seq<byte>)
    requires cell < |text|
    ensures forall c: nat, m :: Carries(text, n, c, m) && c != cell ==> Carries(text[cell := bytes], n, c, m)
  {
  }

  lemma WriteNext(s: Sender, text: seq<seq<byte>>, n: nat)
    requires SenderIntact(s, text, n) && s.copied < |s.buffer|
    ensures SenderIntact(s.(copied := s.copied + 1),
                         text[s.cell := text[s.cell][s.copied := s.buffer[s.copied]]], n)
  {
    var bytes := text[s.cell][s.copied := s.buffer[s.copied]];
    assert bytes[..s.copied + 1] == text[s.cell][..s.copied] + [s.buffer[s.copied]];
    assert s.buffer[..s.copied + 1] == s.buffer[..s.copied] + [s.buffer[s.copied]];
  }

  lemma QueuedPlaces(q: Queue)
    requires Partitioned(q)
    ensures forall i :: 0 <= i < |q.queued| ==> q.queued[i].cell < |q.place| && q.place[q.queued[i].cell] == Queued
  {
    assert forall i :: 0 <= i < |q.queued| ==> q.queued[i].cell == Cells(q.queued)[i];
  }

  lemma SendByteIntact(q: Queue, t: Tid)
    requires Partitioned(q) && Intact(q) && Legal(q, DoCopyIn(t))
    ensures Intact(SendByte(q, t))
  {
    hide Carries, Listed;
    var s := q.senders[t];
    WriteNext(s, q.text, q.msgSize);
    WriteElsewhere(q.text, q.msgSize, s.cell, q.text[s.cell][s.copied := s.buffer[s.copied]]);
    assert forall i :: 0 <= i < |q.queued| ==> q.queued[i].cell != s.cell by { QueuedPlaces(q); }
    assert |q.text[s.cell]| == q.msgSize;
  }

  lemma SenderStays(senders: map<Tid, Sender>, place: seq<Place>, t: Tid, s: Sender)
    requires SendersOwn(senders, place) && t in senders && s.cell == senders[t].cell
    ensures SendersOwn(senders[t := s], place)
  {
  }

  lemma SendBytePartitions(q: Queue, t: Tid)
    requires Partitioned(q) && t in q.senders && SenderIntact(q.senders[t], q.text, q.msgSize)
    requires q.senders[t].copied < |q.senders[t].buffer|
    ensures Partitioned(SendByte(q, t))
  {
    hide Listed, Cells, SendersOwn, ReceiversOwn;
    var s := q.senders[t].(copied := q.senders[t].copied + 1);
    MapSizes(q.senders, t, s);
    SenderStays(q.senders, q.place, t, s);
  }

  lemma CellsPush(item: Item, items: seq<Item>)
    ensures Cells([item] + items) == [item.cell] + Cells(items)
    ensures Cells(items + [item]) == Cells(items) + [item.cell]
  {
  }

  lemma SendCommitPartitions(q: Queue, t: Tid)
    requires Partitioned(q) && t in q.senders
    ensures Partitioned(SendCommit(q, t))
  {
    hide Listed, WakeFirst, SendersOwn, ReceiversOwn;
    var s := q.senders[t];
    MapSizes(q.senders, t, s);
    SenderLeaves(q.senders, q.receivers, q.place, t);
    ListedPush(s.cell, Cells(q.queued), q.place, Queued);
    ListedOther(q.free, q.place, Free, s.cell, Queued);
    CellsPush(Item(s.cell, s.buffer), q.queued);
  }

  lemma SendCommitIntact(q: Queue, t: Tid)
    requires Intact(q) && Legal(q, DoCommit(t)) && q.senders[t].cell < |q.place|
    ensures Intact(SendCommit(q, t))
  {
    hide Carries, ReceiverIntact;
    var s := q.senders[t];
    assert s.buffer[..s.copied] == s.buffer;
  }

  lemma RecvTryPartitions(q: Queue, w: Waiter, want: nat, wait: bool)
    requires Partitioned(q) && w.id !in q.receivers && w.id !in q.senders
    ensures Partitioned(RecvTry(q, w, want, wait).0)
  {
    hide Block, Proceed, SendersOwn, ReceiversOwn;
    if q.queued != [] {
      var r := Receiver(q.queued[0], want, []);
      MapSizes(q.receivers, w.id, r);
      ListedTail(Cells(q.queued), q.place, Queued, Read(w.id));
      ReceiverJoins(q.senders, q.receivers, q.place, w.id, r);
      ListedOther(q.free, q.place, Free, q.queued[0].cell, Read(w.id));
      assert Cells(q.queued[1..]) == Cells(q.queued)[1..];
    }
  }

  lemma RecvTryIntact(q: Queue, w: Waiter, want: nat, wait: bool)
    requires Partitioned(q) && Intact(q)
    ensures Intact(RecvTry(q, w, want, wait).0)
  {
    hide SenderIntact, Block, Proceed;
    assert q.queued != [] ==> Carries(q.text, q.msgSize, q.queued[0].cell, []);
  }

  /** There is a byte to copy. */
  lemma CanRead(q: Queue, t: Tid)
    requires Intact(q) && Legal(q, DoCopyOut(t))
    ensures q.receivers[t].item.cell < |q.text| && |q.receivers[t].got| < |q.text[q.receivers[t].item.cell]|
  {
    hide SenderIntact, ItemsIntact;
  }

  lemma StillOwns(receivers: map<Tid, Receiver>, place: seq<Place>, t: Tid, r: Receiver)
    requires ReceiversOwn(receivers, place) && t in receivers && r.item == receivers[t].item
    ensures ReceiversOwn(receivers[t := r], place)
  {
  }

  lemma RecvBytePartitions(q: Queue, t: Tid)
    requires Partitioned(q) && Intact(q) && Legal(q, DoCopyOut(t))
    ensures Partitioned(RecvByte(q, t))
  {
    hide Listed, SendersOwn, ReceiversOwn, Intact;
    CanRead(q, t);
    var r := RecvByte(q, t).receivers[t];
    MapSizes(q.receivers, t, r);
    StillOwns(q.receivers, q.place, t, r);
  }

  lemma ReadNext(r: Receiver, text: seq<seq<byte>>, n: nat)
    requires ReceiverIntact(r, text, n) && |r.got| < Min(r.want, n)
    ensures ReceiverIntact(r.(got := r.got + [text[r.item.cell][|r.got|]]), text, n)
  {
    var cell := text[r.item.cell];
    assert cell[..|r.got| + 1] == cell[..|r.got|] + [cell[|r.got|]];
  }

  lemma RecvByteIntact(q: Queue, t: Tid)
    requires Partitioned(q) && Intact(q) && Legal(q, DoCopyOut(t))
    ensures Intact(RecvByte(q, t))
  {
    hide SenderIntact, ItemsIntact, Listed;
    ReadNext(q.receivers[t], q.text, q.msgSize);
  }

  lemma RecvFinishPartitions(q: Queue, t: Tid)
    requires Partitioned(q) && t in q.receivers
    ensures Partitioned(RecvFinish(q, t))
  {
    hide Listed, SendersOwn, ReceiversOwn;
    var cell := q.receivers[t].item.cell;
    MapSizes(q.receivers, t, q.receivers[t]);
    ReceiverLeaves(q.senders, q.receivers, q.place, t);
    ListedPush(cell, q.free, q.place, Free);
    ListedOther(Cells(q.queued), q.place, Queued, cell, Free);
  }

  lemma RecvFinishIntact(q: Queue, t: Tid)
    requires Partitioned(q) && Intact(q) && t in q.receivers
    ensures Intact(RecvFinish(q, t))
  {
    hide SenderIntact, ReceiverIntact, ItemsIntact, Listed;
  }

  lemma {:induction false} DrainKeeps(q: Queue)
    requires Partitioned(q) && Intact(q)
    ensures Partitioned(Drain(q)) && Intact(Drain(q)) && Drain(q).queued == []
    ensures Drain(q).flag == q.flag
    ensures Drain(q).side == q.side && Drain(q).senders == q.senders && Drain(q).receivers == q.receivers
    decreases |q.queued|
  {
    hide Partitioned, Intact;
    if q.queued != [] {
      DrainOneKeeps(q);
      DrainKeeps(DrainOne(q));
    }
  }

  lemma DrainOneKeeps(q: Queue)
    requires Partitioned(q) && Intact(q) && q.queued != []
    ensures forall i :: 0 <= i < |q.queued| ==> q.queued[i].cell < |q.place|
    ensures Partitioned(DrainOne(q)) && Intact(DrainOne(q))
  {
    hide SenderIntact, ReceiverIntact, Carries;
    InRange(q);
    ListedTail(Cells(q.queued), q.place, Queued, Free);
    ListedPush(q.queued[0].cell, q.free, q.place, Free);
    assert Cells(DrainOne(q).queued) == Cells(q.queued)[1..];
  }

  lemma ResetKeeps(q: Queue)
    requires Partitioned(q) && Intact(q)
    ensures Partitioned(Reset(q)) && Intact(Reset(q)) && Reset(q).queued == []
    ensures Reset(q).flag == q.flag
    ensures Reset(q).side == Clear(q.side) && Reset(q).senders == q.senders && Reset(q).receivers == q.receivers
  {
    DrainKeeps(q.(side := Clear(q.side)));
  }

  // ----- Phases, and no lost wake-up

  lemma StepSorted(q: Queue, op: Op)
    requires Inv(q) && Legal(q, op)
    ensures Step(q, op).flag.Prio? ==> Sorted(Step(q, op).side.waiting)
  {
    hide Partitioned, Intact, Expire, Block, WakeFirst, Sorted, NoLostWakeUp, Uninvolved;
    if q.flag.Prio? {
      StaysSorted(q.side, if op.DoRecv? then op.w else Waiter(0, 0), if op.DoExpire? then op.t else 0);
    }
    if op.DoReset? { ResetKeeps(q); assert Sorted([]) by { SortedEmpty(); } }
  }

  /** What a step does to the suspend list; only the thread of a receive changes sides. */
  lemma StepSide(q: Queue, op: Op)
    requires Inv(q) && Legal(q, op)
    ensures Consistent(Step(q, op).side)
    ensures forall t :: Uninvolved(q.side, t) && (op.DoRecv? ==> t != op.w.id) ==> Uninvolved(Step(q, op).side, t)
    ensures op.DoRecv? && q.queued != [] ==> Uninvolved(Step(q, op).side, op.w.id)
  {
    hide Partitioned, Intact, Expire, Block, WakeFirst, Sorted, NoLostWakeUp;
    match op
    case DoSend(_, _, _) =>
    case DoCopyIn(_) =>
    case DoCommit(_) => WakeConsistent(q.side);
    case DoRecv(w, _, _) => BlockConsistent(q.side, w, q.flag); BlockOthers(q.side, w, q.flag);
    case DoCopyOut(_) =>
    case DoFinish(_) =>
    case DoExpire(t) => ExpireConsistent(q.side, t);
    case DoReset => ResetKeeps(q);
  }

  /** A step starts at most one call. */
  lemma StepCalls(q: Queue, op: Op)
    requires Inv(q) && Legal(q, op)
    ensures var q' := Step(q, op);
            && (forall t :: t in q'.senders ==> t in q.senders || (op.DoSend? && t == op.t))
            && (forall t :: t in q'.receivers ==> t in q.receivers || (op.DoRecv? && t == op.w.id && q.queued != []))
  {
    hide Partitioned, Intact, Phases, NoLostWakeUp, Uninvolved, Waits, Block, WakeFirst, Expire, Proceed, Drain;
    if op.DoReset? { ResetKeeps(q); }
  }

  lemma StepPhases(q: Queue, op: Op)
    requires Inv(q) && Legal(q, op)
    ensures Phases(Step(q, op))
  {
    hide Partitioned, Intact, Sorted, NoLostWakeUp, Waits, Consistent, Step;
    StepSorted(q, op);
    StepSide(q, op);
    StepCalls(q, op);
  }

  lemma StepWakes(q: Queue, op: Op)
    requires Inv(q) && Legal(q, op)
    ensures NoLostWakeUp(Step(q, op).side, |Step(q, op).queued|)
  {
    hide Partitioned, Intact, Uninvolved, Waits, Consistent, Expire, Proceed, WakeFirst;
    match op
    case DoSend(_, _, _) =>
    case DoCopyIn(_) =>
    case DoCommit(_) => AppearKeeps(q.side, |q.queued|);
    case DoRecv(w, _, _) => TakeKeeps(q.side, w.id, |q.queued|); LeaveKeeps(q.side, w.id, |q.queued|);
    case DoCopyOut(_) =>
    case DoFinish(_) =>
    case DoExpire(t) => LeaveKeeps(q.side, t, |q.queued|);
    case DoReset => ResetKeeps(q);
  }

  lemma StepKeeps(q: Queue, op: Op)
    requires Inv(q) && Legal(q, op)
    ensures Inv(Step(q, op))
  {
    hide NoLostWakeUp, Phases, Partitioned, Intact;
    StepPhases(q, op);
    StepWakes(q, op);
    StepPartitions(q, op);
    StepIntact(q, op);
  }

  lemma StepPartitions(q: Queue, op: Op)
    requires Inv(q) && Legal(q, op)
    ensures Partitioned(Step(q, op))
  {
    hide NoLostWakeUp, Phases, Partitioned, SenderIntact, SendBegin, SendByte, SendCommit, RecvTry, RecvByte,
         RecvFinish, TimeOut, Reset;
    match op
    case DoSend(t, b, u) => SendBeginPartitions(q, t, b, u);
    case DoCopyIn(t) => SendBytePartitions(q, t);
    case DoCommit(t) => SendCommitPartitions(q, t);
    case DoRecv(w, n, b) => RecvTryPartitions(q, w, n, b);
    case DoCopyOut(t) => RecvBytePartitions(q, t);
    case DoFinish(t) => RecvFinishPartitions(q, t);
    case DoExpire(t) => TimeOutPartitions(q, t);
    case DoReset => ResetKeeps(q);
  }

  lemma TimeOutPartitions(q: Queue, t: Tid)
    requires Partitioned(q)
    ensures Partitioned(TimeOut(q, t))
  {
    hide Listed, SendersOwn, ReceiversOwn;
  }

  lemma StepIntact(q: Queue, op: Op)
    requires Inv(q) && Legal(q, op)
    ensures Intact(Step(q, op))
  {
    hide NoLostWakeUp, Phases, ItemsIntact, SenderIntact, ReceiverIntact;
    match op
    case DoSend(t, b, u) => SendBeginIntact(q, t, b, u);
    case DoCopyIn(t) => SendByteIntact(q, t);
    case DoCommit(t) => SendCommitIntact(q, t);
    case DoRecv(w, n, b) => RecvTryIntact(q, w, n, b);
    case DoCopyOut(t) => RecvByteIntact(q, t);
    case DoFinish(t) => RecvFinishIntact(q, t);
    case DoExpire(_) =>
    case DoReset => ResetKeeps(q);
  }

  // ----- What the invariant says

  /** A send fails for want of space exactly when every cell is queued or in the hands of a thread; so it can
      fail while fewer than all cells are queued. */
  lemma FullIff(q: Queue, t: Tid, buffer: seq<byte>, urgent: bool)
    requires Inv(q) && Idle(q, t)
    ensures SendBegin(q, t, buffer, urgent).1 == Full <==>
              |buffer| <= q.msgSize && |q.queued| + |q.senders| + |q.receivers| == |q.place|
  {
  }

  /** A queue of one cell: a thread has begun to send and not linked its cell yet, and the queue is empty; a second send
      finds it full. */
  lemma FullExample(flag: Flag)
    ensures var q0 := Init(1, 1, flag);
            && Inv(q0) && Legal(q0, DoSend(1, [0], false))
            && var q := Step(q0, DoSend(1, [0], false));
               && Inv(q) && Idle(q, 2) && q.queued == [] && SendBegin(q, 2, [0], false).1 == Full
  {
    hide Inv;
    InitInv(1, 1, flag);
    var q0 := Init(1, 1, flag);
    StepKeeps(q0, DoSend(1, [0], false));
    assert q0.free == [0] && q0.free[1..] == [];
  }

  /** What a receiver hands to its caller is the message it took, up to the shorter of the two lengths. */
  lemma DeliveredWhole(q: Queue, t: Tid)
    requires Inv(q) && t in q.receivers
    ensures var r := q.receivers[t];
            forall k :: 0 <= k < |r.got| && k < |r.item.msg| ==> r.got[k] == r.item.msg[k]
  {
    var r := q.receivers[t];
    assert ReceiverIntact(r, q.text, q.msgSize);
    var cell := q.text[r.item.cell];
    forall k | 0 <= k < |r.got| && k < |r.item.msg| ensures r.got[k] == r.item.msg[k] {
      assert cell[..|r.got|][k] == cell[k] == cell[..|r.item.msg|][k];
    }
  }

  // ----- Whole runs

  predicate LegalRun(q: Queue, ops: seq<Op>)
    requires Inv(q)
    decreases |ops|
  {
    ops != [] ==> Legal(q, ops[0]) && (StepKeeps(q, ops[0]); LegalRun(Step(q, ops[0]), ops[1..]))
  }

  function Run(q: Queue, ops: seq<Op>): (q': Queue)
    requires Inv(q) && LegalRun(q, ops)
    ensures Inv(q')
    decreases |ops|
  {
    if ops == [] then q else (StepKeeps(q, ops[0]); Run(Step(q, ops[0]), ops[1..]))
  }

  /** After any run from the start: while a receiver sleeps, at least as many threads are on their way as there are
      messages; once they all have looked, the queue is empty. */
  lemma NobodySleepsOnAMessage(max: nat, msgSize: nat, flag: Flag, ops: seq<Op>)
    requires Inv(Init(max, msgSize, flag)) && LegalRun(Init(max, msgSize, flag), ops)
    ensures var q := Run(Init(max, msgSize, flag), ops);
            q.side.waiting != [] ==>
              |q.queued| <= |q.side.woken| && (q.side.woken == {} ==> Messages(q) == [])
  {
    hide LegalRun, Run;
  }

  /** The messages linked into the queue, and those taken off it, by one step and by a run. */
  function CommittedBy(q: Queue, op: Op): seq<seq<byte>>
    requires Legal(q, op)
  {
    if op.DoCommit? then [q.senders[op.t].buffer] else []
  }

  function TakenBy(q: Queue, op: Op): seq<seq<byte>> {
    if op.DoRecv? && q.queued != [] then [q.queued[0].msg] else []
  }

  function CommittedIn(q: Queue, ops: seq<Op>): seq<seq<byte>>
    requires Inv(q) && LegalRun(q, ops)
    decreases |ops|
  {
    if ops == [] then []
    else (StepKeeps(q, ops[0]); CommittedBy(q, ops[0]) + CommittedIn(Step(q, ops[0]), ops[1..]))
  }

  function TakenIn(q: Queue, ops: seq<Op>): seq<seq<byte>>
    requires Inv(q) && LegalRun(q, ops)
    decreases |ops|
  {
    if ops == [] then []
    else (StepKeeps(q, ops[0]); TakenBy(q, ops[0]) + TakenIn(Step(q, ops[0]), ops[1..]))
  }

  /** The queue is a deque: messages leave at the front, join at the back, or at the front when urgent. */
  lemma StepMessages(q: Queue, op: Op)
    requires Inv(q) && Legal(q, op) && !op.DoReset?
    ensures TakenBy(q, op) + Messages(Step(q, op)) ==
              if op.DoCommit? && q.senders[op.t].urgent then CommittedBy(q, op) + Messages(q)
              else Messages(q) + CommittedBy(q, op)
  {
    hide Inv, Block, WakeFirst, Expire, Proceed;
  }

  ghost predicate NoneUrgent(q: Queue) {
    forall t :: t in q.senders ==> !q.senders[t].urgent
  }

  /** First in, first out, over every run without urgent sends and resets. */
  lemma {:induction false} FifoRun(q: Queue, ops: seq<Op>)
    requires Inv(q) && LegalRun(q, ops) && NoneUrgent(q)
    requires forall op :: op in ops ==> !op.DoReset? && (op.DoSend? ==> !op.urgent)
    ensures TakenIn(q, ops) + Messages(Run(q, ops)) == Messages(q) + CommittedIn(q, ops)
    decreases |ops|
  {
    hide Inv, Step, Legal, Messages;
    if ops != [] {
      var op, q1, rest := ops[0], Step(q, ops[0]), ops[1..];
      StepKeeps(q, op);
      StepMessages(q, op);
      StepUrgency(q, op);
      FifoRun(q1, rest);
      Lists.InOrder(TakenBy(q, op), Messages(q1), Messages(q), CommittedBy(q, op),
              TakenIn(q1, rest), Messages(Run(q1, rest)), CommittedIn(q1, rest));
    }
  }

  lemma StepUrgency(q: Queue, op: Op)
    requires Inv(q) && Legal(q, op) && NoneUrgent(q) && (op.DoSend? ==> !op.urgent)
    ensures NoneUrgent(Step(q, op)) && (op.DoCommit? ==> !q.senders[op.t].urgent)
  {
    hide Partitioned, Intact, Phases, Block, WakeFirst, Expire, Proceed, Drain;
    if op.DoReset? { ResetKeeps(q); }
  }

  /** No message is lost, duplicated or altered, over every run without resets, urgent or not. */
  lemma {:induction false} ConservedRun(q: Queue, ops: seq<Op>)
    requires Inv(q) && LegalRun(q, ops) && forall op :: op in ops ==> !op.DoReset?
    ensures multiset(TakenIn(q, ops)) + multiset(Messages(Run(q, ops)))
            == multiset(Messages(q)) + multiset(CommittedIn(q, ops))
    decreases |ops|
  {
    hide Inv, Step, Legal, Messages;
    if ops != [] {
      var op, q1, rest := ops[0], Step(q, ops[0]), ops[1..];
      StepKeeps(q, op);
      StepMessages(q, op);
      ConservedRun(q1, rest);
      Rearranged(TakenBy(q, op), Messages(q1), Messages(q), CommittedBy(q, op),
                 TakenIn(q1, rest), Messages(Run(q1, rest)), CommittedIn(q1, rest));
    }
  }

  lemma Rearranged<T>(taken: seq<T>, after: seq<T>, before: seq<T>, committed: seq<T>,
                      taken': seq<T>, final: seq<T>, committed': seq<T>)
    requires taken + after == before + committed || taken + after == committed + before
    requires multiset(taken') + multiset(final) == multiset(after) + multiset(committed')
    ensures multiset(taken + taken') + multiset(final) == multiset(before) + multiset(committed + committed')
  {
    assert multiset(taken + after) == multiset(taken) + multiset(after);
    assert multiset(before + committed) == multiset(before) + multiset(committed) == multiset(committed + before);
    assert multiset(taken + taken') == multiset(taken) + multiset(taken');
    assert multiset(committed + committed') == multiset(committed) + multiset(committed');
    assert multiset(taken) + (multiset(taken') + multiset(final))
           == (multiset(taken) + multiset(after)) + multiset(committed');
    assert (multiset(before) + multiset(committed)) + multiset(committed')
           == multiset(before) + (multiset(committed) + multiset(committed'));
  }

  /** A receiver's message stays its own, whatever the other threads do meanwhile: urgent sends, resets. */
  lemma {:induction false} ReceiverRun(q: Queue, ops: seq<Op>, t: Tid)
    requires Inv(q) && LegalRun(q, ops) && t in q.receivers && DoFinish(t) !in ops
    ensures t in Run(q, ops).receivers && Run(q, ops).receivers[t].item == q.receivers[t].item
    decreases |ops|
  {
    hide Inv, Step, Legal;
    if ops != [] {
      StepKeeps(q, ops[0]);
      StepReceiver(q, ops[0], t);
      ReceiverRun(Step(q, ops[0]), ops[1..], t);
    }
  }

  lemma StepReceiver(q: Queue, op: Op, t: Tid)
    requires Inv(q) && Legal(q, op) && t in q.receivers && op != DoFinish(t)
    ensures t in Step(q, op).receivers && Step(q, op).receivers[t].item == q.receivers[t].item
  {
    hide Partitioned, Intact, Phases, Block, WakeFirst, Expire, Proceed, Drain;
    if op.DoReset? { ResetKeeps(q); }
  }
}
