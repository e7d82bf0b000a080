// The mailbox of thread_pool/rt-thread/src/ipc.c: a ring of words with blocking
// receivers and blocking senders.
module Mailbox {
  import opened Ipc
  import Lists
  import Ring

  datatype Mailbox = Mailbox(size: nat, flag: Flag, mails: seq<int>, receivers: Side, senders: Side)

  datatype Code = Ok | Full | TimedOut | Blocked

  ghost predicate SideOk(flag: Flag, s: Side) {
    Consistent(s) && (flag.Prio? ==> Sorted(s.waiting))
  }

  /** The two waiting conditions: sleeping receivers are outnumbered by no mail, sleeping senders by no free
      slot, that some woken thread is not on its way to. */
  ghost predicate Inv(m: Mailbox) {
    && |m.mails| <= m.size
    && SideOk(m.flag, m.receivers) && SideOk(m.flag, m.senders)
    && NoLostWakeUp(m.receivers, |m.mails|)
    && NoLostWakeUp(m.senders, m.size - |m.mails|)
  }

  /** One round of the loop of rt_mb_send_wait; wait says whether time is left. */
  function SendTry(m: Mailbox, w: Waiter, value: int, wait: bool): (Mailbox, Code) {
    if |m.mails| == m.size then
      if !wait then (m.(senders := Proceed(m.senders, w.id)), Full)
      else (m.(senders := Block(m.senders, w, m.flag)), Blocked)
    else
      (m.(mails := m.mails + [value], senders := Proceed(m.senders, w.id), receivers := WakeFirst(m.receivers)), Ok)
  }

  /** One round of the loop of rt_mb_recv. */
  function RecvTry(m: Mailbox, w: Waiter, wait: bool): (Mailbox, Code) {
    if m.mails == [] then
      if !wait then (m.(receivers := Proceed(m.receivers, w.id)), TimedOut)
      else (m.(receivers := Block(m.receivers, w, m.flag)), Blocked)
    else
      (m.(mails := m.mails[1..], receivers := Proceed(m.receivers, w.id), senders := WakeFirst(m.senders)), Ok)
  }

  function TimeOut(m: Mailbox, t: Tid): Mailbox {
    m.(receivers := Expire(m.receivers, t), senders := Expire(m.senders, t))
  }

  /** rt_mb_control with RT_IPC_CMD_RESET. */
  function Reset(m: Mailbox): Mailbox {
    m.(mails := [], receivers := Clear(m.receivers), senders := Clear(m.senders))
  }

  datatype Op = DoSend(w: Waiter, value: int, wait: bool) | DoRecv(w: Waiter, wait: bool) | DoExpire(t: Tid) | DoReset

  predicate Legal(m: Mailbox, op: Op) {
    match op
    case DoSend(w, _, _) => Uninvolved(m.receivers, w.id) && !Waits(m.senders.waiting, w.id)
    case DoRecv(w, _) => Uninvolved(m.senders, w.id) && !Waits(m.receivers.waiting, w.id)
    case DoExpire(t) => Waits(m.receivers.waiting, t) || Waits(m.senders.waiting, t)
    case DoReset => true
  }

  function Step(m: Mailbox, op: Op): Mailbox {
    match op
    case DoSend(w, value, wait) => SendTry(m, w, value, wait).0
    case DoRecv(w, wait) => RecvTry(m, w, wait).0
    case DoExpire(t) => TimeOut(m, t)
    case DoReset => Reset(m)
  }

  lemma InitInv(size: nat, flag: Flag)
    ensures Inv(Mailbox(size, flag, [], Side([], {}), Side([], {})))
  {
  }

  lemma SideKeeps(flag: Flag, s: Side, w: Waiter, t: Tid)
    requires SideOk(flag, s)
    ensures !Waits(s.waiting, w.id) ==> SideOk(flag, Block(s, w, flag))
    ensures SideOk(flag, WakeFirst(s)) && SideOk(flag, Expire(s, t)) && SideOk(flag, Clear(s))
        && SideOk(flag, Proceed(s, t))
  {
    hide Block, WakeFirst, Expire, Waits, Sorted;
    if !Waits(s.waiting, w.id) { BlockConsistent(s, w, flag); }
    WakeConsistent(s);
    ExpireConsistent(s, t);
    SortedEmpty();
    if flag.Prio? { StaysSorted(s, w, t); }
  }

  lemma StepKeeps(m: Mailbox, op: Op)
    requires Inv(m) && Legal(m, op)
    ensures Inv(Step(m, op)) && Step(m, op).size == m.size
  {
    hide SideOk, Expire, WakeFirst, Waits, Proceed, NoLostWakeUp;
    var w := if op.DoSend? || op.DoRecv? then op.w else Waiter(0, 0);
    var t := if op.DoExpire? then op.t else w.id;
    SideKeeps(m.flag, m.receivers, w, t);
    SideKeeps(m.flag, m.senders, w, t);
    StepWakes(m, op);
  }

  /** A mail that appears wakes a receiver, a slot that appears wakes a sender; whoever takes one was woken
      for it or leaves enough to the others. */
  lemma StepWakes(m: Mailbox, op: Op)
    requires Inv(m) && Legal(m, op)
    ensures NoLostWakeUp(Step(m, op).receivers, |Step(m, op).mails|)
    ensures NoLostWakeUp(Step(m, op).senders, m.size - |Step(m, op).mails|)
  {
    hide Sorted, Expire, WakeFirst, Waits, Proceed, Consistent;
    var mails, slots := |m.mails|, m.size - |m.mails|;
    match op
    case DoSend(w, _, _) =>
      AppearKeeps(m.receivers, mails);
      TakeKeeps(m.senders, w.id, slots);
      LeaveKeeps(m.senders, w.id, slots);
    case DoRecv(w, _) =>
      AppearKeeps(m.senders, slots);
      TakeKeeps(m.receivers, w.id, mails);
      LeaveKeeps(m.receivers, w.id, mails);
    case DoExpire(t) =>
      LeaveKeeps(m.receivers, t, mails);
      LeaveKeeps(m.senders, t, slots);
    case DoReset =>
  }

  // ----- Whole runs

  predicate LegalRun(m: Mailbox, ops: seq<Op>)
    decreases |ops|
  {
    ops != [] ==> Legal(m, ops[0]) && LegalRun(Step(m, ops[0]), ops[1..])
  }

  function Run(m: Mailbox, ops: seq<Op>): Mailbox
    decreases |ops|
  {
    if ops == [] then m else Run(Step(m, ops[0]), ops[1..])
  }

  /** In every reachable state: nobody sleeps while something is there for it that no woken thread is
      about to look at. */
  lemma {:induction false} RunKeeps(m: Mailbox, ops: seq<Op>)
    requires Inv(m) && LegalRun(m, ops)
    ensures var m' := Run(m, ops);
            && Inv(m')
            && (m'.receivers.waiting != [] && m'.receivers.woken == {} ==> m'.mails == [])
            && (m'.senders.waiting != [] && m'.senders.woken == {} ==> |m'.mails| == m'.size)
    decreases |ops|
  {
    if ops != [] {
      StepKeeps(m, ops[0]);
      RunKeeps(Step(m, ops[0]), ops[1..]);
    }
  }

  function Sent(m: Mailbox, op: Op): seq<int> {
    if op.DoSend? && SendTry(m, op.w, op.value, op.wait).1 == Ok then [op.value] else []
  }

  function Received(m: Mailbox, op: Op): seq<int> {
    if op.DoRecv? && m.mails != [] then [m.mails[0]] else []
  }

  function SentIn(m: Mailbox, ops: seq<Op>): seq<int>
    decreases |ops|
  {
    if ops == [] then [] else Sent(m, ops[0]) + SentIn(Step(m, ops[0]), ops[1..])
  }

  function ReceivedIn(m: Mailbox, ops: seq<Op>): seq<int>
    decreases |ops|
  {
    if ops == [] then [] else Received(m, ops[0]) + ReceivedIn(Step(m, ops[0]), ops[1..])
  }

  /** First in, first out, and nothing lost, over every run without resets. */
  lemma {:induction false} FifoRun(m: Mailbox, ops: seq<Op>)
    requires forall op :: op in ops ==> !op.DoReset?
    ensures ReceivedIn(m, ops) + Run(m, ops).mails == m.mails + SentIn(m, ops)
    decreases |ops|
  {
    hide Block, WakeFirst, Expire, Proceed;
    if ops != [] {
      var m1 := Step(m, ops[0]);
      FifoRun(m1, ops[1..]);
      assert Received(m, ops[0]) + m1.mails == m.mails + Sent(m, ops[0]);
      Lists.InOrder(Received(m, ops[0]), m1.mails, m.mails, Sent(m, ops[0]),
              ReceivedIn(m1, ops[1..]), Run(m1, ops[1..]).mails, SentIn(m1, ops[1..]));
    }
  }

  // ----- The code

  class Object {
    const flag: Flag
    const msgPool: array<int>
    var entry: nat
    var inOffset: nat
    var outOffset: nat
    var receivers: seq<Waiter>   // parent.suspend_thread
    var senders: seq<Waiter>     // suspend_sender_thread
    ghost var m: Mailbox

    ghost predicate Valid()
      reads this, msgPool
    {
      && Inv(m) && m.size == msgPool.Length && m.flag == flag
      && entry == |m.mails| && Ring.Holds(msgPool[..], outOffset, m.mails)
      && inOffset == (if m.size == 0 then 0 else Ring.Wrap(outOffset + entry, m.size))
      && receivers == m.receivers.waiting && senders == m.senders.waiting
    }

    constructor (size: nat, flag: Flag)
      ensures Valid() && fresh(msgPool) && m == Mailbox(size, flag, [], Side([], {}), Side([], {}))
    {
      this.flag := flag;
      msgPool := new int[size];
      entry, inOffset, outOffset, receivers, senders := 0, 0, 0, [], [];
      m := Mailbox(size, flag, [], Side([], {}), Side([], {}));
    }

    method Send(w: Waiter, value: int, wait: bool) returns (code: Code)
      requires Valid() && Legal(m, DoSend(w, value, wait))
      modifies this, msgPool
      ensures Valid() && (m, code) == SendTry(old(m), w, value, wait)
      ensures (code == Ok <==> old(entry) < msgPool.Length) && (code == Blocked ==> wait) && (code == Full ==> !wait)
    {
      hide SideOk, NoLostWakeUp, Waits, Ring.Holds, Enqueue;
      StepKeeps(m, DoSend(w, value, wait));
      if entry == msgPool.Length {
        if !wait {
          m := m.(senders := Proceed(m.senders, w.id));
          return Full;
        }
        senders := ListSuspend(senders, w, flag);
        m := m.(senders := Block(m.senders, w, flag));
        return Blocked;
      }
      RingRoom(msgPool[..], outOffset, m.mails);
      Ring.Put(msgPool[..], outOffset, m.mails, value);
      msgPool[inOffset] := value;
      inOffset := inOffset + 1;
      if inOffset >= msgPool.Length { inOffset := 0; }
      entry := entry + 1;
      if receivers != [] { receivers := receivers[1..]; }
      m := SendTry(m, w, value, wait).0;
      code := Ok;
    }

    method Recv(w: Waiter, wait: bool) returns (code: Code, value: int)
      requires Valid() && Legal(m, DoRecv(w, wait))
      modifies this
      ensures Valid() && (m, code) == RecvTry(old(m), w, wait)
      ensures (code == Ok <==> old(entry) > 0) && (code == Blocked ==> wait) && (code == TimedOut ==> !wait)
      ensures code == Ok ==> [value] == Received(old(m), DoRecv(w, wait))
    {
      hide SideOk, NoLostWakeUp, Waits, Ring.Holds, Enqueue;
      StepKeeps(m, DoRecv(w, wait));
      value := 0;
      if entry == 0 {
        if !wait {
          m := m.(receivers := Proceed(m.receivers, w.id));
          return TimedOut, 0;
        }
        receivers := ListSuspend(receivers, w, flag);
        m := m.(receivers := Block(m.receivers, w, flag));
        return Blocked, 0;
      }
      RingRoom(msgPool[..], outOffset, m.mails);
      Ring.Get(msgPool[..], outOffset, m.mails);
      value := msgPool[outOffset];
      outOffset := outOffset + 1;
      if outOffset >= msgPool.Length { outOffset := 0; }
      entry := entry - 1;
      if senders != [] { senders := senders[1..]; }
      m := RecvTry(m, w, wait).0;
      code := Ok;
    }

    method ResetAll()
      requires Valid()
      modifies this
      ensures Valid() && m == Reset(old(m))
    {
      StepKeeps(m, DoReset);
      while receivers != []
        invariant m == old(m)
      {
        receivers := receivers[1..];
      }
      while senders != []
        invariant m == old(m) && receivers == []
      {
        senders := senders[1..];
      }
      entry, inOffset, outOffset := 0, 0, 0;
      m := Reset(m);
    }
  }

  lemma RingRoom(pool: seq<int>, out: nat, mails: seq<int>)
    requires Ring.Holds(pool, out, mails) && pool != []
    ensures out < |pool|
  {
  }
}
