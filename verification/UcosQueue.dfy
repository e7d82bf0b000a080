// The message queue of thread_pool/ucos2/source/os_q.c: a ring of messages with
// direct hand-off to the most urgent waiting task.
module UcosQueue {
  import opened Bitmap
  import opened Lists
  import opened PrioTable
  import opened Ucos

  const NONE := 0   // a NULL message

  /** items are the messages in the ring, oldest first; mail is OSTCBMsg of the tasks that were handed a
      message and have not run since. */
  datatype State = State(k: Kernel, event: nat, size: nat, items: seq<int>, mail: map<Id, int>)

  datatype Code = Ok | Full | Blocked | TimedOut

  predicate Waiting(q: State)
  {
    q.event in q.k.events && !Zero(q.k.events[q.event].grp)
  }

  /** Messages in the ring and waiting tasks never coexist; a task with mail waits for nothing here. */
  ghost predicate QueueInv(q: State) {
    && Inv(q.k) && q.event in q.k.events
    && |q.items| <= q.size && (q.items != [] ==> !Waiting(q))
    && (forall i :: 0 <= i < |q.items| ==> q.items[i] != NONE)
    && (forall t :: t in q.mail ==> q.mail[t] != NONE && t in q.k.tasks && q.k.tasks[t].event != On(q.event))
  }

  /** Task t waits for a message. */
  predicate Awaits(q: State, t: Id) {
    t in q.k.tasks && q.k.tasks[t].event == On(q.event) && q.k.dying != Dying(t)
  }

  /** OSQCreate on a kernel that has just started. */
  lemma InitInv(idle: Id, event: nat, size: nat)
    ensures QueueInv(State(Start(idle, map[event := Empty()]), event, size, [], map[]))
  {
    hide Inv, Start;
    Ucos.InitInv(idle, map[event := Empty()]);
    StartEvents(idle, map[event := Empty()]);
  }

  lemma StartEvents(idle: Id, events: map<nat, Table>)
    ensures Start(idle, events).events == events
  {
  }

  // ----- The services

  /** OSQAccept, and the first part of OSQPend. */
  function Accept(q: State): (State, int) {
    if q.items == [] then (q, NONE) else (q.(items := q.items[1..]), q.items[0])
  }

  /** OSQPend by the running task, up to the call of OS_Sched. */
  function Pend(q: State, timeout: nat): (State, Code)
    requires TablesOk(q.k) && q.k.cur in q.k.tasks && q.k.tasks[q.k.cur].slot < PRIOS && q.event in q.k.events
  {
    if q.items != [] then (Accept(q).0, Ok) else (q.(k := Wait(q.k, q.event, timeout)), Blocked)
  }

  /** The most urgent waiting task. */
  function First(q: State): Id
    requires QueueInv(q) && Waiting(q)
  {
    HighestWaiter(q.k, q.event);
    q.k.prioTbl[Highest(q.k.events[q.event])].id
  }

  /** OS_EventTaskRdy: the most urgent waiting task gets the message, even if its timeout has expired. */
  function HandOff(q: State, msg: int): State
    requires QueueInv(q) && Waiting(q)
  {
    HighestWaiter(q.k, q.event);
    q.(k := Ucos.Post(q.k, q.event).0, mail := q.mail[First(q) := msg])
  }

  /** OSQPost, OSQPostFront, and OSQPostOpt without broadcast. */
  function Post(q: State, msg: int, front: bool): (State, Code)
    requires QueueInv(q)
  {
    if Waiting(q) then (HandOff(q, msg), Ok)
    else if |q.items| >= q.size then (q, Full)
    else (q.(items := if front then [msg] + q.items else q.items + [msg]), Ok)
  }

  function Flush(q: State): State { q.(items := []) }

  /** The end of OSQPend, when the task runs again: it takes its mail, or has timed out. */
  function Return(q: State): (State, Code)
    requires TablesOk(q.k) && q.k.cur in q.k.tasks && q.k.tasks[q.k.cur].slot < PRIOS
    requires q.k.cur !in q.mail ==> q.k.tasks[q.k.cur].event == On(q.event) && q.event in q.k.events
  {
    if q.k.cur in q.mail then (q.(mail := q.mail - {q.k.cur}), Ok)
    else (q.(k := Ucos.TimedOut(q.k)), TimedOut)
  }

  // ----- Broadcast

  ghost function Members(t: Table): (r: set<nat>)
    requires Shaped(t)
    ensures forall p: nat :: p in r <==> Member(t, p)
  {
    set p: nat | p < PRIOS && Member(t, p)
  }

  ghost function Waiters(q: State): nat
    requires QueueInv(q)
  {
    |Members(q.k.events[q.event])|
  }

  /** The loop of OSQPostOpt with OS_POST_OPT_BROADCAST. */
  ghost function Broadcast(q: State, msg: int): (q': State)
    requires QueueInv(q) && msg != NONE
    ensures QueueInv(q') && !Waiting(q') && q'.items == q.items && q'.event == q.event
    decreases Waiters(q)
  {
    if !Waiting(q) then q else HandOffKeeps(q, msg); Broadcast(HandOff(q, msg), msg)
  }

  /** OSQPostOpt. */
  ghost function PostOpt(q: State, msg: int, broadcast: bool, front: bool): (State, Code)
    requires QueueInv(q) && msg != NONE
  {
    if Waiting(q) && broadcast then (Broadcast(q, msg), Ok) else Post(q, msg, front)
  }

  // ----- The invariant

  lemma HandOffKeeps(q: State, msg: int)
    requires QueueInv(q) && Waiting(q) && msg != NONE
    ensures QueueInv(HandOff(q, msg)) && Waiters(HandOff(q, msg)) < Waiters(q)
  {
    hide Agrees, Clear, Set, Member, Highest, TaskOk, NoStrangers, IdleOk;
    HighestWaiter(q.k, q.event);
    PostKeeps(q.k, q.event);
    var t := q.k.events[q.event];
    HighestIs(t);
    ClearAgrees(t, Highest(t));
    assert Members(Clear(t, Highest(t))) == Members(t) - {Highest(t)};
  }

  /** An accepted message that is handed off goes to the most urgent waiting task, which had no mail.  Nothing
      is said about its delay: it may have run out.  The task is ready unless it is suspended. */
  lemma HandOffIs(q: State, msg: int)
    requires QueueInv(q) && Waiting(q) && msg != NONE
    ensures var t, q' := First(q), HandOff(q, msg);
            && t in q.k.tasks && Awaits(q, t) && t !in q.mail
            && (forall u :: u in q.k.tasks && Awaits(q, u) ==>
               q.k.tasks[t].prio <= q.k.tasks[u].prio)
            && q'.mail == q.mail[t := msg] && q'.items == q.items
            && t in q'.k.tasks && q'.k.tasks[t].event == Nothing && Shaped(q'.k.ready)
            && (Member(q'.k.ready, q.k.tasks[t].prio) <==> !q.k.tasks[t].suspend)
            && forall u :: u in q.k.tasks && u != t ==> u in q'.k.tasks && q'.k.tasks[u] == q.k.tasks[u]
  {
    hide Agrees, Clear, Set, Member, Highest, Distinct;
    HighestWaiter(q.k, q.event);
    HighestIs(q.k.events[q.event]);
    SetAgrees(q.k.ready, Highest(q.k.events[q.event]));
    forall u | u in q.k.tasks ensures TaskOk(q.k, q.k.tasks[u], u) {}
  }

  /** Every waiting task gets a broadcast, and no other task. */
  lemma {:induction false} BroadcastIs(q: State, msg: int, t: Id)
    requires QueueInv(q) && msg != NONE && t in q.k.tasks
    ensures var q' := Broadcast(q, msg);
            && t in q'.k.tasks
            && if Awaits(q, t)
               then t in q'.mail && q'.mail[t] == msg && q'.k.tasks[t].event == Nothing
               else && q'.k.tasks[t] == q.k.tasks[t]
                    && (t in q'.mail <==> t in q.mail) && (t in q.mail ==> q'.mail[t] == q.mail[t])
    decreases Waiters(q)
  {
    hide QueueInv, HandOff, First;
    if Waiting(q) {
      HandOffKeeps(q, msg);
      HandOffIs(q, msg);
      KeepsEvent(q, msg);
      BroadcastIs(HandOff(q, msg), msg, t);
      if t == First(q) { OnceServed(HandOff(q, msg), msg, t); }
    } else {
      NobodyWaits(q, t);
    }
  }

  lemma KeepsEvent(q: State, msg: int)
    requires QueueInv(q) && Waiting(q)
    ensures HandOff(q, msg).event == q.event && HandOff(q, msg).k.dying == q.k.dying
  {
  }

  lemma OnceServed(q: State, msg: int, t: Id)
    requires QueueInv(q) && msg != NONE && t in q.k.tasks && t in q.mail
    ensures !Awaits(q, t)
  {
  }

  lemma NobodyWaits(q: State, t: Id)
    requires QueueInv(q) && !Waiting(q) && t in q.k.tasks
    ensures !Awaits(q, t)
  {
    hide Agrees, Distinct;
    HighestIs(q.k.events[q.event]);
    assert TaskOk(q.k, q.k.tasks[t], t);
  }

  lemma PostKeepsQueue(q: State, msg: int, front: bool)
    requires QueueInv(q) && msg != NONE
    ensures QueueInv(Post(q, msg, front).0)
  {
    hide Inv, HandOff;
    if Waiting(q) { HandOffKeeps(q, msg); }
  }

  lemma PendKeeps(q: State, timeout: nat)
    requires QueueInv(q) && Runs(q.k) && q.k.tasks[q.k.cur].event == Nothing && q.k.cur !in q.mail
    ensures q.k.tasks[q.k.cur].slot < PRIOS && QueueInv(Pend(q, timeout).0)
  {
    hide Agrees, Clear, Set, Member, TaskOk, NoStrangers, IdleOk;
    WaitKeeps(q.k, q.event, timeout);
  }

  lemma ReturnKeeps(q: State)
    requires QueueInv(q) && Runs(q.k) && (q.k.cur in q.mail || q.k.tasks[q.k.cur].event == On(q.event))
    ensures q.k.tasks[q.k.cur].slot < PRIOS && QueueInv(Return(q).0)
  {
    hide Agrees, Clear, Member, TaskOk, NoStrangers, IdleOk;
    RunsInSlot(q.k);
    if q.k.cur !in q.mail {
      TimedOutKeeps(q.k);
      NoItems(q);
    }
  }

  lemma RunsInSlot(k: Kernel)
    requires Inv(k) && Runs(k)
    ensures k.tasks[k.cur].slot < PRIOS
  {
    hide Agrees, Distinct, Member;
    assert TaskOk(k, k.tasks[k.cur], k.cur);
  }

  lemma NoItems(q: State)
    requires QueueInv(q) && Runs(q.k) && q.k.tasks[q.k.cur].event == On(q.event)
    ensures q.items == []
  {
    hide Agrees;
    assert TaskOk(q.k, q.k.tasks[q.k.cur], q.k.cur);
    HighestIs(q.k.events[q.event]);
  }

  /** A step of the kernel that does not use the queue's event. */
  predicate Apart(q: State, op: Op) {
    Legal(q.k, op) && Elsewhere(op, q.event) && (op.DoTimedOut? ==> q.k.tasks[q.k.cur].event != On(q.event))
  }

  /** The mail of a deleted task is lost with it. */
  function Other(q: State, op: Op, k': Kernel): State {
    q.(k := k', mail := if op.DoDeleteEnd? && q.k.dying.Dying? then q.mail - {q.k.dying.t} else q.mail)
  }

  lemma KernelKeeps(q: State, op: Op)
    requires QueueInv(q) && Apart(q, op)
    ensures QueueInv(Other(q, op, Step(q.k, op)))
  {
    hide Agrees, Member, Step, TaskOk, NoStrangers, IdleOk;
    OtherStep(q.k, op, q.event);
    var k' := Step(q.k, op);
    HighestIs(q.k.events[q.event]);
    HighestIs(k'.events[q.event]);
  }

  // ----- Whole runs

  datatype Call =
    | Kernelly(op: Op) | DoAccept | DoPend(timeout: nat) | DoReturn | DoFlush
    | DoPost(msg: int, broadcast: bool, front: bool)

  predicate Allowed(q: State, call: Call) {
    match call
    case Kernelly(op) => Apart(q, op)
    case DoAccept => true
    case DoPend(_) => Runs(q.k) && q.k.tasks[q.k.cur].event == Nothing && q.k.cur !in q.mail
    case DoReturn => Runs(q.k) && (q.k.cur in q.mail || q.k.tasks[q.k.cur].event == On(q.event))
    case DoFlush => true
    case DoPost(msg, _, _) => msg != NONE
  }

  ghost function Do(q: State, call: Call): (q': State)
    requires QueueInv(q) && Allowed(q, call)
  {
    match call
    case Kernelly(op) => Other(q, op, Step(q.k, op))
    case DoAccept => Accept(q).0
    case DoPend(timeout) => PendKeeps(q, timeout); Pend(q, timeout).0
    case DoReturn => ReturnKeeps(q); Return(q).0
    case DoFlush => Flush(q)
    case DoPost(msg, broadcast, front) => PostOpt(q, msg, broadcast, front).0
  }

  lemma DoKeeps(q: State, call: Call)
    requires QueueInv(q) && Allowed(q, call)
    ensures QueueInv(Do(q, call))
  {
    hide Inv, Post, Broadcast, Pend, Return, Other;
    match call
    case Kernelly(op) => KernelKeeps(q, op);
    case DoAccept =>
    case DoPend(timeout) => PendKeeps(q, timeout);
    case DoReturn => ReturnKeeps(q);
    case DoFlush =>
    case DoPost(msg, broadcast, front) => PostKeepsQueue(q, msg, front);
  }

  ghost predicate AllowedRun(q: State, calls: seq<Call>)
    requires QueueInv(q)
    decreases |calls|
  {
    calls != [] ==> Allowed(q, calls[0]) && (DoKeeps(q, calls[0]); AllowedRun(Do(q, calls[0]), calls[1..]))
  }

  /** Messages and waiting tasks never coexist, in every reachable state. */
  ghost function RunCalls(q: State, calls: seq<Call>): (q': State)
    requires QueueInv(q) && AllowedRun(q, calls)
    ensures QueueInv(q')
    decreases |calls|
  {
    if calls == [] then q else DoKeeps(q, calls[0]); RunCalls(Do(q, calls[0]), calls[1..])
  }

  // ----- Conservation

  /** The messages a call returns. */
  ghost function Received(q: State, call: Call): seq<int> {
    if (call.DoAccept? || call.DoPend?) && q.items != [] then [q.items[0]]
    else if call.DoReturn? && q.k.cur in q.mail then [q.mail[q.k.cur]]
    else []
  }

  /** The messages a call puts under way, a broadcast apart. */
  ghost function Posted(q: State, call: Call): seq<int>
    requires QueueInv(q)
  {
    if call.DoPost? && Post(q, call.msg, call.front).1 == Ok then [call.msg] else []
  }

  ghost function Holders(mail: map<Id, int>, msg: int): set<Id> {
    set t | t in mail && mail[t] == msg
  }

  /** Copies of a message in the ring, or handed to tasks that have not run yet. */
  ghost function InFlight(q: State, msg: int): nat {
    multiset(q.items)[msg] + |Holders(q.mail, msg)|
  }

  /** Flushing, a broadcast to waiting tasks, and deleting a task with mail do not conserve messages. */
  predicate Conserves(q: State, call: Call) {
    && !call.DoFlush? && (call.DoPost? ==> !call.broadcast)
    && (call.Kernelly? && call.op.DoDeleteEnd? && q.k.dying.Dying? ==> q.k.dying.t !in q.mail)
  }

  lemma AddHolder(mail: map<Id, int>, t: Id, msg: int, m: int)
    requires t !in mail
    ensures |Holders(mail[t := msg], m)| == |Holders(mail, m)| + if msg == m then 1 else 0
  {
    assert Holders(mail[t := msg], m) == Holders(mail, m) + if msg == m then {t} else {};
  }

  lemma DropHolder(mail: map<Id, int>, t: Id, m: int)
    requires t in mail
    ensures |Holders(mail - {t}, m)| == |Holders(mail, m)| - if mail[t] == m then 1 else 0
  {
    assert Holders(mail - {t}, m) == Holders(mail, m) - if mail[t] == m then {t} else {};
  }

  lemma Counts(items: seq<int>, m: int)
    requires items != []
    ensures multiset(items)[m] == multiset(items[1..])[m] + if items[0] == m then 1 else 0
  {
    assert items == [items[0]] + items[1..];
  }

  lemma PostConserved(q: State, msg: int, front: bool, m: int)
    requires QueueInv(q) && msg != NONE
    ensures var (q', code) := Post(q, msg, front);
            InFlight(q', m) == InFlight(q, m) + if code == Ok && msg == m then 1 else 0
  {
    hide Inv, HandOff, Holders;
    if Waiting(q) {
      HandOffIs(q, msg);
      AddHolder(q.mail, First(q), msg, m);
    } else if |q.items| < q.size {
      Counts([msg] + q.items, m);
      assert ([msg] + q.items)[1..] == q.items;
    }
  }

  lemma PostBalanced(q: State, msg: int, front: bool, m: int)
    requires QueueInv(q) && msg != NONE
    ensures Balanced(q, Post(q, msg, front).0, [], if Post(q, msg, front).1 == Ok then [msg] else [], m)
  {
    hide QueueInv, Post, InFlight;
    PostConserved(q, msg, front, m);
  }

  /** What is under way afterwards and what was received are what was under way and what was posted. */
  ghost predicate Balanced(q: State, q': State, received: seq<int>, posted: seq<int>, m: int) {
    InFlight(q', m) + multiset(received)[m] == InFlight(q, m) + multiset(posted)[m]
  }

  lemma NothingMoves(q: State, q': State, m: int)
    requires q'.items == q.items && q'.mail == q.mail
    ensures Balanced(q, q', [], [], m)
  {
  }

  lemma OldestLeaves(q: State, q': State, m: int)
    requires q.items != [] && q'.items == q.items[1..] && q'.mail == q.mail
    ensures Balanced(q, q', [q.items[0]], [], m)
  {
    hide Holders;
    Counts(q.items, m);
  }

  lemma MailLeaves(q: State, q': State, t: Id, m: int)
    requires t in q.mail && q'.items == q.items && q'.mail == q.mail - {t}
    ensures Balanced(q, q', [q.mail[t]], [], m)
  {
    hide Holders;
    DropHolder(q.mail, t, m);
  }

  lemma Conserved(q: State, call: Call, m: int)
    requires QueueInv(q) && Allowed(q, call) && Conserves(q, call)
    ensures Balanced(q, Do(q, call), Received(q, call), Posted(q, call), m)
  {
    hide Inv, Post, Broadcast, Balanced;
    match call
    case Kernelly(op) =>
      if op.DoDeleteEnd? && q.k.dying.Dying? { assert q.mail - {q.k.dying.t} == q.mail; }
      NothingMoves(q, Do(q, call), m);
    case DoAccept => TakeConserved(q, Do(q, call), m);
    case DoPend(timeout) => TakeConserved(q, Do(q, call), m);
    case DoReturn =>
      if q.k.cur in q.mail { MailLeaves(q, Do(q, call), q.k.cur, m); } else { NothingMoves(q, Do(q, call), m); }
    case DoFlush =>
    case DoPost(msg, broadcast, front) => PostBalanced(q, msg, front, m);
  }

  lemma TakeConserved(q: State, q': State, m: int)
    requires q'.items == (if q.items == [] then [] else q.items[1..]) && q'.mail == q.mail
    ensures Balanced(q, q', if q.items == [] then [] else [q.items[0]], [], m)
  {
    hide Balanced;
    if q.items == [] { NothingMoves(q, q', m); } else { OldestLeaves(q, q', m); }
  }


  ghost predicate ConservesAll(q: State, calls: seq<Call>)
    requires QueueInv(q) && AllowedRun(q, calls)
    decreases |calls|
  {
    calls != [] ==> Conserves(q, calls[0]) && (DoKeeps(q, calls[0]); ConservesAll(Do(q, calls[0]), calls[1..]))
  }

  ghost function ReceivedIn(q: State, calls: seq<Call>): seq<int>
    requires QueueInv(q) && AllowedRun(q, calls)
    decreases |calls|
  {
    if calls == [] then []
    else DoKeeps(q, calls[0]); Received(q, calls[0]) + ReceivedIn(Do(q, calls[0]), calls[1..])
  }

  ghost function PostedIn(q: State, calls: seq<Call>): seq<int>
    requires QueueInv(q) && AllowedRun(q, calls)
    decreases |calls|
  {
    if calls == [] then []
    else DoKeeps(q, calls[0]); Posted(q, calls[0]) + PostedIn(Do(q, calls[0]), calls[1..])
  }

  /** Each accepted message is received once, or is still in the ring or with one task: none is lost and none is
      delivered twice, over every run. */
  lemma {:induction false} ConservedRun(q: State, calls: seq<Call>, m: int)
    requires QueueInv(q) && AllowedRun(q, calls) && ConservesAll(q, calls)
    ensures InFlight(RunCalls(q, calls), m) + multiset(ReceivedIn(q, calls))[m]
            == InFlight(q, m) + multiset(PostedIn(q, calls))[m]
    decreases |calls|
  {
    hide QueueInv, Do, Allowed, Conserves, InFlight, Received, Posted;
    if calls != [] {
      DoKeeps(q, calls[0]);
      Conserved(q, calls[0], m);
      ConservedRun(Do(q, calls[0]), calls[1..], m);
    }
  }

  // ----- Order

  /** The messages a call takes out of the ring, and the messages it appends. */
  ghost function Taken1(q: State, call: Call): seq<int> {
    if (call.DoAccept? || call.DoPend?) && q.items != [] then [q.items[0]] else []
  }

  ghost function Appended(q: State, call: Call): seq<int> {
    if call.DoPost? && !Waiting(q) && |q.items| < q.size then [call.msg] else []
  }

  lemma StepInOrder(q: State, call: Call)
    requires QueueInv(q) && Allowed(q, call) && !call.DoFlush? && (call.DoPost? ==> !call.front)
    ensures Taken1(q, call) + Do(q, call).items == q.items + Appended(q, call)
  {
    hide Inv, Broadcast;
    match call
    case Kernelly(op) =>
    case DoAccept =>
    case DoPend(timeout) =>
    case DoReturn =>
    case DoFlush =>
    case DoPost(msg, broadcast, front) => if Waiting(q) { HandOffIs(q, msg); }
  }

  ghost function TakenIn(q: State, calls: seq<Call>): seq<int>
    requires QueueInv(q) && AllowedRun(q, calls)
    decreases |calls|
  {
    if calls == [] then [] else DoKeeps(q, calls[0]); Taken1(q, calls[0]) + TakenIn(Do(q, calls[0]), calls[1..])
  }

  ghost function AppendedIn(q: State, calls: seq<Call>): seq<int>
    requires QueueInv(q) && AllowedRun(q, calls)
    decreases |calls|
  {
    if calls == [] then [] else DoKeeps(q, calls[0]); Appended(q, calls[0]) + AppendedIn(Do(q, calls[0]), calls[1..])
  }

  /** First in, first out, over every run without posts to the front and flushes. */
  lemma {:induction false} FifoRun(q: State, calls: seq<Call>)
    requires QueueInv(q) && AllowedRun(q, calls)
    requires forall c :: c in calls ==> !c.DoFlush? && (c.DoPost? ==> !c.front)
    ensures TakenIn(q, calls) + RunCalls(q, calls).items == q.items + AppendedIn(q, calls)
    decreases |calls|
  {
    hide QueueInv, Do, Allowed, Taken1, Appended;
    if calls != [] {
      DoKeeps(q, calls[0]);
      var q1 := Do(q, calls[0]);
      StepInOrder(q, calls[0]);
      FifoRun(q1, calls[1..]);
      InOrder(Taken1(q, calls[0]), q1.items, q.items, Appended(q, calls[0]),
                  TakenIn(q1, calls[1..]), RunCalls(q1, calls[1..]).items, AppendedIn(q1, calls[1..]));
    }
  }

  /** A message posted to the front leaves next. */
  lemma FrontIsNext(q: State, msg: int)
    requires QueueInv(q) && !Waiting(q) && |q.items| < q.size
    ensures Accept(Post(q, msg, true).0) == (q, msg)
  {
    assert ([msg] + q.items)[1..] == q.items;
  }
}
