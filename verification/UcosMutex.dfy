// The mutex of thread_pool/ucos2/source/os_mutex.c: its owner runs at its own
// priority or at the priority inheritance priority (PIP) reserved for the mutex.
module UcosMutex {
  import opened Bitmap
  import opened Lists
  import opened PrioTable
  import opened Ucos

  const AVAILABLE := 0xFF

  datatype Owner = Nobody | By(t: Id)

  /** pip and cnt are the two halves of OSEventCnt, owner is OSEventPtr; event is the wait table. */
  datatype Mutex = Mutex(event: nat, pip: nat, cnt: nat, owner: Owner)

  datatype System = System(k: Kernel, m: Mutex)

  datatype Code = Ok | NotOwner | Blocked | Unavailable | PrioExist

  // ----- The invariant

  /** No task waits for the mutex at p. */
  predicate Waits(y: System, p: nat) {
    y.m.event in y.k.events && Shaped(y.k.events[y.m.event]) && Member(y.k.events[y.m.event], p)
  }

  /** Nobody owns the mutex: it is available, nobody waits, and the PIP entry is reserved. */
  ghost predicate Free(y: System) {
    && y.m.cnt == AVAILABLE && |y.k.prioTbl| == PRIOS && y.m.pip < IDLE_PRIO && y.k.prioTbl[y.m.pip] == Reserved
    && forall p: nat :: !Waits(y, p)
  }

  /** Task o owns the mutex: it runs at its recorded priority or at the PIP, and at the PIP whenever a waiting
      task outranks the recorded priority; both entries of the priority table lead where they should. */
  ghost predicate Owned(y: System, o: Id) {
    && o in y.k.tasks && o != y.k.idle && y.k.tasks[o].event == Nothing && y.k.dying != Dying(o)
    && y.m.pip < y.m.cnt < IDLE_PRIO && |y.k.prioTbl| == PRIOS && y.k.prioTbl[y.m.cnt] == Of(o)
    && (y.k.tasks[o].prio == y.m.cnt || y.k.tasks[o].prio == y.m.pip)
    && (y.k.tasks[o].prio == y.m.cnt ==> y.k.prioTbl[y.m.pip] == Reserved)
    && (forall p: nat :: Waits(y, p) && p < y.m.cnt ==> y.k.tasks[o].prio == y.m.pip)
  }

  ghost predicate MutexInv(y: System) {
    && Inv(y.k) && y.m.event in y.k.events && y.m.pip < IDLE_PRIO
    && (forall p: nat :: Waits(y, p) ==> y.m.pip < p)
    && match y.m.owner
       case Nobody => Free(y)
       case By(o) => Owned(y, o)
  }

  /** The owner is more urgent than every task that waits. */
  lemma OwnerOutranksWaiters(y: System, p: nat)
    requires MutexInv(y) && y.m.owner.By? && Waits(y, p)
    ensures y.m.owner.t in y.k.tasks && y.k.tasks[y.m.owner.t].prio < p
  {
    hide Agrees, Distinct;
    assert TaskOk(y.k, y.k.tasks[y.m.owner.t], y.m.owner.t);
  }

  // ----- Changing a priority

  /** Task t moves to priority p: ready bits, table entry and precomputed places together. */
  function MovePrio(k: Kernel, t: Id, p: nat): Kernel
    requires TablesOk(k) && t in k.tasks && k.tasks[t].slot < PRIOS && p < PRIOS
  {
    var c := k.tasks[t];
    k.(ready := if Member(k.ready, c.slot) then Set(Clear(k.ready, c.slot), p) else k.ready,
       tasks := k.tasks[t := c.(prio := p, slot := p)], prioTbl := k.prioTbl[p := Of(t)])
  }

  /** An entry that stands for no task, or for t already, can take t. */
  lemma MovePrioKeeps(k: Kernel, t: Id, p: nat)
    requires Inv(k) && k.dying == NoneDying && t in k.tasks && t != k.idle && k.tasks[t].event == Nothing
    requires p < IDLE_PRIO && (k.prioTbl[p] == Of(t) || k.prioTbl[p] == Reserved)
    ensures k.tasks[t].slot < PRIOS && Inv(MovePrio(k, t, p))
    ensures Member(MovePrio(k, t, p).ready, p) <==> Member(k.ready, k.tasks[t].prio)
  {
    hide Agrees, Set, Clear, Member, Distinct;
    var c, k' := k.tasks[t], MovePrio(k, t, p);
    assert TaskOk(k, c, t) && TaskOk(k, k.tasks[k.idle], k.idle);
    ClearAgrees(k.ready, c.prio);
    SetAgrees(Clear(k.ready, c.prio), p);
    if p != c.prio { assert !Taken(k, p); }
    forall u | u in k'.tasks ensures TaskOk(k', k'.tasks[u], u) {
      assert TaskOk(k, k.tasks[u], u);
    }
    forall q: nat | Taken(k, q) && q != c.prio ensures Taken(k', q) {}
    assert Taken(k', p);
  }

  /** An entry that no task has as its own priority can be reserved. */
  lemma ReserveKeeps(k: Kernel, p: nat)
    requires Inv(k) && p < PRIOS && forall t :: t in k.tasks ==> k.tasks[t].prio != p
    ensures Inv(k.(prioTbl := k.prioTbl[p := Reserved]))
  {
    hide Agrees, Member, Distinct;
    var k' := k.(prioTbl := k.prioTbl[p := Reserved]);
    forall u | u in k'.tasks ensures TaskOk(k', k'.tasks[u], u) {
      assert TaskOk(k, k.tasks[u], u);
    }
    assert forall q: nat :: Taken(k, q) ==> Taken(k', q);
  }

  // ----- The services

  /** OSMutexCreate on an event of its own; pip must be free. */
  function Create(k: Kernel, e: nat, pip: nat): (System, Code)
    requires TablesOk(k) && pip < IDLE_PRIO
  {
    if k.prioTbl[pip] != Unused then (System(k, Mutex(e, pip, AVAILABLE, Nobody)), PrioExist)
    else (System(k.(prioTbl := k.prioTbl[pip := Reserved], events := k.events[e := Empty()]),
                 Mutex(e, pip, AVAILABLE, Nobody)), Ok)
  }

  /** The current task becomes the owner. */
  function Own(y: System): System
    requires y.k.cur in y.k.tasks
  {
    y.(m := y.m.(cnt := y.k.tasks[y.k.cur].prio, owner := By(y.k.cur)))
  }

  /** OSMutexAccept. */
  function Accept(y: System): (System, Code)
    requires y.k.cur in y.k.tasks
  {
    if y.m.cnt == AVAILABLE then (Own(y), Ok) else (y, Unavailable)
  }

  /** The owner moves to the PIP, if the current task outranks its recorded priority. */
  function Promote(y: System): System
    requires TablesOk(y.k) && y.m.owner.By? && y.m.owner.t in y.k.tasks && y.k.tasks[y.m.owner.t].slot < PRIOS
    requires y.k.cur in y.k.tasks && y.m.pip < PRIOS
  {
    var o := y.m.owner.t;
    if y.k.tasks[o].prio != y.m.pip && y.m.cnt > y.k.tasks[y.k.cur].prio then y.(k := MovePrio(y.k, o, y.m.pip)) else y
  }

  /** OSMutexPend, up to the call of OS_Sched. */
  function Pend(y: System, timeout: nat): (System, Code)
    requires MutexInv(y) && Runs(y.k)
  {
    if y.m.cnt == AVAILABLE then (Own(y), Ok)
    else
      OwnerSlots(y);
      var y1 := Promote(y);
      CurSlots(y, y1);
      (y1.(k := Wait(y1.k, y.m.event, timeout)), Blocked)
  }

  /** OSMutexPost, up to the call of OS_Sched. */
  function Post(y: System): (System, Code)
    requires MutexInv(y) && Runs(y.k)
  {
    var p := y.k.tasks[y.k.cur].prio;
    if p != y.m.pip && p != y.m.cnt then (y, NotOwner)
    else PostAcceptsIff(y); RestoreIs(y); HandOverDefined(Restore(y)); (HandOver(Restore(y)), Ok)
  }

  /** The owner is back at its recorded priority, and the PIP is reserved again. */
  function Restore(y: System): System
    requires TablesOk(y.k) && y.k.cur in y.k.tasks && y.k.tasks[y.k.cur].slot < PRIOS
    requires y.m.cnt < PRIOS && y.m.pip < PRIOS
  {
    var k1 := if y.k.tasks[y.k.cur].prio == y.m.pip then MovePrio(y.k, y.k.cur, y.m.cnt) else y.k;
    y.(k := k1.(prioTbl := k1.prioTbl[y.m.pip := Reserved]))
  }

  /** The most urgent waiting task owns the mutex now, or nobody does. */
  function HandOver(y: System): System
    requires TablesOk(y.k) && y.m.event in y.k.events
    requires !Zero(y.k.events[y.m.event].grp) ==> Taken(y.k, Highest(y.k.events[y.m.event]))
  {
    if Zero(y.k.events[y.m.event].grp) then y.(m := y.m.(cnt := AVAILABLE, owner := Nobody))
    else
      var (k', p) := Ucos.Post(y.k, y.m.event);
      System(k', y.m.(cnt := p, owner := By(y.k.prioTbl[p].id)))
  }

  // ----- Preservation

  lemma CreateKeeps(k: Kernel, e: nat, pip: nat)
    requires Inv(k) && e !in k.events && pip < IDLE_PRIO && k.prioTbl[pip] == Unused
    ensures MutexInv(Create(k, e, pip).0)
  {
    hide Agrees, Member, Distinct;
    EmptyAgrees();
    var k' := Create(k, e, pip).0.k;
    forall u | u in k'.tasks ensures TaskOk(k', k'.tasks[u], u) {
      assert TaskOk(k, k.tasks[u], u);
    }
    assert forall q: nat :: Taken(k, q) ==> Taken(k', q);
  }

  lemma OwnerSlots(y: System)
    requires MutexInv(y) && Runs(y.k) && y.m.cnt != AVAILABLE
    ensures y.m.owner.By? && y.m.owner.t in y.k.tasks && y.k.tasks[y.m.owner.t].slot < PRIOS
  {
    hide Agrees, Member, Distinct;
    assert TaskOk(y.k, y.k.tasks[y.m.owner.t], y.m.owner.t);
  }

  lemma CurSlots(y: System, y1: System)
    requires MutexInv(y) && Runs(y.k) && y.m.cnt != AVAILABLE
    requires y.m.owner.By? && y.m.owner.t in y.k.tasks && y.k.tasks[y.m.owner.t].slot < PRIOS && y1 == Promote(y)
    ensures TablesOk(y1.k) && y1.k.cur in y1.k.tasks && y1.k.tasks[y1.k.cur].slot < PRIOS && y.m.event in y1.k.events
  {
    hide Agrees, Member, Distinct, Set, Clear;
    assert TaskOk(y.k, y.k.tasks[y.k.cur], y.k.cur);
    if y1 != y { MovePrioKeeps(y.k, y.m.owner.t, y.m.pip); }
  }

  lemma OwnKeeps(y: System)
    requires MutexInv(y) && Runs(y.k) && y.m.owner.Nobody?
    requires y.k.tasks[y.k.cur].event == Nothing && y.m.pip < y.k.tasks[y.k.cur].prio
    ensures MutexInv(Own(y))
  {
    hide Agrees, Member, Distinct;
    assert TaskOk(y.k, y.k.tasks[y.k.cur], y.k.cur) && TaskOk(y.k, y.k.tasks[y.k.idle], y.k.idle);
    assert forall p: nat :: Waits(Own(y), p) ==> Waits(y, p);
  }

  lemma PromoteKeeps(y: System)
    requires MutexInv(y) && Runs(y.k) && y.m.owner.By? && y.k.cur != y.m.owner.t
    ensures y.m.owner.t in y.k.tasks && y.k.tasks[y.m.owner.t].slot < PRIOS
    ensures var y1 := Promote(y);
            && MutexInv(y1) && y1.m == y.m && Runs(y1.k) && y1.k.cur == y.k.cur && y1.k.events == y.k.events
            && y1.k.tasks[y.k.cur] == y.k.tasks[y.k.cur]
            && (y.k.tasks[y.k.cur].prio < y.m.cnt ==> y1.k.tasks[y.m.owner.t].prio == y.m.pip)
  {
    hide Agrees, Distinct, Set, Clear, Member;
    var o := y.m.owner.t;
    assert TaskOk(y.k, y.k.tasks[o], o) && TaskOk(y.k, y.k.tasks[y.k.cur], y.k.cur);
    if y.k.tasks[o].prio != y.m.pip && y.m.cnt > y.k.tasks[y.k.cur].prio {
      MovePrioKeeps(y.k, o, y.m.pip);
      MovePrioOthers(y.k, o, y.m.pip, y.k.cur);
      assert forall p: nat :: Waits(Promote(y), p) ==> Waits(y, p);
    }
  }

  /** The ready bits of other tasks stay. */
  lemma MovePrioOthers(k: Kernel, t: Id, p: nat, u: Id)
    requires Inv(k) && t in k.tasks && u in k.tasks && u != t && p < PRIOS && k.tasks[u].prio != p
    ensures k.tasks[t].slot < PRIOS
    ensures Member(MovePrio(k, t, p).ready, k.tasks[u].prio) <==> Member(k.ready, k.tasks[u].prio)
  {
    hide Agrees, Set, Clear, Member, Distinct;
    assert TaskOk(k, k.tasks[t], t) && TaskOk(k, k.tasks[u], u);
    ClearAgrees(k.ready, k.tasks[t].prio);
    SetAgrees(Clear(k.ready, k.tasks[t].prio), p);
  }

  /** The test of OSMutexPost by priorities accepts exactly the owner. */
  lemma PostAcceptsIff(y: System)
    requires MutexInv(y) && Runs(y.k)
    ensures y.k.tasks[y.k.cur].prio == y.m.pip || y.k.tasks[y.k.cur].prio == y.m.cnt <==> y.m.owner == By(y.k.cur)
  {
    hide Agrees, Member, Distinct;
    assert TaskOk(y.k, y.k.tasks[y.k.cur], y.k.cur);
    if y.m.owner.By? { assert TaskOk(y.k, y.k.tasks[y.m.owner.t], y.m.owner.t); }
  }

  /** The priority given back is the one recorded when the mutex was taken. */
  lemma RestoreIs(y: System)
    requires MutexInv(y) && Runs(y.k) && y.m.owner == By(y.k.cur)
    ensures y.k.tasks[y.k.cur].slot < PRIOS && y.m.cnt < PRIOS
    ensures var y1 := Restore(y);
            && Inv(y1.k) && y1.m == y.m && y1.k.prioTbl[y.m.pip] == Reserved && y1.k.events == y.k.events
            && y1.k.cur == y.k.cur && Runs(y1.k) && y1.k.tasks[y.k.cur].prio == y.m.cnt
  {
    hide Agrees, Set, Clear, Member, Distinct;
    var o := y.k.cur;
    assert TaskOk(y.k, y.k.tasks[o], o);
    var k1 := if y.k.tasks[o].prio == y.m.pip then MovePrio(y.k, o, y.m.cnt) else y.k;
    if y.k.tasks[o].prio == y.m.pip { MovePrioKeeps(y.k, o, y.m.cnt); }
    forall t | t in k1.tasks ensures k1.tasks[t].prio != y.m.pip {
      assert TaskOk(y.k, y.k.tasks[t], t);
    }
    ReserveKeeps(k1, y.m.pip);
  }

  lemma HandOverDefined(y: System)
    requires Inv(y.k) && y.m.event in y.k.events
    ensures !Zero(y.k.events[y.m.event].grp) ==> Taken(y.k, Highest(y.k.events[y.m.event]))
  {
    hide Agrees, Member, Distinct, Highest;
    if !Zero(y.k.events[y.m.event].grp) { HighestWaiter(y.k, y.m.event); }
  }

  lemma HandOverKeeps(y: System)
    requires Inv(y.k) && y.m.event in y.k.events && y.m.pip < IDLE_PRIO && y.k.prioTbl[y.m.pip] == Reserved
    requires forall p: nat :: Waits(y, p) ==> y.m.pip < p
    ensures !Zero(y.k.events[y.m.event].grp) ==> Taken(y.k, Highest(y.k.events[y.m.event]))
    ensures MutexInv(HandOver(y))
  {
    hide Agrees, Clear, Set, Member, Distinct, Highest;
    HandOverDefined(y);
    var e := y.m.event;
    HighestIs(y.k.events[e]);
    if !Zero(y.k.events[e].grp) {
      var p := Highest(y.k.events[e]);
      var t := y.k.prioTbl[p].id;
      HighestWaiter(y.k, e);
      PostKeeps(y.k, e);
      ClearAgrees(y.k.events[e], p);
      assert TaskOk(y.k, y.k.tasks[t], t) && TaskOk(y.k, y.k.tasks[y.k.idle], y.k.idle);
      assert Waits(y, p);
      assert forall q: nat :: Waits(HandOver(y), q) ==> Waits(y, q) && p <= q;
    }
  }

  lemma PendKeeps(y: System, timeout: nat)
    requires MutexInv(y) && Runs(y.k) && y.k.tasks[y.k.cur].event == Nothing
    requires y.m.pip < y.k.tasks[y.k.cur].prio && y.m.owner != By(y.k.cur)
    ensures MutexInv(Pend(y, timeout).0)
  {
    hide Agrees, Set, Clear, Member, Distinct, Promote, NoStrangers, IdleOk;
    assert TaskOk(y.k, y.k.tasks[y.k.cur], y.k.cur);
    if y.m.owner.Nobody? {
      OwnKeeps(y);
    } else {
      PromoteKeeps(y);
      var y1, c := Promote(y), y.k.tasks[y.k.cur];
      WaitKeeps(y1.k, y.m.event, timeout);
      SetAgrees(y1.k.events[y.m.event], c.slot);
      var y2 := Pend(y, timeout).0;
      assert forall p: nat :: Waits(y2, p) <==> Waits(y1, p) || p == c.prio;
    }
  }

  lemma PostKeepsMutex(y: System)
    requires MutexInv(y) && Runs(y.k)
    ensures MutexInv(Post(y).0)
  {
    hide Agrees, Member, Distinct, Restore, HandOver;
    PostAcceptsIff(y);
    if y.m.owner == By(y.k.cur) {
      RestoreIs(y);
      assert forall p: nat :: Waits(Restore(y), p) ==> Waits(y, p);
      HandOverKeeps(Restore(y));
    }
  }

  // ----- The other steps of the kernel

  /** What a step that has nothing to do with the mutex leaves alone. */
  ghost predicate Frame(y: System, k': Kernel) {
    && Inv(k') && k'.idle == y.k.idle && y.m.event in k'.events && |y.k.prioTbl| == PRIOS && y.m.pip < PRIOS
    && k'.prioTbl[y.m.pip] == y.k.prioTbl[y.m.pip]
    && (y.m.cnt < PRIOS ==> k'.prioTbl[y.m.cnt] == y.k.prioTbl[y.m.cnt])
    && (y.m.owner.By? && y.m.owner.t in y.k.tasks ==>
          y.m.owner.t in k'.tasks && k'.tasks[y.m.owner.t].prio == y.k.tasks[y.m.owner.t].prio
          && k'.tasks[y.m.owner.t].event == y.k.tasks[y.m.owner.t].event && k'.dying != Dying(y.m.owner.t))
    && forall p: nat :: Waits(y.(k := k'), p) ==> Waits(y, p)
  }

  lemma FrameKeeps(y: System, k': Kernel)
    requires MutexInv(y) && Frame(y, k')
    ensures MutexInv(y.(k := k'))
  {
    hide Agrees, Member, Distinct;
  }

  /** Steps of the kernel under the conditions on the use of the mutex: its owner is not deleted and pends on
      nothing else, and its event is used by the mutex services only. */
  predicate Apart(y: System, op: Op) {
    && Legal(y.k, op)
    && match op
       case DoDeleteBegin(t) => y.m.owner != By(t)
       case DoWait(e, _) => e != y.m.event && y.m.owner != By(y.k.cur)
       case DoPost(e) => e != y.m.event
       case _ => true
  }

  lemma StepFrame(y: System, op: Op)
    requires MutexInv(y) && Apart(y, op)
    ensures Frame(y, Step(y.k, op))
  {
    hide Agrees, Member, Distinct, Step, NoStrangers, IdleOk;
    OtherStep(y.k, op, y.m.event);
    if y.m.owner.By? { assert TaskOk(y.k, y.k.tasks[y.m.owner.t], y.m.owner.t); }
  }

  // ----- Whole runs

  datatype Call = Kernelly(op: Op) | DoAccept | DoPend(timeout: nat) | DoMutexPost

  /** The PIP is above every task that competes for the mutex. */
  predicate Allowed(y: System, call: Call) {
    match call
    case Kernelly(op) => Apart(y, op)
    case DoAccept => Runs(y.k) && y.k.tasks[y.k.cur].event == Nothing && y.m.pip < y.k.tasks[y.k.cur].prio
    case DoPend(_) => Runs(y.k) && y.k.tasks[y.k.cur].event == Nothing && y.m.pip < y.k.tasks[y.k.cur].prio
                      && y.m.owner != By(y.k.cur)
    case DoMutexPost => Runs(y.k)
  }

  ghost function Do(y: System, call: Call): (y': System)
    requires MutexInv(y) && Allowed(y, call)
  {
    match call
    case Kernelly(op) => y.(k := Step(y.k, op))
    case DoAccept => Accept(y).0
    case DoPend(timeout) => Pend(y, timeout).0
    case DoMutexPost => Post(y).0
  }

  lemma DoKeeps(y: System, call: Call)
    requires MutexInv(y) && Allowed(y, call)
    ensures MutexInv(Do(y, call))
  {
    hide Inv, Member, Own, Pend, Post;
    match call
    case Kernelly(op) => StepFrame(y, op); FrameKeeps(y, Step(y.k, op));
    case DoAccept => if y.m.cnt == AVAILABLE { OwnKeeps(y); }
    case DoPend(timeout) => PendKeeps(y, timeout);
    case DoMutexPost => PostKeepsMutex(y);
  }

  ghost predicate AllowedRun(y: System, calls: seq<Call>)
    requires MutexInv(y)
    decreases |calls|
  {
    calls != [] ==> Allowed(y, calls[0]) && (DoKeeps(y, calls[0]); AllowedRun(Do(y, calls[0]), calls[1..]))
  }

  ghost function RunCalls(y: System, calls: seq<Call>): (y': System)
    requires MutexInv(y) && AllowedRun(y, calls)
    ensures MutexInv(y')
    decreases |calls|
  {
    if calls == [] then y else (DoKeeps(y, calls[0]); RunCalls(Do(y, calls[0]), calls[1..]))
  }

  /** No priority inversion, after any run: while the owner is ready, the scheduler runs a task more urgent
      than every task that waits for the mutex. */
  lemma NoInversion(y: System, calls: seq<Call>, p: nat)
    requires MutexInv(y) && AllowedRun(y, calls)
    requires var y' := RunCalls(y, calls);
             && y'.m.owner.By? && Owned(y', y'.m.owner.t) && Member(y'.k.ready, y'.k.tasks[y'.m.owner.t].prio)
             && Waits(y', p) && AtTask(y'.k)
    ensures var y' := RunCalls(y, calls);
            && Taken(y'.k, Highest(y'.k.ready))
            && Sched(y'.k).cur in y'.k.tasks && y'.k.tasks[Sched(y'.k).cur].prio < p
  {
    hide AllowedRun, RunCalls, Member, Highest, Agrees, Distinct, Sched;
    var y' := RunCalls(y, calls);
    SchedIs(y'.k);
    OwnerOutranksWaiters(y', p);
  }
}
