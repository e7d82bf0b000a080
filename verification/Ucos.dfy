// The task and event tables of uC/OS-II: os_core.c, with the task services of
// os_task.c.  Each function is one critical section; OSTaskDel has two of them,
// OSTimeTick one for every task.
module Ucos {
  import opened Bitmap
  import opened Lists
  import opened PrioTable

  const IDLE_PRIO := 63   // OS_LOWEST_PRIO

  type Id = nat

  datatype Event = Nothing | On(e: nat)

  /** A task control block.  slot stands for OSTCBY, OSTCBX and their bits: the place in the tables.  pend is
      the status bit of the kind of event the task waits for, suspend is OS_STAT_SUSPEND. */
  datatype Tcb = Tcb(prio: nat, slot: nat, dly: nat, suspend: bool, pend: bool, event: Event)

  /** Reserved, by a mutex, and Claimed, by a task creation under way, are both (OS_TCB *)1. */
  datatype Entry = Unused | Reserved | Claimed | Of(id: Id)

  /** The task between the two critical sections of OSTaskDel. */
  datatype Doomed = NoneDying | Dying(t: Id)

  /** Where the loop of OSTimeTick stands. */
  datatype Ticker = NoTick | At(t: Id)

  /** list is the chain of TCBs from OSTCBList. */
  datatype Kernel = Kernel(tasks: map<Id, Tcb>, prioTbl: seq<Entry>, ready: Table, events: map<nat, Table>,
                           list: seq<Id>, idle: Id, cur: Id, dying: Doomed, tick: Ticker)

  // ----- The invariant

  ghost predicate TablesOk(k: Kernel) {
    && |k.prioTbl| == PRIOS
    && Shaped(k.ready) && Agrees(k.ready)
    && forall e :: e in k.events ==> Shaped(k.events[e]) && Agrees(k.events[e])
  }

  /** Priority p belongs to a task. */
  predicate Taken(k: Kernel, p: nat)
    requires |k.prioTbl| == PRIOS
  {
    p < PRIOS && k.prioTbl[p].Of? && k.prioTbl[p].id in k.tasks && k.tasks[k.prioTbl[p].id].prio == p
  }

  /** The tables know the task: under its own priority, in the wait table of exactly the event it is linked to,
      and not ready while suspended; a task that is neither ready nor suspended is waiting for something.  A dying
      task is in no wait table, although it may still be linked to an event, and waits for nothing. */
  ghost predicate TaskOk(k: Kernel, c: Tcb, t: Id)
    requires TablesOk(k)
  {
    && c.prio < PRIOS && c.slot == c.prio && k.prioTbl[c.prio] == Of(t)
    && (Member(k.ready, c.prio) ==> !c.suspend && c.dly == 0)
    && if k.dying == Dying(t) then
         && !c.pend && c.dly == 0
         && (forall e :: e in k.events ==> !Member(k.events[e], c.prio))
       else
         && (c.pend <==> c.event.On?) && (c.event.On? ==> c.event.e in k.events)
         && (!Member(k.ready, c.prio) && !c.suspend ==> c.dly > 0 || c.pend)
         && (forall e :: e in k.events ==> (Member(k.events[e], c.prio) <==> c.event == On(e)))
  }

  /** Only tasks are in the tables. */
  ghost predicate NoStrangers(k: Kernel)
    requires TablesOk(k)
  {
    && (forall p: nat :: Member(k.ready, p) ==> Taken(k, p))
    && (forall e, p: nat :: e in k.events && Member(k.events[e], p) ==> Taken(k, p))
  }

  /** The idle task is always ready, and last in the chain. */
  ghost predicate IdleOk(k: Kernel)
    requires TablesOk(k)
  {
    && k.idle in k.tasks
    && k.tasks[k.idle].prio == IDLE_PRIO && !k.tasks[k.idle].suspend && !k.tasks[k.idle].pend
       && k.tasks[k.idle].dly == 0
    && Member(k.ready, IDLE_PRIO)
    && Distinct(k.list) && (forall t :: t in k.list <==> t in k.tasks)
    && k.list != [] && k.list[|k.list| - 1] == k.idle
  }

  ghost predicate Inv(k: Kernel) {
    && TablesOk(k)
    && (forall t :: t in k.tasks ==> TaskOk(k, k.tasks[t], t))
    && NoStrangers(k) && IdleOk(k)
    && (k.dying.Dying? ==> k.dying.t in k.tasks && k.dying.t != k.idle)
    && (k.tick.At? ==> k.tick.t in k.list)
  }

  /** Tasks run: no interrupt is being served, and the scheduler is not locked for a deletion. */
  predicate AtTask(k: Kernel) { k.dying == NoneDying && k.tick == NoTick }

  /** The current task runs: it is ready, and not the idle task. */
  predicate Runs(k: Kernel) {
    && AtTask(k) && Shaped(k.ready) && k.cur in k.tasks && k.cur != k.idle && Member(k.ready, k.tasks[k.cur].prio)
  }

  // ----- Creating and deleting tasks

  /** First section of OSTaskCreate: the priority is kept from others. */
  function Claim(k: Kernel, prio: nat): Kernel
    requires |k.prioTbl| == PRIOS && prio < PRIOS
  {
    k.(prioTbl := k.prioTbl[prio := Claimed])
  }

  /** Last section of OSTaskCreate when there is no TCB. */
  function Unclaim(k: Kernel, prio: nat): Kernel
    requires |k.prioTbl| == PRIOS && prio < PRIOS
  {
    k.(prioTbl := k.prioTbl[prio := Unused])
  }

  /** Second section of OS_TCBInit, for a claimed priority. */
  function Create(k: Kernel, t: Id, prio: nat): Kernel
    requires TablesOk(k) && prio < PRIOS
  {
    k.(tasks := k.tasks[t := Tcb(prio, prio, 0, false, false, Nothing)], prioTbl := k.prioTbl[prio := Of(t)],
       list := [t] + k.list, ready := Set(k.ready, prio))
  }

  /** First section of OSTaskDel: task t leaves the ready list and the wait table. */
  function DeleteBegin(k: Kernel, t: Id): Kernel
    requires TablesOk(k) && t in k.tasks && k.tasks[t].slot < PRIOS
  {
    var c := k.tasks[t];
    k.(tasks := k.tasks[t := c.(dly := 0, suspend := false, pend := false)], dying := Dying(t),
       ready := Clear(k.ready, c.slot),
       events := if c.event.On? && c.event.e in k.events
                 then k.events[c.event.e := Clear(k.events[c.event.e], c.slot)] else k.events)
  }

  /** Second section of OSTaskDel: the priority is free, and the TCB leaves the chain. */
  function DeleteEnd(k: Kernel): Kernel
    requires |k.prioTbl| == PRIOS && k.dying.Dying? && k.dying.t in k.tasks && k.tasks[k.dying.t].prio < PRIOS
  {
    var t := k.dying.t;
    k.(tasks := k.tasks - {t}, prioTbl := k.prioTbl[k.tasks[t].prio := Unused], list := Drop(k.list, t),
       dying := NoneDying)
  }

  // ----- Suspending and resuming tasks

  function Suspend(k: Kernel, t: Id): Kernel
    requires TablesOk(k) && t in k.tasks && k.tasks[t].slot < PRIOS
  {
    var c := k.tasks[t];
    k.(ready := Clear(k.ready, c.slot), tasks := k.tasks[t := c.(suspend := true)])
  }

  function Resume(k: Kernel, t: Id): Kernel
    requires TablesOk(k) && t in k.tasks && k.tasks[t].slot < PRIOS
  {
    var c := k.tasks[t];
    if !c.suspend then k
    else k.(tasks := k.tasks[t := c.(suspend := false)],
            ready := if !c.pend && c.dly == 0 then Set(k.ready, c.slot) else k.ready)
  }

  // ----- Events

  /** The current task pends: status bit and timeout, then OS_EventTaskWait. */
  function Wait(k: Kernel, e: nat, timeout: nat): Kernel
    requires TablesOk(k) && k.cur in k.tasks && k.tasks[k.cur].slot < PRIOS && e in k.events
  {
    var c := k.tasks[k.cur];
    k.(tasks := k.tasks[k.cur := c.(pend := true, dly := timeout, event := On(e))],
       ready := Clear(k.ready, c.slot), events := k.events[e := Set(k.events[e], c.slot)])
  }

  /** OS_EventTaskRdy: the most urgent waiting task gets the event. */
  function Post(k: Kernel, e: nat): (Kernel, nat)
    requires TablesOk(k) && e in k.events && Taken(k, Highest(k.events[e]))
  {
    var p := Highest(k.events[e]);
    var t := k.prioTbl[p].id;
    var c := k.tasks[t].(dly := 0, event := Nothing, pend := false);
    (k.(events := k.events[e := Clear(k.events[e], p)], tasks := k.tasks[t := c],
        ready := if !c.suspend then Set(k.ready, p) else k.ready), p)
  }

  /** The current task runs again without having got the event: OS_EventTO. */
  function TimedOut(k: Kernel): Kernel
    requires TablesOk(k) && k.cur in k.tasks && k.tasks[k.cur].slot < PRIOS
    requires k.tasks[k.cur].event.On? && k.tasks[k.cur].event.e in k.events
  {
    var c := k.tasks[k.cur];
    k.(events := k.events[c.event.e := Clear(k.events[c.event.e], c.slot)],
       tasks := k.tasks[k.cur := c.(suspend := false, pend := false, event := Nothing)])
  }

  // ----- Time

  /** OSTimeDly. */
  function Delay(k: Kernel, ticks: nat): Kernel
    requires TablesOk(k) && k.cur in k.tasks && k.tasks[k.cur].slot < PRIOS
  {
    var c := k.tasks[k.cur];
    if ticks == 0 then k
    else k.(ready := Clear(k.ready, c.slot), tasks := k.tasks[k.cur := c.(dly := ticks)])
  }

  /** What OSTimeTick does to one task. */
  function TickTask(k: Kernel, t: Id): (k': Kernel)
    requires Shaped(k.ready) && t in k.tasks && k.tasks[t].slot < PRIOS
    ensures Shaped(k'.ready) && k'.tasks.Keys == k.tasks.Keys && k'.list == k.list && k'.dying == k.dying
    ensures forall u :: u in k.tasks ==> k'.tasks[u].slot == k.tasks[u].slot && k'.tasks[u].prio == k.tasks[u].prio
  {
    var c := k.tasks[t];
    if c.dly == 0 then k
    else if c.dly > 1 then k.(tasks := k.tasks[t := c.(dly := c.dly - 1)])
    else if c.suspend then k
    else k.(tasks := k.tasks[t := c.(dly := 0)], ready := Set(k.ready, c.slot))
  }

  /** The TCB behind t in the chain. */
  function Next(list: seq<Id>, t: Id): Id
    requires list != []
  {
    var i := Find(list, t) + 1;
    if i < |list| then list[i] else list[0]
  }

  /** OSTimeTick begins at the head of the chain. */
  function TickBegin(k: Kernel): Kernel
    requires k.list != []
  {
    k.(tick := At(k.list[0]))
  }

  /** One round of the loop of OSTimeTick, which ends at the idle task. */
  function TickOne(k: Kernel): Kernel
    requires Shaped(k.ready) && k.list != [] && k.tick.At? && k.tick.t in k.tasks && k.tasks[k.tick.t].slot < PRIOS
  {
    var t := k.tick.t;
    if k.tasks[t].prio == IDLE_PRIO then k.(tick := NoTick) else TickTask(k, t).(tick := At(Next(k.list, t)))
  }

  /** OS_Sched, and the end of an interrupt; locked, it does nothing. */
  function Sched(k: Kernel): Kernel
    requires TablesOk(k) && Taken(k, Highest(k.ready))
  {
    if AtTask(k) then k.(cur := k.prioTbl[Highest(k.ready)].id) else k
  }

  // ----- Preservation

  /** k' differs from k in task t only: in its control block and in its bits of the tables. */
  ghost predicate SameBut(k: Kernel, k': Kernel, t: Id) {
    && TablesOk(k) && TablesOk(k') && t in k.tasks && k'.tasks.Keys == k.tasks.Keys
    && k'.prioTbl == k.prioTbl && k'.list == k.list && k'.idle == k.idle && k'.events.Keys == k.events.Keys
    && k'.tick == k.tick && (k'.dying == k.dying || (k.dying == NoneDying && k'.dying == Dying(t)))
    && k'.tasks[t].prio == k.tasks[t].prio
    && (forall u :: u in k.tasks && u != t ==> k'.tasks[u] == k.tasks[u])
    && (forall p: nat :: p != k.tasks[t].prio ==> (Member(k'.ready, p) <==> Member(k.ready, p)))
    && (forall e, p: nat :: e in k.events && p != k.tasks[t].prio ==>
          (Member(k'.events[e], p) <==> Member(k.events[e], p)))
  }

  lemma ButTasks(k: Kernel, k': Kernel, t: Id, u: Id)
    requires Inv(k) && SameBut(k, k', t) && u in k.tasks && u != t
    ensures TaskOk(k', k'.tasks[u], u)
  {
    hide Agrees, Member, Distinct, NoStrangers, IdleOk;
    assert TaskOk(k, k.tasks[u], u) && TaskOk(k, k.tasks[t], t);
  }

  lemma ButStrangers(k: Kernel, k': Kernel, t: Id)
    requires Inv(k) && SameBut(k, k', t)
    ensures NoStrangers(k')
  {
    hide Agrees, Member, Distinct, IdleOk;
    assert TaskOk(k, k.tasks[t], t);
    assert forall p: nat :: Taken(k, p) ==> Taken(k', p);
    assert Taken(k, k.tasks[t].prio);
  }

  /** Only task t has to be looked at. */
  lemma ButKeeps(k: Kernel, k': Kernel, t: Id)
    requires Inv(k) && SameBut(k, k', t) && TaskOk(k', k'.tasks[t], t)
    requires t != k.idle || (k'.tasks[t] == k.tasks[t] && k'.dying == k.dying && Member(k'.ready, IDLE_PRIO))
    ensures Inv(k')
  {
    hide Agrees, Member, Distinct, TaskOk, NoStrangers;
    forall u | u in k'.tasks ensures TaskOk(k', k'.tasks[u], u) {
      if u != t { ButTasks(k, k', t, u); }
    }
    ButStrangers(k, k', t);
    IdleTask(k, t);
  }

  lemma IdleTask(k: Kernel, t: Id)
    requires Inv(k) && t in k.tasks
    ensures k.tasks[t].prio == IDLE_PRIO <==> t == k.idle
  {
    hide Agrees, Member, Distinct, NoStrangers;
    assert TaskOk(k, k.tasks[t], t) && TaskOk(k, k.tasks[k.idle], k.idle);
  }

  /** An entry that stands for no task can change. */
  lemma EntryKeeps(k: Kernel, prio: nat, entry: Entry)
    requires Inv(k) && prio < PRIOS && !k.prioTbl[prio].Of? && !entry.Of?
    ensures Inv(k.(prioTbl := k.prioTbl[prio := entry]))
  {
    hide Agrees, Member, Distinct;
    var k' := k.(prioTbl := k.prioTbl[prio := entry]);
    forall u | u in k'.tasks ensures TaskOk(k', k'.tasks[u], u) {
      assert TaskOk(k, k.tasks[u], u);
    }
    assert forall p: nat :: Taken(k, p) ==> Taken(k', p);
  }

  lemma CreateKeeps(k: Kernel, t: Id, prio: nat)
    requires Inv(k) && t !in k.tasks && prio < PRIOS && !k.prioTbl[prio].Of?
    ensures Inv(Create(k, t, prio))
  {
    hide Agrees, Set, Member, Distinct, TaskOk, NoStrangers;
    SetAgrees(k.ready, prio);
    AddOne(k.list, t);
    CreateTasks(k, t, prio);
    CreateStrangers(k, t, prio);
  }

  lemma CreateTasks(k: Kernel, t: Id, prio: nat)
    requires Inv(k) && t !in k.tasks && prio < PRIOS && !k.prioTbl[prio].Of?
    ensures var k' := Create(k, t, prio);
            TablesOk(k') && forall u :: u in k'.tasks ==> TaskOk(k', k'.tasks[u], u)
  {
    hide Agrees, Set, Member, Distinct, IdleOk;
    SetAgrees(k.ready, prio);
    assert !Taken(k, prio);
    forall u | u in k.tasks ensures TaskOk(k, k.tasks[u], u) {}
  }

  lemma CreateStrangers(k: Kernel, t: Id, prio: nat)
    requires Inv(k) && t !in k.tasks && prio < PRIOS && !k.prioTbl[prio].Of?
    ensures TablesOk(Create(k, t, prio)) && NoStrangers(Create(k, t, prio))
  {
    hide Agrees, Set, Member, Distinct, TaskOk, IdleOk;
    SetAgrees(k.ready, prio);
    var k' := Create(k, t, prio);
    assert !Taken(k, prio);
    assert forall p: nat :: Taken(k, p) ==> Taken(k', p);
  }

  /** A waiting task that is deleted leaves its event. */
  lemma DeleteBeginKeeps(k: Kernel, t: Id)
    requires Inv(k) && k.dying == NoneDying && t in k.tasks && t != k.idle
    ensures k.tasks[t].slot < PRIOS && Inv(DeleteBegin(k, t))
  {
    hide Agrees, Clear, Member, Distinct, NoStrangers, IdleOk;
    var c, k' := k.tasks[t], DeleteBegin(k, t);
    assert TaskOk(k, c, t);
    ClearAgrees(k.ready, c.prio);
    if c.event.On? { ClearAgrees(k.events[c.event.e], c.prio); }
    ButKeeps(k, k', t);
  }

  /** The tables agree again exactly when the deleted task is not ready: an interrupt may have suspended and resumed
      it between the two sections, and then a ready bit is left that stands for no task. */
  lemma DeleteEndKeepsIff(k: Kernel)
    requires Inv(k) && k.dying.Dying? && k.tick == NoTick
    ensures k.tasks[k.dying.t].prio < PRIOS
    ensures Inv(DeleteEnd(k)) <==> !Member(k.ready, k.tasks[k.dying.t].prio)
  {
    hide Agrees, Member, Distinct, Drop, TaskOk, IdleOk, NoStrangers;
    DyingPrio(k);
    if !Member(k.ready, k.tasks[k.dying.t].prio) {
      DeleteEndTasks(k);
      DeleteEndIdle(k);
    } else {
      LeftReady(k);
    }
  }

  lemma DyingPrio(k: Kernel)
    requires Inv(k) && k.dying.Dying?
    ensures k.tasks[k.dying.t].slot == k.tasks[k.dying.t].prio < PRIOS
  {
    hide Agrees, Member, Distinct;
    assert TaskOk(k, k.tasks[k.dying.t], k.dying.t);
  }

  lemma LeftReady(k: Kernel)
    requires Inv(k) && k.dying.Dying? && k.tasks[k.dying.t].prio < PRIOS && Member(k.ready, k.tasks[k.dying.t].prio)
    ensures !Inv(DeleteEnd(k))
  {
    hide Agrees, Distinct, Drop, TaskOk, IdleOk;
    var p := k.tasks[k.dying.t].prio;
    assert !Taken(DeleteEnd(k), p);
    assert Member(DeleteEnd(k).ready, p);
  }

  lemma DeleteEndTasks(k: Kernel)
    requires Inv(k) && k.dying.Dying? && k.tasks[k.dying.t].prio < PRIOS
    requires !Member(k.ready, k.tasks[k.dying.t].prio)
    ensures var k' := DeleteEnd(k);
            TablesOk(k') && (forall u :: u in k'.tasks ==> TaskOk(k', k'.tasks[u], u)) && NoStrangers(k')
  {
    hide Agrees, Member, Distinct, Drop, IdleOk;
    var c, k' := k.tasks[k.dying.t], DeleteEnd(k);
    assert TaskOk(k, c, k.dying.t);
    forall u | u in k'.tasks ensures TaskOk(k', k'.tasks[u], u) {
      assert TaskOk(k, k.tasks[u], u);
    }
    assert forall p: nat :: Taken(k, p) && p != c.prio ==> Taken(k', p);
  }

  lemma DeleteEndIdle(k: Kernel)
    requires Inv(k) && k.dying.Dying? && k.tasks[k.dying.t].prio < PRIOS
    ensures TablesOk(DeleteEnd(k)) && IdleOk(DeleteEnd(k))
  {
    hide Agrees, Member, Distinct, Drop, NoStrangers;
    DropOne(k.list, k.dying.t);
    DropLast(k.list, k.dying.t);
  }

  lemma DropLast<T>(list: seq<T>, t: T)
    requires Distinct(list) && list != [] && t in list && t != list[|list| - 1]
    ensures Drop(list, t) != [] && Drop(list, t)[|list| - 2] == list[|list| - 1]
  {
    hide Drop, Find;
    assert Drop(list, t)[|list| - 2] == list[if |list| - 2 < Find(list, t) then |list| - 2 else |list| - 1];
    assert Find(list, t) < |list| && list[Find(list, t)] == t;
  }

  lemma SuspendKeeps(k: Kernel, t: Id)
    requires Inv(k) && t in k.tasks && t != k.idle
    ensures k.tasks[t].slot < PRIOS && Inv(Suspend(k, t))
  {
    hide Agrees, Clear, Member, Distinct, NoStrangers, IdleOk;
    assert TaskOk(k, k.tasks[t], t);
    ClearAgrees(k.ready, k.tasks[t].prio);
    ButKeeps(k, Suspend(k, t), t);
  }

  lemma ResumeKeeps(k: Kernel, t: Id)
    requires Inv(k) && t in k.tasks
    ensures k.tasks[t].slot < PRIOS && Inv(Resume(k, t))
  {
    hide Agrees, Set, Member, Distinct, NoStrangers;
    assert TaskOk(k, k.tasks[t], t);
    SetAgrees(k.ready, k.tasks[t].prio);
    if k.tasks[t].suspend { ButKeeps(k, Resume(k, t), t); }
  }

  lemma WaitKeeps(k: Kernel, e: nat, timeout: nat)
    requires Inv(k) && Runs(k) && e in k.events && k.tasks[k.cur].event == Nothing
    ensures k.tasks[k.cur].slot < PRIOS && Inv(Wait(k, e, timeout))
  {
    hide Agrees, Set, Clear, Member, Distinct, NoStrangers, IdleOk;
    var c := k.tasks[k.cur];
    assert TaskOk(k, c, k.cur);
    ClearAgrees(k.ready, c.prio);
    SetAgrees(k.events[e], c.prio);
    ButKeeps(k, Wait(k, e, timeout), k.cur);
  }

  /** The most urgent member of a wait table is a task that waits for that event. */
  lemma HighestWaiter(k: Kernel, e: nat)
    requires Inv(k) && e in k.events && !Zero(k.events[e].grp)
    ensures Taken(k, Highest(k.events[e]))
    ensures k.tasks[k.prioTbl[Highest(k.events[e])].id].event == On(e)
  {
    hide Agrees, Highest, Member, Distinct;
    HighestIs(k.events[e]);
    assert Taken(k, Highest(k.events[e]));
    var t := k.prioTbl[Highest(k.events[e])].id;
    assert TaskOk(k, k.tasks[t], t);
  }

  lemma PostKeeps(k: Kernel, e: nat)
    requires Inv(k) && e in k.events && !Zero(k.events[e].grp)
    ensures Taken(k, Highest(k.events[e])) && Inv(Post(k, e).0)
  {
    hide Agrees, Set, Clear, Member, Highest, Distinct, NoStrangers;
    HighestWaiter(k, e);
    var p := Highest(k.events[e]);
    var t := k.prioTbl[p].id;
    assert TaskOk(k, k.tasks[t], t);
    ClearAgrees(k.events[e], p);
    SetAgrees(k.ready, p);
    IdleWaits(k, e);
    ButKeeps(k, Post(k, e).0, t);
  }

  /** The idle task waits for nothing. */
  lemma IdleWaits(k: Kernel, e: nat)
    requires Inv(k) && e in k.events
    ensures k.tasks[k.idle].event != On(e)
  {
    hide Agrees, Member, Distinct, NoStrangers;
    assert TaskOk(k, k.tasks[k.idle], k.idle);
  }

  lemma TimedOutKeeps(k: Kernel)
    requires Inv(k) && Runs(k) && k.tasks[k.cur].event.On?
    ensures k.tasks[k.cur].slot < PRIOS && k.tasks[k.cur].event.e in k.events && Inv(TimedOut(k))
  {
    hide Agrees, Clear, Member, Distinct, NoStrangers, IdleOk;
    var c := k.tasks[k.cur];
    assert TaskOk(k, c, k.cur);
    ClearAgrees(k.events[c.event.e], c.prio);
    ButKeeps(k, TimedOut(k), k.cur);
  }

  lemma DelayKeeps(k: Kernel, ticks: nat)
    requires Inv(k) && Runs(k)
    ensures k.tasks[k.cur].slot < PRIOS && Inv(Delay(k, ticks))
  {
    hide Agrees, Clear, Member, Distinct, NoStrangers, IdleOk;
    assert TaskOk(k, k.tasks[k.cur], k.cur);
    ClearAgrees(k.ready, k.tasks[k.cur].prio);
    if ticks > 0 { ButKeeps(k, Delay(k, ticks), k.cur); }
  }

  lemma TickTaskKeeps(k: Kernel, t: Id)
    requires Inv(k) && t in k.tasks
    ensures k.tasks[t].slot < PRIOS && Inv(TickTask(k, t))
  {
    hide Agrees, Set, Member, Distinct, NoStrangers;
    assert TaskOk(k, k.tasks[t], t);
    SetAgrees(k.ready, k.tasks[t].prio);
    if TickTask(k, t) != k { ButKeeps(k, TickTask(k, t), t); }
  }

  lemma ChainOk(k: Kernel)
    requires Inv(k)
    ensures Shaped(k.ready) && k.list != [] && k.list[|k.list| - 1] == k.idle
    ensures forall t :: t in k.list ==> t in k.tasks && k.tasks[t].slot < PRIOS
    ensures k.tasks[k.idle].prio == IDLE_PRIO
  {
    hide Agrees, Distinct, Member;
    forall t | t in k.list ensures t in k.tasks && k.tasks[t].slot < PRIOS { assert TaskOk(k, k.tasks[t], t); }
  }

  /** The TCBs that the loop of OSTimeTick has not come to. */
  function Ahead(k: Kernel): seq<Id> {
    if k.tick == NoTick then [] else k.list[Find(k.list, k.tick.t)..]
  }

  /** The loop takes one TCB after the other, and ends at the idle task, which is last. */
  lemma TickOneKeeps(k: Kernel)
    requires Inv(k) && k.tick.At?
    ensures k.tick.t in k.tasks && k.tasks[k.tick.t].slot < PRIOS
    ensures Inv(TickOne(k)) && Ahead(k) != [] && Ahead(k)[0] == k.tick.t
    ensures Ahead(TickOne(k)) == Ahead(k)[1..] && TickOne(k).dying == k.dying
    ensures TickOne(k).tick == NoTick <==> Ahead(k) == [k.idle]
  {
    hide Inv, Find, TickTask;
    var t := k.tick.t;
    ChainOk(k);
    InChain(k);
    OnlyIdle(k, t);
    if t != k.idle {
      TickTaskKeeps(k, t);
      TickMoves(TickTask(k, t), Next(k.list, t));
    } else {
      TickStops(k);
    }
  }

  /** What is ahead of the loop, and what comes next. */
  lemma InChain(k: Kernel)
    requires Inv(k) && k.tick.At?
    ensures k.tick.t in k.tasks && k.list != [] && Ahead(k) != [] && Ahead(k)[0] == k.tick.t
    ensures Ahead(k) == [k.idle] <==> k.tick.t == k.idle
    ensures k.tick.t != k.idle ==>
              var n := Next(k.list, k.tick.t);
              n in k.list && k.list[Find(k.list, n)..] == Ahead(k)[1..]
  {
    hide Agrees, Member, TaskOk, NoStrangers, Find;
    var i := Find(k.list, k.tick.t);
    assert k.list[|k.list| - 1] == k.idle;
    if k.tick.t != k.idle {
      FindIs(k.list, i + 1);
    } else {
      FindIs(k.list, |k.list| - 1);
    }
  }

  lemma FindIs(list: seq<Id>, i: nat)
    requires Distinct(list) && i < |list|
    ensures Find(list, list[i]) == i
  {
  }

  lemma TickMoves(k: Kernel, t: Id)
    requires Inv(k) && t in k.list
    ensures Inv(k.(tick := At(t)))
  {
    hide Agrees, Member, Distinct;
    var k' := k.(tick := At(t));
    forall u | u in k'.tasks ensures TaskOk(k', k'.tasks[u], u) { assert TaskOk(k, k.tasks[u], u); }
    assert forall p: nat :: Taken(k, p) ==> Taken(k', p);
  }

  lemma TickStops(k: Kernel)
    requires Inv(k)
    ensures Inv(k.(tick := NoTick))
  {
    hide Agrees, Member, Distinct;
    var k' := k.(tick := NoTick);
    forall u | u in k'.tasks ensures TaskOk(k', k'.tasks[u], u) { assert TaskOk(k, k.tasks[u], u); }
    assert forall p: nat :: Taken(k, p) ==> Taken(k', p);
  }

  lemma TickBeginKeeps(k: Kernel)
    requires Inv(k)
    ensures k.list != [] && Inv(TickBegin(k)) && Ahead(TickBegin(k)) == k.list
  {
    hide Inv;
    ChainOk(k);
    TickMoves(k, k.list[0]);
  }

  /** OS_Sched runs the ready task with the least priority number. */
  lemma SchedIs(k: Kernel)
    requires Inv(k)
    ensures Taken(k, Highest(k.ready))
    ensures var k' := Sched(k);
            && Inv(k')
            && (AtTask(k) ==>
                  && k'.cur in k.tasks && Member(k.ready, k.tasks[k'.cur].prio)
                  && forall t :: t in k.tasks && Member(k.ready, k.tasks[t].prio) ==>
                       k.tasks[k'.cur].prio <= k.tasks[t].prio)
  {
    hide Agrees, Highest, Distinct;
    HighestIs(k.ready);
    var k' := Sched(k);
    forall u | u in k'.tasks ensures TaskOk(k', k'.tasks[u], u) {
      assert TaskOk(k, k.tasks[u], u);
    }
    assert forall p: nat :: Taken(k, p) ==> Taken(k', p);
  }

  /** One tick counts every delay down once; the tasks whose delay ends become ready, unless they are
      suspended, and then keep one tick. */
  function Ticked(c: Tcb): nat {
    if c.dly == 0 then 0 else if c.dly > 1 then c.dly - 1 else if c.suspend then 1 else 0
  }

  lemma OnlyIdle(k: Kernel, t: Id)
    requires Inv(k) && t in k.tasks
    ensures k.tasks[t].prio == IDLE_PRIO <==> t == k.idle
    ensures k.tasks[k.idle].dly == 0
  {
    assert TaskOk(k, k.tasks[t], t) && TaskOk(k, k.tasks[k.idle], k.idle);
  }

  /** Suspending and resuming a ready task makes it ready again exactly when it had not just timed out: a task
      whose timeout expired but which has not run yet goes on waiting for the event, with no timeout left. */
  lemma SuspendResumeIff(k: Kernel, t: Id)
    requires Inv(k) && k.dying != Dying(t) && t in k.tasks && t != k.idle && Member(k.ready, k.tasks[t].prio)
    ensures k.tasks[t].slot < PRIOS && TablesOk(Suspend(k, t))
    ensures var k' := Resume(Suspend(k, t), t);
            && TablesOk(k') && t in k'.tasks && k'.tasks[t] == k.tasks[t]
            && (Member(k'.ready, k.tasks[t].prio) <==> !k.tasks[t].pend)
  {
    hide Agrees, Set, Clear, Member, Distinct;
    SuspendKeeps(k, t);
    ResumeKeeps(Suspend(k, t), t);
    assert TaskOk(k, k.tasks[t], t);
    ClearAgrees(k.ready, k.tasks[t].prio);
    SetAgrees(Suspend(k, t).ready, k.tasks[t].prio);
  }

  // ----- Whole runs

  datatype Op =
    | DoClaim(prio: nat) | DoUnclaim(prio: nat) | DoCreate(t: Id, prio: nat)
    | DoDeleteBegin(t: Id) | DoDeleteEnd | DoSuspend(t: Id) | DoResume(t: Id)
    | DoWait(e: nat, timeout: nat) | DoPost(e: nat) | DoTimedOut | DoDelay(ticks: nat)
    | DoTickBegin | DoTickOne | DoSched

  /** What the services demand.  Interrupts may suspend, resume, post and create at any time; a deletion ends when no
      interrupt is being served, and with a task that is not ready again. */
  predicate Legal(k: Kernel, op: Op) {
    match op
    case DoClaim(prio) => prio < PRIOS && prio < |k.prioTbl| && k.prioTbl[prio] == Unused
    case DoUnclaim(prio) => prio < PRIOS && prio < |k.prioTbl| && k.prioTbl[prio] == Claimed
    case DoCreate(t, prio) => t !in k.tasks && prio < PRIOS && prio < |k.prioTbl| && k.prioTbl[prio] == Claimed
    case DoDeleteBegin(t) => AtTask(k) && t in k.tasks && t != k.idle
    case DoDeleteEnd => k.dying.Dying? && k.tick == NoTick && k.dying.t in k.tasks
                        && Shaped(k.ready) && !Member(k.ready, k.tasks[k.dying.t].prio)
    case DoSuspend(t) => t in k.tasks && t != k.idle
    case DoResume(t) => t in k.tasks
    case DoWait(e, _) => Runs(k) && e in k.events && k.tasks[k.cur].event == Nothing
    case DoPost(e) => e in k.events && !Zero(k.events[e].grp)
    case DoTimedOut => Runs(k) && k.tasks[k.cur].event.On?
    case DoDelay(_) => Runs(k)
    case DoTickBegin => k.tick == NoTick
    case DoTickOne => k.tick.At?
    case DoSched => true
  }

  ghost function Step(k: Kernel, op: Op): (k': Kernel)
    requires Inv(k) && Legal(k, op)
    ensures Inv(k')
  {
    match op
    case DoClaim(prio) => EntryKeeps(k, prio, Claimed); Claim(k, prio)
    case DoUnclaim(prio) => EntryKeeps(k, prio, Unused); Unclaim(k, prio)
    case DoCreate(t, prio) => CreateKeeps(k, t, prio); Create(k, t, prio)
    case DoDeleteBegin(t) => DeleteBeginKeeps(k, t); DeleteBegin(k, t)
    case DoDeleteEnd => DeleteEndKeepsIff(k); DeleteEnd(k)
    case DoSuspend(t) => SuspendKeeps(k, t); Suspend(k, t)
    case DoResume(t) => ResumeKeeps(k, t); Resume(k, t)
    case DoWait(e, timeout) => WaitKeeps(k, e, timeout); Wait(k, e, timeout)
    case DoPost(e) => PostKeeps(k, e); Post(k, e).0
    case DoTimedOut => TimedOutKeeps(k); TimedOut(k)
    case DoDelay(ticks) => DelayKeeps(k, ticks); Delay(k, ticks)
    case DoTickBegin => TickBeginKeeps(k); TickBegin(k)
    case DoTickOne => TickOneKeeps(k); TickOne(k)
    case DoSched => SchedIs(k); Sched(k)
  }

  // ----- What a step leaves alone

  lemma TickTaskFrame(k: Kernel, t: Id)
    requires Shaped(k.ready) && t in k.tasks && k.tasks[t].slot < PRIOS
    ensures var k' := TickTask(k, t);
            && k'.events == k.events && k'.prioTbl == k.prioTbl && k'.idle == k.idle && k'.tasks.Keys == k.tasks.Keys
            && forall u :: u in k.tasks ==> k'.tasks[u].prio == k.tasks[u].prio && k'.tasks[u].event == k.tasks[u].event
  {
    hide Set;
  }

  /** A step that neither waits for event e nor posts it: nobody new waits for e, priorities stay, and only the
      task that waits is linked to another event. */
  ghost predicate OthersKeep(k: Kernel, op: Op, e: nat, k': Kernel)
    requires TablesOk(k) && TablesOk(k') && e in k.events
  {
    && k'.idle == k.idle && e in k'.events
    && (forall p: nat :: Member(k'.events[e], p) ==> Member(k.events[e], p))
    && (forall t :: t in k.tasks && !(op.DoDeleteEnd? && k.dying == Dying(t)) ==>
          && t in k'.tasks && k'.tasks[t].prio == k.tasks[t].prio
          && (k'.tasks[t].event == k.tasks[t].event || k'.tasks[t].event == Nothing
              || (op.DoWait? && t == k.cur && k'.tasks[t].event == On(op.e))))
    && (forall t :: k'.dying == Dying(t) ==> k.dying == Dying(t) || op == DoDeleteBegin(t))
    && (forall p: nat :: p < PRIOS && k'.prioTbl[p] != k.prioTbl[p] ==>
          || k.prioTbl[p] == Unused || k.prioTbl[p] == Claimed
          || (op.DoDeleteEnd? && k.dying.Dying? && k.prioTbl[p] == Of(k.dying.t)))
  }

  predicate Elsewhere(op: Op, e: nat) {
    (op.DoWait? ==> op.e != e) && (op.DoPost? ==> op.e != e)
  }

  lemma CreateOthers(k: Kernel, t: Id, prio: nat, e: nat)
    requires Inv(k) && Legal(k, DoCreate(t, prio)) && e in k.events
    ensures TablesOk(Create(k, t, prio)) && OthersKeep(k, DoCreate(t, prio), e, Create(k, t, prio))
  {
    hide Agrees, Member, Distinct, Set, TaskOk, NoStrangers;
    CreateKeeps(k, t, prio);
  }

  lemma DeleteBeginOthers(k: Kernel, t: Id, e: nat)
    requires Inv(k) && Legal(k, DoDeleteBegin(t)) && e in k.events
    ensures k.tasks[t].slot < PRIOS
    ensures TablesOk(DeleteBegin(k, t)) && OthersKeep(k, DoDeleteBegin(t), e, DeleteBegin(k, t))
  {
    hide Agrees, Member, Distinct, Clear, NoStrangers;
    DeleteBeginKeeps(k, t);
    var c := k.tasks[t];
    assert TaskOk(k, c, t);
    if c.event.On? { ClearAgrees(k.events[c.event.e], c.slot); }
  }

  lemma DeleteEndOthers(k: Kernel, e: nat)
    requires Inv(k) && Legal(k, DoDeleteEnd) && e in k.events
    ensures k.tasks[k.dying.t].prio < PRIOS
    ensures TablesOk(DeleteEnd(k)) && OthersKeep(k, DoDeleteEnd, e, DeleteEnd(k))
  {
    hide Agrees, Member, Distinct, Drop, NoStrangers;
    assert TaskOk(k, k.tasks[k.dying.t], k.dying.t);
  }

  lemma SuspendOthers(k: Kernel, t: Id, e: nat)
    requires Inv(k) && Legal(k, DoSuspend(t)) && e in k.events
    ensures k.tasks[t].slot < PRIOS
    ensures TablesOk(Suspend(k, t)) && OthersKeep(k, DoSuspend(t), e, Suspend(k, t))
  {
    hide Agrees, Member, Distinct, Clear, TaskOk, NoStrangers;
    SuspendKeeps(k, t);
  }

  lemma ResumeOthers(k: Kernel, t: Id, e: nat)
    requires Inv(k) && Legal(k, DoResume(t)) && e in k.events
    ensures k.tasks[t].slot < PRIOS
    ensures TablesOk(Resume(k, t)) && OthersKeep(k, DoResume(t), e, Resume(k, t))
  {
    hide Agrees, Member, Distinct, Set, TaskOk, NoStrangers;
    ResumeKeeps(k, t);
  }

  lemma WaitOthers(k: Kernel, e': nat, timeout: nat, e: nat)
    requires Inv(k) && Legal(k, DoWait(e', timeout)) && e in k.events && e != e'
    ensures k.tasks[k.cur].slot < PRIOS
    ensures TablesOk(Wait(k, e', timeout)) && OthersKeep(k, DoWait(e', timeout), e, Wait(k, e', timeout))
  {
    hide Agrees, Member, Distinct, Set, Clear, TaskOk, NoStrangers;
    WaitKeeps(k, e', timeout);
  }

  lemma PostOthers(k: Kernel, e': nat, e: nat)
    requires Inv(k) && Legal(k, DoPost(e')) && e in k.events && e != e'
    ensures Taken(k, Highest(k.events[e']))
    ensures TablesOk(Post(k, e').0) && OthersKeep(k, DoPost(e'), e, Post(k, e').0)
  {
    hide Agrees, Member, Distinct, Set, Clear, Highest, TaskOk, NoStrangers;
    HighestWaiter(k, e');
    PostKeeps(k, e');
  }

  lemma TimedOutOthers(k: Kernel, e: nat)
    requires Inv(k) && Legal(k, DoTimedOut) && e in k.events
    ensures k.tasks[k.cur].slot < PRIOS && k.tasks[k.cur].event.e in k.events
    ensures TablesOk(TimedOut(k)) && OthersKeep(k, DoTimedOut, e, TimedOut(k))
  {
    hide Agrees, Member, Distinct, Clear, TaskOk, NoStrangers;
    TimedOutKeeps(k);
    ClearAgrees(k.events[k.tasks[k.cur].event.e], k.tasks[k.cur].slot);
  }

  lemma DelayOthers(k: Kernel, ticks: nat, e: nat)
    requires Inv(k) && Legal(k, DoDelay(ticks)) && e in k.events
    ensures k.tasks[k.cur].slot < PRIOS
    ensures TablesOk(Delay(k, ticks)) && OthersKeep(k, DoDelay(ticks), e, Delay(k, ticks))
  {
    hide Agrees, Member, Distinct, Clear, TaskOk, NoStrangers;
    DelayKeeps(k, ticks);
  }

  /** The other tasks and events are not affected by a step that does not use event e. */
  lemma OtherStep(k: Kernel, op: Op, e: nat)
    requires Inv(k) && Legal(k, op) && e in k.events && Elsewhere(op, e)
    ensures OthersKeep(k, op, e, Step(k, op))
  {
    hide Inv, OthersKeep, TablesOk, Claim, Unclaim, Create, DeleteBegin, DeleteEnd, Suspend, Resume, Wait, Post,
         TimedOut, Delay, Highest, TickBegin, TickOne;
    match op
    case DoClaim(prio) => EntryOthers(k, prio, Claimed, op, e);
    case DoUnclaim(prio) => EntryOthers(k, prio, Unused, op, e);
    case DoCreate(t, prio) => CreateOthers(k, t, prio, e);
    case DoDeleteBegin(t) => DeleteBeginOthers(k, t, e);
    case DoDeleteEnd => DeleteEndOthers(k, e);
    case DoSuspend(t) => SuspendOthers(k, t, e);
    case DoResume(t) => ResumeOthers(k, t, e);
    case DoWait(e', timeout) => WaitOthers(k, e', timeout, e);
    case DoPost(e') => PostOthers(k, e', e);
    case DoTimedOut => TimedOutOthers(k, e);
    case DoDelay(ticks) => DelayOthers(k, ticks, e);
    case DoTickBegin => TickBeginOthers(k, e);
    case DoTickOne => TickOthers(k, e);
    case DoSched => SchedOthers(k, e);
  }

  lemma EntryOthers(k: Kernel, prio: nat, entry: Entry, op: Op, e: nat)
    requires Inv(k) && Legal(k, op) && e in k.events
    requires (op == DoClaim(prio) && entry == Claimed) || (op == DoUnclaim(prio) && entry == Unused)
    ensures prio < |k.prioTbl|
    ensures TablesOk(k) && TablesOk(Step(k, op)) && OthersKeep(k, op, e, Step(k, op))
  {
    hide Agrees, Member, Distinct, TaskOk, NoStrangers;
    EntryKeeps(k, prio, entry);
  }

  lemma TickBeginOthers(k: Kernel, e: nat)
    requires Inv(k) && k.tick == NoTick && e in k.events
    ensures k.list != [] && TablesOk(k) && TablesOk(TickBegin(k)) && OthersKeep(k, DoTickBegin, e, TickBegin(k))
  {
    hide Inv, Agrees, Member;
    ChainOk(k);
    TablesKnown(k);
  }

  lemma TablesKnown(k: Kernel)
    requires Inv(k)
    ensures TablesOk(k)
  {
  }

  lemma TickOthers(k: Kernel, e: nat)
    requires Inv(k) && k.tick.At? && e in k.events
    ensures TablesOk(k) && TablesOk(Step(k, DoTickOne)) && OthersKeep(k, DoTickOne, e, Step(k, DoTickOne))
  {
    hide Inv, Agrees, Member, TickTask, Next, Ahead;
    TablesKnown(k);
    ChainOk(k);
    TickOneKeeps(k);
    TablesKnown(TickOne(k));
    TickTaskFrame(k, k.tick.t);
  }

  lemma SchedOthers(k: Kernel, e: nat)
    requires Inv(k) && e in k.events
    ensures TablesOk(k) && TablesOk(Step(k, DoSched)) && OthersKeep(k, DoSched, e, Step(k, DoSched))
  {
    hide Agrees, Member, Distinct, Highest, TaskOk, NoStrangers;
    SchedIs(k);
  }

  ghost predicate LegalRun(k: Kernel, ops: seq<Op>)
    requires Inv(k)
    decreases |ops|
  {
    ops != [] ==> Legal(k, ops[0]) && LegalRun(Step(k, ops[0]), ops[1..])
  }

  /** The tables agree in every reachable state. */
  ghost function Run(k: Kernel, ops: seq<Op>): (k': Kernel)
    requires Inv(k) && LegalRun(k, ops)
    ensures Inv(k')
    decreases |ops|
  {
    if ops == [] then k else Run(Step(k, ops[0]), ops[1..])
  }

  /** After any run: a task is in the wait table of an event exactly when its TCB is linked to it, or, while it is being
      deleted, in none; no task is both suspended and ready, and the scheduler has a task to run. */
  lemma RunAgrees(k: Kernel, ops: seq<Op>, t: Id, e: nat)
    requires Inv(k) && LegalRun(k, ops) && t in Run(k, ops).tasks && e in Run(k, ops).events
    ensures var k' := Run(k, ops);
            && TablesOk(k')
            && (Member(k'.events[e], k'.tasks[t].prio) <==> k'.tasks[t].event == On(e) && k'.dying != Dying(t))
            && !(k'.tasks[t].suspend && Member(k'.ready, k'.tasks[t].prio))
            && Taken(k', Highest(k'.ready))
  {
    hide LegalRun, Run, Member, Highest, Agrees, Distinct;
    var k' := Run(k, ops);
    assert TaskOk(k', k'.tasks[t], t);
    SchedIs(k');
  }

  /** OSInit with the idle task created, and any number of events. */
  function Start(idle: Id, events: map<nat, Table>): Kernel {
    Kernel(map[idle := Tcb(IDLE_PRIO, IDLE_PRIO, 0, false, false, Nothing)],
           seq(PRIOS, p => if p == IDLE_PRIO then Of(idle) else Unused),
           Set(Empty(), IDLE_PRIO), events, [idle], idle, idle, NoneDying, NoTick)
  }

  lemma InitInv(idle: Id, events: map<nat, Table>)
    requires forall e :: e in events ==> events[e] == Empty()
    ensures Inv(Start(idle, events))
    ensures forall p: nat :: Member(Start(idle, events).ready, p) <==> p == IDLE_PRIO
  {
    hide Set, Agrees, Member;
    EmptyAgrees();
    SetAgrees(Empty(), IDLE_PRIO);
  }
}
