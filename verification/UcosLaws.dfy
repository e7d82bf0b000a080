// What each service of uC/OS-II does: to the task it is about, and to nobody else.
module UcosLaws {
  import opened Lists
  import opened PrioTable
  import opened Ucos

  /** Task t is ready. */
  predicate IsReady(k: Kernel, t: Id)
    requires Shaped(k.ready) && t in k.tasks
  {
    Member(k.ready, k.tasks[t].prio)
  }

  /** The other tasks have the same control block, and are ready as before. */
  ghost predicate Others(k: Kernel, k': Kernel, t: Id) {
    && Shaped(k.ready) && Shaped(k'.ready)
    && forall u :: u in k.tasks && u != t ==>
         u in k'.tasks && k'.tasks[u] == k.tasks[u] && (IsReady(k', u) <==> IsReady(k, u))
  }

  /** The priority table, the chain, the current task and what is under way stay. */
  ghost predicate Rest(k: Kernel, k': Kernel) {
    && k'.prioTbl == k.prioTbl && k'.list == k.list && k'.idle == k.idle && k'.cur == k.cur
    && k'.dying == k.dying && k'.tick == k.tick
  }

  /** Every wait table but that of e stays. */
  ghost predicate OtherEvents(k: Kernel, k': Kernel, e: nat) {
    k'.events.Keys == k.events.Keys && forall f :: f in k.events && f != e ==> k'.events[f] == k.events[f]
  }

  /** Different tasks have different priorities. */
  lemma OwnPrio(k: Kernel, t: Id)
    requires Inv(k) && t in k.tasks
    ensures k.tasks[t].slot == k.tasks[t].prio < PRIOS
    ensures forall u :: u in k.tasks && u != t ==> k.tasks[u].prio != k.tasks[t].prio
  {
    hide Agrees, Member, Distinct;
    forall u | u in k.tasks ensures TaskOk(k, k.tasks[u], u) {}
  }

  lemma CreateIs(k: Kernel, t: Id, prio: nat)
    requires Inv(k) && Legal(k, DoCreate(t, prio))
    ensures var k' := Create(k, t, prio);
            && Others(k, k', t) && k'.tasks.Keys == k.tasks.Keys + {t} && IsReady(k', t)
            && k'.tasks[t].prio == prio && k'.tasks[t].event == Nothing && k'.tasks[t].dly == 0
            && k'.list == [t] + k.list
  {
    hide Agrees, Set, Distinct, NoStrangers, IdleOk;
    CreateKeeps(k, t, prio);
    SetAgrees(k.ready, prio);
    forall u | u in k.tasks ensures k.tasks[u].prio != prio { assert TaskOk(k, k.tasks[u], u); }
  }

  /** The first section of a deletion takes the task out of the ready list and of every wait table. */
  lemma DeleteBeginIs(k: Kernel, t: Id)
    requires Inv(k) && Legal(k, DoDeleteBegin(t))
    ensures k.tasks[t].slot < PRIOS
    ensures var k' := DeleteBegin(k, t);
            && Others(k, k', t) && k'.tasks.Keys == k.tasks.Keys && k'.dying == Dying(t) && !IsReady(k', t)
            && k'.tasks[t] == k.tasks[t].(dly := 0, suspend := false, pend := false)
            && TablesOk(k') && forall e :: e in k'.events ==> !Member(k'.events[e], k.tasks[t].prio)
  {
    hide Agrees, Clear, Member, Distinct, NoStrangers, IdleOk;
    OwnPrio(k, t);
    assert TaskOk(k, k.tasks[t], t);
    DeleteBeginKeeps(k, t);
    ClearAgrees(k.ready, k.tasks[t].prio);
    assert TaskOk(DeleteBegin(k, t), DeleteBegin(k, t).tasks[t], t);
  }

  /** The second section frees the priority and takes the TCB out of the chain; the tables stay. */
  lemma DeleteEndIs(k: Kernel)
    requires Inv(k) && k.dying.Dying?
    ensures k.tasks[k.dying.t].prio < PRIOS
    ensures var t, k' := k.dying.t, DeleteEnd(k);
            && Others(k, k', t) && k'.tasks.Keys == k.tasks.Keys - {t} && t !in k'.list && k'.dying == NoneDying
            && k'.prioTbl == k.prioTbl[k.tasks[t].prio := Unused] && k'.ready == k.ready && k'.events == k.events
            && (forall u :: u in k'.list <==> u in k.list && u != t)
            && t in k.list && k'.list == k.list[..Find(k.list, t)] + k.list[Find(k.list, t) + 1..]
  {
    hide Agrees, Member, Distinct, Drop, TaskOk, IdleOk, NoStrangers;
    OwnPrio(k, k.dying.t);
    DropOne(k.list, k.dying.t) by { ChainDistinct(k); }
    DropAt(k.list, k.dying.t) by { ChainDistinct(k); }
  }

  lemma ChainDistinct(k: Kernel)
    requires Inv(k)
    ensures Distinct(k.list) && (k.dying.Dying? ==> k.dying.t in k.list)
  {
    hide Distinct;
  }

  /** A round of the loop of OSTimeTick counts down the delay of the one task it has come to. */
  lemma TickOneIs(k: Kernel)
    requires Inv(k) && k.tick.At?
    ensures k.tick.t in k.tasks && k.tasks[k.tick.t].slot < PRIOS && k.list != []
    ensures var t, k' := k.tick.t, TickOne(k);
            && Others(k, k', t) && k'.tasks.Keys == k.tasks.Keys
            && k'.tasks[t] == k.tasks[t].(dly := Ticked(k.tasks[t]))
            && (IsReady(k', t) <==> IsReady(k, t) || (k.tasks[t].dly == 1 && !k.tasks[t].suspend))
            && k'.events == k.events && k'.list == k.list && k'.prioTbl == k.prioTbl && k'.cur == k.cur
  {
    hide Agrees, Set, Member, Distinct, TaskOk, NoStrangers;
    var t := k.tick.t;
    ChainOk(k);
    OwnPrio(k, t);
    OnlyIdle(k, t);
    SetAgrees(k.ready, k.tasks[t].prio);
  }

  lemma SuspendIs(k: Kernel, t: Id)
    requires Inv(k) && Legal(k, DoSuspend(t))
    ensures k.tasks[t].slot < PRIOS
    ensures var k' := Suspend(k, t);
            && Others(k, k', t) && k'.tasks == k.tasks[t := k.tasks[t].(suspend := true)] && !IsReady(k', t)
            && k'.events == k.events && Rest(k, k')
  {
    hide Agrees, Clear, Member, Distinct, TaskOk, NoStrangers, IdleOk;
    OwnPrio(k, t);
    ClearAgrees(k.ready, k.tasks[t].prio);
  }

  /** A resumed task is ready unless it still waits for an event or for time. */
  lemma ResumeIs(k: Kernel, t: Id)
    requires Inv(k) && t in k.tasks && k.tasks[t].suspend
    ensures k.tasks[t].slot < PRIOS
    ensures var k' := Resume(k, t);
            && Others(k, k', t) && k'.tasks == k.tasks[t := k.tasks[t].(suspend := false)] && k'.events == k.events
            && Rest(k, k')
            && (IsReady(k', t) <==> (k.tasks[t].event == Nothing || k.dying == Dying(t)) && k.tasks[t].dly == 0)
  {
    hide Agrees, Set, Member, Distinct, NoStrangers, IdleOk;
    OwnPrio(k, t);
    assert TaskOk(k, k.tasks[t], t);
    SetAgrees(k.ready, k.tasks[t].prio);
  }

  /** The running task waits for the event, and for no longer than the timeout. */
  lemma WaitIs(k: Kernel, e: nat, timeout: nat)
    requires Inv(k) && Legal(k, DoWait(e, timeout))
    ensures k.tasks[k.cur].slot < PRIOS
    ensures var k' := Wait(k, e, timeout);
            && Others(k, k', k.cur) && !IsReady(k', k.cur) && Rest(k, k')
            && k'.tasks[k.cur] == k.tasks[k.cur].(pend := true, dly := timeout, event := On(e))
            && TablesOk(k') && OtherEvents(k, k', e) && k'.tasks.Keys == k.tasks.Keys
            && (forall p: nat :: Member(k'.events[e], p) <==> Member(k.events[e], p) || p == k.tasks[k.cur].prio)
  {
    hide Agrees, Set, Clear, Member, Distinct, TaskOk, NoStrangers, IdleOk;
    OwnPrio(k, k.cur);
    WaitKeeps(k, e, timeout);
    ClearAgrees(k.ready, k.tasks[k.cur].prio);
    SetAgrees(k.events[e], k.tasks[k.cur].prio);
  }

  /** The event goes to the most urgent task that waits for it, whether its timeout has expired or not; it is ready
      unless it is suspended, and waits for nothing any more. */
  lemma PostIs(k: Kernel, e: nat)
    requires Inv(k) && Legal(k, DoPost(e))
    ensures Taken(k, Highest(k.events[e]))
    ensures var (k', p) := Post(k, e);
            var t := k.prioTbl[p].id;
            && t in k.tasks && k.tasks[t].prio == p && k.tasks[t].event == On(e)
            && (forall u :: u in k.tasks && k.tasks[u].event == On(e) && k.dying != Dying(u) ==> p <= k.tasks[u].prio)
            && Others(k, k', t) && k'.tasks.Keys == k.tasks.Keys
            && k'.tasks[t] == k.tasks[t].(dly := 0, event := Nothing, pend := false)
            && (IsReady(k', t) <==> !k.tasks[t].suspend)
            && Rest(k, k') && OtherEvents(k, k', e) && TablesOk(k')
            && (forall q: nat :: Member(k'.events[e], q) <==> Member(k.events[e], q) && q != p)
  {
    hide Agrees, Clear, Set, Member, Highest, Distinct, NoStrangers, IdleOk;
    HighestWaiter(k, e);
    HighestIs(k.events[e]);
    var t := k.prioTbl[Highest(k.events[e])].id;
    OwnPrio(k, t);
    SetAgrees(k.ready, k.tasks[t].prio);
    ClearAgrees(k.events[e], k.tasks[t].prio);
    forall u | u in k.tasks ensures TaskOk(k, k.tasks[u], u) {}
  }

  /** The timed-out task leaves the wait table it was still in, and goes on running. */
  lemma TimedOutIs(k: Kernel)
    requires Inv(k) && Legal(k, DoTimedOut)
    ensures k.tasks[k.cur].slot < PRIOS && k.tasks[k.cur].event.e in k.events
    ensures var k', e := TimedOut(k), k.tasks[k.cur].event.e;
            && Others(k, k', k.cur) && IsReady(k', k.cur) && k'.tasks.Keys == k.tasks.Keys
            && k'.tasks[k.cur] == k.tasks[k.cur].(pend := false, event := Nothing)
            && Rest(k, k') && OtherEvents(k, k', e) && Member(k.events[e], k.tasks[k.cur].prio)
            && TablesOk(k') && e in k'.events
            && (forall p: nat :: Member(k'.events[e], p) <==> Member(k.events[e], p) && p != k.tasks[k.cur].prio)
  {
    hide Agrees, Clear, Member, Distinct, NoStrangers, IdleOk;
    OwnPrio(k, k.cur);
    assert TaskOk(k, k.tasks[k.cur], k.cur);
    TimedOutKeeps(k);
    ClearAgrees(k.events[k.tasks[k.cur].event.e], k.tasks[k.cur].prio);
  }

  lemma DelayIs(k: Kernel, ticks: nat)
    requires Inv(k) && Legal(k, DoDelay(ticks)) && ticks > 0
    ensures k.tasks[k.cur].slot < PRIOS
    ensures var k' := Delay(k, ticks);
            && Others(k, k', k.cur) && !IsReady(k', k.cur)
               && k'.tasks == k.tasks[k.cur := k.tasks[k.cur].(dly := ticks)]
            && k'.events == k.events && Rest(k, k')
  {
    hide Agrees, Clear, Member, Distinct, TaskOk, NoStrangers, IdleOk;
    OwnPrio(k, k.cur);
    ClearAgrees(k.ready, k.tasks[k.cur].prio);
  }

  /** What the services leave alone altogether: resuming a task that is not suspended, a delay of no ticks, and
      scheduling inside an interrupt or a deletion. Scheduling changes nothing but the current task. */
  lemma NothingToDo(k: Kernel, t: Id)
    requires Inv(k) && t in k.tasks && k.cur in k.tasks
    ensures k.tasks[t].slot < PRIOS && k.tasks[k.cur].slot < PRIOS && Taken(k, Highest(k.ready))
    ensures Resume(k, t) == k <==> !k.tasks[t].suspend
    ensures Delay(k, 0) == k
    ensures Sched(k) == k.(cur := Sched(k).cur) && (!AtTask(k) ==> Sched(k) == k)
  {
    hide Agrees, Highest, Distinct, Set, Clear, TaskOk, NoStrangers, IdleOk;
    OwnPrio(k, t);
    OwnPrio(k, k.cur);
    SchedIs(k);
    if k.tasks[t].suspend { assert Resume(k, t).tasks[t] != k.tasks[t]; }
  }
}
