// The code of os_core.c, os_task.c and os_mutex.c over the global tables.
module UcosCode {
  import opened Bitmap
  import opened DoubleList
  import opened Lists
  import opened PrioTable
  import opened Ucos
  import opened UcosInterrupts
  import opened UcosLaws
  import M = UcosMutex

  class Tables {
    const prioTbl: array<Entry>       // OSTCBPrioTbl
    const rdyTbl: array<Word>         // OSRdyTbl
    var rdyGrp: Word                  // OSRdyGrp
    var tasks: map<Id, Tcb>
    var events: map<nat, Table>       // OSEventGrp and OSEventTbl of every event
    var first: int                    // OSTCBList
    var next: map<int, int>           // OSTCBNext
    var prev: map<int, int>           // OSTCBPrev
    var cur: Id                       // OSTCBCur
    var lockNesting: nat              // OSLockNesting
    var intNesting: nat               // OSIntNesting
    const idle: Id
    ghost var list: seq<Id>           // the tasks along the chain
    ghost var dying: Doomed           // what OSTaskDel has in its variables
    ghost var tick: Ticker            // what OSTimeTick has in its variables

    ghost function Ready(): Table
      reads this, rdyTbl
    {
      Table(rdyGrp, rdyTbl[..])
    }

    ghost function View(): Kernel
      reads this, prioTbl, rdyTbl
    {
      Kernel(tasks, prioTbl[..], Ready(), events, list, idle, cur, dying, tick)
    }

    /** The links of the chain in both directions, and the two counters that lock the scheduler. */
    ghost predicate Chained()
      reads this`first, this`next, this`prev, this`list, this`dying, this`tick, this`lockNesting, this`intNesting
    {
      && Linked(next, prev, first, list)
      && lockNesting == (if dying.Dying? then 1 else 0) && intNesting == (if tick.At? then 1 else 0)
    }

    /** OSInit, and OSTCBInit of the idle task. */
    constructor (idle: Id)
      ensures View() == Start(idle, map[]) && Inv(View()) && Chained() && fresh(prioTbl) && fresh(rdyTbl)
    {
      prioTbl := new Entry[PRIOS](p => if p == IDLE_PRIO then Of(idle) else Unused);
      rdyTbl := new Word[8](y => if y == 7 then Or(seq(8, x => false), Mask(8, 7)) else seq(8, x => false));
      rdyGrp := Or(seq(8, x => false), Mask(8, 7));
      tasks := map[idle := Tcb(IDLE_PRIO, IDLE_PRIO, 0, false, false, Nothing)];
      events, cur, lockNesting, intNesting := map[], idle, 0, 0;
      first, next, prev, list := idle, map[idle := NULL], map[idle := NULL], [idle];
      dying, tick := NoneDying, NoTick;
      this.idle := idle;
      new;
      InitInv(idle, map[]);
      assert prioTbl[..] == seq(PRIOS, p => if p == IDLE_PRIO then Of(idle) else Unused);
      assert rdyTbl[..] == Set(Empty(), IDLE_PRIO).rows;
    }

    // ----- The ready list

    method MakeReady(slot: nat)
      requires Shaped(Ready()) && slot < PRIOS
      modifies this`rdyGrp, rdyTbl
      ensures Ready() == Set(old(Ready()), slot)
    {
      var y, x := slot / 8, slot % 8;
      rdyGrp := Or(rdyGrp, Mask(8, y));
      rdyTbl[y] := Or(rdyTbl[y], Mask(8, x));
    }

    method MakeUnready(slot: nat)
      requires Shaped(Ready()) && slot < PRIOS
      modifies this`rdyGrp, rdyTbl
      ensures Ready() == Clear(old(Ready()), slot)
    {
      var y, x := slot / 8, slot % 8;
      rdyTbl[y] := AndNot(rdyTbl[y], Mask(8, x));
      if Zero(rdyTbl[y]) { rdyGrp := AndNot(rdyGrp, Mask(8, y)); }
    }

    /** OS_Sched. */
    method Schedule()
      requires Inv(View()) && Chained()
      modifies this`cur
      ensures Taken(old(View()), Highest(old(Ready()))) && View() == Sched(old(View())) && Inv(View())
    {
      hide Agrees, Distinct, Member, Value, Bitmap.Table, Linked;
      SchedIs(View());
      HighestIs(Ready());
      TableLowest(rdyGrp);
      if intNesting == 0 && lockNesting == 0 {
        var y := Bitmap.Table(Value(rdyGrp));
        var high := 8 * y + Bitmap.Table(Value(rdyTbl[y]));
        cur := prioTbl[high].id;
      }
    }

    // ----- Tasks

    /** First section of OSTaskCreate. */
    method ClaimPrio(prio: nat) returns (ok: bool)
      requires Inv(View()) && prio < PRIOS
      modifies prioTbl
      ensures ok == Legal(old(View()), DoClaim(prio)) && Inv(View())
      ensures View() == if ok then Claim(old(View()), prio) else old(View())
    {
      hide Agrees, Distinct, Member;
      ok := prioTbl[prio] == Unused;
      if ok {
        EntryKeeps(View(), prio, Claimed);
        prioTbl[prio] := Claimed;
      }
    }

    /** Last section of OSTaskCreate when OS_TCBInit found no TCB. */
    method UnclaimPrio(prio: nat)
      requires Inv(View()) && Legal(View(), DoUnclaim(prio))
      modifies prioTbl
      ensures View() == Unclaim(old(View()), prio) && Inv(View())
    {
      hide Agrees, Distinct, Member;
      EntryKeeps(View(), prio, Unused);
      prioTbl[prio] := Unused;
    }

    /** Second section of OS_TCBInit: the TCB goes to the head of the chain. */
    method CreateTask(t: Id, prio: nat)
      requires Inv(View()) && Chained() && Legal(View(), DoCreate(t, prio))
      modifies this`tasks, this`first, this`next, this`prev, this`list, this`rdyGrp, prioTbl, rdyTbl
      ensures View() == Create(old(View()), t, prio) && Inv(View()) && Chained()
    {
      hide Inv, Agrees, Member, Set, Distinct, Linked;
      TablesKnown(View());
      CreateKeeps(View(), t, prio);
      ChainDistinct(View());
      ChainOk(View());
      tasks := tasks[t := Tcb(prio, prio, 0, false, false, Nothing)];
      prioTbl[prio] := Of(t);
      LinkTask(t);
      MakeReady(prio);
    }

    method LinkTask(t: Id)
      requires Linked(next, prev, first, list) && Distinct(list) && t !in list
      modifies this`first, this`next, this`prev, this`list
      ensures Linked(next, prev, first, list) && list == [t] + old(list)
    {
      hide Linked, Distinct;
      LinkFirst(next, prev, first, list, t);
      HeadIs(next, prev, first, list);
      next := next[t := first];
      prev := prev[t := NULL];
      if first != NULL { prev := prev[first := t]; }
      first := t;
      list := [t] + list;
    }

    /** First section of OSTaskDel, which locks the scheduler. */
    method DeleteTaskBegin(t: Id)
      requires Inv(View()) && Chained() && Legal(View(), DoDeleteBegin(t))
      modifies this`tasks, this`events, this`dying, this`lockNesting, this`rdyGrp, rdyTbl
      ensures old(tasks)[t].slot < PRIOS
      ensures View() == DeleteBegin(old(View()), t) && Inv(View()) && Chained()
    {
      hide Inv, Agrees, Member, Distinct, Clear, Linked;
      TablesKnown(View());
      DeleteBeginKeeps(View(), t);
      EventKnown(View(), t);
      var c := tasks[t];
      MakeUnready(c.slot);
      if c.event.On? {
        events := events[c.event.e := Clear(events[c.event.e], c.slot)];
      }
      tasks := tasks[t := c.(dly := 0, suspend := false, pend := false)];
      lockNesting := lockNesting + 1;
      dying := Dying(t);
    }

    /** Second section of OSTaskDel: the TCB leaves the chain. */
    method DeleteTaskEnd(t: Id)
      requires Inv(View()) && Chained() && dying == Dying(t) && Legal(View(), DoDeleteEnd)
      modifies this`tasks, this`first, this`next, this`prev, this`list, this`dying, this`lockNesting, prioTbl
      ensures old(tasks)[t].prio < PRIOS
      ensures View() == DeleteEnd(old(View())) && Inv(View()) && Chained()
    {
      hide Inv, Agrees, Member, Distinct, Drop, Linked;
      TablesKnown(View());
      DeleteEndKeepsIff(View());
      DyingPlace(View());
      lockNesting := lockNesting - 1;
      prioTbl[tasks[t].prio] := Unused;
      UnlinkTask(t);
      tasks := tasks - {t};
      dying := NoneDying;
    }

    method UnlinkTask(t: Id)
      requires Linked(next, prev, first, list) && Distinct(list) && t in list && t != list[|list| - 1]
      modifies this`first, this`next, this`prev, this`list
      ensures Linked(next, prev, first, list) && list == Drop(old(list), t)
    {
      hide Linked, Find;
      ghost var k := Find(list, t);
      UnlinkAt(next, prev, first, list, k);
      NodeAt(next, prev, first, list, k);
      var n, p := next[t], prev[t];
      if p == NULL {
        prev := prev[n := NULL];
        first := n;
      } else {
        next := next[p := n];
        prev := prev[n := p];
      }
      list := list[..k] + list[k + 1..];
    }

    method SuspendTask(t: Id)
      requires Inv(View()) && Legal(View(), DoSuspend(t))
      modifies this`tasks, this`rdyGrp, rdyTbl
      ensures old(tasks)[t].slot < PRIOS && View() == Suspend(old(View()), t) && Inv(View())
    {
      hide Agrees, Distinct, Member, Clear;
      SuspendKeeps(View(), t);
      MakeUnready(tasks[t].slot);
      tasks := tasks[t := tasks[t].(suspend := true)];
    }

    method ResumeTask(t: Id)
      requires Inv(View()) && t in tasks
      modifies this`tasks, this`rdyGrp, rdyTbl
      ensures old(tasks)[t].slot < PRIOS && View() == Resume(old(View()), t) && Inv(View())
    {
      hide Agrees, Distinct, Member, Set;
      ResumeKeeps(View(), t);
      if tasks[t].suspend {
        tasks := tasks[t := tasks[t].(suspend := false)];
        if !tasks[t].pend && tasks[t].dly == 0 {
          MakeReady(tasks[t].slot);
        }
      }
    }

    // ----- Events

    /** OS_EventTaskWait, after the caller has set the status bit and the timeout. */
    method EventTaskWait(e: nat, timeout: nat)
      requires Inv(View()) && Legal(View(), DoWait(e, timeout))
      modifies this`tasks, this`events, this`rdyGrp, rdyTbl
      ensures old(tasks)[cur].slot < PRIOS && View() == Wait(old(View()), e, timeout) && Inv(View())
    {
      hide Agrees, Distinct, Member, Clear, Set;
      WaitKeeps(View(), e, timeout);
      var c := tasks[cur];
      tasks := tasks[cur := c.(pend := true, dly := timeout, event := On(e))];
      MakeUnready(c.slot);
      events := events[e := Set(events[e], c.slot)];
    }

    /** OS_EventTaskRdy. */
    method EventTaskRdy(e: nat) returns (prio: nat)
      requires Inv(View()) && Legal(View(), DoPost(e))
      modifies this`tasks, this`events, this`rdyGrp, rdyTbl
      ensures Taken(old(View()), Highest(old(events)[e]))
      ensures (View(), prio) == Post(old(View()), e) && Inv(View())
    {
      hide Agrees, Distinct, Member, Clear, Set, Value, Bitmap.Table, TaskOk, IdleOk, NoStrangers, Zero;
      PostKeeps(View(), e);
      HighestIs(events[e]);
      TableLowest(events[e].grp);
      var y := Bitmap.Table(Value(events[e].grp));
      prio := 8 * y + Bitmap.Table(Value(events[e].rows[y]));
      events := events[e := Clear(events[e], prio)];
      var t := prioTbl[prio].id;
      tasks := tasks[t := tasks[t].(dly := 0, event := Nothing, pend := false)];
      if !tasks[t].suspend { MakeReady(prio); }
    }

    /** OS_EventTO. */
    method EventTimeout()
      requires Inv(View()) && Legal(View(), DoTimedOut)
      modifies this`tasks, this`events
      ensures old(tasks)[cur].slot < PRIOS && old(tasks)[cur].event.e in old(events)
      ensures View() == TimedOut(old(View())) && Inv(View())
    {
      hide Agrees, Distinct, Member, Clear;
      TimedOutKeeps(View());
      var c := tasks[cur];
      events := events[c.event.e := Clear(events[c.event.e], c.slot)];
      tasks := tasks[cur := c.(suspend := false, pend := false, event := Nothing)];
    }

    // ----- Time

    /** OSTimeTick begins, in the interrupt of the clock. */
    method BeginTick() returns (ptcb: Id)
      requires Inv(View()) && Chained() && tick == NoTick
      modifies this`tick, this`intNesting
      ensures list != [] && View() == TickBegin(old(View())) && Inv(View()) && Chained() && tick == At(ptcb)
    {
      hide Inv, Linked, Ahead;
      TickBeginKeeps(View());
      HeadIs(next, prev, first, list);
      intNesting := intNesting + 1;
      ptcb := first;
      tick := At(ptcb);
    }

    /** One critical section of OSTimeTick, for a task other than the idle task. */
    method TickStep(ptcb: Id) returns (after: Id)
      requires Inv(View()) && Chained() && tick == At(ptcb) && ptcb in tasks && tasks[ptcb].prio != IDLE_PRIO
      modifies this`tasks, this`tick, this`rdyGrp, rdyTbl
      ensures old(tasks)[ptcb].slot < PRIOS && View().list != [] && Shaped(old(Ready()))
      ensures View() == TickOne(old(View())) && Inv(View()) && Chained() && tick == At(after)
      ensures |Ahead(View())| < |Ahead(old(View()))|
    {
      hide Inv, Linked, Set, Ahead, Next;
      ChainOk(View());
      TickOneKeeps(View());
      NextIs(View(), ptcb);
      after := next[ptcb];
      CountDown(ptcb);
      tick := At(after);
    }

    method CountDown(t: Id)
      requires Shaped(Ready()) && t in tasks && tasks[t].slot < PRIOS
      modifies this`tasks, this`rdyGrp, rdyTbl
      ensures View() == TickTask(old(View()), t)
    {
      hide Set;
      if tasks[t].dly != 0 {
        tasks := tasks[t := tasks[t].(dly := tasks[t].dly - 1)];
        if tasks[t].dly == 0 {
          if !tasks[t].suspend {
            MakeReady(tasks[t].slot);
          } else {
            tasks := tasks[t := tasks[t].(dly := 1)];
          }
        }
      }
    }

    /** What the chain says about the TCB behind t. */
    ghost method NextIs(k: Kernel, t: Id)
      requires Inv(k) && k == View() && Chained() && t in tasks && tasks[t].prio != IDLE_PRIO
      ensures t in next && list != [] && next[t] == Next(list, t)
    {
      hide Agrees, Member, Distinct, TaskOk, NoStrangers, Find, Linked;
      InList(k, t);
      OnlyIdle(k, t);
      assert list[|list| - 1] != t;
      NodeAt(next, prev, first, list, Find(list, t));
    }

    /** OSTimeTick ends, and OSIntExit counts the interrupt down. */
    method EndTick(ptcb: Id)
      requires Inv(View()) && Chained() && tick == At(ptcb) && ptcb in tasks && tasks[ptcb].prio == IDLE_PRIO
      modifies this`tick, this`intNesting
      ensures View().list != [] && Shaped(old(Ready())) && old(tasks)[ptcb].slot < PRIOS
      ensures View() == TickOne(old(View())) && Inv(View()) && Chained() && tick == NoTick
    {
      hide Inv, Linked, TickTask, Next;
      ChainOk(View());
      TickOneKeeps(View());
      intNesting := intNesting - 1;
      tick := NoTick;
    }

    /** OSTimeTick when no other interrupt comes in between: it ends, and every task is counted down. */
    method TimeTick()
      requires Inv(View()) && Chained() && tick == NoTick
      modifies this`tasks, this`tick, this`intNesting, this`rdyGrp, rdyTbl
      ensures Inv(View()) && Chained() && View() == Tick(old(View()))
    {
      hide Inv, Linked, TickOne, TickBegin, Ahead;
      ghost var done := Tick(View());
      var ptcb := BeginTick();
      ChainOk(View());
      TickOneKeeps(View());
      while tasks[ptcb].prio != IDLE_PRIO
        invariant Inv(View()) && Chained() && tick == At(ptcb) && ptcb in tasks
        invariant TickThrough(View()) == done && Inv(done)
        decreases |Ahead(View())|
      {
        ptcb := TickStep(ptcb);
        TickOneKeeps(View());
      }
      EndTick(ptcb);
    }

    // ----- Priority changes of the mutex

    /** Moves a task to another priority, in the ready list too when it is ready. */
    method ChangePrio(t: Id, prio: nat)
      requires TablesOk(View()) && t in tasks && tasks[t].slot < PRIOS && prio < PRIOS
      modifies this`tasks, this`rdyGrp, rdyTbl, prioTbl
      ensures View() == M.MovePrio(old(View()), t, prio)
    {
      hide Agrees, Set, Clear;
      var slot := tasks[t].slot;
      var rdy := rdyTbl[slot / 8][slot % 8];
      if rdy { MakeUnready(slot); }
      tasks := tasks[t := tasks[t].(prio := prio, slot := prio)];
      if rdy { MakeReady(prio); }
      prioTbl[prio] := Of(t);
    }
  }

  class MutexObject {
    const tables: Tables
    const event: nat
    const pip: nat
    var cnt: nat          // the low byte of OSEventCnt
    var owner: M.Owner    // OSEventPtr

    ghost function View(): M.System
      reads this, tables, tables.prioTbl, tables.rdyTbl
    {
      M.System(tables.View(), M.Mutex(event, pip, cnt, owner))
    }

    /** OSMutexCreate, once the PIP is known to be free. */
    constructor (tables: Tables, event: nat, pip: nat)
      requires Inv(tables.View()) && event !in tables.events && pip < IDLE_PRIO && tables.prioTbl[pip] == Unused
      modifies tables`events, tables.prioTbl
      ensures this.tables == tables
      ensures (View(), M.Ok) == M.Create(old(tables.View()), event, pip) && M.MutexInv(View())
    {
      this.tables, this.event, this.pip, cnt, owner := tables, event, pip, M.AVAILABLE, M.Nobody;
      new;
      M.CreateKeeps(tables.View(), event, pip);
      tables.prioTbl[pip] := Reserved;
      tables.events := tables.events[event := Empty()];
    }

    /** OSMutexAccept. */
    method Accept() returns (code: M.Code)
      requires M.MutexInv(View()) && M.Allowed(View(), M.DoAccept)
      modifies this
      ensures (View(), code) == M.Accept(old(View())) && M.MutexInv(View())
    {
      hide Inv, Member, M.Own;
      if cnt != M.AVAILABLE { return M.Unavailable; }
      M.OwnKeeps(View());
      OwnIs(View());
      cnt := tables.tasks[tables.cur].prio;
      owner := M.By(tables.cur);
      code := M.Ok;
    }

    /** OSMutexPend, up to the call of OS_Sched. */
    method Pend(timeout: nat) returns (code: M.Code)
      requires M.MutexInv(View()) && M.Allowed(View(), M.DoPend(timeout))
      modifies this, tables`tasks, tables`events, tables`rdyGrp, tables.prioTbl, tables.rdyTbl
      ensures (View(), code) == M.Pend(old(View()), timeout) && M.MutexInv(View())
      ensures code == M.Ok <==> old(owner) == M.Nobody
    {
      hide Agrees, Member, Distinct, Set, Clear, M.MovePrio, Wait;
      M.PendKeeps(View(), timeout);
      if cnt == M.AVAILABLE {
        cnt := tables.tasks[tables.cur].prio;
        owner := M.By(tables.cur);
        return M.Ok;
      }
      M.OwnerSlots(View());
      M.PromoteKeeps(View());
      var t := owner.t;
      if tables.tasks[t].prio != pip && cnt > tables.tasks[tables.cur].prio {
        tables.ChangePrio(t, pip);
      }
      tables.EventTaskWait(event, timeout);
      code := M.Blocked;
    }

    /** OSMutexPost, up to the call of OS_Sched. */
    method Post() returns (code: M.Code)
      requires M.MutexInv(View()) && Runs(tables.View())
      modifies this, tables`tasks, tables`events, tables`rdyGrp, tables.prioTbl, tables.rdyTbl
      ensures (View(), code) == M.Post(old(View())) && M.MutexInv(View())
      ensures code == M.Ok <==> old(owner) == M.By(old(tables.cur))
    {
      hide Agrees, Member, Distinct, Highest, M.Restore, Ucos.Post, M.HandOver;
      M.PostKeepsMutex(View());
      M.PostAcceptsIff(View());
      var prio := tables.tasks[tables.cur].prio;
      if prio != pip && prio != cnt { return M.NotOwner; }
      M.RestoreIs(View());
      M.HandOverDefined(M.Restore(View()));
      Restore();
      HandOver();
      code := M.Ok;
    }

    /** The owner gets its own priority back. */
    method Restore()
      requires TablesOk(tables.View()) && tables.cur in tables.tasks && tables.tasks[tables.cur].slot < PRIOS
      requires cnt < PRIOS && pip < PRIOS
      modifies tables`tasks, tables`rdyGrp, tables.prioTbl, tables.rdyTbl
      ensures View() == M.Restore(old(View()))
    {
      hide Agrees, Member, M.MovePrio;
      if tables.tasks[tables.cur].prio == pip { tables.ChangePrio(tables.cur, cnt); }
      tables.prioTbl[pip] := Reserved;
    }

    /** The most urgent waiting task gets the mutex, or it becomes available. */
    method HandOver()
      requires Inv(tables.View()) && event in tables.events
      requires !Zero(tables.events[event].grp) ==> Taken(tables.View(), Highest(tables.events[event]))
      modifies this, tables`tasks, tables`events, tables`rdyGrp, tables.rdyTbl
      ensures View() == M.HandOver(old(View()))
    {
      hide Agrees, Member, Distinct, Highest;
      if !Zero(tables.events[event].grp) {
        var p := tables.EventTaskRdy(event);
        cnt := p;
        owner := M.By(tables.prioTbl[p].id);
      } else {
        cnt, owner := M.AVAILABLE, M.Nobody;
      }
    }
  }

  /** A task is linked to an event that exists. */
  lemma EventKnown(k: Kernel, t: Id)
    requires Inv(k) && k.dying == NoneDying && t in k.tasks
    ensures k.tasks[t].slot < PRIOS && (k.tasks[t].event.On? ==> k.tasks[t].event.e in k.events)
  {
    hide Agrees, Member, Distinct, NoStrangers;
    assert TaskOk(k, k.tasks[t], t);
  }

  /** A dying task is in the chain, and not the last one. */
  lemma DyingPlace(k: Kernel)
    requires Inv(k) && k.dying.Dying?
    ensures k.dying.t in k.list && k.list[|k.list| - 1] != k.dying.t && Distinct(k.list)
  {
    hide Agrees, Member, TaskOk, NoStrangers, Distinct;
  }

  lemma OwnIs(y: M.System)
    requires y.k.cur in y.k.tasks
    ensures M.Own(y) == y.(m := y.m.(cnt := y.k.tasks[y.k.cur].prio, owner := M.By(y.k.cur)))
  {
  }
}
