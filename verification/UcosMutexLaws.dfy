// What each service of the uC/OS-II mutex does, branch by branch, and when its owner runs at the PIP.
module UcosMutexLaws {
  import opened Bitmap
  import opened Lists
  import opened PrioTable
  import opened Ucos
  import opened UcosLaws
  import opened UcosMutex

  /** The current task owns a mutex that was free; nothing else changes. */
  ghost predicate Acquired(y: System, y': System)
    requires y.k.cur in y.k.tasks
  {
    y' == System(y.k, Mutex(y.m.event, y.m.pip, y.k.tasks[y.k.cur].prio, By(y.k.cur)))
  }

  /** OSMutexCreate fails exactly when the PIP is taken or reserved, and then changes nothing; else it reserves the PIP
      and makes a free mutex that nobody waits for. */
  lemma CreateDoes(k: Kernel, e: nat, pip: nat)
    requires Inv(k) && pip < IDLE_PRIO && e !in k.events
    ensures var (y, code) := UcosMutex.Create(k, e, pip);
            && (code == Ok <==> k.prioTbl[pip] == Unused) && (code == PrioExist <==> k.prioTbl[pip] != Unused)
            && (code == PrioExist ==> y.k == k)
            && (code == Ok ==>
                  && y.m == Mutex(e, pip, AVAILABLE, Nobody) && (forall p: nat :: !Waits(y, p))
                  && y.k == k.(prioTbl := k.prioTbl[pip := Reserved], events := y.k.events)
                  && y.k.events.Keys == k.events.Keys + {e}
                  && forall f :: f in k.events ==> y.k.events[f] == k.events[f])
  {
    hide Agrees, Member, Distinct, TaskOk, NoStrangers, IdleOk;
    EmptyAgrees();
  }

  /** OSMutexAccept takes a free mutex, and changes nothing when somebody owns it. */
  lemma AcceptIs(y: System)
    requires MutexInv(y) && Allowed(y, DoAccept)
    ensures var (y', code) := Accept(y);
            match y.m.owner
            case Nobody => code == Ok && Acquired(y, y')
            case By(_) => code == Unavailable && y' == y
  {
    hide Inv, Member;
  }

  /** The owner of the mutex keeps its control block, its ready bit and its entry in the priority table. */
  ghost predicate OwnerStays(y: System, y': System, o: Id)
    requires Shaped(y.k.ready) && Shaped(y'.k.ready) && o in y.k.tasks
  {
    && o in y'.k.tasks && y'.k.tasks[o] == y.k.tasks[o]
    && (IsReady(y'.k, o) <==> IsReady(y.k, o))
    && y'.k.prioTbl == y.k.prioTbl
  }

  /** The owner runs at the PIP now, and is as ready as before. */
  ghost predicate OwnerRaised(y: System, y': System, o: Id)
    requires Shaped(y.k.ready) && Shaped(y'.k.ready) && o in y.k.tasks && y.m.pip < |y.k.prioTbl|
  {
    && o in y'.k.tasks && y'.k.tasks[o] == y.k.tasks[o].(prio := y.m.pip, slot := y.m.pip)
    && (IsReady(y'.k, o) <==> IsReady(y.k, o))
    && y'.k.prioTbl == y.k.prioTbl[y.m.pip := Of(o)]
  }

  /** OSMutexPend takes a free mutex.  While somebody owns it the caller waits, and the owner moves to the PIP exactly
      when the caller outranks the priority the owner had when it took the mutex; other tasks do not change. */
  lemma PendIs(y: System, timeout: nat)
    requires MutexInv(y) && Allowed(y, DoPend(timeout))
    ensures Shaped(y.k.ready) && Shaped(Pend(y, timeout).0.k.ready) && y.m.pip < |y.k.prioTbl|
    ensures var ((y', code), cur) := (Pend(y, timeout), y.k.cur);
            match y.m.owner
            case Nobody => code == Ok && Acquired(y, y')
            case By(o) =>
              && code == Blocked && y'.m == y.m && y'.k.cur == cur && o in y.k.tasks && o != cur
              && (if y.k.tasks[cur].prio < y.m.cnt then OwnerRaised(y, y', o) else OwnerStays(y, y', o))
              && cur in y'.k.tasks && !IsReady(y'.k, cur)
              && y'.k.tasks[cur] == y.k.tasks[cur].(pend := true, dly := timeout, event := On(y.m.event))
              && (forall u :: u in y.k.tasks && u != cur && u != o ==>
                    u in y'.k.tasks && y'.k.tasks[u] == y.k.tasks[u] && (IsReady(y'.k, u) <==> IsReady(y.k, u)))
              && (forall p: nat :: Waits(y', p) <==> Waits(y, p) || p == y.k.tasks[cur].prio)
  {
    hide Agrees, Set, Clear, Member, Distinct, Promote, NoStrangers, IdleOk, TaskOk, Wait;
    if y.m.owner.By? {
      PromoteIs(y);
      PromoteKeeps(y);
      WaitIs(Promote(y).k, y.m.event, timeout);
    }
  }

  lemma PromoteIs(y: System)
    requires MutexInv(y) && Runs(y.k) && y.m.owner.By? && y.k.cur != y.m.owner.t
    ensures y.m.owner.t in y.k.tasks && y.k.tasks[y.m.owner.t].slot < PRIOS
    ensures Shaped(Promote(y).k.ready)
    ensures var (y1, o) := (Promote(y), y.m.owner.t);
            && (if y.k.tasks[y.k.cur].prio < y.m.cnt then OwnerRaised(y, y1, o) else OwnerStays(y, y1, o))
            && forall u :: u in y.k.tasks && u != o ==>
                 u in y1.k.tasks && y1.k.tasks[u] == y.k.tasks[u] && (IsReady(y1.k, u) <==> IsReady(y.k, u))
  {
    hide Agrees, Distinct, Set, Clear, Member, NoStrangers, IdleOk;
    var o := y.m.owner.t;
    forall u | u in y.k.tasks ensures TaskOk(y.k, y.k.tasks[u], u) {}
    if y.k.tasks[o].prio != y.m.pip && y.m.cnt > y.k.tasks[y.k.cur].prio {
      MovePrioKeeps(y.k, o, y.m.pip);
      forall u | u in y.k.tasks && u != o ensures IsReady(Promote(y).k, u) <==> IsReady(y.k, u) {
        MovePrioOthers(y.k, o, y.m.pip, u);
      }
    }
  }

  /** OSMutexPost by a task that does not own the mutex is an error and changes nothing. The owner gets back the
      priority it had when it took the mutex, and the PIP entry is reserved again; then the most urgent task that waits
      owns the mutex, waits no longer, and is ready unless it is suspended; or the mutex is free. */
  lemma PostIs(y: System)
    requires MutexInv(y) && Runs(y.k)
    ensures y.m.owner == By(y.k.cur) ==> y.m.cnt < |y.k.prioTbl| && y.m.pip < |y.k.prioTbl|
    ensures var ((y', code), cur) := (UcosMutex.Post(y), y.k.cur);
            if y.m.owner != By(cur) then code == NotOwner && y' == y
            else
              var restored := y.k.tasks[cur := y.k.tasks[cur].(prio := y.m.cnt, slot := y.m.cnt)];
              && code == Ok && y'.k.prioTbl == y.k.prioTbl[y.m.cnt := Of(cur)][y.m.pip := Reserved] && y'.k.cur == cur
              && if forall p: nat :: !Waits(y, p) then
                   y'.m == Mutex(y.m.event, y.m.pip, AVAILABLE, Nobody) && y'.k.tasks == restored
                 else
                   exists t :: HandedTo(y, y', restored, t)
  {
    hide Agrees, Member, Distinct, Restore, HandOver, NoStrangers, IdleOk, TaskOk, Highest;
    PostAcceptsIff(y);
    if y.m.owner == By(y.k.cur) {
      RestoreIs(y);
      RestoreTasks(y);
      var y1 := Restore(y);
      assert forall p: nat :: Waits(y1, p) <==> Waits(y, p);
      HandOverIs(y1);
      if p: nat :| Waits(y, p) {
        var t :| HandedTo(y1, HandOver(y1), y1.k.tasks, t);
        assert HandedTo(y, UcosMutex.Post(y).0, y1.k.tasks, t);
      }
    }
  }

  /** Task t is the most urgent one that waits, and owns the mutex now. */
  ghost predicate HandedTo(y: System, y': System, tasks: map<Id, Tcb>, t: Id) {
    && t in tasks && y'.m == Mutex(y.m.event, y.m.pip, tasks[t].prio, By(t))
    && Waits(y, tasks[t].prio) && tasks[t].event == On(y.m.event)
    && (forall p: nat :: Waits(y, p) ==> tasks[t].prio <= p)
    && (forall p: nat :: Waits(y', p) <==> Waits(y, p) && p != tasks[t].prio)
    && y'.k.tasks == tasks[t := tasks[t].(dly := 0, event := Nothing, pend := false)]
    && Shaped(y'.k.ready) && (IsReady(y'.k, t) <==> !tasks[t].suspend)
  }

  lemma RestoreTasks(y: System)
    requires MutexInv(y) && Runs(y.k) && y.m.owner == By(y.k.cur)
    ensures y.k.tasks[y.k.cur].slot < PRIOS && y.m.cnt < PRIOS && y.m.cnt < |y.k.prioTbl| && y.m.pip < |y.k.prioTbl|
    ensures var (y1, cur) := (Restore(y), y.k.cur);
            && y1.k.tasks == y.k.tasks[cur := y.k.tasks[cur].(prio := y.m.cnt, slot := y.m.cnt)]
            && y1.k.prioTbl == y.k.prioTbl[y.m.cnt := Of(cur)][y.m.pip := Reserved]
  {
    hide Agrees, Member, Distinct, Set, Clear, NoStrangers, IdleOk;
    assert TaskOk(y.k, y.k.tasks[y.k.cur], y.k.cur);
    assert y.k.prioTbl[y.m.cnt := Of(y.k.cur)] == y.k.prioTbl;
  }

  lemma HandOverIs(y: System)
    requires Inv(y.k) && y.k.dying == NoneDying && y.m.event in y.k.events
    ensures !Zero(y.k.events[y.m.event].grp) ==> Taken(y.k, Highest(y.k.events[y.m.event]))
    ensures var y' := HandOver(y);
            && y'.k.prioTbl == y.k.prioTbl && y'.k.cur == y.k.cur
            && if forall p: nat :: !Waits(y, p) then
                 y' == y.(m := Mutex(y.m.event, y.m.pip, AVAILABLE, Nobody))
               else exists t :: HandedTo(y, y', y.k.tasks, t)
  {
    hide Agrees, Member, Distinct, Highest, NoStrangers, IdleOk, TaskOk, Set, Clear;
    HandOverDefined(y);
    HighestIs(y.k.events[y.m.event]);
    if !Zero(y.k.events[y.m.event].grp) {
      assert Waits(y, Highest(y.k.events[y.m.event]));
      UcosLaws.PostIs(y.k, y.m.event);
      var t := y.k.prioTbl[Highest(y.k.events[y.m.event])].id;
      assert HandedTo(y, HandOver(y), y.k.tasks, t);
    }
  }

  // ----- When the owner runs at the PIP

  /** Whether some task that outranks the owner's own priority has pended since the owner took the mutex; before the
      call the answer was raised. */
  predicate RaisedBy(y: System, call: Call, raised: bool) {
    match call
    case Kernelly(_) => raised
    case DoAccept => raised && y.m.owner.By?
    case DoPend(_) => y.m.owner.By? && (raised || (y.k.cur in y.k.tasks && y.k.tasks[y.k.cur].prio < y.m.cnt))
    case DoMutexPost => raised && y.m.owner != By(y.k.cur)
  }

  ghost predicate RaisedIn(y: System, calls: seq<Call>, raised: bool)
    requires MutexInv(y) && AllowedRun(y, calls)
    decreases |calls|
  {
    if calls == [] then raised
    else (DoKeeps(y, calls[0]); RaisedIn(Do(y, calls[0]), calls[1..], RaisedBy(y, calls[0], raised)))
  }

  /** The owner runs at the PIP exactly when it was raised, and at its own priority otherwise. */
  ghost predicate AtPip(y: System, raised: bool) {
    y.m.owner.By? ==>
      && y.m.owner.t in y.k.tasks
      && y.k.tasks[y.m.owner.t].prio == if raised then y.m.pip else y.m.cnt
  }

  lemma DoRaises(y: System, call: Call, raised: bool)
    requires MutexInv(y) && Allowed(y, call) && AtPip(y, raised)
    ensures AtPip(Do(y, call), RaisedBy(y, call, raised))
  {
    hide Inv, Member, Accept, Pend, UcosMutex.Post, Waits, Step;
    match call
    case Kernelly(op) => StepFrame(y, op);
    case DoAccept => AcceptIs(y);
    case DoPend(timeout) => PendIs(y, timeout);
    case DoMutexPost => PostIs(y); DoKeeps(y, call);
  }

  /** Over every run: the owner of the mutex runs at the PIP exactly when a task that outranks its own priority has
      pended since it took the mutex. */
  lemma {:induction false} RaisedRun(y: System, calls: seq<Call>, raised: bool)
    requires MutexInv(y) && AllowedRun(y, calls) && AtPip(y, raised)
    ensures AtPip(RunCalls(y, calls), RaisedIn(y, calls, raised))
    decreases |calls|
  {
    hide MutexInv, Allowed, Do, AtPip, RaisedBy;
    if calls != [] {
      DoKeeps(y, calls[0]);
      DoRaises(y, calls[0], raised);
      RaisedRun(Do(y, calls[0]), calls[1..], RaisedBy(y, calls[0], raised));
    }
  }
}
