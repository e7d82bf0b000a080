// The mutex of thread_pool/rt-thread/src/ipc.c: one mutex over the scheduler, with
// priority inheritance.
module Mutex {
  import opened Bitmap
  import opened Ipc
  import opened Lists
  import opened Scheduler

  datatype Owner = Nobody | By(t: Tid)

  /** The priority recorded while nobody owns the mutex. */
  const NO_PRIORITY := 0xff

  datatype Lock = Lock(flag: Flag, value: nat, owner: Owner, original: nat, hold: nat, waiting: seq<Waiter>)

  /** base is what every thread's priority is without inheritance; nothing but the mutex changes a priority. */
  datatype System = System(s: Sched, m: Lock, base: map<Tid, nat>)

  predicate Owns(y: System, t: Tid) { y.m.owner == By(t) }

  function Prio(y: System, t: Tid): nat
    requires t in y.s.threads
  {
    y.s.threads[t].prio
  }

  // ----- The invariant

  /** Every thread but the owner runs at its base priority; the owner at its own or a more urgent one. */
  ghost predicate Priorities(y: System) {
    && y.s.threads.Keys == y.base.Keys
    && forall t :: t in y.s.threads ==>
         y.base[t] < MAX && if Owns(y, t) then Prio(y, t) <= y.base[t] else Prio(y, t) == y.base[t]
  }

  /** The fields of the mutex agree on whether it is owned. */
  ghost predicate Fields(y: System) {
    match y.m.owner
    case Nobody => y.m.value == 1 && y.m.hold == 0 && y.m.original == NO_PRIORITY && y.m.waiting == []
    case By(o) => y.m.value == 0 && y.m.hold > 0 && o in y.base && y.m.original == y.base[o]
  }

  /** The suspend list holds suspended threads other than the owner, at their base priority. */
  ghost predicate Waiters(y: System) {
    && Consistent(Side(y.m.waiting, {}))
    && (forall i :: 0 <= i < |y.m.waiting| ==>
          var w := y.m.waiting[i];
          w.id in y.s.threads && w.id in y.base && y.s.threads[w.id].stat.Suspended?
          && w.prio == y.base[w.id] && !Owns(y, w.id))
    && (y.m.flag.Prio? ==> Sorted(y.m.waiting))
  }

  /** What the operations need to be defined. */
  ghost predicate MutexShaped(y: System) {
    && Shaped(y.s) && y.s.current in y.s.threads
    && (y.m.owner.By? ==> y.m.owner.t in y.s.threads && y.m.original < MAX)
    && (y.m.value > 0 <==> y.m.owner.Nobody?)
    && (forall i :: 0 <= i < |y.m.waiting| ==> y.m.waiting[i].id in y.s.threads)
  }

  ghost predicate Inv(y: System) {
    MutexShaped(y) && Valid(y.s) && Priorities(y) && Fields(y) && Waiters(y)
  }

  /** The owner is at least as urgent as every waiter. */
  ghost predicate NoInversion(y: System) {
    y.m.owner.By? ==>
      y.m.owner.t in y.s.threads
      && forall i :: 0 <= i < |y.m.waiting| ==> Prio(y, y.m.owner.t) <= y.m.waiting[i].prio
  }

  // ----- rt_mutex_take and rt_mutex_release

  datatype Code = Ok | Error | TimedOut | Blocked

  predicate Running(y: System, t: Tid) {
    y.s.current == t && t in y.s.threads && y.s.threads[t].stat.Ready?
  }

  /** The current thread asks for the mutex, up to the call of rt_schedule when it has to wait. */
  function Take(y: System, wait: bool): (System, Code)
    requires MutexShaped(y)
  {
    var t := y.s.current;
    if Owns(y, t) then (y.(m := y.m.(hold := y.m.hold + 1)), Ok)
    else if y.m.value > 0 then
      (y.(m := y.m.(value := y.m.value - 1, owner := By(t), original := Prio(y, t), hold := y.m.hold + 1)), Ok)
    else if !wait then (y, TimedOut)
    else (WaitFor(Inherit(y, t), t), Blocked)
  }

  /** The owner becomes as urgent as t. */
  function Inherit(y: System, t: Tid): (y': System)
    requires MutexShaped(y) && t in y.s.threads && y.m.owner.By?
    ensures Shaped(y'.s) && t in y'.s.threads
  {
    var o := y.m.owner.t;
    if Prio(y, t) < Prio(y, o) then y.(s := ChangePriority(y.s, o, Prio(y, t))) else y
  }

  /** rt_ipc_list_suspend. */
  function WaitFor(y: System, t: Tid): System
    requires Shaped(y.s) && t in y.s.threads
  {
    y.(s := Suspend(y.s, t), m := y.m.(waiting := Enqueue(y.m.waiting, Waiter(t, Prio(y, t)), y.m.flag)))
  }

  /** The current thread gives the mutex back, up to the call of rt_schedule. */
  function Release(y: System): (System, Code)
    requires MutexShaped(y)
  {
    var t := y.s.current;
    if !Owns(y, t) then (y, Error)
    else if y.m.hold > 1 then (y.(m := y.m.(hold := y.m.hold - 1)), Ok)
    else (HandOver(Restore(y)), Ok)
  }

  /** The owner gets back the priority it had when it took the mutex. */
  function Restore(y: System): (y': System)
    requires MutexShaped(y) && y.m.owner.By?
    ensures MutexShaped(y') && y'.m == y.m
  {
    var o := y.m.owner.t;
    if y.m.original != Prio(y, o) then y.(s := ChangePriority(y.s, o, y.m.original)) else y
  }

  /** The first waiter becomes the owner, or the mutex becomes free. */
  function HandOver(y: System): System
    requires MutexShaped(y) && y.m.owner.By?
  {
    if y.m.waiting == [] then
      y.(m := y.m.(value := y.m.value + 1, owner := Nobody, original := NO_PRIORITY, hold := 0))
    else
      var w := y.m.waiting[0].id;
      y.(s := Resume(y.s, w), m := y.m.(owner := By(w), original := Prio(y, w), hold := 1, waiting := y.m.waiting[1..]))
  }

  // ----- The other steps

  /** rt_thread_timeout of a waiting thread. */
  function TimeOut(y: System, t: Tid): System
    requires MutexShaped(y) && t in y.s.threads
  {
    y.(s := Resume(y.s, t), m := y.m.(waiting := Without(y.m.waiting, t)))
  }

  /** A thread goes to sleep, or is woken, for a reason that has nothing to do with the mutex. */
  function Sleep(y: System, t: Tid): System
    requires MutexShaped(y) && t in y.s.threads
  {
    y.(s := Suspend(y.s, t))
  }

  function Wake(y: System, t: Tid): System
    requires MutexShaped(y) && t in y.s.threads
  {
    y.(s := Resume(y.s, t))
  }

  // ----- The start of the kernel, and new threads

  const IDLE_PRIORITY := 31   // RT_THREAD_PRIORITY_MAX - 1

  /** The idle thread runs, and the mutex has been initialised. */
  function Boot(flag: Flag, idle: Tid): System {
    System(Sched(map[idle := Thread(IDLE_PRIORITY, Mask(MAX, IDLE_PRIORITY), Ready)],
                 seq(MAX, p => if p == IDLE_PRIORITY then [idle] else []), Mask(MAX, IDLE_PRIORITY), idle, 0),
           Lock(flag, 1, Nobody, NO_PRIORITY, 0, []), map[idle := IDLE_PRIORITY])
  }

  lemma InitInv(flag: Flag, idle: Tid)
    ensures Inv(Boot(flag, idle)) && NoInversion(Boot(flag, idle)) && Running(Boot(flag, idle), idle)
  {
    var s := Boot(flag, idle).s;
    assert forall p :: 0 <= p < MAX ==> s.lists[p] == if p == IDLE_PRIORITY then [idle] else [];
  }

  /** rt_thread_init and rt_thread_startup of a new thread, up to the call of rt_schedule. */
  function Spawn(y: System, t: Tid, prio: nat): System
    requires MutexShaped(y) && prio < MAX
  {
    var s1 := y.s.(threads := y.s.threads[t := Thread(prio, Mask(MAX, prio), Suspended)]);
    y.(s := Resume(s1, t), base := y.base[t := prio])
  }

  lemma SpawnKeeps(y: System, t: Tid, prio: nat)
    requires Inv(y) && t !in y.s.threads && prio < MAX
    ensures Inv(Spawn(y, t, prio))
    ensures NoInversion(y) ==> NoInversion(Spawn(y, t, prio))
    ensures Spawn(y, t, prio).s.threads == y.s.threads[t := Thread(prio, Mask(MAX, prio), Ready)]
    ensures Spawn(y, t, prio).s.current == y.s.current && Spawn(y, t, prio).s.lockNest == y.s.lockNest
    ensures Spawn(y, t, prio).m == y.m
  {
    hide Sorted, Consistent, Resume, Valid;
    var s1 := y.s.(threads := y.s.threads[t := Thread(prio, Mask(MAX, prio), Suspended)]);
    NewThread(y.s, t, prio);
    ResumeIs(s1, t);
  }

  lemma NewThread(s: Sched, t: Tid, prio: nat)
    requires Valid(s) && t !in s.threads && prio < MAX
    ensures Valid(s.(threads := s.threads[t := Thread(prio, Mask(MAX, prio), Suspended)]))
  {
    hide Distinct;
  }

  datatype Op =
    | DoTake(wait: bool) | DoRelease | DoTimeOut(t: Tid) | DoSleep(t: Tid) | DoWake(t: Tid) | DoSchedule | DoYield
    | DoSpawn(t: Tid, prio: nat)

  predicate Legal(y: System, op: Op) {
    match op
    case DoTake(_) => Running(y, y.s.current)
    case DoRelease => Running(y, y.s.current)
    case DoTimeOut(t) => Waits(y.m.waiting, t)
    case DoSleep(t) => t in y.s.threads && y.s.threads[t].stat.Ready?
    case DoWake(t) => t in y.s.threads && y.s.threads[t].stat.Suspended? && !Waits(y.m.waiting, t)
    case DoSchedule => !Zero(y.s.group)
    case DoYield => Running(y, y.s.current)
    case DoSpawn(t, prio) => t !in y.s.threads && prio < MAX
  }

  function Step(y: System, op: Op): System
    requires Inv(y) && Legal(y, op)
  {
    match op
    case DoTake(wait) => Take(y, wait).0
    case DoRelease => Release(y).0
    case DoTimeOut(t) => TimeOut(y, t)
    case DoSleep(t) => Sleep(y, t)
    case DoWake(t) => Wake(y, t)
    case DoSchedule => y.(s := Schedule(y.s))
    case DoYield => y.(s := Yield(y.s))
    case DoSpawn(t, prio) => Spawn(y, t, prio)
  }

  // ----- Each piece keeps the invariant

  lemma InheritIs(y: System, t: Tid)
    requires Inv(y) && t in y.s.threads && y.m.owner.By? && !Owns(y, t)
    ensures var y' := Inherit(y, t);
            && Inv(y') && y'.m == y.m && y'.base == y.base && y'.s.current == y.s.current
            && (forall u :: u in y.s.threads && !Owns(y, u) ==> u in y'.s.threads && y'.s.threads[u] == y.s.threads[u])
            && Prio(y', y.m.owner.t) <= Prio(y, t) && Prio(y', y.m.owner.t) <= Prio(y, y.m.owner.t)
            && (Prio(y', y.m.owner.t) == Prio(y, t) || Prio(y', y.m.owner.t) == Prio(y, y.m.owner.t))
  {
    hide ValidBut, ChangePriority, Consistent, Sorted;
    var o := y.m.owner.t;
    if Prio(y, t) < Prio(y, o) { ChangePriorityIs(y.s, o, Prio(y, t)); }
  }

  /** What a newcomer does to the suspend list. */
  lemma EnqueueWaiters(ws: seq<Waiter>, w: Waiter, flag: Flag)
    requires Consistent(Side(ws, {})) && !Waits(ws, w.id) && (flag.Prio? ==> Sorted(ws))
    ensures var r := Enqueue(ws, w, flag);
            && Consistent(Side(r, {})) && (flag.Prio? ==> Sorted(r))
            && forall i :: 0 <= i < |r| ==> r[i] == w || r[i] in ws
  {
    hide InsertAt, Position, Waits, Consistent, Sorted;
    BlockConsistent(Side(ws, {}), w, flag);
    assert {} - {w.id} == {};
    if flag.Prio? { EnqueueSorts(ws, w); }
    var k := if flag.Fifo? then |ws| else Position(ws, w.prio);
    var r := InsertAt(ws, k, w);
    forall i | 0 <= i < |r| ensures r[i] == w || r[i] in ws {
      if i < k { assert r[i] == ws[i]; } else if k < i { assert r[i] == ws[i - 1]; }
    }
  }

  lemma WaitForKeeps(y: System, t: Tid)
    requires Inv(y) && Running(y, t) && y.m.owner.By? && !Owns(y, t)
    ensures Inv(WaitFor(y, t))
    ensures NoInversion(y) && Prio(y, y.m.owner.t) <= Prio(y, t) ==> NoInversion(WaitFor(y, t))
  {
    hide ValidBut, Consistent, Sorted, Suspend, Enqueue;
    SuspendIs(y.s, t);
    if Waits(y.m.waiting, t) { assert false; }
    EnqueueWaiters(y.m.waiting, Waiter(t, Prio(y, t)), y.m.flag);
  }

  lemma RestoreIs(y: System)
    requires Inv(y) && y.m.owner.By?
    ensures var y' := Restore(y);
            && Inv(y') && y'.m == y.m && y'.base == y.base && y'.s.current == y.s.current
            && y'.s.lockNest == y.s.lockNest
            && y'.s.threads == y.s.threads[y.m.owner.t :=
                 y.s.threads[y.m.owner.t].(prio := y.base[y.m.owner.t], mask := Mask(MAX, y.base[y.m.owner.t]))]
  {
    hide ValidBut, ChangePriority, Consistent, Sorted;
    ChangePriorityIs(y.s, y.m.owner.t, y.m.original);
    if y.m.original == Prio(y, y.m.owner.t) { MaskIs(y.s, y.m.owner.t); }
  }

  lemma MaskIs(s: Sched, t: Tid)
    requires Valid(s) && t in s.threads
    ensures s.threads[t].prio < MAX && s.threads[t].mask == Mask(MAX, s.threads[t].prio)
  {
  }

  lemma TakeMutexKeeps(y: System, wait: bool)
    requires Inv(y) && Running(y, y.s.current)
    ensures Inv(Take(y, wait).0)
    ensures NoInversion(y) ==> NoInversion(Take(y, wait).0)
  {
    hide ValidBut, Consistent, Sorted, Inherit, WaitFor;
    var t := y.s.current;
    if y.m.owner.By? && !Owns(y, t) && wait {
      InheritIs(y, t);
      WaitForKeeps(Inherit(y, t), t);
      if NoInversion(y) { assert NoInversion(Inherit(y, t)); }
    }
  }

  /** The first waiter leaves the list, runs, and owns the mutex. */
  lemma HandOverKeeps(y: System)
    requires Inv(y) && y.m.owner.By? && Prio(y, y.m.owner.t) == y.base[y.m.owner.t]
    ensures Inv(HandOver(y))
    ensures NoInversion(HandOver(y)) <==>
              forall i :: 0 < i < |y.m.waiting| ==> y.m.waiting[0].prio <= y.m.waiting[i].prio
  {
    hide ValidBut, Sorted, Resume;
    if y.m.waiting != [] {
      ResumeIs(y.s, y.m.waiting[0].id);
      SortedTail(y.m.waiting);
      var y' := HandOver(y);
      assert forall i :: 0 <= i < |y'.m.waiting| ==> y'.m.waiting[i] == y.m.waiting[i + 1];
      assert Prio(y', y.m.waiting[0].id) == y.m.waiting[0].prio;
      if NoInversion(y') {
        forall i | 0 < i < |y.m.waiting| ensures y.m.waiting[0].prio <= y.m.waiting[i].prio {
          assert y.m.waiting[i] == y'.m.waiting[i - 1];
        }
      }
    }
  }

  lemma SortedTail(ws: seq<Waiter>)
    requires ws != []
    ensures Sorted(ws) ==> Sorted(ws[1..]) && forall i :: 0 < i < |ws| ==> ws[0].prio <= ws[i].prio
  {
  }

  lemma TimeOutKeeps(y: System, t: Tid)
    requires Inv(y) && Waits(y.m.waiting, t)
    ensures t in y.s.threads && Inv(TimeOut(y, t))
    ensures NoInversion(y) ==> NoInversion(TimeOut(y, t))
  {
    hide ValidBut, Sorted, Resume;
    ResumeIs(y.s, t);
    WithoutIds(y.m.waiting, t);
    if y.m.flag.Prio? { WithoutSorted(y.m.waiting, t); }
  }

  lemma SleepKeeps(y: System, t: Tid)
    requires Inv(y) && Legal(y, DoSleep(t))
    ensures Inv(Sleep(y, t))
    ensures NoInversion(y) ==> NoInversion(Sleep(y, t))
  {
    hide ValidBut, Sorted, Consistent, Suspend;
    SuspendIs(y.s, t);
  }

  lemma WakeKeeps(y: System, t: Tid)
    requires Inv(y) && Legal(y, DoWake(t))
    ensures Inv(Wake(y, t))
    ensures NoInversion(y) ==> NoInversion(Wake(y, t))
  {
    hide ValidBut, Sorted, Consistent, Resume;
    ResumeIs(y.s, t);
  }

  lemma SwitchKeeps(y: System, op: Op)
    requires Inv(y) && Legal(y, op) && (op.DoSchedule? || op.DoYield?)
    ensures Inv(Step(y, op))
    ensures NoInversion(y) ==> NoInversion(Step(y, op))
  {
    hide ValidBut, Sorted, Consistent, Schedule, Yield;
    if op.DoYield? { YieldIs(y.s); } else { SwitchIs(y.s); }
  }

  lemma YieldIs(s: Sched)
    requires Valid(s) && Shaped(s) && s.current in s.threads
    ensures var s' := Yield(s);
            Valid(s') && Shaped(s') && s'.threads == s.threads && s'.current == s.current
  {
    hide Distinct, Drop;
    YieldOk(s);
  }

  lemma SwitchIs(s: Sched)
    requires Valid(s) && Shaped(s) && s.current in s.threads && !Zero(s.group)
    ensures var s' := Schedule(s);
            Valid(s') && Shaped(s') && s'.threads == s.threads && s'.current in s.threads
  {
    hide Distinct;
    if s.lockNest == 0 { ScheduleIs(s); }
  }

  lemma ReleaseKeeps(y: System)
    requires Inv(y) && Running(y, y.s.current)
    ensures Inv(Release(y).0)
    ensures NoInversion(y) && y.m.flag.Prio? ==> NoInversion(Release(y).0)
  {
    hide ValidBut, Sorted, Consistent, Restore, HandOver;
    if Owns(y, y.s.current) {
      RestoreIs(y);
      HandOverKeeps(Restore(y));
      if y.m.flag.Prio? && y.m.waiting != [] { SortedTail(y.m.waiting); }
    }
  }

  /** No thread gets another base priority. */
  ghost predicate Extends(base: map<Tid, nat>, base': map<Tid, nat>) {
    forall t :: t in base ==> t in base' && base'[t] == base[t]
  }

  lemma StepFrame(y: System, op: Op)
    requires Inv(y) && Legal(y, op)
    ensures Step(y, op).m.flag == y.m.flag && Extends(y.base, Step(y, op).base)
  {
    hide Valid, Consistent, Sorted, Enqueue, Without, ChangePriority, Suspend, Resume, Schedule, Yield;
  }

  /** Every step keeps the invariant; with the priority flag every step keeps the absence of inversion. */
  lemma StepKeeps(y: System, op: Op)
    requires Inv(y) && Legal(y, op)
    ensures Inv(Step(y, op))
    ensures NoInversion(y) && y.m.flag.Prio? ==> NoInversion(Step(y, op))
    ensures Step(y, op).m.flag == y.m.flag && Extends(y.base, Step(y, op).base)
  {
    hide Inv, NoInversion, Take, Release, TimeOut, Sleep, Wake, Spawn, Extends;
    StepFrame(y, op);
    match op
    case DoTake(wait) => TakeMutexKeeps(y, wait);
    case DoRelease => ReleaseKeeps(y);
    case DoTimeOut(t) => TimeOutKeeps(y, t);
    case DoSleep(t) => SleepKeeps(y, t);
    case DoWake(t) => WakeKeeps(y, t);
    case DoSchedule => SwitchKeeps(y, op);
    case DoYield => SwitchKeeps(y, op);
    case DoSpawn(t, prio) => SpawnKeeps(y, t, prio);
  }

  // ----- Whole runs

  predicate LegalRun(y: System, ops: seq<Op>)
    requires Inv(y)
    decreases |ops|
  {
    ops != [] ==> Legal(y, ops[0]) && (StepKeeps(y, ops[0]); LegalRun(Step(y, ops[0]), ops[1..]))
  }

  function Run(y: System, ops: seq<Op>): (y': System)
    requires Inv(y) && LegalRun(y, ops)
    ensures Inv(y') && Extends(y.base, y'.base)
    decreases |ops|
  {
    if ops == [] then y else (StepKeeps(y, ops[0]); Run(Step(y, ops[0]), ops[1..]))
  }

  lemma {:induction false} RunKeepsNoInversion(y: System, ops: seq<Op>)
    requires Inv(y) && LegalRun(y, ops) && NoInversion(y) && y.m.flag.Prio?
    ensures NoInversion(Run(y, ops))
    decreases |ops|
  {
    hide Inv, Step, Legal, NoInversion;
    if ops != [] {
      StepKeeps(y, ops[0]);
      RunKeepsNoInversion(Step(y, ops[0]), ops[1..]);
    }
  }

  /** No priority inversion: after any run, while the owner is ready, rt_schedule never runs a thread that is
      less urgent than some thread waiting for the mutex. */
  lemma NoInversionScheduled(y: System, ops: seq<Op>)
    requires Inv(y) && LegalRun(y, ops) && NoInversion(y) && y.m.flag.Prio?
    ensures var y' := Run(y, ops);
            y'.m.owner.By? && y'.s.threads[y'.m.owner.t].stat.Ready? && y'.s.lockNest == 0 ==>
              && !Zero(y'.s.group)
              && var c := Schedule(y'.s).current;
                 c in y'.s.threads && forall w :: w in y'.m.waiting ==> Prio(y', c) <= w.prio
  {
    hide Distinct, Run, Schedule;
    RunKeepsNoInversion(y, ops);
    var y' := Run(y, ops);
    if y'.m.owner.By? && y'.s.threads[y'.m.owner.t].stat.Ready? && y'.s.lockNest == 0 {
      GroupZeroIff(y'.s);
      ScheduleIs(y'.s);
    }
  }

  /** Mutual exclusion: a take succeeds exactly when nobody else owns the mutex; inside, takes and releases nest. */
  lemma TakeOkIff(y: System, wait: bool)
    requires Inv(y) && Running(y, y.s.current)
    ensures Take(y, wait).1 == Ok <==> y.m.owner == Nobody || Owns(y, y.s.current)
    ensures Take(y, wait).1 == Ok ==> Owns(Take(y, wait).0, y.s.current)
    ensures Owns(y, y.s.current) ==> MutexShaped(Take(y, wait).0) && Release(Take(y, wait).0) == (y, Ok)
  {
    hide ValidBut, Sorted, Consistent, Inherit, WaitFor, HandOver, Restore;
  }

  /** The outermost release gives a thread back the priority it ran at before it took the mutex, whatever
      happened in between. */
  lemma ReleaseRestores(y: System, wait: bool, ops: seq<Op>)
    requires Inv(y) && Running(y, y.s.current) && !Owns(y, y.s.current) && Take(y, wait).1 == Ok
    requires Inv(Take(y, wait).0) && LegalRun(Take(y, wait).0, ops)
    requires var y' := Run(Take(y, wait).0, ops);
             Running(y', y.s.current) && Owns(y', y.s.current) && y'.m.hold == 1
    ensures var t, y'' := y.s.current, Release(Run(Take(y, wait).0, ops)).0;
            t in y''.s.threads && Prio(y'', t) == Prio(y, t)
  {
    hide Valid, Consistent, Sorted, LegalRun, Run, Restore, Resume;
    var t, y' := y.s.current, Run(Take(y, wait).0, ops);
    RestoreIs(y');
    if y'.m.waiting != [] { ResumeIs(y'.s, y'.m.waiting[0].id); ResumeIs(Restore(y').s, y'.m.waiting[0].id); }
  }

  /** Thread 0 owns the mutex and runs at the priority of thread 2, which queues behind thread 1. */
  function Example(): System {
    var threads := map[0 := Thread(1, Mask(MAX, 1), Ready), 1 := Thread(10, Mask(MAX, 10), Suspended),
                       2 := Thread(1, Mask(MAX, 1), Suspended)];
    System(Sched(threads, seq(MAX, p => if p == 1 then [0] else []), Mask(MAX, 1), 0, 0),
           Lock(Fifo, 0, By(0), 20, 1, [Waiter(1, 10), Waiter(2, 1)]),
           map[0 := 20, 1 := 10, 2 := 1])
  }

  lemma ExampleValid()
    ensures Valid(Example().s) && MutexShaped(Example())
  {
    var s := Example().s;
    assert forall p :: 0 <= p < MAX ==> s.lists[p] == if p == 1 then [0] else [];
  }

  /** With the FIFO flag a release can hand the mutex to a thread that is less urgent than one still waiting. */
  lemma FifoInversionExample()
    ensures Inv(Example()) && NoInversion(Example()) && Running(Example(), 0)
    ensures !NoInversion(Release(Example()).0)
  {
    hide Valid, Release;
    ExampleValid();
    var y := Example();
    assert y.m.waiting[0].prio > y.m.waiting[1].prio;
    ReleaseKeepsNoInversionIff(y);
  }

  /** A release keeps the absence of inversion exactly when the next owner is at least as urgent as every
      thread behind it in the list. */
  lemma ReleaseKeepsNoInversionIff(y: System)
    requires Inv(y) && Running(y, y.s.current) && Owns(y, y.s.current) && y.m.hold == 1
    ensures NoInversion(Release(y).0) <==>
              forall i :: 0 < i < |y.m.waiting| ==> y.m.waiting[0].prio <= y.m.waiting[i].prio
  {
    hide ValidBut, Sorted, Consistent, Restore, HandOver, NoInversion;
    RestoreIs(y);
    HandOverKeeps(Restore(y));
  }
}
