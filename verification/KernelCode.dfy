// The code of scheduler.c, thread.c and the mutex part of ipc.c over the list nodes of
// the threads and the kernel's global variables.
module KernelCode {
  import opened Bitmap
  import opened Ipc
  import opened Lists
  import opened Scheduler
  import opened Mutex
  import opened ThreadLists

  /** The suspend list of the mutex comes behind the ready lists. */
  const MUTEX := MAX

  class Core {
    const flag: Flag
    const queues: Queues           // rt_thread_priority_table, and suspend_thread of the mutex
    var threads: map<Tid, Thread>
    var group: Word                // rt_thread_ready_priority_group
    var current: Tid               // rt_current_thread
    var lockNest: nat              // rt_scheduler_lock_nest
    var value: nat
    var owner: Owner
    var original: nat
    var hold: nat
    ghost var waiting: seq<Waiter>
    ghost var base: map<Tid, nat>

    /** The lists are linked through the nodes of exactly these threads. */
    ghost predicate Sound()
      reads this, queues, queues.nodes
    {
      && queues.Valid() && |queues.lists| == MAX + 1 && queues.known == threads.Keys
      && Names(waiting, queues.lists[MUTEX])
    }

    ghost function Tables(): Sched
      reads this, queues
      requires |queues.lists| == MAX + 1
    {
      Sched(threads, queues.lists[..MAX], group, current, lockNest)
    }

    ghost function View(): System
      reads this, queues
      requires |queues.lists| == MAX + 1
    {
      System(Tables(), Lock(flag, value, owner, original, hold, waiting), base)
    }

    /** rt_system_scheduler_init, the idle thread, rt_system_scheduler_start and rt_mutex_init. */
    constructor (flag: Flag, idle: Tid)
      ensures fresh(queues) && fresh(queues.nodes)
      ensures Sound() && View() == Boot(flag, idle) && Inv(View()) && NoInversion(View())
    {
      hide Linked, Inv, ValidBut, NoInversion, Boot, Insert, Shaped, Mask, ThreadLists.PutAt;
      this.flag := flag;
      queues := new Queues(MAX + 1);
      threads, group, current, lockNest := map[], seq(MAX, i => false), idle, 0;
      value, owner, original, hold, waiting := 1, Nobody, NO_PRIORITY, 0, [];
      base := map[idle := IDLE_PRIORITY];
      new;
      InitInv(flag, idle);
      StartIdle(idle);
    }

    /** The first thread of all. */
    method StartIdle(idle: Tid)
      requires queues.Valid() && queues.known == {} && queues.at == map[] && queues.lists == seq(MAX + 1, i => [])
      requires View() == System(Sched(map[], seq(MAX, i => []), seq(MAX, i => false), idle, 0),
                                Lock(flag, 1, Nobody, NO_PRIORITY, 0, []), map[idle := IDLE_PRIORITY])
      modifies this`threads, this`group, queues, queues.nodes
      ensures Sound() && View() == Boot(flag, idle)
    {
      hide Linked, Inv, ValidBut, Boot, Insert, Shaped, Mask;
      queues.Add(idle);
      threads := map[idle := Thread(IDLE_PRIORITY, Mask(MAX, IDLE_PRIORITY), Suspended)];
      FirstInsert(Tables(), flag, idle);
      InsertThread(idle);
    }

    // ----- Where the threads are

    lemma Whereabouts(t: Tid)
      requires Sound() && Valid(Tables()) && t in threads
      ensures Shaped(Tables()) && t in queues.known
      ensures threads[t].stat.Ready? ==> t in queues.at && queues.at[t] == threads[t].prio < MAX
      ensures !threads[t].stat.Ready? && t in queues.at ==> queues.at[t] == MUTEX
    {
      hide Lists.Distinct;
      var s := Tables();
      if t in queues.at && queues.at[t] < MAX {
        assert t in queues.lists[queues.at[t]] && t in s.lists[queues.at[t]];
      }
      if threads[t].stat.Ready? { assert t in s.lists[threads[t].prio]; }
    }

    // ----- scheduler.c

    /** rt_schedule_insert_thread. */
    method InsertThread(t: Tid)
      requires Sound() && Shaped(Tables()) && t in threads && t !in queues.at
      modifies this`threads, this`group, queues`lists, queues`at, queues.nodes
      ensures Sound() && Tables() == Insert(old(Tables()), t) && queues.at == old(queues.at)[t := threads[t].prio]
      ensures ValidBut(old(Tables()), {t}) ==> Valid(Tables())
    {
      hide ValidBut, Linked, Or;
      if ValidBut(Tables(), {t}) { InsertOk(Tables(), t); }
      ghost var s := Tables();
      var th := threads[t];
      threads := threads[t := th.(stat := Ready)];
      queues.Append(th.prio, t);
      group := Or(group, th.mask);
      assert Tables() == Insert(s, t);
    }

    /** rt_schedule_remove_thread. */
    method RemoveThread(t: Tid)
      requires Sound() && Shaped(Tables()) && t in threads && t in queues.at && queues.at[t] == threads[t].prio
      modifies this`group, queues`lists, queues`at, queues.nodes
      ensures Sound() && Tables() == Remove(old(Tables()), t) && queues.at == old(queues.at) - {t}
      ensures Valid(old(Tables())) && threads[t].stat.Ready? ==> ValidBut(Tables(), {t})
    {
      hide ValidBut, Linked, Drop, AndNot;
      if Valid(Tables()) && threads[t].stat.Ready? { RemoveOk(Tables(), t); }
      ghost var s := Tables();
      var th := threads[t];
      queues.Remove(t);
      var empty := queues.IsEmpty(th.prio);
      if empty {
        group := AndNot(group, th.mask);
      }
      assert Tables() == Remove(s, t);
    }

    /** rt_schedule: the thread that runs is the first of the most urgent ready ones. */
    method Reschedule()
      requires Sound() && Valid(Tables()) && !Zero(group)
      modifies this`current
      ensures Sound() && Tables() == Schedule(old(Tables())) && Valid(Tables())
      ensures lockNest == 0 ==> current in threads && Leads(Tables(), threads[current].prio)
    {
      hide ThreadsOk, ListsOk, Table, Value, ByteOf, Zero, Linked;
      Lowest32Is(group);
      if lockNest == 0 {
        RunsFirst(Tables());
        var highest: nat;
        if !Zero(ByteOf(group, 0)) {
          highest := Table(Value(ByteOf(group, 0)));
        } else if !Zero(ByteOf(group, 1)) {
          highest := Table(Value(ByteOf(group, 1))) + 8;
        } else if !Zero(ByteOf(group, 2)) {
          highest := Table(Value(ByteOf(group, 2))) + 16;
        } else {
          highest := Table(Value(ByteOf(group, 3))) + 24;
        }
        var to := queues.Next(Head(highest), highest, 0);
        if to != current { current := to; }
      }
    }

    // ----- thread.c

    /** rt_thread_startup of a new thread, up to the call of rt_schedule. */
    method StartThread(t: Tid, prio: nat)
      requires Sound() && Inv(View()) && t !in threads && prio < MAX
      modifies this`threads, this`group, this`base, this`waiting, queues, queues.nodes
      ensures Sound() && View() == Spawn(old(View()), t, prio) && Inv(View())
      ensures NoInversion(old(View())) ==> NoInversion(View())
    {
      hide Priorities, Fields, Waiters, NoInversion, Linked, ListsOk, ThreadsOk, Resume, Without;
      SpawnKeeps(View(), t, prio);
      NewThread(Tables(), t, prio);
      NotListed(t);
      Stranger(View(), t);
      queues.Add(t);
      threads := threads[t := Thread(prio, Mask(MAX, prio), Suspended)];
      base := base[t := prio];
      ResumeThread(t);
    }

    lemma NotListed(t: Tid)
      requires Sound() && t !in threads
      ensures t !in queues.at
    {
    }

    /** rt_thread_suspend. */
    method SuspendThread(t: Tid)
      requires Sound() && Valid(Tables()) && t in threads
      modifies this`threads, this`group, queues`lists, queues`at, queues.nodes
      ensures Sound() && Shaped(old(Tables())) && Tables() == Suspend(old(Tables()), t) && Valid(Tables())
      ensures old(threads)[t].stat.Ready? ==> t !in queues.at
    {
      hide Lists.Distinct, Linked, Drop, ListsOk, ThreadsOk;
      Whereabouts(t);
      if threads[t].stat != Ready { return; }
      SuspendIs(Tables(), t);
      threads := threads[t := threads[t].(stat := Suspended)];
      RemoveThread(t);
    }

    /** rt_thread_resume: the thread leaves the suspend list it may be in. */
    method ResumeThread(t: Tid)
      requires Sound() && Valid(Tables()) && t in threads
      modifies this`threads, this`group, this`waiting, queues`lists, queues`at, queues.nodes
      ensures Sound() && Shaped(old(Tables())) && Tables() == Resume(old(Tables()), t) && Valid(Tables())
      ensures waiting == if old(threads)[t].stat.Suspended? then Without(old(waiting), t) else old(waiting)
    {
      hide Lists.Distinct, Linked, Drop, ListsOk, ThreadsOk, Without;
      Whereabouts(t);
      if threads[t].stat != Suspended { return; }
      ResumeIs(Tables(), t);
      Unlist(t);
      InsertThread(t);
    }

    /** rt_list_remove of a thread that is not ready. */
    method Unlist(t: Tid)
      requires Sound() && t in threads && (t in queues.at ==> queues.at[t] == MUTEX)
      modifies this`waiting, queues`lists, queues`at, queues.nodes
      ensures Sound() && Tables() == old(Tables()) && waiting == Without(old(waiting), t) && t !in queues.at
    {
      hide Linked, Drop, Without;
      InSuspendList(t);
      DropNames(waiting, queues.lists[MUTEX], t);
      queues.Remove(t);
      waiting := Without(waiting, t);
      assert queues.lists[..MAX] == old(queues.lists[..MAX]);
    }

    lemma InSuspendList(t: Tid)
      requires Sound()
      ensures t in queues.lists[MUTEX] <==> t in queues.at && queues.at[t] == MUTEX
    {
    }

    /** rt_thread_control with RT_THREAD_CTRL_CHANGE_PRIORITY. */
    method SetPriority(t: Tid, prio: nat)
      requires Sound() && Valid(Tables()) && t in threads && prio < MAX
      modifies this`threads, this`group, queues`lists, queues`at, queues.nodes
      ensures Sound() && Shaped(old(Tables())) && Tables() == ChangePriority(old(Tables()), t, prio) && Valid(Tables())
    {
      hide Lists.Distinct, Linked, Drop, ListsOk, ThreadsOk, Remove, Insert;
      Whereabouts(t);
      ChangePriorityIs(Tables(), t, prio);
      if threads[t].stat == Ready {
        RemoveThread(t);
        threads := threads[t := threads[t].(prio := prio, mask := Mask(MAX, prio))];
        InsertThread(t);
      } else {
        threads := threads[t := threads[t].(prio := prio, mask := Mask(MAX, prio))];
      }
    }

    /** rt_thread_yield, up to the call of rt_schedule. */
    method YieldThread() returns (moved: bool)
      requires Sound() && Valid(Tables()) && current in threads
      modifies queues`lists, queues`at, queues.nodes
      ensures moved <==> threads[current].stat.Ready? && |old(queues.lists)[threads[current].prio]| > 1
      ensures Sound() && Shaped(old(Tables())) && Tables() == Yield(old(Tables())) && Valid(Tables())
    {
      hide Lists.Distinct, Linked, Drop, ListsOk, ThreadsOk;
      Whereabouts(current);
      YieldOk(Tables());
      moved := false;
      if threads[current].stat == Ready {
        moved := queues.HasOthers(current);
        if moved {
          queues.Remove(current);
          queues.Append(threads[current].prio, current);
        }
      }
    }

    // ----- The suspend list

    /** rt_ipc_list_suspend for the current thread. */
    method ListSuspend(t: Tid)
      requires Sound() && Valid(Tables()) && t in threads && threads[t].stat.Ready? && PriosKnown(threads, waiting)
      modifies this`threads, this`group, this`waiting, queues`lists, queues`at, queues.nodes
      ensures Sound() && Shaped(old(Tables())) && Tables() == Suspend(old(Tables()), t) && Valid(Tables())
      ensures waiting == Enqueue(old(waiting), Waiter(t, old(threads)[t].prio), flag)
      ensures flag.Fifo? ==> waiting == old(waiting) + [Waiter(t, old(threads)[t].prio)]
    {
      hide Lists.Distinct, Linked, ListsOk, ThreadsOk, Position, InsertAt;
      SuspendIs(Tables(), t);
      StillKnown(threads, Suspend(Tables(), t).threads, waiting);
      SuspendThread(t);
      match flag {
        case Fifo =>
          LinkWaiter(Head(MUTEX), t, |waiting|);
        case Prio =>
          FindPlace(t);
      }
    }

    /** The loop of rt_ipc_list_suspend. */
    method FindPlace(t: Tid)
      requires Sound() && t in threads && t !in queues.at && PriosKnown(threads, waiting)
      modifies this`waiting, queues`lists, queues`at, queues.nodes
      ensures Sound() && Tables() == old(Tables())
      ensures waiting == Enqueue(old(waiting), Waiter(t, threads[t].prio), Prio)
    {
      hide Linked, InsertAt, Position;
      ghost var place, k := Position(waiting, threads[t].prio), 0;
      var n := queues.Next(Head(MUTEX), MUTEX, 0);
      while n != Head(MUTEX)
        invariant Sound() && k <= |waiting| && n == queues.NodeAt(MUTEX, k)
        invariant unchanged(queues, queues.nodes) && waiting == old(waiting)
        invariant place == k + Position(waiting[k..], threads[t].prio)
        decreases |waiting| - k
      {
        PlaceStep(waiting, k, threads[t].prio);
        assert waiting[k].id == n;
        if threads[t].prio < threads[n].prio {
          LinkWaiter(n, t, k);
          return;
        }
        n := queues.Next(n, MUTEX, k + 1);
        k := k + 1;
      }
      PlaceStep(waiting, k, threads[t].prio);
      LinkWaiter(Head(MUTEX), t, k);
    }

    method LinkWaiter(n: int, t: Tid, ghost k: nat)
      requires Sound() && t in threads && t !in queues.at && k <= |waiting| && n == queues.NodeAt(MUTEX, k)
      modifies this`waiting, queues`lists, queues`at, queues.nodes
      ensures Sound() && Tables() == old(Tables()) && waiting == InsertAt(old(waiting), k, Waiter(t, threads[t].prio))
    {
      hide Linked, InsertAt, PutAt;
      PutNames(waiting, queues.lists[MUTEX], k, Waiter(t, threads[t].prio));
      queues.InsertBefore(n, t, MUTEX, k);
      waiting := InsertAt(waiting, k, Waiter(t, threads[t].prio));
      assert queues.lists[..MAX] == old(queues.lists[..MAX]);
    }

    // ----- The mutex

    /** rt_mutex_take, up to the call of rt_schedule. */
    method MutexTake(wait: bool) returns (code: Code)
      requires Sound() && Inv(View()) && Running(View(), current)
      modifies this, queues`lists, queues`at, queues.nodes
      ensures Sound() && (View(), code) == Take(old(View()), wait) && Inv(View())
      ensures code == Ok <==> old(owner) == Nobody || old(owner) == By(old(current))
      ensures (code == Blocked ==> wait) && (code == TimedOut ==> !wait && View() == old(View()))
      ensures NoInversion(old(View())) ==> NoInversion(View())
    {
      hide Valid, Priorities, NoInversion, Enqueue, ChangePriority, Suspend, Linked, Waiters;
      TakeMutexKeeps(View(), wait);
      var t := current;
      if owner == By(t) {
        hold := hold + 1;
        return Ok;
      }
      if value > 0 {
        value := value - 1;
        owner, original, hold := By(t), threads[t].prio, hold + 1;
        return Ok;
      }
      if !wait { return TimedOut; }
      InheritIs(View(), t);
      WaitersKnown(Inherit(View(), t));
      if threads[t].prio < threads[owner.t].prio {
        SetPriority(owner.t, threads[t].prio);
      }
      ListSuspend(t);
      code := Blocked;
    }

    /** rt_mutex_release, up to the call of rt_schedule. */
    method MutexRelease() returns (code: Code)
      requires Sound() && Inv(View()) && Running(View(), current)
      modifies this, queues`lists, queues`at, queues.nodes
      ensures Sound() && (View(), code) == Release(old(View())) && Inv(View())
      ensures code == Error <==> old(owner) != By(old(current))
      ensures code == Error ==> View() == old(View())
      ensures NoInversion(old(View())) && flag.Prio? ==> NoInversion(View())
    {
      hide Valid, Priorities, NoInversion, ChangePriority, Resume, Linked, Consistent, Sorted;
      ReleaseKeeps(View());
      if owner != By(current) { return Error; }
      hold := hold - 1;
      if hold == 0 {
        RestoreIs(old(View()));
        if original != threads[owner.t].prio {
          SetPriority(owner.t, original);
        }
        PassOn();
      }
      code := Ok;
    }

    /** The first waiting thread becomes the owner, or the mutex becomes free. */
    method PassOn()
      requires Sound() && MutexShaped(View()) && Valid(Tables()) && owner.By? && hold == 0
      requires waiting != [] ==> threads[waiting[0].id].stat.Suspended?
      modifies this, queues`lists, queues`at, queues.nodes
      ensures Sound() && View() == HandOver(old(View()))
    {
      hide Valid, Resume, Linked, Without;
      var empty := queues.IsEmpty(MUTEX);
      if !empty {
        var thread := queues.Next(Head(MUTEX), MUTEX, 0);
        FirstWaiter(waiting);
        assert waiting[0].id == thread;
        owner, original, hold := By(thread), threads[thread].prio, hold + 1;
        ResumeThread(thread);
      } else {
        value, owner, original := value + 1, Nobody, NO_PRIORITY;
      }
    }

    /** rt_thread_timeout of a thread that waits for the mutex. */
    method MutexTimeout(t: Tid)
      requires Sound() && Inv(View()) && Waits(waiting, t)
      modifies this`threads, this`group, this`waiting, queues`lists, queues`at, queues.nodes
      ensures t in old(threads) && Sound() && View() == TimeOut(old(View()), t) && Inv(View())
      ensures NoInversion(old(View())) ==> NoInversion(View())
    {
      hide ValidBut, Consistent, Sorted, Without, Linked;
      TimeOutKeeps(View(), t);
      assert threads[t].stat.Suspended?;
      Whereabouts(t);
      Unlist(t);
      InsertThread(t);
    }
  }

  lemma FirstInsert(s: Sched, flag: Flag, idle: Tid)
    requires s.threads == map[idle := Thread(IDLE_PRIORITY, Mask(MAX, IDLE_PRIORITY), Suspended)]
    requires s.lists == seq(MAX, i => []) && s.group == seq(MAX, i => false) && s.current == idle && s.lockNest == 0
    ensures Shaped(s)
    ensures Boot(flag, idle) == System(Insert(s, idle), Lock(flag, 1, Nobody, NO_PRIORITY, 0, []),
                                       map[idle := IDLE_PRIORITY])
  {
    assert forall p :: 0 <= p < MAX ==> Insert(s, idle).lists[p] == Boot(flag, idle).s.lists[p];
    assert Insert(s, idle).lists == Boot(flag, idle).s.lists;
    assert Insert(s, idle).group == Mask(MAX, IDLE_PRIORITY);
  }

  // ----- Suspend lists with and without priorities

  /** The list nodes are those of the waiting threads. */
  ghost predicate Names(ws: seq<Waiter>, ids: seq<Tid>) {
    |ws| == |ids| && forall i :: 0 <= i < |ws| ==> ws[i].id == ids[i]
  }

  lemma {:induction false} WithoutAt(ws: seq<Waiter>, ids: seq<Tid>, t: Tid)
    requires Names(ws, ids)
    ensures var k := Find(ids, t);
            Without(ws, t) == if k < |ids| then ws[..k] + ws[k + 1..] else ws
  {
    if ws != [] && ws[0].id != t {
      WithoutAt(ws[1..], ids[1..], t);
    }
  }

  lemma DropNames(ws: seq<Waiter>, ids: seq<Tid>, t: Tid)
    requires Names(ws, ids)
    ensures Names(Without(ws, t), Drop(ids, t))
    ensures t !in ids ==> Without(ws, t) == ws
  {
    hide Find, Without, Drop;
    WithoutAt(ws, ids, t);
    var k, r, d := Find(ids, t), Without(ws, t), Drop(ids, t);
    if k < |ids| {
      forall i | 0 <= i < |r| ensures r[i].id == d[i] {
        assert r[i] == ws[if i < k then i else i + 1];
      }
    }
  }

  lemma PutNames(ws: seq<Waiter>, ids: seq<Tid>, k: nat, w: Waiter)
    requires Names(ws, ids) && k <= |ws|
    ensures Names(InsertAt(ws, k, w), PutAt(ids, k, w.id))
  {
  }

  /** The recorded priorities of the waiting threads are those they have. */
  ghost predicate PriosKnown(threads: map<Tid, Thread>, ws: seq<Waiter>) {
    forall i :: 0 <= i < |ws| ==> ws[i].id in threads && threads[ws[i].id].prio == ws[i].prio
  }

  lemma StillKnown(threads: map<Tid, Thread>, threads': map<Tid, Thread>, ws: seq<Waiter>)
    requires PriosKnown(threads, ws)
    requires forall t :: t in threads ==> t in threads' && threads'[t].prio == threads[t].prio
    ensures PriosKnown(threads', ws)
  {
  }

  lemma WaitersKnown(y: System)
    requires Inv(y)
    ensures PriosKnown(y.s.threads, y.m.waiting)
  {
    hide Valid, Sorted, Consistent;
  }

  /** A thread that does not exist does not wait. */
  lemma Stranger(y: System, t: Tid)
    requires Inv(y) && t !in y.s.threads
    ensures Without(y.m.waiting, t) == y.m.waiting
  {
    hide Valid, Sorted, Consistent;
    NotWithout(y.m.waiting, t);
  }

  lemma {:induction false} NotWithout(ws: seq<Waiter>, t: Tid)
    requires forall i :: 0 <= i < |ws| ==> ws[i].id != t
    ensures Without(ws, t) == ws
  {
    if ws != [] { NotWithout(ws[1..], t); }
  }

  lemma FirstWaiter(ws: seq<Waiter>)
    requires ws != []
    ensures Without(ws, ws[0].id) == ws[1..]
  {
  }

  lemma PlaceStep(ws: seq<Waiter>, k: nat, prio: nat)
    requires k <= |ws|
    ensures k == |ws| ==> Position(ws[k..], prio) == 0
    ensures k < |ws| ==> Position(ws[k..], prio) == if prio < ws[k].prio then 0 else 1 + Position(ws[k + 1..], prio)
  {
    if k < |ws| { assert ws[k..][1..] == ws[k + 1..]; }
  }

  lemma RunsFirst(s: Sched)
    requires Valid(s) && !Zero(s.group) && s.lockNest == 0
    ensures var s' := Schedule(s); s'.current in s'.threads && Leads(s', s'.threads[s'.current].prio)
  {
    hide Lists.Distinct, Lowest32;
    ScheduleIs(s);
  }

  /** A thread that starts on a fresh kernel runs and gets the mutex. */
  method FirstTake(flag: Flag) returns (core: Core, code: Code)
    ensures code == Ok && core.owner == By(1) && core.Sound() && Inv(core.View())
  {
    hide Linked, Valid, Waiters, Priorities, Lists.Distinct;
    core := new Core(flag, 0);
    core.StartThread(1, 10);
    FirstReady(flag);
    core.Reschedule();
    code := core.MutexTake(true);
  }

  lemma FirstReady(flag: Flag)
    ensures Inv(Boot(flag, 0))
    ensures var y := Spawn(Boot(flag, 0), 1, 10);
            && Inv(y) && !Zero(y.s.group) && Inv(y.(s := Schedule(y.s))) && Running(y.(s := Schedule(y.s)), 1)
            && y.m.owner == Nobody && y.m.value == 1
  {
    hide Valid, Waiters, Priorities, Schedule, Spawn;
    InitInv(flag, 0);
    SpawnKeeps(Boot(flag, 0), 1, 10);
    var y := Spawn(Boot(flag, 0), 1, 10);
    assert y.s.threads[1].stat.Ready?;
    GroupZeroIff(y.s);
    StepKeeps(y, DoSchedule);
    ScheduleIs(y.s);
    SwitchIs(y.s);
  }
}
