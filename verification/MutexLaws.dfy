// What each call on the mutex does, branch by branch, and who gets it first.
module MutexLaws {
  import opened Bitmap
  import opened Ipc
  import opened Lists
  import opened Scheduler
  import opened Mutex

  /** threads with thread t at another priority. */
  function At(threads: map<Tid, Thread>, t: Tid, prio: nat): map<Tid, Thread>
    requires t in threads && prio < MAX
  {
    threads[t := Thread(prio, Mask(MAX, prio), threads[t].stat)]
  }

  function Min(a: nat, b: nat): nat { if a < b then a else b }

  /** A take by the owner nests, and a free mutex goes to the caller. While another thread owns it, a caller without
      time gets an error and changes nothing; a caller with time is suspended and joins the suspend list, and the owner
      runs at the more urgent of its own priority and the caller's. Nothing else changes. */
  lemma TakeIs(y: System, wait: bool)
    requires Inv(y) && Running(y, y.s.current)
    ensures var t, (y', code) := y.s.current, Take(y, wait);
            match y.m.owner
            case Nobody => code == Ok && y' == y.(m := Lock(y.m.flag, 0, By(t), y.base[t], 1, []))
            case By(o) =>
              if o == t then code == Ok && y' == y.(m := y.m.(hold := y.m.hold + 1))
              else if !wait then code == TimedOut && y' == y
              else
                && code == Blocked && y'.base == y.base && y'.s.current == t && y'.s.lockNest == y.s.lockNest
                && y'.s.threads
                   == At(y.s.threads, o, Min(Mutex.Prio(y, o), Mutex.Prio(y, t)))
                        [t := y.s.threads[t].(stat := Suspended)]
                && y'.m == y.m.(waiting := Enqueue(y.m.waiting, Waiter(t, Mutex.Prio(y, t)), y.m.flag))
                && (forall p, i :: 0 <= p < MAX && 0 <= i < |y'.s.lists[p]| ==> y'.s.lists[p][i] != t)
  {
    hide ValidBut, Consistent, Sorted, ChangePriority, Suspend, Enqueue;
    var t := y.s.current;
    if y.m.owner.By? && !Owns(y, t) && wait {
      var o := y.m.owner.t;
      MaskIs(y.s, o);
      if Mutex.Prio(y, t) < Mutex.Prio(y, o) { ChangePriorityIs(y.s, o, Mutex.Prio(y, t)); }
      SuspendIs(Inherit(y, t).s, t);
      NotListed(Take(y, wait).0.s, t);
    }
  }

  lemma NotListed(s: Sched, t: Tid)
    requires Valid(s) && t in s.threads && !s.threads[t].stat.Ready?
    ensures |s.lists| == MAX && forall p, i :: 0 <= p < MAX && 0 <= i < |s.lists[p]| ==> s.lists[p][i] != t
  {
    hide Distinct;
  }

  /** A release by a thread that does not own the mutex is an error and changes nothing, and an inner release only
      counts down. The outermost one gives the owner its own priority back; then the first waiter runs and owns the
      mutex, or nobody does. */
  lemma ReleaseIs(y: System)
    requires Inv(y) && Running(y, y.s.current)
    ensures var t, (y', code) := y.s.current, Release(y);
            if y.m.owner != By(t) then code == Error && y' == y
            else if y.m.hold > 1 then code == Ok && y' == y.(m := y.m.(hold := y.m.hold - 1))
            else
              && code == Ok && y'.base == y.base && y'.s.current == t && y'.s.lockNest == y.s.lockNest
              && var restored := At(y.s.threads, t, y.base[t]);
                 if y.m.waiting == [] then
                   y'.s.threads == restored && y'.m == Lock(y.m.flag, 1, Nobody, NO_PRIORITY, 0, [])
                 else
                   var w := y.m.waiting[0].id;
                   && w in restored && y'.s.threads == restored[w := restored[w].(stat := Ready)]
                   && y'.m == Lock(y.m.flag, 0, By(w), y.base[w], 1, y.m.waiting[1..])
  {
    hide ValidBut, Consistent, Sorted, Restore, HandOver;
    if Owns(y, y.s.current) && y.m.hold == 1 {
      RestoreIs(y);
      HandOverIs(Restore(y));
    }
  }

  lemma HandOverIs(y: System)
    requires Inv(y) && y.m.owner.By?
    ensures var y' := HandOver(y);
            && y'.base == y.base && y'.s.current == y.s.current && y'.s.lockNest == y.s.lockNest
            && if y.m.waiting == [] then y' == y.(m := Lock(y.m.flag, 1, Nobody, NO_PRIORITY, 0, []))
               else
                 var w := y.m.waiting[0].id;
                 && w in y.s.threads && y'.s.threads == y.s.threads[w := y.s.threads[w].(stat := Ready)]
                 && y'.m == Lock(y.m.flag, 0, By(w), y.base[w], 1, y.m.waiting[1..])
  {
    hide ValidBut, Consistent, Sorted, Resume;
    if y.m.waiting != [] { ResumeIs(y.s, y.m.waiting[0].id); }
  }

  /** A waiter whose time is over leaves the suspend list, where the others keep their order, and runs. */
  lemma TimeOutIs(y: System, t: Tid) returns (k: nat)
    requires Inv(y) && Waits(y.m.waiting, t)
    ensures k < |y.m.waiting| && y.m.waiting[k].id == t && t in y.s.threads
    ensures var y' := TimeOut(y, t);
            && y'.m == y.m.(waiting := y.m.waiting[..k] + y.m.waiting[k + 1..]) && y'.base == y.base
            && y'.s.threads == y.s.threads[t := y.s.threads[t].(stat := Ready)]
            && y'.s.current == y.s.current && y'.s.lockNest == y.s.lockNest
  {
    hide ValidBut, Consistent, Sorted, Resume, Without;
    k := WithoutIs(y.m.waiting, t);
    ResumeIs(y.s, t);
  }

  // ----- Who gets the mutex first

  /** v waits for the mutex at every point of the run. */
  predicate WaitsThroughout(y: System, ops: seq<Op>, v: Waiter)
    requires Inv(y) && LegalRun(y, ops)
    decreases |ops|
  {
    v in y.m.waiting && (ops != [] ==> (StepKeeps(y, ops[0]); WaitsThroughout(Step(y, ops[0]), ops[1..], v)))
  }

  /** The owner is the one it was, or a thread that may have the mutex before v. */
  ghost predicate OwnerBefore(y: System, y': System, v: Waiter) {
    || y'.m.owner == y.m.owner
    || exists w: Waiter ::
         && y'.m.owner == By(w.id) && w.id in y'.base && w.prio == y'.base[w.id]
         && (w in InFront(y.m.waiting, v.id) || MayPass(y.m.flag, w, v))
  }

  lemma StepNoPassing(y: System, op: Op, v: Waiter)
    requires Inv(y) && Legal(y, op) && v in y.m.waiting && v in Step(y, op).m.waiting
    ensures NoPassing(y.m.waiting, Step(y, op).m.waiting, v, y.m.flag) && OwnerBefore(y, Step(y, op), v)
  {
    hide Valid, Consistent, Sorted, Enqueue, Without, InFront, Take, Release, Resume, Suspend, Schedule, Yield;
    match op
    case DoTake(wait) =>
      TakeIs(y, wait);
      if Take(y, wait).1 == Blocked {
        var t := y.s.current;
        EnqueueNoPassing(y.m.waiting, Waiter(t, Mutex.Prio(y, t)), y.m.flag, v);
      }
    case DoRelease =>
      ReleaseIs(y);
      if y.m.owner == By(y.s.current) && y.m.hold == 1 {
        WakeNoPassing(y.m.waiting, y.m.flag, v);
        assert OwnerBefore(y, Step(y, op), v) by { assert y.m.waiting[0] in InFront(y.m.waiting, v.id); }
      }
    case DoTimeOut(t) =>
      if t != v.id { WithoutNoPassing(y.m.waiting, t, y.m.flag, v); } else { Leaves(y.m.waiting, v); }
    case _ =>
  }

  lemma Leaves(ws: seq<Waiter>, v: Waiter)
    requires Consistent(Side(ws, {}))
    ensures v !in Without(ws, v.id)
  {
    hide Without;
    WithoutIds(ws, v.id);
  }

  /** Nobody is passed over: while a thread v waits, the mutex goes only to threads that were in front of it, and, with
      the priority flag, to more urgent ones. So with the FIFO flag the waiters get it in the order they came. */
  lemma {:induction false} NoOvertaking(y: System, ops: seq<Op>, v: Waiter)
    requires Inv(y) && LegalRun(y, ops) && WaitsThroughout(y, ops, v)
    ensures NoPassing(y.m.waiting, Run(y, ops).m.waiting, v, y.m.flag) && OwnerBefore(y, Run(y, ops), v)
    decreases |ops|
  {
    hide Inv, Step, Legal, InFront, MayPass;
    if ops != [] {
      StepKeeps(y, ops[0]);
      var y1 := Step(y, ops[0]);
      assert v in y1.m.waiting;
      StepNoPassing(y, ops[0], v);
      NoOvertaking(y1, ops[1..], v);
    }
  }

  /** The waiter that a step makes the owner, and the thread that begins to wait. */
  function Served(y: System, op: Op): seq<Waiter> {
    if op.DoRelease? && y.m.owner == By(y.s.current) && y.m.hold == 1 && y.m.waiting != [] then [y.m.waiting[0]] else []
  }

  function Joining(y: System, op: Op): seq<Waiter> {
    if op == DoTake(true) && y.m.owner.By? && y.m.owner != By(y.s.current) && y.s.current in y.s.threads
    then [Waiter(y.s.current, Mutex.Prio(y, y.s.current))] else []
  }

  function ServedIn(y: System, ops: seq<Op>): seq<Waiter>
    requires Inv(y) && LegalRun(y, ops)
    decreases |ops|
  {
    if ops == [] then [] else (StepKeeps(y, ops[0]); Served(y, ops[0]) + ServedIn(Step(y, ops[0]), ops[1..]))
  }

  function JoiningIn(y: System, ops: seq<Op>): seq<Waiter>
    requires Inv(y) && LegalRun(y, ops)
    decreases |ops|
  {
    if ops == [] then [] else (StepKeeps(y, ops[0]); Joining(y, ops[0]) + JoiningIn(Step(y, ops[0]), ops[1..]))
  }

  lemma StepInOrder(y: System, op: Op)
    requires Inv(y) && Legal(y, op) && y.m.flag.Fifo? && !op.DoTimeOut?
    ensures Served(y, op) + Step(y, op).m.waiting == y.m.waiting + Joining(y, op)
    ensures Served(y, op) != [] ==> Step(y, op).m.owner == By(Served(y, op)[0].id)
  {
    hide Valid, Consistent, Sorted, Enqueue, Take, Release, Resume, Suspend, Schedule, Yield;
    match op
    case DoTake(wait) =>
      TakeIs(y, wait);
      var k := EnqueueIs(y.m.waiting, Waiter(y.s.current, Mutex.Prio(y, y.s.current)), y.m.flag);
    case DoRelease => ReleaseIs(y);
    case _ =>
  }

  /** First come, first served: over every run with the FIFO flag in which nobody times out, the waiters that have got
      the mutex and those that still wait are those that waited and then began to wait, in that order. */
  lemma {:induction false} FirstComeFirstServed(y: System, ops: seq<Op>)
    requires Inv(y) && LegalRun(y, ops) && y.m.flag.Fifo? && forall op :: op in ops ==> !op.DoTimeOut?
    ensures ServedIn(y, ops) + Run(y, ops).m.waiting == y.m.waiting + JoiningIn(y, ops)
    decreases |ops|
  {
    hide Inv, Step, Legal, Served, Joining;
    if ops != [] {
      StepKeeps(y, ops[0]);
      var y1 := Step(y, ops[0]);
      StepInOrder(y, ops[0]);
      FirstComeFirstServed(y1, ops[1..]);
      InOrder(Served(y, ops[0]), y1.m.waiting, y.m.waiting, Joining(y, ops[0]),
              ServedIn(y1, ops[1..]), Run(y1, ops[1..]).m.waiting, JoiningIn(y1, ops[1..]));
    }
  }
}
