// The clock interrupt of RT-Thread: rt_tick_increase of clock.c, which counts down
// the time slice of the running thread before it checks the timers.
module Clock {
  import Bitmap
  import Lists
  import ThreadLists
  import opened Ipc
  import opened Scheduler
  import KernelCode
  import Mutex
  import Timer
  import TimerCode

  const WORD := 0x1_0000_0000

  /** init_tick and remaining_tick of a thread. */
  datatype Slice = Slice(init: nat, remaining: nat)

  type Slices = map<Tid, Slice>

  /** Every thread has a time slice, and some of it left. */
  predicate SlicesOk(slices: Slices) {
    forall t :: t in slices ==> 1 <= slices[t].remaining <= slices[t].init < WORD
  }

  /** rt_thread_yield with its call of rt_schedule, which it makes only when the thread is not alone in its list. */
  ghost function YieldNow(s: Sched): (s': Sched)
    requires Valid(s) && s.current in s.threads
    ensures Valid(s')
  {
    ShapedIs(s);
    if Moves(s) then (MovesIs(s); ScheduleKeeps(Yield(s)); Schedule(Yield(s))) else s
  }

  /** The running thread is ready and has company in its list. */
  predicate Moves(s: Sched)
    requires s.current in s.threads && |s.lists| == MAX
  {
    s.threads[s.current].stat.Ready? && s.threads[s.current].prio < MAX && |s.lists[s.threads[s.current].prio]| > 1
  }

  lemma ShapedIs(s: Sched)
    requires Valid(s)
    ensures Shaped(s)
  {
  }

  lemma MovesIs(s: Sched)
    requires Valid(s) && s.current in s.threads && Moves(s)
    ensures Shaped(s) && Valid(Yield(s)) && !Bitmap.Zero(Yield(s).group)
  {
    YieldOk(s);
    assert s.group[s.threads[s.current].prio];
  }

  lemma ScheduleKeeps(s: Sched)
    requires Valid(s) && !Bitmap.Zero(s.group)
    ensures Valid(Schedule(s))
  {
    hide Lists.Distinct, Bitmap.Lowest32;
    if s.lockNest == 0 { ScheduleIs(s); }
  }

  /** The part of rt_tick_increase that is about the time slice; the subtraction wraps round. */
  ghost function Spend(s: Sched, slices: Slices): (Sched, Slices)
    requires Valid(s) && s.current in s.threads && s.current in slices
  {
    var c := slices[s.current];
    var left := (c.remaining - 1) % WORD;
    if left != 0 then (s, slices[s.current := c.(remaining := left)])
    else (YieldNow(s), slices[s.current := c.(remaining := c.init)])
  }

  // ----- Threads of equal priority share the time

  /** The list of priority p leads, and all its threads have time slices. */
  ghost predicate Sharing(s: Sched, slices: Slices, p: nat) {
    && Leads(s, p) && SlicesOk(slices)
    && forall t :: t in s.lists[p] ==> t in slices
  }

  /** On a fresh kernel the idle thread has the processor to itself. */
  lemma StartShares(flag: Flag, idle: Tid, init: nat)
    requires 1 <= init < WORD
    ensures Sharing(Mutex.Boot(flag, idle).s, map[idle := Slice(init, init)], Mutex.IDLE_PRIORITY)
  {
    Mutex.InitInv(flag, idle);
  }

  /** A yield of the leading thread is its turn. */
  lemma YieldIsTurn(s: Sched, p: nat)
    requires Leads(s, p)
    ensures YieldNow(s) == Turn(s, p)
  {
    hide Lists.Distinct, Lists.Drop, Bitmap.Lowest32;
    YieldLeads(s, p);
    if |s.lists[p]| == 1 { AlonePassed(s, p); }
  }

  lemma AlonePassed(s: Sched, p: nat)
    requires Leads(s, p) && |s.lists[p]| == 1
    ensures Turn(s, p) == s
  {
    hide Lists.Distinct, Lists.Drop, Bitmap.Lowest32;
    YieldLeads(s, p);
    TurnIs(s, p);
  }

  /** One tick: the slice gets shorter, or its owner goes to the end of the list with a new one. */
  lemma SpendIs(s: Sched, slices: Slices, p: nat)
    requires Sharing(s, slices, p)
    ensures s.current in slices && s.current in s.threads && Valid(s)
    ensures var (s', slices') := Spend(s, slices);
            && Sharing(s', slices', p)
            && slices'.Keys == slices.Keys && (forall t :: t in slices && t != s.current ==> slices'[t] == slices[t])
            && if slices[s.current].remaining > 1
               then s' == s && slices'[s.current] == slices[s.current].(remaining := slices[s.current].remaining - 1)
               else s' == Turn(s, p) && slices'[s.current] == slices[s.current].(remaining := slices[s.current].init)
  {
    hide Leads, YieldNow, Turn, SlicesOk;
    InShares(s, slices, p);
    Current(s, slices, p);
    var c := slices[s.current];
    YieldIsTurn(s, p);
    TurnIs(s, p);
    LeadsLists(Turn(s, p), p);
    Rotated(s.lists[p]);
    if c.remaining > 1 {
      OneSliceOk(slices, s.current, c.remaining - 1);
    } else {
      OneSliceOk(slices, s.current, c.init);
    }
  }

  /** One tick, whichever thread runs. Until its slice is over the scheduler does not change; then the thread gets a new
      slice and goes behind the others of its priority. */
  lemma SpendDoes(s: Sched, slices: Slices)
    requires Valid(s) && s.current in s.threads && s.current in slices && SlicesOk(slices)
    ensures var ((s', slices'), c, mine) := (Spend(s, slices), s.current, slices[s.current]);
            if mine.remaining > 1 then s' == s && slices' == slices[c := Slice(mine.init, mine.remaining - 1)]
            else Passed(s, s') && slices' == slices[c := Slice(mine.init, mine.init)]
  {
    hide Valid, YieldNow, Passed;
    PassedOn(s);
  }

  /** The running thread has gone behind the others of its priority. If it has company and the scheduler is not locked
      the first thread of the most urgent priority runs now. */
  ghost predicate Passed(s: Sched, s': Sched)
    requires s.current in s.threads && |s.lists| == MAX && s.threads[s.current].prio < MAX && |s'.lists| == MAX
  {
    var (c, p) := (s.current, s.threads[s.current].prio);
    && s'.threads == s.threads
    && s'.lists == (if s.threads[c].stat.Ready? then s.lists[p := Lists.Drop(s.lists[p], c) + [c]] else s.lists)
    && if !s.threads[c].stat.Ready? || s.lists[p] == [c] || s.lockNest > 0 then s'.current == c else Chosen(s')
  }

  /** The current thread is the first of the most urgent priority that is ready. */
  ghost predicate Chosen(s: Sched) {
    && s.current in s.threads && s.threads[s.current].stat.Ready?
    && s.threads[s.current].prio < |s.lists| && s.lists[s.threads[s.current].prio] != []
    && s.lists[s.threads[s.current].prio][0] == s.current
    && forall t :: t in s.threads && s.threads[t].stat.Ready? ==> s.threads[s.current].prio <= s.threads[t].prio
  }

  lemma ChosenNow(s: Sched)
    requires Valid(s) && !Bitmap.Zero(s.group) && s.lockNest == 0
    ensures Chosen(Schedule(s)) && Schedule(s) == s.(current := Schedule(s).current)
  {
    hide Lists.Distinct, Bitmap.Lowest32;
    ScheduleIs(s);
  }

  lemma PassedOn(s: Sched)
    requires Valid(s) && s.current in s.threads
    ensures |s.lists| == MAX && s.threads[s.current].prio < MAX && |YieldNow(s).lists| == MAX && Passed(s, YieldNow(s))
  {
    hide Lists.Distinct, Lists.Drop, Bitmap.Lowest32, Yield, ValidBut, Schedule, Chosen;
    YieldOrder(s);
    Company(s);
    if Moves(s) {
      MovesIs(s);
      YieldOk(s);
      if s.lockNest == 0 { ChosenNow(Yield(s)); } else { ScheduleLocked(Yield(s)); }
    }
  }

  lemma ScheduleLocked(s: Sched)
    requires Valid(s) && !Bitmap.Zero(s.group) && s.lockNest > 0
    ensures Schedule(s) == s
  {
  }

  lemma Company(s: Sched)
    requires Valid(s) && s.current in s.threads
    ensures |s.lists| == MAX && s.threads[s.current].prio < MAX
    ensures s.threads[s.current].stat.Ready? ==>
              (s.lists[s.threads[s.current].prio] == [s.current] <==> |s.lists[s.threads[s.current].prio]| <= 1)
  {
    hide Lists.Distinct;
  }

  lemma Current(s: Sched, slices: Slices, p: nat)
    requires Sharing(s, slices, p) && s.current in slices
    ensures Valid(s) && s.current in s.threads
    ensures 1 <= slices[s.current].remaining <= slices[s.current].init < WORD
  {
    hide Valid;
  }

  lemma LeadsLists(s: Sched, p: nat)
    requires Leads(s, p)
    ensures p < |s.lists|
  {
    hide Valid;
  }

  lemma OneSliceOk(slices: Slices, t: Tid, left: nat)
    requires SlicesOk(slices) && t in slices && 1 <= left <= slices[t].init
    ensures SlicesOk(slices[t := slices[t].(remaining := left)])
  {
  }

  lemma Rotated(list: seq<Tid>)
    requires list != []
    ensures forall t :: t in list[1..] + [list[0]] <==> t in list
  {
    assert list == [list[0]] + list[1..];
  }

  ghost function Ticks(s: Sched, slices: Slices, p: nat, m: nat): (r: (Sched, Slices))
    requires Sharing(s, slices, p)
    ensures Sharing(r.0, r.1, p)
    decreases m
  {
    if m == 0 then (s, slices)
    else
      SpendIs(s, slices, p);
      var (s', slices') := Spend(s, slices);
      Ticks(s', slices', p, m - 1)
  }

  lemma {:induction false} TicksConcat(s: Sched, slices: Slices, p: nat, m: nat, k: nat)
    requires Sharing(s, slices, p)
    ensures var (s', slices') := Ticks(s, slices, p, m);
            Ticks(s, slices, p, m + k) == Ticks(s', slices', p, k)
    decreases m
  {
    hide Sharing, Spend;
    if m > 0 {
      SpendIs(s, slices, p);
      var (s', slices') := Spend(s, slices);
      TicksConcat(s', slices', p, m - 1, k);
    }
  }

  /** While its slice lasts the same thread runs; then the next one does, and the slice is whole again. */
  lemma {:induction false} OneSlice(s: Sched, slices: Slices, p: nat, m: nat)
    requires Sharing(s, slices, p) && s.current in slices && m <= slices[s.current].remaining
    ensures var (s', slices') := Ticks(s, slices, p, m);
            && slices'.Keys == slices.Keys && (forall t :: t in slices && t != s.current ==> slices'[t] == slices[t])
            && if m < slices[s.current].remaining
               then s' == s && slices'[s.current] == slices[s.current].(remaining := slices[s.current].remaining - m)
               else s' == Turn(s, p) && slices'[s.current] == slices[s.current].(remaining := slices[s.current].init)
    decreases m
  {
    hide Sharing, Spend, Turn;
    SlicePositive(s, slices, p);
    if m > 0 {
      SpendIs(s, slices, p);
      var (s', slices') := Spend(s, slices);
      if slices[s.current].remaining > 1 {
        OneSlice(s', slices', p, m - 1);
      }
    }
  }

  lemma SlicePositive(s: Sched, slices: Slices, p: nat)
    requires Sharing(s, slices, p) && s.current in slices
    ensures Leads(s, p) && 1 <= slices[s.current].remaining
  {
    hide Leads;
  }

  /** The time slices of the first k threads of the list together. */
  function Before(list: seq<Tid>, slices: Slices, k: nat): nat
    requires k <= |list| && forall t :: t in list ==> t in slices
  {
    if k == 0 then 0 else Before(list, slices, k - 1) + slices[list[k - 1]].init
  }

  /** All the slices are whole. */
  predicate Whole(slices: Slices) { forall t :: t in slices ==> slices[t].remaining == slices[t].init }

  lemma InShares(s: Sched, slices: Slices, p: nat)
    requires Sharing(s, slices, p)
    ensures p < |s.lists| && (forall t :: t in s.lists[p] ==> t in slices) && s.lists[p] != []
    ensures Leads(s, p) && s.current == s.lists[p][0] && s.current in slices
  {
    hide Valid;
    assert s.lists[p][0] in s.lists[p];
  }

  /** After the slices of the first k threads the list has gone round k times, and all slices are whole. */
  lemma {:induction false} AfterSlices(s: Sched, slices: Slices, p: nat, k: nat)
    requires Sharing(s, slices, p) && Whole(slices)
    requires p < |s.lists| && k <= |s.lists[p]| && forall t :: t in s.lists[p] ==> t in slices
    ensures Leads(s, p) && Ticks(s, slices, p, Before(s.lists[p], slices, k)) == (Turns(s, p, k), slices)
    decreases k
  {
    hide Sharing, Spend, Turn, Ticks, Leads;
    InShares(s, slices, p);
    if k == 0 {
      NoTicks(s, slices, p);
    } else {
      AfterSlices(s, slices, p, k - 1);
      var m, t := Before(s.lists[p], slices, k - 1), s.lists[p][k - 1];
      var s1 := Turns(s, p, k - 1);
      RoundRobin(s, p, k - 1);
      assert t in s.lists[p];
      TicksConcat(s, slices, p, m, slices[t].init);
      OneSlice(s1, slices, p, slices[t].init);
      assert slices[t := slices[t].(remaining := slices[t].init)] == slices;
      SameSlices(Ticks(s1, slices, p, slices[t].init).1, slices, t);
    }
  }

  lemma NoTicks(s: Sched, slices: Slices, p: nat)
    requires Sharing(s, slices, p)
    ensures Ticks(s, slices, p, 0) == (s, slices)
  {
  }

  lemma SameSlices(a: Slices, b: Slices, t: Tid)
    requires a.Keys == b.Keys && t in b && a[t] == b[t] && forall u :: u in b && u != t ==> a[u] == b[u]
    ensures a == b
  {
  }

  /** Round robin with time slices: as long as nothing but the clock happens, the k-th thread of the leading list runs
      from the tick at which the slices before it end, for as many ticks as its own slice has. */
  lemma TimeShared(s: Sched, slices: Slices, p: nat, k: nat, m: nat)
    requires Sharing(s, slices, p) && Whole(slices)
    requires p < |s.lists| && k < |s.lists[p]| && forall t :: t in s.lists[p] ==> t in slices
    requires Before(s.lists[p], slices, k) <= m < Before(s.lists[p], slices, k + 1)
    ensures Ticks(s, slices, p, m).0.current == s.lists[p][k]
  {
    hide Sharing, Spend, Turn, Ticks, Leads, Turns;
    InShares(s, slices, p);
    var m0, s1 := Before(s.lists[p], slices, k), Turns(s, p, k);
    AfterSlices(s, slices, p, k);
    RoundRobin(s, p, k);
    assert s.lists[p][k] in s.lists[p];
    TicksConcat(s, slices, p, m0, m - m0);
    OneSlice(s1, slices, p, m - m0);
  }

  // ----- The code

  class Ticker {
    const core: KernelCode.Core
    const timers: TimerCode.Timers
    var slices: Slices

    ghost predicate Valid()
      reads this, core, core.queues, core.queues.nodes, timers, timers.nodes
    {
      && core.queues.nodes != timers.nodes
      && core.Sound() && Scheduler.Valid(core.Tables()) && timers.Valid()
      && core.current in core.threads && core.current in slices
    }

    /** The clock of a kernel and its timers; the running thread has a time slice. */
    constructor (core: KernelCode.Core, timers: TimerCode.Timers, slices: Slices)
      requires core.queues.nodes != timers.nodes && core.Sound() && Scheduler.Valid(core.Tables()) && timers.Valid()
      requires core.current in core.threads && core.current in slices
      ensures Valid() && this.core == core && this.timers == timers && this.slices == slices
    {
      this.core, this.timers, this.slices := core, timers, slices;
    }

    /** The time slice. */
    method SpendSlice()
      requires core.Sound() && Scheduler.Valid(core.Tables()) && core.current in core.threads && core.current in slices
      modifies this`slices, core`current, core.queues`lists, core.queues`at, core.queues.nodes
      ensures core.Sound() && Scheduler.Valid(core.Tables())
      ensures (core.Tables(), slices) == Spend(old(core.Tables()), old(slices))
    {
      hide Scheduler.Valid, ThreadLists.Linked, YieldNow;
      var thread := core.current;
      var left := (slices[thread].remaining - 1) % WORD;
      slices := slices[thread := slices[thread].(remaining := left)];
      if slices[thread].remaining == 0 {
        slices := slices[thread := slices[thread].(remaining := slices[thread].init)];
        assert slices == old(slices)[thread := old(slices)[thread].(remaining := old(slices)[thread].init)];
        YieldThread();
      }
    }

    /** rt_thread_yield. */
    method YieldThread()
      requires core.Sound() && Scheduler.Valid(core.Tables()) && core.current in core.threads
      modifies core`current, core.queues`lists, core.queues`at, core.queues.nodes
      ensures core.Sound() && Scheduler.Valid(core.Tables()) && core.Tables() == YieldNow(old(core.Tables()))
    {
      hide Scheduler.Valid, ThreadLists.Linked, Bitmap.Zero;
      ShapedIs(core.Tables());
      if Moves(core.Tables()) { MovesIs(core.Tables()); }
      var moved := core.YieldThread();
      if moved { core.Reschedule(); }
    }

    /** rt_tick_increase. */
    method TickIncrease(plan: Timer.Plan) returns (ghost fired: seq<Timer.Id>)
      requires Valid() && Timer.Allowed(timers.View(), Timer.ClockTick(plan))
      modifies this`slices, core`current, core.queues`lists, core.queues`at, core.queues.nodes
      modifies timers`now, timers`timers, timers`list, timers.nodes
      ensures core.Sound() && Scheduler.Valid(core.Tables()) && timers.Valid()
      ensures (core.Tables(), slices) == Spend(old(core.Tables()), old(slices))
      ensures (timers.View(), fired) == Timer.Step(old(timers.View()), Timer.ClockTick(plan))
    {
      hide Scheduler.Valid, ThreadLists.Linked, TimerCode.LinkedIn, Timer.Inv, Timer.Steady, Timer.Check,
           Timer.PlanOk, Spend;
      Timer.StepKeeps(timers.View(), Timer.ClockTick(plan));
      Timer.AdvanceKeeps(timers.View(), 0);
      timers.now := Timer.Plus(timers.now, 1);
      SpendSlice();
      fired := timers.Check(plan);
    }
  }
}
