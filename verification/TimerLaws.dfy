// What each timer service does, branch by branch, and what becomes of a timer that has fired.
module TimerLaws {
  import opened Lists
  import opened CircularList
  import opened Timer

  /** Position k is behind everything earlier and in front of everything later; among equals, behind the first one. */
  ghost predicate PlacedAt(w: Wheel, left: int, k: nat)
    requires k <= |w.list| && forall u :: u in w.list ==> u in w.timers
  {
    && (forall j :: 0 <= j < k ==> Left(w, w.list[j]) <= left)
    && (forall j :: k <= j < |w.list| ==> left <= Left(w, w.list[j]))
    && (forall j :: 0 <= j < k && Left(w, w.list[j]) == left ==> j == k - 1)
    && (k < |w.list| && Left(w, w.list[k]) == left ==> k > 0 && Left(w, w.list[k - 1]) == left)
  }

  /** In w' timer t has its whole time from now on and stands in its place; nothing else has changed. */
  ghost predicate Begun(w: Wheel, w': Wheel, t: Id)
    requires t in w.timers && forall u :: u in w.list ==> u in w.timers
  {
    var c := w.timers[t];
    && w'.now == w.now && t !in w.list
    && w'.timers == w.timers[t := Timer(c.init, Plus(w.now, c.init), c.periodic, true)]
    && exists k: nat :: k <= |w.list| && PlacedAt(w, c.init, k) && w'.list == w.list[..k] + [t] + w.list[k..]
  }

  /** In w' timer t is inactive and off the list, where the others keep their order; nothing else has changed. */
  ghost predicate Ended(w: Wheel, w': Wheel, t: Id)
    requires t in w.timers
  {
    && w'.now == w.now && w'.timers == w.timers[t := w.timers[t].(active := false)]
    && t in w.list && w'.list == w.list[..Find(w.list, t)] + w.list[Find(w.list, t) + 1..] && t !in w'.list
  }

  /** rt_timer_start of an active timer is an error and changes nothing. */
  lemma StartDoes(w: Wheel, late: nat, off: set<Id>, t: Id)
    requires Inv(w, late, off) && late <= MAX_LATE && t in w.timers && t !in off
    ensures var (w', ok) := Start(w, t);
            if w.timers[t].active then !ok && w' == w else ok && Begun(w, w', t)
  {
    hide Left, Place, Distinct, Sorted;
    if !w.timers[t].active { Begins(w, late, off, t); }
  }

  lemma Begins(w: Wheel, late: nat, off: set<Id>, t: Id)
    requires Inv(w, late, off) && late <= MAX_LATE && t in w.timers && !w.timers[t].active
    ensures Start(w, t).1 && Begun(w, Start(w, t).0, t)
  {
    hide Left, Place, Distinct, Sorted;
    PlaceIs(w, late, w.timers[t].init, 0);
    var k := Place(w, Plus(w.now, w.timers[t].init), 0);
    assert PlacedAt(w, w.timers[t].init, k);
  }

  /** rt_timer_stop of an inactive timer is an error and changes nothing. */
  lemma StopDoes(w: Wheel, late: nat, off: set<Id>, t: Id)
    requires Inv(w, late, off) && t in w.timers && t !in off
    ensures var (w', ok) := Stop(w, t);
            if w.timers[t].active then ok && Ended(w, w', t) else !ok && w' == w
  {
    hide Left, Drop, Sorted, Distinct;
    if w.timers[t].active {
      DropAt(w.list, t);
      StopKeeps(w, late, off, t);
    }
  }

  /** The commands of rt_timer_control change their one field, of that timer only. */
  lemma ControlDoes(w: Wheel, t: Id, ticks: Tick, on: bool)
    requires t in w.timers && forall u :: u in w.list ==> u in w.timers
    ensures var c, w' := w.timers[t], Apply(w, SetTime(t, ticks));
            w' == Wheel(w.now, w.timers[t := Timer(ticks, c.timeout, c.periodic, c.active)], w.list)
    ensures var c, w' := w.timers[t], Apply(w, SetPeriodic(t, on));
            w' == Wheel(w.now, w.timers[t := Timer(c.init, c.timeout, on, c.active)], w.list)
  {
  }

  // ----- What becomes of a timer that fires

  /** A round of rt_timer_check: after the callback a periodic timer begins anew, with its whole time from now on,
      unless the callback has stopped it; every other timer is inactive and off the list. */
  lemma FireDoes(w: Wheel, acts: seq<Act>)
    requires Inv(w, MAX_LATE, {}) && w.list != [] && CallbackOk(w, acts)
    ensures Inv(TakeFirst(w), MAX_LATE, w.timers.Keys) && LegalActs(TakeFirst(w), acts)
    ensures var (t, w2, w') := (w.list[0], ApplyAll(TakeFirst(w), acts), Fire(w, acts));
            && t in w2.timers && t !in w2.list && (forall u :: u in w2.list ==> u in w2.timers)
            && if w2.timers[t].periodic && DoStop(t) !in acts then Begun(w2, w', t)
               else w' == Wheel(w2.now, w2.timers[t := w2.timers[t].(active := false)], w2.list)
  {
    hide Left, Sorted, Distinct, Start, OwnAfter, Restarts;
    var t, w1 := w.list[0], TakeFirst(w);
    TakeFirstKeeps(w, MAX_LATE);
    ApplyAllKeeps(w1, MAX_LATE, {t}, acts);
    ActsOwn(w1, acts, t, Off);
    OwnIs(acts, t);
    var w2 := ApplyAll(w1, acts);
    var w3 := w2.(timers := w2.timers[t := w2.timers[t].(active := false)]);
    Deactivated(w2, MAX_LATE, t);
    Begins(w3, MAX_LATE, {}, t);
    SameLeft(w2, w3, HEAD);
    SamePlaces(w2, w3, t);
  }

  lemma SamePlaces(w2: Wheel, w3: Wheel, t: Id)
    requires (forall u :: u in w2.list ==> u in w2.timers) && t in w2.timers && w3.list == w2.list && w3.now == w2.now
    requires w3.timers == w2.timers[t := w2.timers[t].(active := false)]
    requires forall u :: u in w2.timers ==> Left(w3, u) == Left(w2, u)
    ensures forall w' :: Begun(w3, w', t) ==> Begun(w2, w', t)
  {
    hide Left, PlacedAt;
    forall k: nat | k <= |w2.list| ensures PlacedAt(w3, w2.timers[t].init, k) ==> PlacedAt(w2, w2.timers[t].init, k) {
      SamePlace(w2, w3, w2.timers[t].init, k);
    }
    assert w3.timers[t := w2.timers[t]] == w2.timers;
  }

  lemma SamePlace(w2: Wheel, w3: Wheel, left: int, k: nat)
    requires (forall u :: u in w2.list ==> u in w2.timers) && w3.list == w2.list && w2.timers.Keys == w3.timers.Keys
    requires forall u :: u in w2.timers ==> Left(w3, u) == Left(w2, u)
    requires k <= |w2.list|
    ensures PlacedAt(w3, left, k) ==> PlacedAt(w2, left, k)
  {
    hide Left;
    assert forall j :: 0 <= j < |w2.list| ==> Left(w3, w2.list[j]) == Left(w2, w2.list[j]);
  }

  /** No callback has to do with timer t. */
  predicate LeavesAlone(acts: seq<Act>, t: Id) { forall a :: a in acts ==> a.t != t }

  predicate PlanLeavesAlone(plan: Plan, t: Id) { forall acts :: acts in plan ==> LeavesAlone(acts, t) }

  /** Timer t is as it was, and in the list as before. */
  ghost predicate Aside(w: Wheel, w': Wheel, t: Id) {
    t in w.timers && t in w'.timers && w'.timers[t] == w.timers[t] && (t in w'.list <==> t in w.list)
  }

  lemma ApplyAside(w: Wheel, a: Act, t: Id)
    requires Inv(w, MAX_LATE, w.timers.Keys) && Legal(w, a) && a.t != t && t in w.timers
    ensures Aside(w, Apply(w, a), t)
  {
    hide Left, Place, Inserted, Drop, Sorted, Distinct;
    match a
    case DoStart(u) => if !w.timers[u].active { StartIs(w, MAX_LATE, u); }
    case DoStop(u) => if w.timers[u].active { DropOne(w.list, u); }
    case _ =>
  }

  lemma {:induction false} AllAside(w: Wheel, acts: seq<Act>, t: Id)
    requires Inv(w, MAX_LATE, w.timers.Keys) && LegalActs(w, acts) && LeavesAlone(acts, t) && t in w.timers
    ensures Aside(w, ApplyAll(w, acts), t)
    decreases |acts|
  {
    hide Inv, Apply, Left;
    if acts != [] {
      ListedKnown(w, MAX_LATE, w.timers.Keys);
      ApplyAside(w, acts[0], t);
      ApplyKeeps(w, MAX_LATE, w.timers.Keys, acts[0]);
      AllAside(Apply(w, acts[0]), acts[1..], t);
    }
  }

  /** A round for another timer leaves t alone. */
  lemma FireAside(w: Wheel, acts: seq<Act>, t: Id)
    requires Inv(w, MAX_LATE, {}) && w.list != [] && CallbackOk(w, acts)
    requires LeavesAlone(acts, t) && t in w.timers && t != w.list[0]
    ensures Aside(w, Fire(w, acts), t)
  {
    hide Inv, Left, Fire, ApplyAll, PlacedAt;
    TakeFirstKeeps(w, MAX_LATE);
    AllAside(TakeFirst(w), acts, t);
    FireDoes(w, acts);
    assert t in w.list <==> t in TakeFirst(w).list by { assert w.list == [w.list[0]] + w.list[1..]; }
  }

  /** What a check makes of a timer that is due, and that no callback has to do with: periodic, it is in the list again
      with its whole period left; one-shot, it is inactive and off the list. */
  ghost predicate Fired(w: Wheel, w': Wheel, t: Id)
    requires t in w.timers
  {
    && t in w'.timers
    && if w.timers[t].periodic then
         t in w'.list && w'.timers[t] == Timer(w.timers[t].init, Plus(w.now, w.timers[t].init), true, true)
         && Left(w', t) == w.timers[t].init
       else t !in w'.list && w'.timers[t] == w.timers[t].(active := false)
  }

  lemma FirstFired(w: Wheel, acts: seq<Act>)
    requires Inv(w, MAX_LATE, {}) && w.list != [] && CallbackOk(w, acts) && LeavesAlone(acts, w.list[0])
    ensures w.list[0] in w.timers && Fired(w, Fire(w, acts), w.list[0])
  {
    hide Inv, Left, Fire, PlacedAt, ApplyAll;
    var t := w.list[0];
    TakeFirstKeeps(w, MAX_LATE);
    assert t in w.list;
    AllAside(TakeFirst(w), acts, t);
    KeepsNow(w, acts);
    FireDoes(w, acts);
    HasInit(w, t);
    if w.timers[t].periodic { NewLeft(Fire(w, acts), t); }
  }

  lemma KeepsNow(w: Wheel, acts: seq<Act>)
    requires Inv(w, MAX_LATE, {}) && w.list != [] && CallbackOk(w, acts)
    ensures Inv(TakeFirst(w), MAX_LATE, w.timers.Keys) && ApplyAll(TakeFirst(w), acts).now == w.now
  {
    TakeFirstKeeps(w, MAX_LATE);
    hide Inv;
    ApplyAllKeeps(TakeFirst(w), MAX_LATE, {w.list[0]}, acts);
  }

  lemma HasInit(w: Wheel, t: Id)
    requires Inv(w, MAX_LATE, {}) && t in w.timers
    ensures w.timers[t].init < HALF
  {
  }

  lemma {:induction false} CheckLeavesAlone(w: Wheel, plan: Plan, t: Id)
    requires Inv(w, MAX_LATE, {}) && Steady(w) && PlanOk(w, plan) && PlanLeavesAlone(plan, t) && t in w.timers
    requires t in w.list ==> Left(w, t) > 0
    ensures Aside(w, Check(w, plan).0, t) && t !in Check(w, plan).1
    decreases |DueSet(w)|
  {
    hide Inv, Left, Due, Fire, CallbackOk, Steady, PlanLeavesAlone;
    ListedKnown(w, MAX_LATE, {});
    DueIffs(w, MAX_LATE);
    if MustFire(w) {
      var w1 := Fire(w, First(plan));
      FireKeeps(w, MAX_LATE, First(plan));
      AloneParts(plan, t);
      FireAside(w, First(plan), t);
      SameTime(w, w1, t);
      CheckLeavesAlone(w1, Rest(plan), t);
    }
  }

  lemma AloneParts(plan: Plan, t: Id)
    requires PlanLeavesAlone(plan, t)
    ensures LeavesAlone(First(plan), t) && PlanLeavesAlone(Rest(plan), t)
  {
    assert First(plan) in plan || First(plan) == [];
  }

  lemma SameTime(w: Wheel, w': Wheel, t: Id)
    requires Aside(w, w', t) && w'.now == w.now
    ensures Left(w', t) == Left(w, t)
  {
  }

  lemma {:induction false} CheckFires(w: Wheel, plan: Plan, t: Id)
    requires Inv(w, MAX_LATE, {}) && Steady(w) && PlanOk(w, plan) && PlanLeavesAlone(plan, t)
    requires t in w.list && t in w.timers && Left(w, t) <= 0
    ensures Fired(w, Check(w, plan).0, t)
    decreases |DueSet(w)|
  {
    hide Inv, Left, Due, Fire, CallbackOk, PlanLeavesAlone;
    ListedKnown(w, MAX_LATE, {});
    DueIffs(w, MAX_LATE);
    DueFirst(w, MAX_LATE);
    var w1 := Fire(w, First(plan));
    FireKeeps(w, MAX_LATE, First(plan));
    AloneParts(plan, t);
    if t == w.list[0] {
      FirstFired(w, First(plan));
      CheckLeavesAlone(w1, Rest(plan), t);
      CheckNow(w1, Rest(plan));
      SameTime(w1, Check(w1, Rest(plan)).0, t);
    } else {
      FireAside(w, First(plan), t);
      SameTime(w, w1, t);
      CheckFires(w1, Rest(plan), t);
    }
  }

  lemma CheckNow(w: Wheel, plan: Plan)
    requires Inv(w, MAX_LATE, {}) && Steady(w) && PlanOk(w, plan)
    ensures Check(w, plan).0.now == w.now
  {
    hide Inv, Check, PlanOk;
    CheckIs(w, MAX_LATE, plan);
  }

  /** Every period: a periodic timer that fires at one tick, and that nobody has to do with, does not fire in the ticks
      before its period is over, and fires again at the tick that ends it. */
  lemma EveryPeriod(w: Wheel, t: Id, plan: Plan, ops: seq<Op>, plan': Plan)
    requires Inv(w, 0, {}) && Steady(w) && t in w.list && t in w.timers && w.timers[t].periodic && Left(w, t) <= 1
    requires Allowed(w, ClockTick(plan)) && PlanLeavesAlone(plan, t)
    requires Inv(Step(w, ClockTick(plan)).0, 0, {}) && Steady(Step(w, ClockTick(plan)).0)
    requires AllowedRun(Step(w, ClockTick(plan)).0, ops)
    requires (forall op :: op in ops ==> !Stops(op, t)) && Ticks(ops) == w.timers[t].init - 1
    requires Allowed(Run(Step(w, ClockTick(plan)).0, ops).0, ClockTick(plan')) && !StopsOne(plan', t)
    ensures t in Step(w, ClockTick(plan)).1
    ensures t !in Run(Step(w, ClockTick(plan)).0, ops).1
    ensures t in Step(Run(Step(w, ClockTick(plan)).0, ops).0, ClockTick(plan')).1
  {
    hide Inv, Left, Steady, Run, AllowedRun, Check, PlanOk, StopsOne, PlanLeavesAlone;
    AloneNotStopped(plan, t);
    ClockTickIs(w, plan, t);
    AdvanceKeeps(w, 0);
    CheckFires(Advance(w), plan, t);
    var w1 := Step(w, ClockTick(plan)).0;
    NeverEarly(w1, ops, t);
    ClockTickIs(Run(w1, ops).0, plan', t);
  }

  lemma AloneNotStopped(plan: Plan, t: Id)
    requires PlanLeavesAlone(plan, t)
    ensures !StopsOne(plan, t)
  {
    forall acts | acts in plan ensures DoStop(t) !in acts { assert LeavesAlone(acts, t); }
  }
}
