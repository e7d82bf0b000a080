// The timer list of thread_pool/rt-thread/src/timer.c, sorted by timeouts that wrap
// round at 2^32, and the check that the clock interrupt makes on every tick.
module Timer {
  import opened Lists
  import opened CircularList

  const WORD := 0x1_0000_0000
  const HALF := 0x7FFF_FFFF     // RT_TICK_MAX / 2
  const HEAD: Id := 0           // the list head's node
  const MAX_LATE := 3

  type Tick = n: nat | n < 0x1_0000_0000
  type Id = int

  /** Differences and sums of rt_tick_t. */
  function Minus(a: Tick, b: Tick): Tick { if a >= b then a - b else a - b + WORD }
  function Plus(a: Tick, b: Tick): Tick { if a + b < WORD then a + b else a + b - WORD }

  datatype Timer = Timer(init: Tick, timeout: Tick, periodic: bool, active: bool)

  /** now is rt_tick, list is rt_timer_list. */
  datatype Wheel = Wheel(now: Tick, timers: map<Id, Timer>, list: seq<Id>)

  /** Ticks until the timeout; negative when it has passed. */
  function Left(w: Wheel, t: Id): int
    requires t in w.timers
  {
    var d := Minus(w.timers[t].timeout, w.now);
    if d <= HALF then d else d - WORD
  }

  /** The test of rt_timer_check. */
  predicate Due(w: Wheel, t: Id)
    requires t in w.timers
  {
    Minus(w.now, w.timers[t].timeout) < HALF
  }

  // ----- The invariant

  ghost predicate Listed(w: Wheel, late: nat) {
    && Distinct(w.list)
    && forall t :: t in w.list ==> t in w.timers && w.timers[t].active && Left(w, t) + late >= 0 && Left(w, t) < HALF
  }

  ghost predicate Sorted(w: Wheel)
    requires forall t :: t in w.list ==> t in w.timers
  {
    forall i, j :: 0 <= i <= j < |w.list| ==> Left(w, w.list[i]) <= Left(w, w.list[j])
  }

  /** The list is sorted, no timeout in it is more than late ticks ago, and the active timers are the listed ones;
      timers in off may be active without being listed. */
  ghost predicate Inv(w: Wheel, late: nat, off: set<Id>) {
    && Listed(w, late) && Sorted(w)
    && forall t :: t in w.timers ==>
         t != HEAD && w.timers[t].init < HALF && (w.timers[t].active && t !in off ==> t in w.list)
  }

  /** Periodic timers have a period. */
  ghost predicate Steady(w: Wheel) {
    forall t :: t in w.timers && w.timers[t].periodic ==> w.timers[t].init > 0
  }

  /** rt_system_timer_init, and timers that have been initialised but not started. */
  lemma InitInv(w: Wheel)
    requires w.list == []
    requires forall t :: t in w.timers ==>
               t != HEAD && !w.timers[t].active && w.timers[t].init < HALF
               && (w.timers[t].periodic ==> w.timers[t].init > 0)
    ensures Inv(w, 0, {}) && Steady(w)
  {
  }

  // ----- The services

  /** Where the loop of rt_timer_start puts a timer with timeout x, from position i on. */
  function Place(w: Wheel, x: Tick, i: nat): nat
    requires i <= |w.list| && forall t :: t in w.list ==> t in w.timers
    ensures i <= Place(w, x, i) <= |w.list|
    decreases |w.list| - i
  {
    if i == |w.list| then i
    else
      var t := w.list[i];
      assert t in w.list;
      var d := Minus(w.timers[t].timeout, x);
      if d == 0 then i + 1 else if d < HALF then i else Place(w, x, i + 1)
  }

  /** rt_timer_start. */
  function Start(w: Wheel, t: Id): (Wheel, bool)
    requires t in w.timers && forall u :: u in w.list ==> u in w.timers
  {
    var c := w.timers[t];
    if c.active then (w, false)
    else
      var x := Plus(w.now, c.init);
      (w.(timers := w.timers[t := c.(timeout := x, active := true)], list := Inserted(w.list, Place(w, x, 0), t)), true)
  }

  /** rt_timer_stop. */
  function Stop(w: Wheel, t: Id): (Wheel, bool)
    requires t in w.timers
  {
    var c := w.timers[t];
    if !c.active then (w, false)
    else (w.(timers := w.timers[t := c.(active := false)], list := Drop(w.list, t)), true)
  }

  /** Starting and stopping timers, and the commands of rt_timer_control that change them. */
  datatype Act = DoStart(t: Id) | DoStop(t: Id) | SetTime(t: Id, ticks: Tick) | SetPeriodic(t: Id, on: bool)

  predicate Legal(w: Wheel, a: Act) {
    && a.t in w.timers && (a.SetTime? ==> a.ticks < HALF)
    && (a.SetTime? && w.timers[a.t].periodic ==> a.ticks > 0)
    && (a.SetPeriodic? && a.on ==> w.timers[a.t].init > 0)
  }

  function Apply(w: Wheel, a: Act): Wheel
    requires a.t in w.timers && forall u :: u in w.list ==> u in w.timers
  {
    match a
    case DoStart(t) => Start(w, t).0
    case DoStop(t) => Stop(w, t).0
    case SetTime(t, ticks) => w.(timers := w.timers[t := w.timers[t].(init := ticks)])
    case SetPeriodic(t, on) => w.(timers := w.timers[t := w.timers[t].(periodic := on)])
  }

  // ----- Starting and stopping keep the list sorted

  /** What the two comparisons of the loop mean, while no listed timeout is more than three ticks ago. */
  lemma Compare(w: Wheel, t: Id, init: Tick)
    requires t in w.timers && -MAX_LATE <= Left(w, t) < HALF && init < HALF
    ensures var d := Minus(w.timers[t].timeout, Plus(w.now, init));
            (d == 0 <==> Left(w, t) == init) && (d < HALF <==> Left(w, t) >= init)
  {
  }

  lemma DueIff(w: Wheel, t: Id)
    requires t in w.timers && -MAX_LATE <= Left(w, t) < HALF
    ensures Due(w, t) <==> Left(w, t) <= 0
  {
  }

  lemma NewLeft(w: Wheel, t: Id)
    requires t in w.timers && w.timers[t].timeout == Plus(w.now, w.timers[t].init) && w.timers[t].init < HALF
    ensures Left(w, t) == w.timers[t].init
  {
  }

  /** The new timer goes behind everything earlier and in front of everything later; among equals, behind the
      first one. */
  lemma {:induction false} PlaceIs(w: Wheel, late: nat, init: Tick, i: nat)
    requires Listed(w, late) && Sorted(w) && late <= MAX_LATE && init < HALF && i <= |w.list|
    requires forall j :: 0 <= j < i ==> Left(w, w.list[j]) < init
    ensures var k := Place(w, Plus(w.now, init), i);
            && (forall j :: 0 <= j < k ==> Left(w, w.list[j]) <= init)
            && (forall j :: k <= j < |w.list| ==> Left(w, w.list[j]) >= init)
            && (forall j :: 0 <= j < k && Left(w, w.list[j]) == init ==> j == k - 1)
            && (k < |w.list| && Left(w, w.list[k]) == init ==> k > 0 && Left(w, w.list[k - 1]) == init)
    decreases |w.list| - i
  {
    hide Left, Distinct;
    if i < |w.list| {
      Compare(w, w.list[i], init);
      if Left(w, w.list[i]) < init { PlaceIs(w, late, init, i + 1); }
    }
  }

  /** Only the started timer is new in the list, with its whole time left. */
  lemma StartIs(w: Wheel, late: nat, t: Id)
    requires Listed(w, late) && late <= MAX_LATE && t in w.timers && w.timers[t].init < HALF
    requires !w.timers[t].active
    ensures var w' := Start(w, t).0;
            && Listed(w', late) && Left(w', t) == w.timers[t].init
            && (forall u :: u in w.list ==> u in w'.list && u != t)
            && (forall u :: u in w.timers && u != t ==> Left(w', u) == Left(w, u))
            && (forall u :: u in w'.list ==> u in w.list || u == t)
  {
    hide Left, Place, Inserted, Distinct;
    var c, w' := w.timers[t], Start(w, t).0;
    InsertedMembers(w.list, Place(w, Plus(w.now, c.init), 0), t);
    SameLeft(w, w', t);
    NewLeft(w', t);
  }

  lemma StartSorted(w: Wheel, late: nat, t: Id)
    requires Listed(w, late) && Sorted(w) && late <= MAX_LATE && t in w.timers && w.timers[t].init < HALF
    requires !w.timers[t].active
    ensures Listed(Start(w, t).0, late) && Sorted(Start(w, t).0)
  {
    hide Left, Place, Inserted, Distinct;
    StartIs(w, late, t);
    var c, w' := w.timers[t], Start(w, t).0;
    var k := Place(w, Plus(w.now, c.init), 0);
    PlaceIs(w, late, c.init, 0);
    forall i, j | 0 <= i <= j < |w'.list| ensures Left(w', w'.list[i]) <= Left(w', w'.list[j]) {
      StartAt(w, late, t, i);
      StartAt(w, late, t, j);
    }
  }

  /** The ticks left at position i, once t has been started. */
  lemma StartAt(w: Wheel, late: nat, t: Id, i: nat)
    requires Listed(w, late) && late <= MAX_LATE && t in w.timers && w.timers[t].init < HALF && !w.timers[t].active
    requires i < |w.list| + 1
    ensures var w', k := Start(w, t).0, Place(w, Plus(w.now, w.timers[t].init), 0);
            && |w'.list| == |w.list| + 1 && w'.list[i] in w'.timers
            && (i < k ==> Left(w', w'.list[i]) == Left(w, w.list[i]))
            && (i == k ==> Left(w', w'.list[i]) == w.timers[t].init)
            && (i > k ==> Left(w', w'.list[i]) == Left(w, w.list[i - 1]))
  {
    hide Left, Place, Inserted, Distinct;
    StartIs(w, late, t);
    var w', k := Start(w, t).0, Place(w, Plus(w.now, w.timers[t].init), 0);
    if i < k { assert w.list[i] in w.list; }
    if i > k { assert w.list[i - 1] in w.list; }
  }

  lemma StartKeeps(w: Wheel, late: nat, off: set<Id>, t: Id)
    requires Inv(w, late, off) && late <= MAX_LATE && t in w.timers
    ensures Inv(Start(w, t).0, late, off)
    ensures forall u :: u in w.list ==> u in Start(w, t).0.list && Left(Start(w, t).0, u) == Left(w, u)
    ensures forall u :: u in Start(w, t).0.list ==>
        u in w.list || (u == t && Left(Start(w, t).0, u) == w.timers[t].init)
  {
    hide Left, Place, Inserted, Distinct, Sorted;
    if !w.timers[t].active {
      StartIs(w, late, t);
      StartSorted(w, late, t);
    }
  }

  lemma InsertedMembers(list: seq<Id>, k: nat, t: Id)
    requires Distinct(list) && k <= |list| && t !in list
    ensures Distinct(Inserted(list, k, t)) && forall u :: u in Inserted(list, k, t) <==> u in list || u == t
  {
    var r := Inserted(list, k, t);
    assert forall i :: 0 <= i < |list| ==> list[i] == r[if i < k then i else i + 1];
  }

  /** The ticks left of the other timers do not change. */
  lemma SameLeft(w: Wheel, w': Wheel, t: Id)
    requires w'.now == w.now && w.timers.Keys <= w'.timers.Keys
    requires forall u :: u in w.timers && u != t ==> w'.timers[u].timeout == w.timers[u].timeout
    ensures forall u :: u in w.timers && u != t ==> Left(w', u) == Left(w, u)
  {
  }

  lemma DropSorted(w: Wheel, w': Wheel, t: Id)
    requires forall u :: u in w.list ==> u in w.timers && u in w'.timers
    requires Distinct(w.list) && Sorted(w) && w'.list == Drop(w.list, t)
    requires forall u :: u in w'.list ==> Left(w', u) == Left(w, u)
    ensures forall u :: u in w'.list ==> u in w.list
    ensures Sorted(w')
  {
    hide Left, Drop, Find;
    DropOne(w.list, t);
  }

  lemma StopKeeps(w: Wheel, late: nat, off: set<Id>, t: Id)
    requires Inv(w, late, off) && t in w.timers
    ensures Inv(Stop(w, t).0, late, off) && t !in Stop(w, t).0.list
    ensures forall u :: u in Stop(w, t).0.list <==> u in w.list && u != t
    ensures forall u :: u in w.timers ==> Left(Stop(w, t).0, u) == Left(w, u)
  {
    hide Drop, Distinct;
    DropOne(w.list, t);
    if w.timers[t].active { DropSorted(w, Stop(w, t).0, t); }
  }

  /** No act touches the clock, or the ticks left of a listed timer. */
  lemma ApplyKeeps(w: Wheel, late: nat, off: set<Id>, a: Act)
    requires Inv(w, late, off) && late <= MAX_LATE && Legal(w, a)
    ensures var w' := Apply(w, a);
            && Inv(w', late, off) && (Steady(w) ==> Steady(w')) && w'.now == w.now && w'.timers.Keys == w.timers.Keys
            && (forall u :: u in w.list && a != DoStop(u) ==> u in w'.list && Left(w', u) == Left(w, u))
            && (forall u :: u in w'.list ==> u in w.list || (a == DoStart(u) && Left(w', u) == w.timers[u].init))
            && (forall u :: u in w'.list && u in w.list ==> Left(w', u) == Left(w, u))
  {
    hide Left, Start, Stop, Distinct;
    match a
    case DoStart(t) => StartKeeps(w, late, off, t); ChangesOne(w, a);
    case DoStop(t) => StopKeeps(w, late, off, t); ChangesOne(w, a);
    case SetTime(t, ticks) => SameLeft(w, Apply(w, a), HEAD);
    case SetPeriodic(t, on) => SameLeft(w, Apply(w, a), HEAD);
  }

  lemma ChangesOne(w: Wheel, a: Act)
    requires a.t in w.timers && forall u :: u in w.list ==> u in w.timers
    requires a.DoStart? || a.DoStop?
    ensures var w' := Apply(w, a);
            && w'.now == w.now && w'.timers.Keys == w.timers.Keys
            && forall u :: u in w.timers ==>
               w'.timers[u].init == w.timers[u].init && w'.timers[u].periodic == w.timers[u].periodic
  {
  }

  /** A new timer is called after all timers with the same timeout exactly when there is at most one of them. */
  lemma LastAmongEqualsIff(w: Wheel, t: Id)
    requires Inv(w, 0, {}) && t in w.timers && !w.timers[t].active
    ensures var k := Place(w, Plus(w.now, w.timers[t].init), 0);
            && k < |Start(w, t).0.list| && Start(w, t).0.list[k] == t
            && ((forall j :: k <= j < |w.list| ==> Left(w, w.list[j]) != w.timers[t].init) <==>
                  !exists i, j :: 0 <= i < j < |w.list| && Left(w, w.list[i]) == w.timers[t].init == Left(w, w.list[j]))
  {
    hide Left, Place, Inserted, Distinct;
    var k, init := Place(w, Plus(w.now, w.timers[t].init), 0), w.timers[t].init;
    PlaceIs(w, 0, init, 0);
    if j :| k <= j < |w.list| && Left(w, w.list[j]) == init {
      assert Left(w, w.list[k]) == init;
      assert Left(w, w.list[k - 1]) == init;
    }
  }

  // ----- The check

  /** The callback of timer t, which the check has taken off the list, may start, stop and change timers. */
  predicate LegalInside(w: Wheel, a: Act) {
    Legal(w, a) && (a.DoStart? ==> w.timers[a.t].init > 0)
  }

  ghost predicate LegalActs(w: Wheel, acts: seq<Act>)
    requires Inv(w, MAX_LATE, w.timers.Keys)
    decreases |acts|
  {
    acts != [] ==> LegalInside(w, acts[0]) && (ApplyKeeps(w, MAX_LATE, w.timers.Keys, acts[0]);
                                               LegalActs(Apply(w, acts[0]), acts[1..]))
  }

  ghost function ApplyAll(w: Wheel, acts: seq<Act>): Wheel
    requires Inv(w, MAX_LATE, w.timers.Keys) && LegalActs(w, acts)
    decreases |acts|
  {
    if acts == [] then w else ApplyKeeps(w, MAX_LATE, w.timers.Keys, acts[0]); ApplyAll(Apply(w, acts[0]), acts[1..])
  }

  lemma Widen(w: Wheel, late: nat, off: set<Id>)
    requires Inv(w, late, off) && late <= MAX_LATE
    ensures Inv(w, MAX_LATE, w.timers.Keys)
  {
    hide Left, Distinct;
  }

  lemma {:induction false} ApplyAllKeeps(w: Wheel, late: nat, off: set<Id>, acts: seq<Act>)
    requires Inv(w, late, off) && late <= MAX_LATE && Inv(w, MAX_LATE, w.timers.Keys) && LegalActs(w, acts)
    ensures var w' := ApplyAll(w, acts);
            && Inv(w', late, off) && (Steady(w) ==> Steady(w')) && w'.now == w.now && w'.timers.Keys == w.timers.Keys
            && (forall u :: u in w.list && DoStop(u) !in acts ==> u in w'.list && Left(w', u) == Left(w, u))
            && (forall u :: u in w'.list ==> (u in w.list && Left(w', u) == Left(w, u)) || Left(w', u) > 0)
    decreases |acts|
  {
    hide Inv, Left, Apply, Steady;
    if acts != [] {
      ListedKnown(w, late, off);
      var w1 := Apply(w, acts[0]);
      ApplyKeeps(w, late, off, acts[0]);
      Widen(w1, late, off);
      ListedKnown(w1, late, off);
      ApplyAllKeeps(w1, late, off, acts[1..]);
      ListedKnown(ApplyAll(w, acts), late, off);
    }
  }

  lemma ListedKnown(w: Wheel, late: nat, off: set<Id>)
    requires Inv(w, late, off)
    ensures forall u :: u in w.list ==> u in w.timers
  {
  }

  /** The first timer is off the list while its callback runs. */
  function TakeFirst(w: Wheel): Wheel
    requires w.list != []
  {
    w.(list := w.list[1..])
  }

  lemma TakeFirstKeeps(w: Wheel, late: nat)
    requires Inv(w, late, {}) && late <= MAX_LATE && w.list != []
    ensures Inv(TakeFirst(w), late, {w.list[0]}) && Inv(TakeFirst(w), MAX_LATE, w.timers.Keys)
    ensures w.list[0] !in TakeFirst(w).list
    ensures forall u :: u in w.list ==> u in w.timers
    ensures forall u :: u in w.list && u != w.list[0] ==> u in TakeFirst(w).list
    ensures forall u :: u in w.timers ==> Left(TakeFirst(w), u) == Left(w, u)
  {
    hide Left;
    SameLeft(w, TakeFirst(w), HEAD);
    assert w.list == [w.list[0]] + w.list[1..];
  }

  /** The end of a round of rt_timer_check: a periodic timer is started again, unless its callback stopped it. */
  function Finish(w: Wheel, t: Id): Wheel
    requires t in w.timers && forall u :: u in w.list ==> u in w.timers
  {
    var c := w.timers[t];
    var w1 := w.(timers := w.timers[t := c.(active := false)]);
    if c.periodic && c.active then Start(w1, t).0 else w1
  }

  ghost predicate CallbackOk(w: Wheel, acts: seq<Act>)
    requires Inv(w, MAX_LATE, {}) && w.list != []
  {
    TakeFirstKeeps(w, MAX_LATE);
    LegalActs(TakeFirst(w), acts) && w.list[0] !in ApplyAll(TakeFirst(w), acts).list
  }

  /** One round of the loop of rt_timer_check. */
  ghost function Fire(w: Wheel, acts: seq<Act>): Wheel
    requires Inv(w, MAX_LATE, {}) && w.list != [] && CallbackOk(w, acts)
  {
    TakeFirstKeeps(w, MAX_LATE);
    ApplyAllKeeps(TakeFirst(w), MAX_LATE, {w.list[0]}, acts);
    Finish(ApplyAll(TakeFirst(w), acts), w.list[0])
  }

  lemma FinishNeedsUnlisted(w: Wheel, late: nat, t: Id)
    requires Inv(w, late, {t}) && late <= MAX_LATE && t in w.timers
    ensures Inv(Finish(w, t), late, {}) <==> t !in w.list
  {
    hide Left, Place, Inserted, Distinct, Start;
    var w1 := w.(timers := w.timers[t := w.timers[t].(active := false)]);
    SameLeft(w, w1, HEAD);
    if t !in w.list {
      assert Inv(w1, late, {});
      StartKeeps(w1, late, {}, t);
    } else if w.timers[t].periodic && w.timers[t].active {
      LinkedTwice(w1, t);
    }
  }

  /** What the acts of a callback have made of its own timer, which is still active but off the list at first. */
  datatype Own = Off | Stopped | Relisted

  function NextOwn(o: Own, a: Act, t: Id): Own {
    if a == DoStop(t) then Stopped else if a == DoStart(t) && o == Stopped then Relisted else o
  }

  function OwnAfter(o: Own, acts: seq<Act>, t: Id): Own
    decreases |acts|
  {
    if acts == [] then o else OwnAfter(NextOwn(o, acts[0], t), acts[1..], t)
  }

  ghost predicate HasOwn(w: Wheel, t: Id, o: Own) {
    t in w.timers && (w.timers[t].active <==> o != Stopped) && (t in w.list <==> o == Relisted)
  }

  lemma ActOwn(w: Wheel, a: Act, t: Id, o: Own)
    requires Inv(w, MAX_LATE, w.timers.Keys) && Legal(w, a) && HasOwn(w, t, o)
    ensures HasOwn(Apply(w, a), t, NextOwn(o, a, t))
  {
    hide Left, Place, Inserted, Drop, Sorted, Distinct;
    match a
    case DoStart(u) => if !w.timers[u].active { StartIs(w, MAX_LATE, u); AlsoListed(w, u); }
    case DoStop(u) => if w.timers[u].active { assert Distinct(w.list); DropOne(w.list, u); }
    case _ =>
  }

  lemma AlsoListed(w: Wheel, t: Id)
    requires t in w.timers && !w.timers[t].active && forall u :: u in w.list ==> u in w.timers
    ensures t in Start(w, t).0.list
  {
    hide Place, Inserted;
    var x := Plus(w.now, w.timers[t].init);
    assert Inserted(w.list, Place(w, x, 0), t)[Place(w, x, 0)] == t;
  }

  lemma {:induction false} ActsOwn(w: Wheel, acts: seq<Act>, t: Id, o: Own)
    requires Inv(w, MAX_LATE, w.timers.Keys) && LegalActs(w, acts) && HasOwn(w, t, o)
    ensures HasOwn(ApplyAll(w, acts), t, OwnAfter(o, acts, t))
    decreases |acts|
  {
    hide Inv, Apply, HasOwn, NextOwn;
    if acts != [] {
      ListedKnown(w, MAX_LATE, w.timers.Keys);
      ActOwn(w, acts[0], t, o);
      ApplyKeeps(w, MAX_LATE, w.timers.Keys, acts[0]);
      ActsOwn(Apply(w, acts[0]), acts[1..], t, NextOwn(o, acts[0], t));
    }
  }

  /** Act j starts timer t after it has been stopped, and it is not stopped any more. */
  predicate Restarts(acts: seq<Act>, j: nat, t: Id) {
    j < |acts| && acts[j] == DoStart(t) && DoStop(t) in acts[..j] && DoStop(t) !in acts[j..]
  }

  lemma {:induction false} OwnIs(acts: seq<Act>, t: Id)
    ensures var o := OwnAfter(Off, acts, t);
            && (o == Off <==> DoStop(t) !in acts)
            && (o == Relisted <==> exists j: nat :: Restarts(acts, j, t))
    decreases |acts|
  {
    hide OwnAfter, NextOwn;
    var n := |acts| - 1;
    if acts == [] {
      assert OwnAfter(Off, [], t) == Off by { NoActs(t); }
    } else {
      OwnIs(acts[..n], t);
      OwnLast(Off, acts, t);
      OwnStep(acts, t);
    }
  }

  lemma NoActs(t: Id)
    ensures OwnAfter(Off, [], t) == Off
  {
  }

  lemma {:induction false} OwnLast(o: Own, acts: seq<Act>, t: Id)
    requires acts != []
    ensures OwnAfter(o, acts, t) == NextOwn(OwnAfter(o, acts[..|acts| - 1], t), acts[|acts| - 1], t)
    decreases |acts|
  {
    hide NextOwn;
    if |acts| > 1 {
      OwnLast(NextOwn(o, acts[0], t), acts[1..], t);
      assert acts[1..][..|acts| - 2] == acts[..|acts| - 1][1..];
    }
  }

  lemma OwnStep(acts: seq<Act>, t: Id)
    requires acts != []
    requires var pre := acts[..|acts| - 1]; var o := OwnAfter(Off, pre, t);
             && OwnAfter(Off, acts, t) == NextOwn(o, acts[|acts| - 1], t)
             && (o == Off <==> DoStop(t) !in pre) && (o == Relisted <==> exists j: nat :: Restarts(pre, j, t))
    ensures var o := OwnAfter(Off, acts, t);
            && (o == Off <==> DoStop(t) !in acts)
            && (o == Relisted <==> exists j: nat :: Restarts(acts, j, t))
  {
    hide OwnAfter, Restarts;
    var n := |acts| - 1;
    var pre, a := acts[..n], acts[n];
    assert acts == pre + [a];
    if a == DoStop(t) {
      forall j: nat ensures !Restarts(acts, j, t) { StopsLater(acts, j, t); }
    } else {
      forall j: nat | j < n ensures Restarts(acts, j, t) <==> Restarts(pre, j, t) { OneMore(acts, j, t); }
      forall j: nat | j >= n ensures !Restarts(pre, j, t) { BehindEnd(pre, j, t); }
      LastOne(acts, t);
      forall j: nat | j > n ensures !Restarts(acts, j, t) { BehindEnd(acts, j, t); }
    }
  }

  lemma StopsLater(acts: seq<Act>, j: nat, t: Id)
    requires acts != [] && acts[|acts| - 1] == DoStop(t)
    ensures !Restarts(acts, j, t)
  {
    if j < |acts| { assert acts[j..][|acts| - 1 - j] == DoStop(t); }
  }

  lemma OneMore(acts: seq<Act>, j: nat, t: Id)
    requires j < |acts| - 1 && acts[|acts| - 1] != DoStop(t)
    ensures Restarts(acts, j, t) <==> Restarts(acts[..|acts| - 1], j, t)
  {
    var pre := acts[..|acts| - 1];
    assert pre[..j] == acts[..j] && acts[j..] == pre[j..] + [acts[|acts| - 1]];
  }

  lemma BehindEnd(acts: seq<Act>, j: nat, t: Id)
    requires j >= |acts|
    ensures !Restarts(acts, j, t)
  {
  }

  lemma LastOne(acts: seq<Act>, t: Id)
    requires acts != [] && acts[|acts| - 1] != DoStop(t)
    ensures Restarts(acts, |acts| - 1, t) <==> acts[|acts| - 1] == DoStart(t) && DoStop(t) in acts[..|acts| - 1]
  {
    assert acts[|acts| - 1..] == [acts[|acts| - 1]];
  }

  /** A round leaves the list well formed exactly when the callback does not stop its own timer and leave it started
      again: then a periodic timer would be linked twice, and a one-shot timer linked but not active. */
  lemma FinishKeepsIff(w: Wheel, late: nat, acts: seq<Act>)
    requires Inv(w, late, {}) && late <= MAX_LATE && Inv(w, MAX_LATE, {}) && w.list != []
    requires Inv(TakeFirst(w), MAX_LATE, w.timers.Keys) && LegalActs(TakeFirst(w), acts)
    ensures var t, w2 := w.list[0], ApplyAll(TakeFirst(w), acts);
            && t in w2.timers && (forall u :: u in w2.list ==> u in w2.timers)
            && (Inv(Finish(w2, t), late, {}) <==> !exists j: nat :: Restarts(acts, j, t))
            && (CallbackOk(w, acts) <==> !exists j: nat :: Restarts(acts, j, t))
  {
    hide Left, Sorted, Distinct, Finish, Restarts, OwnAfter;
    var t, w1 := w.list[0], TakeFirst(w);
    TakeFirstKeeps(w, late);
    ApplyAllKeeps(w1, late, {t}, acts);
    ActsOwn(w1, acts, t, Off);
    OwnIs(acts, t);
    FinishNeedsUnlisted(ApplyAll(w1, acts), late, t);
  }

  lemma Deactivated(w: Wheel, late: nat, t: Id)
    requires Inv(w, late, {t}) && t in w.timers && t !in w.list
    ensures Inv(w.(timers := w.timers[t := w.timers[t].(active := false)]), late, {})
  {
    hide Left, Distinct;
    SameLeft(w, w.(timers := w.timers[t := w.timers[t].(active := false)]), HEAD);
  }

  lemma LinkedTwice(w: Wheel, t: Id)
    requires t in w.timers && !w.timers[t].active && t in w.list && forall u :: u in w.list ==> u in w.timers
    ensures !Distinct(Start(w, t).0.list)
  {
    hide Place, Inserted;
    var k := Place(w, Plus(w.now, w.timers[t].init), 0);
    var i :| 0 <= i < |w.list| && w.list[i] == t;
    var r := Inserted(w.list, k, t);
    assert r[k] == t && r[if i < k then i else i + 1] == t;
  }

  ghost function DueSet(w: Wheel): set<Id>
    requires forall u :: u in w.list ==> u in w.timers
  {
    set u | u in w.list && Due(w, u)
  }

  ghost predicate MustFire(w: Wheel)
    requires forall u :: u in w.list ==> u in w.timers
  {
    w.list != [] && Due(w, w.list[0])
  }

  /** The round keeps the invariant, and makes no other timer due: every round has fewer due timers. */
  lemma FireKeeps(w: Wheel, late: nat, acts: seq<Act>)
    requires Inv(w, late, {}) && late <= MAX_LATE && Inv(w, MAX_LATE, {}) && Steady(w) && MustFire(w)
        && CallbackOk(w, acts)
    ensures var w' := Fire(w, acts);
            && Inv(w', late, {}) && Inv(w', MAX_LATE, {}) && Steady(w') && w'.now == w.now
               && w'.timers.Keys == w.timers.Keys
            && DueSet(w') <= DueSet(w) - {w.list[0]} && |DueSet(w')| < |DueSet(w)|
            && (forall u :: u in w.list && u != w.list[0] && DoStop(u) !in acts ==>
               u in w'.list && Left(w', u) == Left(w, u))
  {
    hide Left, Due, Finish, Distinct;
    var t, w1 := w.list[0], TakeFirst(w);
    TakeFirstKeeps(w, late);
    ApplyAllKeeps(w1, late, {t}, acts);
    var w2, w' := ApplyAll(w1, acts), Fire(w, acts);
    FinishNeedsUnlisted(w2, late, t);
    FinishIs(w2, late, t);
    DueIffs(w, late);
    DueIffs(w', late);
    assert t in DueSet(w);
    assert DueSet(w') <= DueSet(w) - {t};
    Smaller(DueSet(w'), DueSet(w), t);
  }

  lemma Smaller(a: set<Id>, b: set<Id>, t: Id)
    requires a <= b - {t} && t in b
    ensures |a| < |b|
  {
    assert b == a + (b - a) && a !! b - a;
    assert b - a == {t} + (b - a - {t});
  }

  lemma DueIffs(w: Wheel, late: nat)
    requires Inv(w, late, {}) && late <= MAX_LATE
    ensures forall u :: u in w.list ==> u in w.timers && (Due(w, u) <==> Left(w, u) <= 0)
  {
    hide Left, Due, Distinct;
    forall u | u in w.list ensures Due(w, u) <==> Left(w, u) <= 0 { DueIff(w, u); }
  }

  lemma FinishIs(w: Wheel, late: nat, t: Id)
    requires Inv(w, late, {t}) && late <= MAX_LATE && Steady(w) && t in w.timers && t !in w.list
    ensures var w' := Finish(w, t);
            && Steady(w') && w'.now == w.now && w'.timers.Keys == w.timers.Keys
            && (forall u :: u in w.list ==> u in w'.list && Left(w', u) == Left(w, u))
            && (forall u :: u in w'.list ==> u in w.list || (u == t && Left(w', u) > 0))
  {
    hide Left, Start, Distinct;
    var w1 := w.(timers := w.timers[t := w.timers[t].(active := false)]);
    SameLeft(w, w1, HEAD);
    assert Inv(w1, late, {});
    StartKeeps(w1, late, {}, t);
    ChangesOne(w1, DoStart(t));
  }

  /** What the callbacks of the timers do, in the order in which the timers fire; further ones do nothing. */
  type Plan = seq<seq<Act>>

  function First(plan: Plan): seq<Act> { if plan == [] then [] else plan[0] }
  function Rest(plan: Plan): Plan { if plan == [] then [] else plan[1..] }

  ghost predicate PlanOk(w: Wheel, plan: Plan)
    requires Inv(w, MAX_LATE, {}) && Steady(w)
    decreases |DueSet(w)|
  {
    MustFire(w) ==> CallbackOk(w, First(plan)) && (FireKeeps(w, MAX_LATE, First(plan));
                                                   PlanOk(Fire(w, First(plan)), Rest(plan)))
  }

  /** rt_timer_check, and the timers it calls in order.  The loop ends: the due timers decrease. */
  ghost function Check(w: Wheel, plan: Plan): (Wheel, seq<Id>)
    requires Inv(w, MAX_LATE, {}) && Steady(w) && PlanOk(w, plan)
    decreases |DueSet(w)|
  {
    if !MustFire(w) then (w, [])
    else
      FireKeeps(w, MAX_LATE, First(plan));
      var (w', fired) := Check(Fire(w, First(plan)), Rest(plan));
      (w', [w.list[0]] + fired)
  }

  predicate StopsOne(plan: Plan, t: Id) { exists acts :: acts in plan && DoStop(t) in acts }

  lemma NoneDue(w: Wheel, late: nat)
    requires Inv(w, late, {}) && late <= MAX_LATE && !MustFire(w)
    ensures Inv(w, 0, {}) && forall u :: u in w.list ==> u in w.timers && Left(w, u) > 0
  {
    hide Left, Due, Distinct;
    DueIffs(w, late);
    forall u | u in w.list ensures Left(w, u) > 0 {
      var i :| 0 <= i < |w.list| && w.list[i] == u;
      assert Left(w, w.list[0]) <= Left(w, w.list[i]);
    }
  }

  /** The check fires only due timers, each once and in the order of their timeouts, and every due timer that no
      callback stops; it leaves no due timer. */
  lemma {:induction false} CheckIs(w: Wheel, late: nat, plan: Plan)
    requires Inv(w, late, {}) && late <= MAX_LATE && Inv(w, MAX_LATE, {}) && Steady(w) && PlanOk(w, plan)
    ensures forall u :: u in w.list ==> u in w.timers
    ensures var (w', fired) := Check(w, plan);
            && Inv(w', 0, {}) && Steady(w') && w'.now == w.now && w'.timers.Keys == w.timers.Keys
            && (forall u :: u in w'.list ==> Left(w', u) > 0)
            && Distinct(fired) && (forall u :: u in fired ==> u in w.list && Left(w, u) <= 0)
            && (forall i, j :: 0 <= i < j < |fired| ==> Left(w, fired[i]) <= Left(w, fired[j]))
            && (forall u :: u in w.list && Left(w, u) <= 0 && !StopsOne(plan, u) ==> u in fired)
            && (forall u :: u in w.list && Left(w, u) > 0 && !StopsOne(plan, u) ==>
               u in w'.list && Left(w', u) == Left(w, u))
    decreases |DueSet(w)|
  {
    hide Inv, Left, Due, Fire, Distinct, Steady, CallbackOk, StopsOne;
    DueIffs(w, late);
    if !MustFire(w) {
      NoneDue(w, late);
      DueFirst(w, late);
      assert Distinct<Id>([]) by { EmptyDistinct(); }
    } else {
      var t, w1 := w.list[0], Fire(w, First(plan));
      FireKeeps(w, late, First(plan));
      DueIffs(w1, late);
      CheckIs(w1, late, Rest(plan));
      var fired' := Check(w1, Rest(plan)).1;
      DueFirst(w, late);
      SameDue(w, w1, late, First(plan));
      Prepend(t, fired');
      forall u | u in w.list && !StopsOne(plan, u) ensures DoStop(u) !in First(plan) && !StopsOne(Rest(plan), u) {
        NotStopped(plan, u);
      }
    }
  }

  lemma EmptyDistinct()
    ensures Distinct<Id>([])
  {
  }

  lemma Prepend(t: Id, list: seq<Id>)
    requires Distinct(list) && t !in list
    ensures Distinct([t] + list)
  {
  }

  /** The first timer of the list is the earliest. */
  lemma DueFirst(w: Wheel, late: nat)
    requires Inv(w, late, {}) && late <= MAX_LATE
    ensures forall u :: u in w.list ==> u in w.timers && Left(w, w.list[0]) <= Left(w, u)
  {
    hide Left, Distinct;
    forall u | u in w.list ensures Left(w, w.list[0]) <= Left(w, u) {
      var i :| 0 <= i < |w.list| && w.list[i] == u;
    }
  }

  /** The timers still due are due as before. */
  lemma SameDue(w: Wheel, w1: Wheel, late: nat, acts: seq<Act>)
    requires Inv(w, late, {}) && late <= MAX_LATE && Inv(w, MAX_LATE, {}) && Steady(w) && MustFire(w)
        && CallbackOk(w, acts)
    requires w1 == Fire(w, acts)
    ensures Inv(w1, late, {})
    ensures forall u :: u in w1.list && Left(w1, u) <= 0 ==>
              u in w.list && u != w.list[0] && Left(w, u) <= 0 && Left(w1, u) == Left(w, u)
    ensures forall u :: u in w.list && u != w.list[0] && DoStop(u) !in acts ==>
        u in w1.list && Left(w1, u) == Left(w, u)
  {
    hide Left, Due, Finish, Distinct;
    var t := w.list[0];
    FireKeeps(w, late, acts);
    TakeFirstKeeps(w, late);
    ApplyAllKeeps(TakeFirst(w), late, {t}, acts);
    FinishIs(ApplyAll(TakeFirst(w), acts), late, t);
  }

  lemma NotStopped(plan: Plan, t: Id)
    requires !StopsOne(plan, t)
    ensures DoStop(t) !in First(plan) && !StopsOne(Rest(plan), t)
  {
    assert First(plan) in plan || First(plan) == [];
    forall acts | acts in Rest(plan) ensures DoStop(t) !in acts { assert acts in plan; }
  }

  // ----- Whole runs

  function Advance(w: Wheel): Wheel { w.(now := Plus(w.now, 1)) }

  lemma AdvanceKeeps(w: Wheel, late: nat)
    requires Inv(w, late, {}) && late < MAX_LATE
    ensures Inv(Advance(w), late + 1, {}) && Inv(Advance(w), MAX_LATE, {})
    ensures Steady(w) ==> Steady(Advance(w))
    ensures forall t :: t in w.list ==> t in w.timers && Left(Advance(w), t) == Left(w, t) - 1
  {
    hide Distinct, Left;
    forall t | t in w.list ensures Left(Advance(w), t) == Left(w, t) - 1 { OneLess(w, t); }
  }

  lemma OneLess(w: Wheel, t: Id)
    requires t in w.timers && -MAX_LATE < Left(w, t) < HALF
    ensures Left(Advance(w), t) == Left(w, t) - 1
  {
  }

  /** Anyone may use the timers between two ticks; rt_tick_increase advances the clock and checks. */
  datatype Op = Use(a: Act) | ClockTick(plan: Plan)

  ghost predicate Allowed(w: Wheel, op: Op)
    requires Inv(w, 0, {}) && Steady(w)
  {
    match op
    case Use(a) => Legal(w, a)
    case ClockTick(plan) => AdvanceKeeps(w, 0); PlanOk(Advance(w), plan)
  }

  /** The new state, and the timers that fired. */
  ghost function Step(w: Wheel, op: Op): (Wheel, seq<Id>)
    requires Inv(w, 0, {}) && Steady(w) && Allowed(w, op)
  {
    match op
    case Use(a) => (Apply(w, a), [])
    case ClockTick(plan) => AdvanceKeeps(w, 0); Check(Advance(w), plan)
  }

  lemma StepKeeps(w: Wheel, op: Op)
    requires Inv(w, 0, {}) && Steady(w) && Allowed(w, op)
    ensures Inv(Step(w, op).0, 0, {}) && Steady(Step(w, op).0)
  {
    hide Inv, Steady, Left, Apply, Check;
    match op
    case Use(a) => ApplyKeeps(w, 0, {}, a);
    case ClockTick(plan) => AdvanceKeeps(w, 0); CheckIs(Advance(w), 1, plan);
  }

  /** A tick fires exactly the timers with at most one tick left that no callback stops, and takes one tick from
      the others. */
  lemma ClockTickIs(w: Wheel, plan: Plan, t: Id)
    requires Inv(w, 0, {}) && Steady(w) && Allowed(w, ClockTick(plan)) && t in w.list && !StopsOne(plan, t)
    ensures t in w.timers
    ensures var (w', fired) := Step(w, ClockTick(plan));
            if Left(w, t) <= 1 then t in fired
            else t !in fired && t in w'.list && t in w'.timers && Left(w', t) == Left(w, t) - 1
  {
    hide Inv, Steady, Left, Check;
    AdvanceKeeps(w, 0);
    CheckIs(Advance(w), 1, plan);
    ListedKnown(Step(w, ClockTick(plan)).0, 0, {});
  }

  ghost predicate AllowedRun(w: Wheel, ops: seq<Op>)
    requires Inv(w, 0, {}) && Steady(w)
    decreases |ops|
  {
    ops != [] ==> Allowed(w, ops[0]) && (StepKeeps(w, ops[0]); AllowedRun(Step(w, ops[0]).0, ops[1..]))
  }

  ghost function Run(w: Wheel, ops: seq<Op>): (r: (Wheel, seq<Id>))
    requires Inv(w, 0, {}) && Steady(w) && AllowedRun(w, ops)
    ensures Inv(r.0, 0, {}) && Steady(r.0)
    decreases |ops|
  {
    if ops == [] then (w, [])
    else
      StepKeeps(w, ops[0]);
      var (w1, fired) := Step(w, ops[0]);
      var (w2, fired2) := Run(w1, ops[1..]);
      (w2, fired + fired2)
  }

  function Ticks(ops: seq<Op>): nat
    decreases |ops|
  {
    if ops == [] then 0 else (if ops[0].ClockTick? then 1 else 0) + Ticks(ops[1..])
  }

  predicate Stops(op: Op, t: Id) {
    match op
    case Use(a) => a == DoStop(t)
    case ClockTick(plan) => StopsOne(plan, t)
  }

  /** A pending timer that nobody stops does not fire before its time, however the other timers are started,
      stopped and fired: every tick takes one from it. */
  lemma {:induction false} NeverEarly(w: Wheel, ops: seq<Op>, t: Id)
    requires Inv(w, 0, {}) && Steady(w) && AllowedRun(w, ops) && t in w.list && t in w.timers
    requires forall op :: op in ops ==> !Stops(op, t)
    requires Ticks(ops) < Left(w, t)
    ensures var (w', fired) := Run(w, ops);
            t !in fired && t in w'.list && t in w'.timers && Left(w', t) == Left(w, t) - Ticks(ops)
    decreases |ops|
  {
    hide Inv, Steady, Left, Allowed, Step, StopsOne;
    if ops != [] {
      var op := ops[0];
      StepKeeps(w, op);
      var w1 := Step(w, op).0;
      assert op in ops && !Stops(op, t);
      match op
      case Use(a) => UseIs(w, a, t); NeverEarly(w1, ops[1..], t);
      case ClockTick(plan) => ClockTickIs(w, plan, t); NeverEarly(w1, ops[1..], t);
    }
  }

  lemma UseIs(w: Wheel, a: Act, t: Id)
    requires Inv(w, 0, {}) && Steady(w) && Allowed(w, Use(a)) && t in w.list && t in w.timers && a != DoStop(t)
    ensures var (w', fired) := Step(w, Use(a));
            fired == [] && t in w'.list && t in w'.timers && Left(w', t) == Left(w, t)
  {
    hide Inv, Left, Apply;
    ApplyKeeps(w, 0, {}, a);
    ListedKnown(Step(w, Use(a)).0, 0, {});
  }

  /** On time: a timer started with d > 0 ticks, and not stopped, fires at the d-th tick from then on. */
  lemma OnTime(w: Wheel, t: Id, ops: seq<Op>, plan: Plan)
    requires Inv(w, 0, {}) && Steady(w) && t in w.timers && !w.timers[t].active && w.timers[t].init > 0
    requires Inv(Start(w, t).0, 0, {}) && Steady(Start(w, t).0) && AllowedRun(Start(w, t).0, ops)
    requires (forall op :: op in ops ==> !Stops(op, t)) && Ticks(ops) == w.timers[t].init - 1
    requires Allowed(Run(Start(w, t).0, ops).0, ClockTick(plan)) && !StopsOne(plan, t)
    ensures t !in Run(Start(w, t).0, ops).1
    ensures t in Step(Run(Start(w, t).0, ops).0, ClockTick(plan)).1
  {
    hide Left, Allowed, Step, StopsOne, Steady, Run, AllowedRun, Place, Inserted, Sorted, Distinct;
    StartIs(w, 0, t);
    var w1 := Start(w, t).0;
    assert t in w1.list by { InsertedMembers(w.list, Place(w, Plus(w.now, w.timers[t].init), 0), t); }
    NeverEarly(w1, ops, t);
    ClockTickIs(Run(w1, ops).0, plan, t);
  }

  // ----- Where the promises of the comments do not hold

  /** A round whose callback does nothing: the first timer leaves the list, or comes back with its whole period left. */
  lemma QuietRound(w: Wheel)
    requires Inv(w, MAX_LATE, {}) && w.list != []
    ensures CallbackOk(w, []) && w.list[0] in w.timers
    ensures var t, w' := w.list[0], Fire(w, []);
            && Inv(w', MAX_LATE, {}) && w'.now == w.now && w'.timers.Keys == w.timers.Keys
            && (forall u :: u in w.timers ==>
                  w'.timers[u].init == w.timers[u].init && w'.timers[u].periodic == w.timers[u].periodic)
            && (forall u :: u in w.list && u != t ==> u in w'.list && Left(w', u) == Left(w, u))
            && (w.timers[t].periodic ==> t in w'.list && Left(w', t) == w.timers[t].init)
            && (forall u :: u in w'.list ==> (u in w.list && u != t) || (u == t && w.timers[t].periodic))
  {
    hide Left, Start, Distinct, Sorted;
    var t, w1 := w.list[0], TakeFirst(w);
    TakeFirstKeeps(w, MAX_LATE);
    assert t in w.list;
    var w2 := w1.(timers := w.timers[t := w.timers[t].(active := false)]);
    Deactivated(w1, MAX_LATE, t);
    SameLeft(w1, w2, HEAD);
    StartKeeps(w2, MAX_LATE, {}, t);
    ChangesOne(w2, DoStart(t));
    StartedNow(w2, t);
  }

  lemma StartedNow(w: Wheel, t: Id)
    requires Inv(w, MAX_LATE, {}) && t in w.timers && !w.timers[t].active
    ensures t in Start(w, t).0.list && t !in w.list
  {
    hide Left, Place, Inserted, Distinct, Sorted;
    AlsoListed(w, t);
  }

  /** With callbacks that do nothing, rt_timer_check makes at least k rounds. */
  ghost predicate FiresFor(w: Wheel, k: nat)
    requires Inv(w, MAX_LATE, {})
    decreases k
  {
    ListedKnown(w, MAX_LATE, {});
    k > 0 ==> MustFire(w) && (QuietRound(w); FiresFor(Fire(w, []), k - 1))
  }

  /** A due timer that is due again as soon as it has fired. */
  predicate Stuck(w: Wheel, t: Id) {
    t in w.list && t in w.timers && Due(w, t) && w.timers[t].periodic && w.timers[t].init == 0
  }

  lemma StuckStays(w: Wheel, t: Id)
    requires Inv(w, MAX_LATE, {}) && Stuck(w, t)
    ensures (forall u :: u in w.list ==> u in w.timers) && MustFire(w) && CallbackOk(w, []) && Stuck(Fire(w, []), t)
  {
    hide Inv, Left, Due, Fire, CallbackOk;
    DueIffs(w, MAX_LATE);
    DueFirst(w, MAX_LATE);
    QuietRound(w);
    DueIffs(Fire(w, []), MAX_LATE);
  }

  /** A due timer with period zero keeps the check going, whatever else is in the list. */
  lemma {:induction false} ZeroPeriodNeverEnds(w: Wheel, t: Id, k: nat)
    requires Inv(w, MAX_LATE, {}) && Stuck(w, t)
    ensures FiresFor(w, k)
    decreases k
  {
    hide Inv, Stuck, Fire, CallbackOk;
    if k > 0 {
      StuckStays(w, t);
      QuietRound(w);
      ZeroPeriodNeverEnds(Fire(w, []), t, k - 1);
    }
  }

  /** Without one every round has fewer due timers. */
  lemma FewerDue(w: Wheel)
    requires Inv(w, MAX_LATE, {}) && (forall t :: !Stuck(w, t))
    requires (forall u :: u in w.list ==> u in w.timers) && MustFire(w)
    ensures CallbackOk(w, []) && (forall t :: !Stuck(Fire(w, []), t))
    ensures (forall u :: u in Fire(w, []).list ==> u in Fire(w, []).timers)
    ensures |DueSet(Fire(w, []))| < |DueSet(w)|
  {
    hide Inv, Left, Due, Fire, CallbackOk;
    var t := w.list[0];
    QuietRound(w);
    var w' := Fire(w, []);
    DueIffs(w, MAX_LATE);
    DueIffs(w', MAX_LATE);
    assert !Stuck(w, t);
    forall u | u in w'.list && Due(w', u) ensures u in w.list && u != t && Due(w, u) { assert !Stuck(w, u); }
    forall u ensures !Stuck(w', u) { assert !Stuck(w, u); }
    assert t in DueSet(w);
    Smaller(DueSet(w'), DueSet(w), t);
  }

  lemma {:induction false} OthersEnd(w: Wheel)
    requires Inv(w, MAX_LATE, {}) && (forall t :: !Stuck(w, t))
    ensures forall u :: u in w.list ==> u in w.timers
    ensures !FiresFor(w, |DueSet(w)| + 1)
    decreases |DueSet(w)|
  {
    hide Inv, Stuck, Fire, CallbackOk;
    ListedKnown(w, MAX_LATE, {});
    if MustFire(w) {
      QuietRound(w);
      FewerDue(w);
      OthersEnd(Fire(w, []));
      if FiresFor(Fire(w, []), |DueSet(w)|) {
        FiresLess(Fire(w, []), |DueSet(Fire(w, []))| + 1, |DueSet(w)|);
      }
    }
  }

  lemma {:induction false} FiresLess(w: Wheel, j: nat, k: nat)
    requires Inv(w, MAX_LATE, {}) && j <= k && FiresFor(w, k)
    ensures FiresFor(w, j)
    decreases j
  {
    hide Inv, Fire, CallbackOk;
    if j > 0 {
      ListedKnown(w, MAX_LATE, {});
      QuietRound(w);
      FiresLess(Fire(w, []), j - 1, k - 1);
    }
  }

  /** With callbacks that do nothing, rt_timer_check does not end exactly when a timer in the list is due, periodic, and
      has period zero. */
  lemma CheckNeverEndsIff(w: Wheel)
    requires Inv(w, MAX_LATE, {})
    ensures (forall k: nat :: FiresFor(w, k)) <==> exists t :: Stuck(w, t)
  {
    hide Inv, Stuck, FiresFor;
    if t :| Stuck(w, t) {
      forall k: nat ensures FiresFor(w, k) { ZeroPeriodNeverEnds(w, t, k); }
    } else {
      OthersEnd(w);
    }
  }

  /** A periodic timer with period zero is started, and the next tick comes. */
  lemma ZeroPeriodExample(t: Id)
    requires t != HEAD
    ensures var w0 := Wheel(0, map[t := Timer(0, 0, true, false)], []);
            var w := Advance(Start(w0, t).0);
            Inv(w0, 0, {}) && Inv(w, MAX_LATE, {}) && Stuck(w, t) && forall k: nat :: FiresFor(w, k)
  {
    var w0 := Wheel(0, map[t := Timer(0, 0, true, false)], []);
    StartKeeps(w0, 0, {}, t);
    var w := Wheel(1, map[t := Timer(0, 0, true, true)], [t]);
    assert Start(w0, t).0 == w.(now := 0);
    AdvanceKeeps(w.(now := 0), 0);
    assert Stuck(w, t);
    CheckNeverEndsIff(w);
  }

  /** A timer with a period of one tick is started and falls due, and its callback stops and starts it. */
  lemma RestartExample(t: Id, periodic: bool)
    requires t != HEAD
    ensures var w0 := Wheel(0, map[t := Timer(1, 0, periodic, false)], []);
            var w := Advance(Start(w0, t).0);
            var acts := [DoStop(t), DoStart(t)];
            && Inv(w0, 0, {}) && Steady(w0) && Inv(w, MAX_LATE, {}) && w.list == [t] && MustFire(w)
            && Inv(TakeFirst(w), MAX_LATE, w.timers.Keys) && LegalActs(TakeFirst(w), acts)
            && var w2 := ApplyAll(TakeFirst(w), acts);
               && w2.list == [t] && t in w2.timers
               && Finish(w2, t).list == (if periodic then [t, t] else [t])
               && Finish(w2, t).timers[t].active == periodic
  {
    var w0 := Wheel(0, map[t := Timer(1, 0, periodic, false)], []);
    InitInv(w0);
    StartKeeps(w0, 0, {}, t);
    var w := Wheel(1, map[t := Timer(1, 1, periodic, true)], [t]);
    assert Start(w0, t).0 == w.(now := 0);
    AdvanceKeeps(w.(now := 0), 0);
    TakeFirstKeeps(w, MAX_LATE);
    var w1 := TakeFirst(w);
    assert w1.list == [];
    StopStart(w1, t, periodic);
  }

  lemma StopStart(w: Wheel, t: Id, periodic: bool)
    requires t != HEAD && w == Wheel(1, map[t := Timer(1, 1, periodic, true)], []) && Inv(w, MAX_LATE, {t})
    ensures w.timers.Keys == {t} && LegalActs(w, [DoStop(t), DoStart(t)])
    ensures ApplyAll(w, [DoStop(t), DoStart(t)]) == Wheel(1, map[t := Timer(1, 2, periodic, true)], [t])
  {
    assert w.timers.Keys == {t};
    var w1, w2 := Apply(w, DoStop(t)), Wheel(1, map[t := Timer(1, 2, periodic, true)], [t]);
    ApplyKeeps(w, MAX_LATE, {t}, DoStop(t));
    assert w1 == w.(timers := map[t := Timer(1, 1, periodic, false)]);
    assert w1.timers.Keys == {t};
    ApplyKeeps(w1, MAX_LATE, {t}, DoStart(t));
    assert Apply(w1, DoStart(t)) == w2;
    assert [DoStop(t), DoStart(t)][1..] == [DoStart(t)] && [DoStart(t)][1..] == [];
    assert w2.timers.Keys == {t};
    assert LegalActs(w2, []);
    assert ApplyAll(w2, []) == w2;
    assert LegalActs(w1, [DoStart(t)]);
    assert ApplyAll(w1, [DoStart(t)]) == w2;
  }

  /** The third of three timers with the same timeout is called second. */
  lemma ThirdGoesSecond(a: Id, b: Id, c: Id)
    requires a != HEAD && b != HEAD && c != HEAD && a != b && b != c && a != c
    ensures var off := Timer(5, 0, false, false);
            var w := Wheel(0, map[a := off, b := off, c := off], []);
            Start(Start(Start(w, a).0, b).0, c).0.list == [a, c, b]
  {
  }

  /** With a fourth tick missed, a new timer is put in front of an overdue one, and the check does not reach it. */
  lemma MissedChecksExample(a: Id, b: Id)
    requires a != HEAD && b != HEAD && a != b
    ensures var w := Wheel(4, map[a := Timer(0, 0, false, true), b := Timer(HALF - 1, 0, false, false)], [a]);
            var w' := Start(w, b).0;
            Due(w, a) && w'.list == [b, a] && Due(w', a) && !Due(w', b)
  {
  }
}
