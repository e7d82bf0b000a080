// The code of thread_pool/rt-thread/src/timer.c over the list nodes of the timers.
module TimerCode {
  import opened Lists
  import opened CircularList
  import opened Timer
  import T = Timer

  ghost predicate LinkedIn(l: Links, timers: set<Id>, list: seq<Id>) {
    && HEAD !in timers && Circle(l, [HEAD] + list)
    && forall t :: t in timers && t !in list ==> Alone(l, t)
  }

  /** Where the nodes are in the circle. */
  lemma RingIs(l: Links, timers: set<Id>, list: seq<Id>, k: nat, t: Id)
    requires LinkedIn(l, timers, list) && k <= |list|
    ensures var ring := [HEAD] + list;
            && Circle(l, ring) && |ring| == |list| + 1 && ring[0] == HEAD && (k < |list| ==> ring[k + 1] == list[k])
            && (t in timers && t !in list ==> t !in ring)
  {
    hide Circle, Alone;
  }

  /** A timer has been linked into the circle. */
  lemma LinkedOne(l: Links, l': Links, timers: set<Id>, list: seq<Id>, k: nat, t: Id)
    requires LinkedIn(l, timers, list) && k <= |list| && t in timers
    requires Circle(l', Inserted([HEAD] + list, k + 1, t)) && Outside(l, l', [HEAD] + list, t)
    ensures LinkedIn(l', timers, Inserted(list, k, t))
  {
    hide Circle, Inserted;
    var r := Inserted(list, k, t);
    InsertedBehind(HEAD, list, k, t);
    assert r[k] == t;
    forall u | u in list ensures u in r {
      var i :| 0 <= i < |list| && list[i] == u;
      assert r[if i < k then i else i + 1] == u;
    }
    forall u | u in timers && u !in r ensures Alone(l', u) { assert Same(l, l', u); }
  }

  /** A timer has been taken out of its circle. */
  lemma UnlinkedOne(l: Links, l': Links, timers: set<Id>, list: seq<Id>, t: Id)
    requires LinkedIn(l, timers, list) && Distinct(list) && t in timers && Circle(l', [t])
    requires if t in list then Circle(l', Deleted([HEAD] + list, Find(list, t) + 1)) && Outside(l, l', [HEAD] + list, t)
             else Outside(l, l', [t], t)
    ensures LinkedIn(l', timers, Drop(list, t))
  {
    hide Circle, Drop, Find, Deleted, Same;
    AloneIff(l', t);
    var k := Find(list, t);
    if t in list {
      DropAt(list, t);
      DeletedBehind(HEAD, list, k);
    } else {
      assert forall m :: m in [HEAD] + list ==> m != t && Same(l, l', m);
      CircleSame(l, l', [HEAD] + list);
    }
    DropOne(list, t);
    forall u | u in timers && u !in Drop(list, t) ensures Alone(l', u) {
      if u != t { SameAlone(l, l', u); }
    }
  }

  class Timers {
    var now: Tick                 // rt_tick
    var timers: map<Id, Timer>
    const nodes: Nodes
    ghost var list: seq<Id>

    ghost function View(): Wheel
      reads this
    {
      Wheel(now, timers, list)
    }

    /** rt_timer_list is a circle through the listed timers. */
    ghost predicate Linked()
      reads this, nodes
    {
      LinkedIn(nodes.View(), timers.Keys, list)
    }

    ghost predicate Valid()
      reads this, nodes
    {
      Inv(View(), 0, {}) && Steady(View()) && Linked()
    }

    /** rt_system_timer_init. */
    constructor ()
      ensures Valid() && fresh(nodes) && View() == Wheel(0, map[], [])
    {
      now, timers, list := 0, map[], [];
      nodes := new Nodes();
      new;
      nodes.ListInit(HEAD);
    }

    /** _rt_timer_init, for a timer that is not in use. */
    method InitTimer(t: Id, time: Tick, periodic: bool)
      requires Valid() && t != HEAD && t !in timers && time < HALF && (periodic ==> time > 0)
      modifies this`timers, nodes
      ensures Valid() && View() == old(View()).(timers := old(timers)[t := Timer(time, 0, periodic, false)])
    {
      hide Left, Circle, Distinct, Same;
      ListedKnown(View(), 0, {});
      ghost var before := View();
      ghost var l := nodes.View();
      timers := timers[t := Timer(time, 0, periodic, false)];
      SameLeft(before, View(), t);
      nodes.ListInit(t);
      CircleElsewhere(l, [HEAD] + list, t, t, t);
    }

    /** rt_timer_start. */
    method Start(t: Id, ghost late: nat, ghost off: set<Id>) returns (ok: bool)
      requires Linked() && Inv(View(), late, off) && late <= MAX_LATE && t in timers
      modifies this`timers, this`list, nodes
      ensures Linked() && (View(), ok) == T.Start(old(View()), t)
    {
      hide Left, Circle, Distinct, Sorted;
      if timers[t].active { return false; }
      ListedKnown(View(), late, off);
      var x := Plus(now, timers[t].init);
      timers := timers[t := timers[t].(timeout := x)];
      ghost var w := View();
      Insert(t, x);
      timers := timers[t := timers[t].(active := true)];
      SamePlace(old(View()), w, t, x, 0);
      assert timers == old(timers)[t := old(timers)[t].(timeout := x, active := true)];
      ok := true;
    }

    /** The loop over the list, and the insertion. */
    method Insert(t: Id, x: Tick)
      requires Linked() && t in timers && t !in list && forall u :: u in list ==> u in timers
      modifies this`list, nodes
      ensures Linked() && list == Inserted(old(list), Place(old(View()), x, 0), t)
    {
      hide LinkedIn, Place, Inserted;
      ghost var place, k := Place(View(), x, 0), 0;
      var n := Next(HEAD, 0);
      while n != HEAD
        invariant k <= |list| && n == NodeAt(k)
        invariant Linked() && unchanged(nodes) && list == old(list) && forall u :: u in list ==> u in timers
        invariant Place(View(), x, k) == place
        decreases |list| - k
      {
        AtNode(k);
        PlaceStep(View(), x, k);
        var d := Minus(timers[n].timeout, x);
        if d == 0 {
          LinkAfter(n, t, k);
          break;
        } else if d < HALF {
          LinkBefore(n, t, k);
          break;
        }
        n := Next(n, k + 1);
        k := k + 1;
      }
      if n == HEAD {
        AtNode(k);
        PlaceStep(View(), x, k);
        LinkBefore(HEAD, t, k);
      }
    }

    /** The node of list position k, or the list head behind the end. */
    ghost function NodeAt(k: nat): Id
      reads this
    {
      if k < |list| then list[k] else HEAD
    }

    lemma AtNode(k: nat)
      requires Linked() && k <= |list| && forall u :: u in list ==> u in timers
      ensures NodeAt(k) == HEAD <==> k == |list|
      ensures k < |list| ==> list[k] in timers
    {
      hide Circle, Alone;
      if k < |list| {
        var u := list[k];
        assert u in list;
      }
    }

    /** n = n->next, from the list head or the node before position k. */
    method Next(n: Id, ghost k: nat) returns (m: Id)
      requires Linked() && k <= |list| && n == if k == 0 then HEAD else list[k - 1]
      ensures m == NodeAt(k)
    {
      ghost var ring := [HEAD] + list;
      assert ring[k] == n && Follows(k, if k + 1 == |ring| then 0 else k + 1, |ring|);
      m := nodes.next[n];
    }

    method LinkAfter(n: Id, t: Id, ghost k: nat)
      requires Linked() && t in timers && t !in list && k < |list| && n == list[k]
      modifies this`list, nodes
      ensures Linked() && list == Inserted(old(list), k + 1, t)
    {
      hide Circle, Outside, LinkedIn, Inserted;
      ghost var l := nodes.View();
      RingIs(l, timers.Keys, list, k, t);
      nodes.ListInsertAfter(n, t, [HEAD] + list, k + 1);
      LinkedOne(l, nodes.View(), timers.Keys, list, k + 1, t);
      list := Inserted(list, k + 1, t);
    }

    method LinkBefore(n: Id, t: Id, ghost k: nat)
      requires Linked() && t in timers && t !in list && k <= |list| && n == NodeAt(k)
      modifies this`list, nodes
      ensures Linked() && list == Inserted(old(list), k, t)
    {
      hide Circle, Outside, LinkedIn, Inserted;
      ghost var l := nodes.View();
      RingIs(l, timers.Keys, list, k, t);
      nodes.ListInsertBefore(n, t, [HEAD] + list, if k < |list| then k + 1 else 0);
      LinkedOne(l, nodes.View(), timers.Keys, list, k, t);
      list := Inserted(list, k, t);
    }

    /** rt_list_remove, for a listed timer or one on its own. */
    method Unlink(t: Id)
      requires Linked() && Distinct(list) && t in timers
      modifies this`list, nodes
      ensures Linked() && list == Drop(old(list), t)
    {
      hide Circle, Outside, LinkedIn, Drop, Find, Deleted;
      ghost var l, k := nodes.View(), Find(list, t);
      RingIs(l, timers.Keys, list, if t in list then k else 0, t);
      ghost var ring, i := [HEAD] + list, k + 1;
      if t !in list {
        OnItsOwn(t);
        ring, i := [t], 0;
      }
      nodes.ListRemove(t, ring, i);
      UnlinkedOne(l, nodes.View(), timers.Keys, list, t);
      list := Drop(list, t);
    }

    lemma OnItsOwn(t: Id)
      requires Linked() && t in timers && t !in list
      ensures Circle(nodes.View(), [t])
    {
      AloneIff(nodes.View(), t);
    }

    /** rt_timer_stop. */
    method Stop(t: Id) returns (ok: bool)
      requires Linked() && Distinct(list) && t in timers
      modifies this`timers, this`list, nodes
      ensures Linked() && (View(), ok) == T.Stop(old(View()), t)
    {
      hide LinkedIn, Drop, Distinct;
      if !timers[t].active { return false; }
      Unlink(t);
      timers := timers[t := timers[t].(active := false)];
      assert timers.Keys == old(timers.Keys);
      ok := true;
    }

    /** rt_timer_start and rt_timer_stop, and the commands of rt_timer_control that change a timer. */
    method Use(a: Act, ghost late: nat, ghost off: set<Id>)
      requires Linked() && Inv(View(), late, off) && late <= MAX_LATE && a.t in timers
      modifies this`timers, this`list, nodes
      ensures (forall u :: u in old(list) ==> u in old(timers)) && Linked() && View() == Apply(old(View()), a)
    {
      hide LinkedIn, Left, Distinct, Sorted, T.Start, T.Stop;
      match a {
        case DoStart(t) => var _ := Start(t, late, off);
        case DoStop(t) => var _ := Stop(t);
        case SetTime(t, ticks) =>
          timers := timers[t := timers[t].(init := ticks)];
          assert timers.Keys == old(timers.Keys);
        case SetPeriodic(t, on) =>
          timers := timers[t := timers[t].(periodic := on)];
          assert timers.Keys == old(timers.Keys);
      }
    }

    /** The callback of a timer. */
    method Callback(acts: seq<Act>)
      requires Linked() && Inv(View(), MAX_LATE, timers.Keys) && LegalActs(View(), acts)
      modifies this`timers, this`list, nodes
      ensures Linked() && View() == ApplyAll(old(View()), acts)
    {
      hide LinkedIn, Inv, Apply;
      ghost var done := ApplyAll(View(), acts);
      var i := 0;
      assert acts[0..] == acts;
      while i < |acts|
        invariant i <= |acts| && Linked() && Inv(View(), MAX_LATE, timers.Keys)
        invariant LegalActs(View(), acts[i..]) && ApplyAll(View(), acts[i..]) == done
      {
        assert acts[i..][0] == acts[i] && acts[i..][1..] == acts[i + 1..];
        ApplyKeeps(View(), MAX_LATE, timers.Keys, acts[i]);
        Use(acts[i], MAX_LATE, timers.Keys);
        i := i + 1;
      }
    }

    // ----- The check

    /** rt_timer_check, as part of rt_tick_increase. */
    method Check(plan: Plan) returns (ghost fired: seq<Id>)
      requires Linked() && Inv(View(), MAX_LATE, {}) && Steady(View()) && PlanOk(View(), plan)
      modifies this`timers, this`list, nodes
      ensures Linked() && (View(), fired) == T.Check(old(View()), plan)
    {
      hide LinkedIn, Inv, Steady, Due, CallbackOk, T.Fire;
      fired := [];
      ghost var done := T.Check(View(), plan);
      var rest := plan;
      DueIffs(View(), MAX_LATE);
      var n := Next(HEAD, 0);
      HeadIs();
      while n != HEAD && Minus(now, timers[n].timeout) < HALF
        invariant Linked() && Inv(View(), MAX_LATE, {}) && Steady(View()) && PlanOk(View(), rest)
        invariant (forall u :: u in list ==> u in timers) && n == NodeAt(0) && (n == HEAD <==> list == [])
        invariant n != HEAD ==> n in timers
        invariant T.Check(View(), rest).0 == done.0 && fired + T.Check(View(), rest).1 == done.1
        decreases |DueSet(View())|
      {
        FirstDue(n);
        FireKeeps(View(), MAX_LATE, First(rest));
        CheckRound(View(), rest, fired);
        fired := fired + [n];
        Fire(n, First(rest));
        rest := Rest(rest);
        DueIffs(View(), MAX_LATE);
        n := Next(HEAD, 0);
        HeadIs();
      }
      if n != HEAD { FirstDue(n); }
      assert fired + [] == fired;
    }

    lemma HeadIs()
      requires Linked() && forall u :: u in list ==> u in timers
      ensures NodeAt(0) == HEAD <==> list == []
      ensures list != [] ==> NodeAt(0) in timers
    {
      AtNode(0);
    }

    lemma FirstDue(n: Id)
      requires (forall u :: u in list ==> u in timers) && list != [] && n == list[0] && n in timers
      ensures MustFire(View()) <==> Minus(now, timers[n].timeout) < HALF
    {
    }

    /** One round: the timer leaves the list, its callback runs, and it starts again if it is periodic. */
    method Fire(t: Id, acts: seq<Act>)
      requires Linked() && Inv(View(), MAX_LATE, {}) && list != [] && t == list[0] && CallbackOk(View(), acts)
      modifies this`timers, this`list, nodes
      ensures Linked() && View() == T.Fire(old(View()), acts)
    {
      hide LinkedIn, Left, Distinct, Sorted, T.Start, LegalActs, ApplyAll;
      TakeFirstKeeps(View(), MAX_LATE);
      ghost var w := TakeFirst(View());
      ApplyAllKeeps(w, MAX_LATE, {t}, acts);
      FirstGone(list);
      Unlink(t);
      Callback(acts);
      Deactivated(View(), MAX_LATE, t);
      if timers[t].periodic && timers[t].active {
        timers := timers[t := timers[t].(active := false)];
        assert timers.Keys == old(timers.Keys);
        var _ := Start(t, MAX_LATE, {});
      } else {
        timers := timers[t := timers[t].(active := false)];
        assert timers.Keys == old(timers.Keys);
      }
    }

    /** rt_tick_increase: the clock advances, and the check fires what is due. */
    method TickIncrease(plan: Plan) returns (ghost fired: seq<Id>)
      requires Valid() && Allowed(View(), ClockTick(plan))
      modifies this`now, this`timers, this`list, nodes
      ensures Valid() && (View(), fired) == Step(old(View()), ClockTick(plan))
    {
      hide LinkedIn, Inv, Steady, T.Check, PlanOk;
      StepKeeps(View(), ClockTick(plan));
      AdvanceKeeps(View(), 0);
      now := Plus(now, 1);
      fired := Check(plan);
    }
  }

  lemma CheckRound(w: Wheel, plan: Plan, fired: seq<Id>)
    requires Inv(w, MAX_LATE, {}) && Steady(w) && PlanOk(w, plan) && MustFire(w)
    ensures Inv(T.Fire(w, First(plan)), MAX_LATE, {}) && Steady(T.Fire(w, First(plan)))
    ensures PlanOk(T.Fire(w, First(plan)), Rest(plan))
    ensures var r := T.Check(T.Fire(w, First(plan)), Rest(plan));
            T.Check(w, plan).0 == r.0 && fired + T.Check(w, plan).1 == (fired + [w.list[0]]) + r.1
  {
    hide Inv, Steady, T.Fire, CallbackOk, Due;
    FireKeeps(w, MAX_LATE, First(plan));
  }

  lemma FirstGone(list: seq<Id>)
    requires list != []
    ensures Drop(list, list[0]) == list[1..]
  {
  }

  lemma PlaceStep(w: Wheel, x: Tick, i: nat)
    requires i <= |w.list| && forall u :: u in w.list ==> u in w.timers
    ensures i == |w.list| ==> Place(w, x, i) == i
    ensures i < |w.list| ==> w.list[i] in w.timers
    ensures i < |w.list| ==> var d := Minus(w.timers[w.list[i]].timeout, x);
                             Place(w, x, i) == if d == 0 then i + 1 else if d < HALF then i else Place(w, x, i + 1)
  {
    if i < |w.list| {
      var u := w.list[i];
      assert u in w.list;
    }
  }

  /** The place does not depend on the fields of a timer that is not listed. */
  lemma {:induction false} SamePlace(w: Wheel, w': Wheel, t: Id, x: Tick, i: nat)
    requires w'.list == w.list && t !in w.list && i <= |w.list|
    requires forall u :: u in w.list ==> u in w.timers && u in w'.timers && w'.timers[u] == w.timers[u]
    ensures Place(w', x, i) == Place(w, x, i)
    decreases |w.list| - i
  {
    if i < |w.list| {
      assert w.list[i] in w.list;
      SamePlace(w, w', t, x, i + 1);
    }
  }
}
