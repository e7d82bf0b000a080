// The ready lists of thread_pool/rt-thread/src/scheduler.c and the thread state
// changes of thread.c, for the configured 32 priorities.
module Scheduler {
  import opened Bitmap
  import opened Ipc
  import opened Lists

  const MAX := 32

  datatype Stat = Ready | Suspended | Other

  /** mask is number_mask. */
  datatype Thread = Thread(prio: nat, mask: Word, stat: Stat)

  /** lists is rt_thread_priority_table, group is rt_thread_ready_priority_group. */
  datatype Sched = Sched(threads: map<Tid, Thread>, lists: seq<seq<Tid>>, group: Word, current: Tid, lockNest: nat)

  /** Bit p of the group is set exactly when list p is not empty. */
  ghost predicate GroupOk(s: Sched) {
    |s.lists| == MAX && |s.group| == MAX && forall p :: 0 <= p < MAX ==> (s.group[p] <==> s.lists[p] != [])
  }

  /** The lists hold ready threads of their priority, each once. */
  ghost predicate ListsOk(s: Sched) {
    && |s.lists| == MAX
    && (forall p, i :: 0 <= p < MAX && 0 <= i < |s.lists[p]| ==>
          s.lists[p][i] in s.threads && s.threads[s.lists[p][i]].stat.Ready? && s.threads[s.lists[p][i]].prio == p)
    && (forall p :: 0 <= p < MAX ==> Distinct(s.lists[p]))
  }

  /** Every thread has a valid priority and its mask; every ready thread but out is in its list. */
  ghost predicate ThreadsOk(s: Sched, out: set<Tid>) {
    && |s.lists| == MAX
    && (forall t :: t in s.threads ==> s.threads[t].prio < MAX && s.threads[t].mask == Mask(MAX, s.threads[t].prio))
    && (forall t :: t in s.threads && t !in out && s.threads[t].stat.Ready? ==> t in s.lists[s.threads[t].prio])
    && (forall t :: t in out && t in s.threads ==> t !in s.lists[s.threads[t].prio])
  }

  /** The scheduler invariant, while the threads in out are between two lists. */
  ghost predicate ValidBut(s: Sched, out: set<Tid>) {
    GroupOk(s) && ListsOk(s) && ThreadsOk(s, out)
  }

  ghost predicate Valid(s: Sched) { ValidBut(s, {}) }

  /** What the operations need to be defined. */
  ghost predicate Shaped(s: Sched) {
    && |s.lists| == MAX && |s.group| == MAX
    && forall t :: t in s.threads ==> s.threads[t].prio < MAX && |s.threads[t].mask| == MAX
  }

  // ----- Operations

  /** rt_schedule_insert_thread. */
  function Insert(s: Sched, t: Tid): (s': Sched)
    requires Shaped(s) && t in s.threads
    ensures Shaped(s')
  {
    var th := s.threads[t];
    s.(threads := s.threads[t := th.(stat := Ready)],
       lists := s.lists[th.prio := s.lists[th.prio] + [t]],
       group := Or(s.group, th.mask))
  }

  /** rt_schedule_remove_thread. */
  function Remove(s: Sched, t: Tid): (s': Sched)
    requires Shaped(s) && t in s.threads
    ensures Shaped(s') && s'.threads == s.threads && s'.current == s.current && s'.lockNest == s.lockNest
  {
    var th := s.threads[t];
    var rest := Drop(s.lists[th.prio], t);
    s.(lists := s.lists[th.prio := rest], group := if rest == [] then AndNot(s.group, th.mask) else s.group)
  }

  function SetStat(s: Sched, t: Tid, stat: Stat): Sched
    requires t in s.threads
  {
    s.(threads := s.threads[t := s.threads[t].(stat := stat)])
  }

  function SetPrio(s: Sched, t: Tid, prio: nat): (s': Sched)
    requires t in s.threads && prio < MAX
    ensures Shaped(s) ==> Shaped(s')
  {
    s.(threads := s.threads[t := s.threads[t].(prio := prio, mask := Mask(MAX, prio))])
  }

  /** rt_thread_suspend. */
  function Suspend(s: Sched, t: Tid): (s': Sched)
    requires Shaped(s) && t in s.threads
    ensures Shaped(s')
  {
    if !s.threads[t].stat.Ready? then s else SetStat(Remove(s, t), t, Suspended)
  }

  /** rt_thread_resume; taking the thread off a suspend list is up to the owner of that list. */
  function Resume(s: Sched, t: Tid): (s': Sched)
    requires Shaped(s) && t in s.threads
    ensures Shaped(s')
  {
    if !s.threads[t].stat.Suspended? then s else Insert(s, t)
  }

  /** rt_thread_control with RT_THREAD_CTRL_CHANGE_PRIORITY. */
  function ChangePriority(s: Sched, t: Tid, prio: nat): (s': Sched)
    requires Shaped(s) && t in s.threads && prio < MAX
    ensures Shaped(s')
  {
    if s.threads[t].stat.Ready? then Insert(SetPrio(Remove(s, t), t, prio), t) else SetPrio(s, t, prio)
  }

  /** rt_thread_yield, up to the call of rt_schedule. */
  function Yield(s: Sched): Sched
    requires Shaped(s) && s.current in s.threads
  {
    var p := s.threads[s.current].prio;
    if s.threads[s.current].stat.Ready? && |s.lists[p]| > 1
    then s.(lists := s.lists[p := Drop(s.lists[p], s.current) + [s.current]])
    else s
  }

  /** rt_schedule: the first thread of the list that the lowest bit of the group names. */
  function Schedule(s: Sched): Sched
    requires ValidBut(s, {}) && !Zero(s.group)
  {
    Lowest32Is(s.group);
    if s.lockNest == 0 then s.(current := s.lists[Lowest32(s.group)][0]) else s
  }

  // ----- The invariant

  lemma InsertOk(s: Sched, t: Tid)
    requires ValidBut(s, {t}) && t in s.threads
    ensures Valid(Insert(s, t))
  {
    AddOne(s.lists[s.threads[t].prio], t);
    hide Distinct;
  }

  lemma RemoveOk(s: Sched, t: Tid)
    requires ValidBut(s, {}) && t in s.threads && s.threads[t].stat.Ready?
    ensures ValidBut(Remove(s, t), {t})
  {
    var th := s.threads[t];
    DropOne(s.lists[th.prio], t);
    hide Distinct, Drop;
  }

  lemma SuspendIs(s: Sched, t: Tid)
    requires Valid(s) && t in s.threads && s.threads[t].stat.Ready?
    ensures var s' := Suspend(s, t);
            Valid(s') && s'.threads == s.threads[t := s.threads[t].(stat := Suspended)]
            && s'.current == s.current && s'.lockNest == s.lockNest
  {
    RemoveOk(s, t);
    hide Distinct, Drop, Remove;
  }

  /** The others keep their order. */
  lemma SuspendOrder(s: Sched, t: Tid)
    requires Valid(s) && t in s.threads && s.threads[t].stat.Ready?
    ensures var p := s.threads[t].prio;
            Suspend(s, t).lists == s.lists[p := Drop(s.lists[p], t)] && t in s.lists[p] && t !in Suspend(s, t).lists[p]
  {
    DropOne(s.lists[s.threads[t].prio], t);
    hide Distinct, Drop;
  }

  /** A resumed thread goes behind the ready threads of its priority. */
  lemma ResumeOrder(s: Sched, t: Tid)
    requires Valid(s) && t in s.threads && s.threads[t].stat.Suspended?
    ensures var p := s.threads[t].prio;
            Resume(s, t).lists == s.lists[p := s.lists[p] + [t]] && t !in s.lists[p]
  {
    hide Distinct;
    var p := s.threads[t].prio;
    forall i | 0 <= i < |s.lists[p]| ensures s.lists[p][i] != t {
      assert s.threads[s.lists[p][i]].stat.Ready?;
    }
  }

  lemma ResumeIs(s: Sched, t: Tid)
    requires Valid(s) && t in s.threads && s.threads[t].stat.Suspended?
    ensures var s' := Resume(s, t);
            Valid(s') && s'.threads == s.threads[t := s.threads[t].(stat := Ready)]
            && s'.current == s.current && s'.lockNest == s.lockNest
  {
    assert ValidBut(s, {t}) by { hide Distinct; }
    InsertOk(s, t);
  }

  lemma ChangePriorityIs(s: Sched, t: Tid, prio: nat)
    requires Valid(s) && t in s.threads && prio < MAX
    ensures var s' := ChangePriority(s, t, prio);
            Valid(s') && s'.threads == s.threads[t := s.threads[t].(prio := prio, mask := Mask(MAX, prio))]
            && s'.current == s.current && s'.lockNest == s.lockNest
  {
    if s.threads[t].stat.Ready? {
      RemoveOk(s, t);
      PrioOk(Remove(s, t), t, prio);
      InsertOk(SetPrio(Remove(s, t), t, prio), t);
      hide Distinct, Drop, Remove, ValidBut;
    } else {
      hide Distinct;
    }
  }

  lemma PrioOk(s: Sched, t: Tid, prio: nat)
    requires ValidBut(s, {t}) && t in s.threads && s.threads[t].stat.Ready? && prio < MAX
    ensures ValidBut(SetPrio(s, t, prio), {t})
  {
    hide Distinct;
  }

  lemma YieldOk(s: Sched)
    requires Valid(s) && s.current in s.threads
    ensures Valid(Yield(s)) && Yield(s).threads == s.threads
  {
    var p := s.threads[s.current].prio;
    DropOne(s.lists[p], s.current);
    AddOne(Drop(s.lists[p], s.current), s.current);
    hide Distinct, Drop;
  }

  /** A ready thread leaves its list and goes last in that of its new priority; the others keep their order, and a
      thread that is not ready is in no list before and after. */
  lemma ChangePriorityOrder(s: Sched, t: Tid, prio: nat)
    requires Valid(s) && t in s.threads && prio < MAX
    ensures var (s', p) := (ChangePriority(s, t, prio), s.threads[t].prio);
            if s.threads[t].stat.Ready? then
              var left := s.lists[p := Drop(s.lists[p], t)];
              t in s.lists[p] && s'.lists == left[prio := left[prio] + [t]] && t !in left[prio]
            else s'.lists == s.lists && s'.group == s.group && forall q :: 0 <= q < MAX ==> t !in s.lists[q]
  {
    DropOne(s.lists[s.threads[t].prio], t);
    hide Distinct, Drop;
    var p := s.threads[t].prio;
    forall q | 0 <= q < MAX && t in s.lists[q] ensures q == p && s.threads[t].stat.Ready? {
      var i :| 0 <= i < |s.lists[q]| && s.lists[q][i] == t;
      assert s.threads[s.lists[q][i]].prio == q;
    }
  }

  /** A yield puts the running thread behind the others of its priority, whether it is first or not; when it is alone,
      or no longer ready, nothing changes. */
  lemma YieldOrder(s: Sched)
    requires Valid(s) && s.current in s.threads
    ensures var (c, p) := (s.current, s.threads[s.current].prio);
            if s.threads[c].stat.Ready? then
              c in s.lists[p] && Yield(s) == s.(lists := s.lists[p := Drop(s.lists[p], c) + [c]])
            else Yield(s) == s
    ensures s.lists[s.threads[s.current].prio] == [s.current] ==> Yield(s) == s
  {
    hide Distinct;
    var (c, p) := (s.current, s.threads[s.current].prio);
    if s.threads[c].stat.Ready? && |s.lists[p]| <= 1 {
      assert s.lists[p] == [c];
      assert Drop(s.lists[p], c) + [c] == s.lists[p];
      assert s.lists[p := s.lists[p]] == s.lists;
    }
  }

  /** What the calls leave alone: suspending a thread that is not ready, resuming one that is not suspended, and
      rt_schedule while the scheduler is locked, change nothing. */
  lemma NothingToDo(s: Sched, t: Tid)
    requires Valid(s) && t in s.threads && !Zero(s.group)
    ensures !s.threads[t].stat.Ready? <==> Suspend(s, t) == s
    ensures !s.threads[t].stat.Suspended? <==> Resume(s, t) == s
    ensures s.lockNest > 0 ==> Schedule(s) == s
  {
    hide Distinct;
    if s.threads[t].stat.Ready? { SuspendIs(s, t); }
    if s.threads[t].stat.Suspended? { ResumeIs(s, t); }
  }

  /** rt_schedule runs the first thread of the most urgent non-empty list. */
  lemma ScheduleIs(s: Sched)
    requires Valid(s) && !Zero(s.group) && s.lockNest == 0
    ensures Valid(Schedule(s))
    ensures var c := Schedule(s).current;
            && c in s.threads && s.threads[c].stat.Ready? && s.lists[s.threads[c].prio][0] == c
            && forall t :: t in s.threads && s.threads[t].stat.Ready? ==> s.threads[c].prio <= s.threads[t].prio
  {
    hide Distinct, Lowest32;
    Lowest32Is(s.group);
    var p := Lowest32(s.group);
    assert s.lists[p][0] in s.threads;
    forall t | t in s.threads && s.threads[t].stat.Ready? ensures p <= s.threads[t].prio {
      assert s.lists[s.threads[t].prio] != [];
    }
  }

  /** The group is zero exactly when no thread is ready. */
  lemma GroupZeroIff(s: Sched)
    requires Valid(s)
    ensures Zero(s.group) <==> forall t :: t in s.threads ==> !s.threads[t].stat.Ready?
  {
    hide Distinct;
    if !Zero(s.group) {
      var p :| 0 <= p < MAX && s.group[p];
      assert s.lists[p][0] in s.threads && s.threads[s.lists[p][0]].stat.Ready?;
    }
  }

  // ----- Taking turns

  /** The current thread is the first one of the most urgent priority that is ready. */
  ghost predicate Leads(s: Sched, p: nat)
    ensures Leads(s, p) ==> p < |s.lists|
  {
    && Valid(s) && s.lockNest == 0 && p < MAX && s.lists[p] != [] && s.lists[p][0] == s.current
    && s.current in s.threads
    && forall t :: t in s.threads && s.threads[t].stat.Ready? ==> p <= s.threads[t].prio
  }

  /** rt_thread_yield with its call of rt_schedule. */
  ghost function Turn(s: Sched, p: nat): Sched
    requires Leads(s, p)
  {
    YieldLeads(s, p);
    Schedule(Yield(s))
  }

  lemma YieldLeads(s: Sched, p: nat)
    requires Leads(s, p)
    ensures Valid(Yield(s)) && !Zero(s.group) && Yield(s).group == s.group && Yield(s).lockNest == 0
    ensures s.threads[s.current].prio == p && s.threads[s.current].stat.Ready?
    ensures Yield(s).lists == s.lists[p := s.lists[p][1..] + [s.lists[p][0]]]
  {
    YieldOk(s);
    assert s.lists[p][0] == s.current;
    assert Drop(s.lists[p], s.current) == s.lists[p][1..];
    hide Distinct, Drop;
    assert s.group[p];
    assert |s.lists[p]| == 1 ==> s.lists[p][1..] + [s.lists[p][0]] == s.lists[p];
  }

  lemma TurnIs(s: Sched, p: nat)
    requires Leads(s, p)
    ensures Leads(Turn(s, p), p) && Turn(s, p).lists[p] == s.lists[p][1..] + [s.lists[p][0]]
  {
    hide Distinct, Drop, Yield, Lowest32;
    YieldLeads(s, p);
    YieldOk(s);
    var s1 := Yield(s);
    ScheduleIs(s1);
    var c := Schedule(s1).current;
    assert s1.lists[p][0] in s1.threads && s1.threads[s1.lists[p][0]].prio == p;
  }

  ghost function Turns(s: Sched, p: nat, k: nat): (s': Sched)
    requires Leads(s, p)
    ensures Leads(s', p)
    decreases k
  {
    if k == 0 then s else TurnIs(Turns(s, p, k - 1), p); Turn(Turns(s, p, k - 1), p)
  }

  /** Threads of equal priority take turns: after k yields the k-th thread of the list runs, and after as many yields
      as there are threads the list is as it was. */
  lemma {:induction false} RoundRobin(s: Sched, p: nat, k: nat)
    requires Leads(s, p) && k <= |s.lists[p]|
    ensures Turns(s, p, k).lists[p] == s.lists[p][k..] + s.lists[p][..k]
    ensures k < |s.lists[p]| ==> Turns(s, p, k).current == s.lists[p][k]
    ensures k == |s.lists[p]| ==> Turns(s, p, k).lists[p] == s.lists[p]
    decreases k
  {
    hide Leads, Turn;
    LeadsNonEmpty(s, p);
    LeadsNonEmpty(Turns(s, p, k), p);
    if k > 0 {
      RoundRobin(s, p, k - 1);
      TurnIs(Turns(s, p, k - 1), p);
      LeadsNonEmpty(Turns(s, p, k - 1), p);
    }
  }

  lemma LeadsNonEmpty(s: Sched, p: nat)
    requires Leads(s, p)
    ensures p < |s.lists| && s.lists[p] != [] && s.lists[p][0] == s.current
  {
  }
}
