// The work queue of thread_pool/pthread/pthread_pool.c before it is shut down: every
// critical section, and the signal outside of it, is one step.
module PthreadPool {
  import opened Lists

  const COUNTS := 256   // curWaitThreadNum is a uint8_t

  type Id = nat     // a worker thread
  type Task = nat

  /** waiting are the workers inside pthread_cond_wait, woken the workers that have to take the lock again there;
      ready are on their way to the lock; signals are the callers of addTask that have not signalled yet. */
  datatype Pool = Pool(queue: seq<Task>, count: nat, waiting: set<Id>, woken: set<Id>, ready: set<Id>,
                       running: map<Id, Task>, signals: nat)

  // ----- The steps

  /** addTask inside the lock. */
  function Add(p: Pool, t: Task): Pool {
    p.(queue := p.queue + [t], count := (p.count + 1) % COUNTS, signals := p.signals + 1)
  }

  /** pthread_cond_signal wakes at least one waiting worker, if there is any; ws are the workers it wakes. */
  function Signal(p: Pool, ws: set<Id>): Pool
    requires p.signals > 0
  {
    p.(signals := p.signals - 1, waiting := p.waiting - ws, woken := p.woken + ws)
  }

  /** A wake-up without a signal. */
  function Spurious(p: Pool, w: Id): Pool { p.(waiting := p.waiting - {w}, woken := p.woken + {w}) }

  /** A worker holds the lock: it waits when the count is zero, and takes the first task otherwise. */
  function Enter(p: Pool, w: Id): Pool
    requires p.count != 0 ==> p.queue != []
  {
    var p1 := p.(ready := p.ready - {w}, woken := p.woken - {w});
    if p.count == 0 then p1.(waiting := p.waiting + {w})
    else p1.(queue := p.queue[1..], count := p.count - 1, running := p.running[w := p.queue[0]])
  }

  function Finish(p: Pool, w: Id): Pool { p.(running := p.running - {w}, ready := p.ready + {w}) }

  // ----- The invariant

  /** If a worker still waits, the woken workers and the callers yet to signal are enough for the queued tasks. */
  predicate NoLostWakeUp(p: Pool) { p.waiting != {} ==> |p.woken| + p.signals >= |p.queue| }

  /** A worker is in one place. */
  predicate Apart(p: Pool) {
    && p.waiting !! p.woken && p.waiting !! p.ready && p.woken !! p.ready
    && p.running.Keys !! p.waiting + p.woken + p.ready
  }

  /** What every step keeps. */
  predicate Counted(p: Pool) { Apart(p) && p.count == |p.queue| % COUNTS }

  predicate Inv(p: Pool) { Counted(p) && NoLostWakeUp(p) }

  /** initThreadPool: no task yet, and all workers on their way to the lock. */
  lemma InitInv(workers: set<Id>)
    ensures Inv(Pool([], 0, {}, {}, workers, map[], 0))
  {
  }

  datatype Op = DoAdd(t: Task) | DoSignal(ws: set<Id>) | DoSpurious(w: Id) | DoEnter(w: Id) | DoFinish(w: Id)

  predicate Legal(p: Pool, op: Op) {
    match op
    case DoAdd(t) => true
    case DoSignal(ws) => p.signals > 0 && ws <= p.waiting && (p.waiting != {} ==> ws != {})
    case DoSpurious(w) => w in p.waiting
    case DoEnter(w) => w in p.ready + p.woken
    case DoFinish(w) => w in p.running
  }

  function Step(p: Pool, op: Op): Pool
    requires Counted(p) && Legal(p, op)
  {
    match op
    case DoAdd(t) => Add(p, t)
    case DoSignal(ws) => Signal(p, ws)
    case DoSpurious(w) => Spurious(p, w)
    case DoEnter(w) => Enter(p, w)
    case DoFinish(w) => Finish(p, w)
  }

  lemma UnionSize(a: set<Id>, b: set<Id>)
    requires a !! b
    ensures |a + b| == |a| + |b|
  {
  }

  /** The count modulo 256 follows the length of the queue. */
  lemma Counts(n: nat)
    ensures (n % COUNTS + 1) % COUNTS == (n + 1) % COUNTS
    ensures n % COUNTS != 0 ==> (n - 1) % COUNTS == n % COUNTS - 1
  {
  }

  lemma EnterApart(p: Pool, w: Id)
    requires Apart(p) && w in p.ready + p.woken && (p.count != 0 ==> p.queue != [])
    ensures Apart(Enter(p, w))
  {
    if p.count != 0 { assert p.running[w := p.queue[0]].Keys == p.running.Keys + {w}; }
  }

  /** A worker is in one place, and the count is the number of tasks modulo 256, whatever happens. */
  lemma StepCounts(p: Pool, op: Op)
    requires Counted(p) && Legal(p, op)
    ensures Counted(Step(p, op))
  {
    match op
    case DoAdd(_) => Counts(|p.queue|);
    case DoSignal(_) =>
    case DoSpurious(_) =>
    case DoEnter(w) => Counts(|p.queue|); EnterApart(p, w);
    case DoFinish(w) => assert p.running.Keys - {w} == (p.running - {w}).Keys;
  }

  /** A worker that waits although tasks are queued leaves enough others for them. */
  predicate Covered(p: Pool, op: Op) {
    op.DoEnter? && p.count == 0 && p.queue != [] ==> |p.woken - {op.w}| + p.signals >= |p.queue|
  }

  /** No wake-up is lost by a step, except when a worker finds the count at zero with too many tasks in the queue. */
  lemma StepKeepsIff(p: Pool, op: Op)
    requires Inv(p) && Legal(p, op)
    ensures Inv(Step(p, op)) <==> Covered(p, op)
  {
    hide Apart;
    StepCounts(p, op);
    match op
    case DoAdd(_) =>
    case DoSignal(ws) => UnionSize(p.woken, ws) by { WokenApart(p); }
    case DoSpurious(w) => UnionSize(p.woken, {w}) by { WokenApart(p); }
    case DoEnter(w) => EnterKeepsIff(p, w);
    case DoFinish(w) =>
  }

  lemma WokenApart(p: Pool)
    requires Apart(p)
    ensures p.woken !! p.waiting
  {
  }

  lemma EnterKeepsIff(p: Pool, w: Id)
    requires Inv(p) && w in p.ready + p.woken
    ensures p.count != 0 ==> p.queue != []
    ensures NoLostWakeUp(Enter(p, w)) <==> Covered(p, DoEnter(w))
  {
    hide Apart, Enter, NoLostWakeUp;
    if p.count != 0 { EnterTakes(p, w); } else { EnterWaits(p, w); }
  }

  lemma EnterTakes(p: Pool, w: Id)
    requires NoLostWakeUp(p) && p.count != 0 && p.queue != []
    ensures NoLostWakeUp(Enter(p, w))
  {
    assert |p.woken - {w}| + 1 >= |p.woken| by {
      if w in p.woken {
        assert p.woken == p.woken - {w} + {w};
        UnionSize(p.woken - {w}, {w});
      } else {
        assert p.woken - {w} == p.woken;
      }
    }
  }

  lemma EnterWaits(p: Pool, w: Id)
    requires p.count == 0
    ensures NoLostWakeUp(Enter(p, w)) <==> (p.queue != [] ==> |p.woken - {w}| + p.signals >= |p.queue|)
  {
    assert w in Enter(p, w).waiting;
  }

  lemma EnterDefined(p: Pool)
    requires Counted(p)
    ensures p.count != 0 ==> p.queue != []
  {
  }

  /** The assertions of threadJob hold, and a worker waits with tasks in the queue exactly when their number is
      a multiple of 256: the count has wrapped round. */
  lemma WaitsWithTasksIff(p: Pool, w: Id)
    requires Counted(p) && w in p.ready + p.woken
    ensures p.count != 0 ==> p.queue != []
    ensures w in Enter(p, w).waiting && p.queue != [] <==> |p.queue| > 0 && |p.queue| % COUNTS == 0
  {
  }

  // ----- Whole runs

  ghost predicate LegalRun(p: Pool, ops: seq<Op>)
    requires Counted(p)
    decreases |ops|
  {
    ops != [] ==> Legal(p, ops[0]) && (StepCounts(p, ops[0]); LegalRun(Step(p, ops[0]), ops[1..]))
  }

  ghost function Run(p: Pool, ops: seq<Op>): (p': Pool)
    requires Counted(p) && LegalRun(p, ops)
    ensures Counted(p')
    decreases |ops|
  {
    if ops == [] then p else StepCounts(p, ops[0]); Run(Step(p, ops[0]), ops[1..])
  }

  ghost predicate CoveredRun(p: Pool, ops: seq<Op>)
    requires Counted(p) && LegalRun(p, ops)
    decreases |ops|
  {
    ops != [] ==> Covered(p, ops[0]) && (StepCounts(p, ops[0]); CoveredRun(Step(p, ops[0]), ops[1..]))
  }

  /** No worker takes the lock while the number of tasks in the queue is a positive multiple of 256. */
  ghost predicate UnwrappedRun(p: Pool, ops: seq<Op>)
    requires Counted(p) && LegalRun(p, ops)
    decreases |ops|
  {
    ops != [] ==>
      && (ops[0].DoEnter? ==> p.queue == [] || |p.queue| % COUNTS != 0)
      && (StepCounts(p, ops[0]); UnwrappedRun(Step(p, ops[0]), ops[1..]))
  }

  lemma {:induction false} UnwrappedCovered(p: Pool, ops: seq<Op>)
    requires Counted(p) && LegalRun(p, ops) && UnwrappedRun(p, ops)
    ensures CoveredRun(p, ops)
    decreases |ops|
  {
    hide Step, Legal, Apart;
    if ops != [] {
      StepCounts(p, ops[0]);
      UnwrappedCovered(Step(p, ops[0]), ops[1..]);
    }
  }

  /** That is so when fewer than 256 tasks are queued at first and added later. */
  lemma {:induction false} FewTasksUnwrapped(p: Pool, ops: seq<Op>)
    requires Counted(p) && LegalRun(p, ops) && |p.queue| + |AddedIn(ops)| < COUNTS
    ensures UnwrappedRun(p, ops)
    decreases |ops|
  {
    hide Apart;
    if ops != [] {
      StepCounts(p, ops[0]);
      FewTasksUnwrapped(Step(p, ops[0]), ops[1..]);
    }
  }

  lemma {:induction false} RunKeeps(p: Pool, ops: seq<Op>)
    requires Inv(p) && LegalRun(p, ops) && CoveredRun(p, ops)
    ensures Inv(Run(p, ops))
    decreases |ops|
  {
    hide Step, Legal, Covered, Apart, NoLostWakeUp;
    if ops != [] {
      StepKeepsIff(p, ops[0]);
      RunKeeps(Step(p, ops[0]), ops[1..]);
    }
  }

  /** No stall, from the start of the pool: while tasks are queued, some worker is on its way to the lock or runs a
      task, or somebody is about to signal. */
  lemma NoStall(workers: set<Id>, ops: seq<Op>)
    requires var p := Pool([], 0, {}, {}, workers, map[], 0);
             Counted(p) && LegalRun(p, ops) && CoveredRun(p, ops)
    ensures var p' := Run(Pool([], 0, {}, {}, workers, map[], 0), ops);
            p'.queue != [] && p'.waiting + p'.woken + p'.ready + p'.running.Keys != {} ==>
              p'.woken + p'.ready + p'.running.Keys != {} || p'.signals > 0
  {
    hide LegalRun, CoveredRun, Run, Apart;
    InitInv(workers);
    RunKeeps(Pool([], 0, {}, {}, workers, map[], 0), ops);
  }

  /** So nobody waits in vain as long as no worker takes the lock while a positive multiple of 256 tasks is queued. */
  lemma NoStallUnwrapped(workers: set<Id>, ops: seq<Op>)
    requires var p := Pool([], 0, {}, {}, workers, map[], 0);
             Counted(p) && LegalRun(p, ops) && UnwrappedRun(p, ops)
    ensures var p' := Run(Pool([], 0, {}, {}, workers, map[], 0), ops);
            && Inv(p')
            && (p'.queue != [] && p'.waiting + p'.woken + p'.ready + p'.running.Keys != {} ==>
                  p'.woken + p'.ready + p'.running.Keys != {} || p'.signals > 0)
  {
    hide LegalRun, CoveredRun, UnwrappedRun, Run, Inv;
    var p := Pool([], 0, {}, {}, workers, map[], 0);
    InitInv(workers);
    UnwrappedCovered(p, ops);
    RunKeeps(p, ops);
    NoStall(workers, ops);
  }

  /** And as long as fewer than 256 tasks are added. */
  lemma NoStallFewTasks(workers: set<Id>, ops: seq<Op>)
    requires var p := Pool([], 0, {}, {}, workers, map[], 0);
             Counted(p) && LegalRun(p, ops) && |AddedIn(ops)| < COUNTS
    ensures var p' := Run(Pool([], 0, {}, {}, workers, map[], 0), ops);
            && Inv(p')
            && (p'.queue != [] && p'.waiting + p'.woken + p'.ready + p'.running.Keys != {} ==>
                  p'.woken + p'.ready + p'.running.Keys != {} || p'.signals > 0)
  {
    hide LegalRun, UnwrappedRun, Run, Inv;
    FewTasksUnwrapped(Pool([], 0, {}, {}, workers, map[], 0), ops);
    NoStallUnwrapped(workers, ops);
  }

  // ----- A wake-up lost for good

  /** The pool while its one worker has not come to the lock yet and nobody is about to signal. */
  function Early(w: Id, queue: seq<Task>): Pool {
    Pool(queue, |queue| % COUNTS, {}, {}, {w}, map[], 0)
  }

  /** n tasks are added, each with its signal. */
  function Rounds(n: nat): seq<Op> {
    if n == 0 then [] else [DoAdd(0), DoSignal({})] + Rounds(n - 1)
  }

  lemma OneRound(w: Id, queue: seq<Task>, rest: seq<Op>)
    requires LegalRun(Early(w, queue + [0]), rest)
    ensures LegalRun(Early(w, queue), [DoAdd(0), DoSignal({})] + rest)
    ensures Run(Early(w, queue), [DoAdd(0), DoSignal({})] + rest) == Run(Early(w, queue + [0]), rest)
  {
    var ops := [DoAdd(0), DoSignal({})] + rest;
    assert ops[1..] == [DoSignal({})] + rest && ops[1..][1..] == rest;
    Counts(|queue|);
    var p1 := Step(Early(w, queue), DoAdd(0));
    StepCounts(Early(w, queue), DoAdd(0));
    assert Step(p1, DoSignal({})) == Early(w, queue + [0]);
  }

  lemma {:induction false} AllRounds(w: Id, queue: seq<Task>, n: nat, rest: seq<Op>)
    requires LegalRun(Early(w, queue + seq(n, i => 0)), rest)
    ensures LegalRun(Early(w, queue), Rounds(n) + rest)
    ensures Run(Early(w, queue), Rounds(n) + rest) == Run(Early(w, queue + seq(n, i => 0)), rest)
    decreases n
  {
    hide LegalRun, Run;
    if n == 0 {
      assert queue + seq(0, i => 0) == queue && Rounds(0) + rest == rest;
    } else {
      assert queue + seq(n, i => 0) == (queue + [0]) + seq(n - 1, i => 0);
      AllRounds(w, queue + [0], n - 1, rest);
      OneRound(w, queue, Rounds(n - 1) + rest);
      assert Rounds(n) + rest == [DoAdd(0), DoSignal({})] + (Rounds(n - 1) + rest);
    }
  }

  /** From the start of a pool with one worker: 256 tasks are added before the worker takes the lock.  It goes to sleep,
      and nothing but another task or a wake-up without a signal can happen any more. */
  lemma LostAt256(w: Id)
    ensures var p := Pool([], 0, {}, {}, {w}, map[], 0);
            var ops := Rounds(COUNTS) + [DoEnter(w)];
            && Inv(p) && LegalRun(p, ops)
            && var p' := Run(p, ops);
               && |p'.queue| == COUNTS && p'.waiting == {w} && p'.woken == p'.ready == {} && p'.running == map[]
               && p'.signals == 0 && forall op :: Legal(p', op) ==> op.DoAdd? || op.DoSpurious?
  {
    InitInv({w});
    var queue := [] + seq(COUNTS, i => 0);
    LastEnters(w, queue);
    AllRounds(w, [], COUNTS, [DoEnter(w)]);
  }

  lemma LastEnters(w: Id, queue: seq<Task>)
    requires |queue| == COUNTS
    ensures LegalRun(Early(w, queue), [DoEnter(w)])
    ensures Run(Early(w, queue), [DoEnter(w)]) == Early(w, queue).(ready := {}, waiting := {w})
  {
    var p := Early(w, queue);
    StepCounts(p, DoEnter(w));
    assert Step(p, DoEnter(w)) == p.(ready := {}, waiting := {w});
    assert [DoEnter(w)][1..] == [];
  }

  // ----- The order of the tasks

  function Started(p: Pool, op: Op): seq<Task>
    requires Counted(p)
  {
    if op.DoEnter? && p.count != 0 then [p.queue[0]] else []
  }

  ghost function StartedIn(p: Pool, ops: seq<Op>): seq<Task>
    requires Counted(p) && LegalRun(p, ops)
    decreases |ops|
  {
    if ops == [] then [] else StepCounts(p, ops[0]); Started(p, ops[0]) + StartedIn(Step(p, ops[0]), ops[1..])
  }

  function AddedIn(ops: seq<Op>): seq<Task>
    decreases |ops|
  {
    if ops == [] then [] else (if ops[0].DoAdd? then [ops[0].t] else []) + AddedIn(ops[1..])
  }

  lemma StepInOrder(p: Pool, op: Op)
    requires Counted(p) && Legal(p, op)
    ensures Started(p, op) + Step(p, op).queue == p.queue + if op.DoAdd? then [op.t] else []
  {
    EnterDefined(p);
  }

  /** Tasks are started in the order in which they were added. */
  lemma {:induction false} FifoRun(p: Pool, ops: seq<Op>)
    requires Counted(p) && LegalRun(p, ops)
    ensures StartedIn(p, ops) + Run(p, ops).queue == p.queue + AddedIn(ops)
    decreases |ops|
  {
    hide Counted, Step, Started, Legal;
    if ops != [] {
      StepCounts(p, ops[0]);
      StepInOrder(p, ops[0]);
      var p1 := Step(p, ops[0]);
      FifoRun(p1, ops[1..]);
      InOrder(Started(p, ops[0]), p1.queue, p.queue, if ops[0].DoAdd? then [ops[0].t] else [],
                  StartedIn(p1, ops[1..]), Run(p1, ops[1..]).queue, AddedIn(ops[1..]));
    }
  }

  /** Every task is started at most once, and is not in the queue any more once it is started. */
  lemma AtMostOnce(p: Pool, ops: seq<Op>)
    requires Counted(p) && LegalRun(p, ops) && Distinct(p.queue + AddedIn(ops))
    ensures Distinct(StartedIn(p, ops) + Run(p, ops).queue)
  {
    FifoRun(p, ops);
  }

  // ----- The code

  class Node {
    const task: Task
    var next: Node?

    constructor (task: Task)
      ensures this.task == task && next == null
    {
      this.task, next := task, null;
    }
  }

  class TaskQueue {
    var head: Node?           // queueHead
    var count: nat            // curWaitThreadNum
    ghost var nodes: seq<Node>

    ghost function Tasks(): (r: seq<Task>)
      reads this`nodes
      ensures |r| == |nodes|
    {
      var ns := nodes;
      seq(|ns|, i requires 0 <= i < |ns| => ns[i].task)
    }

    ghost function At(k: nat): Node?
      reads this`nodes
    {
      if k < |nodes| then nodes[k] else null
    }

    /** The next fields lead through the nodes in order. */
    ghost predicate Linked()
      reads this`head, this`nodes, nodes
    {
      && head == At(0)
      && (forall i :: 0 <= i < |nodes| ==> nodes[i].next == At(i + 1))
      && Distinct(nodes)
    }

    ghost predicate Valid()
      reads this, nodes
    {
      Linked() && count == |nodes| % COUNTS
    }

    constructor ()
      ensures Valid() && nodes == []
    {
      head, count, nodes := null, 0, [];
    }

    /** The walk of addTask to the tail of the list. */
    method Tail() returns (member: Node)
      requires Linked() && nodes != []
      ensures member == nodes[|nodes| - 1]
    {
      member := head;
      ghost var k := 0;
      while member.next != null
        invariant k < |nodes| && member == nodes[k]
        decreases |nodes| - k
      {
        member := member.next;
        k := k + 1;
      }
    }

    method Link(newTask: Node)
      requires Linked() && newTask !in nodes && newTask.next == null
      modifies this`head, this`nodes, nodes
      ensures Linked() && nodes == old(nodes) + [newTask]
    {
      if head == null {
        head := newTask;
      } else {
        var member := Tail();
        member.next := newTask;
      }
      nodes := nodes + [newTask];
      assert forall i :: 0 <= i < |nodes| - 1 ==> nodes[i] == old(nodes)[i];
    }

    /** addTask, inside the lock. */
    method AddTask(t: Task)
      requires Valid()
      modifies this, nodes
      ensures Valid() && Tasks() == old(Tasks()) + [t] && count == (old(count) + 1) % COUNTS
      ensures fresh(nodes[|nodes| - 1])
    {
      hide Linked, At;
      Counts(|nodes|);
      var newTask := new Node(t);
      Link(newTask);
      count := (count + 1) % COUNTS;
    }

    /** A worker inside the lock: nothing when the count is zero, else the first task. */
    method TakeTask() returns (task: seq<Task>)
      requires Valid()
      modifies this
      ensures Valid()
      ensures if old(count) == 0 then task == [] && nodes == old(nodes)
              else && old(nodes) != [] && task == [old(Tasks())[0]] && Tasks() == old(Tasks())[1..]
                   && count == old(count) - 1
    {
      if count == 0 { return []; }
      Counts(|nodes|);
      count := count - 1;
      task := [head.task];
      head := head.next;
      nodes := nodes[1..];
    }
  }
}
