// The code of OSFlagPost, OSFlagPend, OS_FlagBlock, OS_FlagTaskRdy and OS_FlagUnlink:
// wait nodes in a doubly linked list that is unlinked while it is walked.
module EventFlagsCode {
  import opened DoubleList
  import opened EventFlags
  import opened Lists

  function Tasks(ns: seq<Node>): (r: seq<Id>)
    ensures |r| == |ns| && forall i :: 0 <= i < |r| ==> r[i] == ns[i].task
  {
    seq(|ns|, i requires 0 <= i < |ns| => ns[i].task)
  }

  lemma TasksWithout(ns: seq<Node>, k: nat)
    requires k < |ns|
    ensures Tasks(ns[..k] + ns[k + 1..]) == Tasks(ns)[..k] + Tasks(ns)[k + 1..]
  {
  }

  lemma TasksDistinct(ns: seq<Node>)
    requires OneEach(ns)
    ensures Distinct(Tasks(ns))
  {
  }

  class Object {
    var flags: Flags
    var head: int                // OSFlagWaitList
    var next: map<int, int>       // OSFlagNodeNext, by the task on whose stack the node lies
    var prev: map<int, int>       // OSFlagNodePrev
    var nodes: map<Id, Node>     // the other fields of the nodes
    var tasks: map<Id, Task>
    var flagNode: map<Id, int>   // OSTCBFlagNode
    var ready: set<Id>
    ghost var waiting: seq<Node>

    ghost function View(): Group
      reads this
    {
      Group(flags, waiting, tasks, ready)
    }

    ghost predicate Shows()
      reads this`next, this`prev, this`head, this`waiting, this`nodes, this`flagNode
    {
      && Linked(next, prev, head, Tasks(waiting))
      && (forall n :: n in waiting ==> n.task in nodes && nodes[n.task] == n)
      && NodesKnown(waiting, flagNode)
    }

    ghost predicate Valid()
      reads this
    {
      Shows() && Inv(View()) && tasks.Keys <= flagNode.Keys
    }

    constructor (tasks: map<Id, Task>, ready: set<Id>)
      requires forall t :: t in tasks ==> !tasks[t].pend
      requires forall t :: t in ready ==> t in tasks && !tasks[t].suspend
      ensures Valid() && View() == Group({}, [], tasks, ready)
    {
      flags, head, next, prev, nodes := {}, NULL, map[], map[], map[];
      flagNode := map t | t in tasks :: NULL;
      this.tasks, this.ready, waiting := tasks, ready, [];
    }

    /** OS_FlagUnlink of node k of the list. */
    method Unlink(n: Id, ghost k: nat)
      requires Shows() && OneEach(waiting) && k < |waiting| && waiting[k].task == n
      modifies this`next, this`prev, this`head, this`waiting, this`flagNode
      ensures Shows() && waiting == old(waiting)[..k] + old(waiting)[k + 1..]
      ensures flagNode == old(flagNode)[n := NULL]
      ensures n in old(next) && n in next && next[n] == old(next)[n]
    {
      hide Linked, OneEach, Distinct, Tasks, NodesKnown;
      TasksDistinct(waiting);
      ghost var ids, rest := Tasks(waiting), waiting[..k] + waiting[k + 1..];
      NodeAt(next, prev, head, ids, k);
      UnlinkAt(next, prev, head, ids, k);
      TasksWithout(waiting, k);
      NotOwn(ids, k);
      UnlinkedKnown(waiting, k, flagNode);
      RestNodes(waiting, k, nodes);
      var p, q := prev[n], next[n];
      if p == NULL {
        head := q;
        if q != NULL { prev := prev[q := NULL]; }
      } else {
        next := next[p := q];
        if q != NULL { prev := prev[q := p]; }
      }
      waiting := rest;
      flagNode := flagNode[n := NULL];
    }

    /** OS_FlagTaskRdy. */
    method TaskReady(n: Id, rdy: Flags, ghost k: nat) returns (sched: bool)
      requires Shows() && OneEach(waiting) && k < |waiting| && waiting[k].task == n && n in tasks
      requires rdy == FlagsRdy(waiting[k].kind, flags, waiting[k].mask)
      modifies this`next, this`prev, this`head, this`waiting, this`flagNode, this`tasks, this`ready
      ensures Grown(old(flagNode), flagNode)
      ensures Shows() && waiting == old(waiting)[..k] + old(waiting)[k + 1..]
      ensures View() == TaskRdy(old(View()), old(waiting)[k]).(waiting := waiting)
      ensures n in old(next) && n in next && next[n] == old(next)[n]
    {
      hide Linked, FlagsRdy;
      tasks := tasks[n := tasks[n].(dly := 0, got := rdy, pend := false)];
      sched := !tasks[n].suspend;
      if sched { ready := ready + {n}; }
      Unlink(n, k);
    }

    // ----- OSFlagPost

    /** Position k of the wait list ns has been reached. */
    ghost predicate Walking(ns: seq<Node>, k: nat)
      reads this
    {
      && k <= |ns| && Shows() && OneEach(ns) && (forall n :: n in ns ==> n.task in tasks)
      && waiting == Kept(ns[..k], flags) + ns[k..]
    }

    /** One node: it is unlinked if it is satisfied, and its own link still leads on. */
    method WakeOne(pnode: Id, ghost ns: seq<Node>, ghost k: nat) returns (after: int, sched: bool)
      requires Walking(ns, k) && k < |ns| && pnode == ns[k].task
      modifies this`next, this`prev, this`head, this`waiting, this`flagNode, this`tasks, this`ready
      ensures Grown(old(flagNode), flagNode)
      ensures Walking(ns, k + 1) && after == if k + 1 < |ns| then ns[k + 1].task else NULL
      ensures View() == (if Satisfied(ns[k].kind, flags, ns[k].mask) then TaskRdy(old(View()), ns[k]) else old(View()))
                        .(waiting := waiting)
    {
      hide Shows, Linked, Satisfied, FlagsRdy, Kept, OneEach, Tasks, NodesKnown, TaskRdy, Grown;
      StillGrown(flagNode, flagNode, flagNode);
      ghost var i := |Kept(ns[..k], flags)|;
      WalkAt(waiting, ns, k, flags);
      SubDistinct(ns, k, flags);
      AtNode(ns, k);
      var node := nodes[pnode];
      sched := false;
      if Satisfied(node.kind, flags, node.mask) {
        sched := TaskReady(pnode, FlagsRdy(node.kind, flags, node.mask), i);
      }
      after := next[pnode];
    }

    /** What the node says, and where its link leads. */
    lemma AtNode(ns: seq<Node>, k: nat)
      requires Walking(ns, k) && k < |ns|
      ensures ns[k].task in nodes && nodes[ns[k].task] == ns[k]
      ensures ns[k].task in next && next[ns[k].task] == if k + 1 < |ns| then ns[k + 1].task else NULL
    {
      hide Linked, Kept, OneEach, Tasks, NodesKnown;
      assert waiting[|Kept(ns[..k], flags)|] == ns[k] && ns[k] in waiting;
      AfterIs(next, prev, head, waiting, ns, k, flags);
    }

    /** The loop over the wait list. */
    method WakeAll() returns (sched: bool)
      requires Shows() && OneEach(waiting) && forall n :: n in waiting ==> n.task in tasks
      modifies this`next, this`prev, this`head, this`waiting, this`flagNode, this`tasks, this`ready
      ensures Grown(old(flagNode), flagNode)
      ensures Shows() && waiting == Kept(old(waiting), flags)
      ensures View() == Wake(old(View()), old(waiting)).(waiting := waiting)
    {
      hide Linked, Satisfied, FlagsRdy, TaskRdy, Kept, Wake, OneEach, NodesKnown, Grown;
      sched := false;
      ghost var ns, k := waiting, 0;
      ghost var done := Wake(View(), ns);
      WalkStart();
      StillGrown(flagNode, flagNode, flagNode);
      var pnode := head;
      while pnode != NULL
        invariant Walking(ns, k) && pnode == (if k < |ns| then ns[k].task else NULL)
        invariant Wake(View().(waiting := ns), ns[k..]) == done && Grown(old(flagNode), flagNode)
        decreases |ns| - k
      {
        assert ns[k..][1..] == ns[k + 1..] && ns[k..][0] == ns[k];
        ghost var g := View();
        var s;
        ghost var before := flagNode;
        pnode, s := WakeOne(pnode, ns, k);
        StillGrown(old(flagNode), before, flagNode);
        WakeUnfold(g, View(), ns, k);
        sched := sched || s;
        k := k + 1;
      }
      assert ns[..k] == ns && ns[k..] == [];
      WakeNone(View().(waiting := ns));
    }

    lemma WalkStart()
      requires Shows() && OneEach(waiting) && forall n :: n in waiting ==> n.task in tasks
      ensures Walking(waiting, 0) && waiting[0..] == waiting
      ensures head == if waiting == [] then NULL else waiting[0].task
    {
    }

    method Post(bits: Flags, change: Change) returns (sched: bool)
      requires Valid()
      modifies this
      ensures Valid() && View() == EventFlags.Post(old(View()), bits, change)
    {
      hide Linked, Wake, Kept;
      PostKeeps(View(), bits, change);
      match change {
        case ClearBits => flags := flags - bits;
        case SetBits => flags := flags + bits;
      }
      ghost var g, w := View(), Kept(waiting, flags);
      WakeAnyList(g, w, waiting);
      sched := WakeAll();
    }

    // ----- OSFlagPend

    /** Up to the call of OS_Sched; the current task is ready. */
    method Pend(t: Id, mask: Flags, kind: Kind, consume: bool, timeout: nat) returns (code: Code)
      requires Valid() && t in ready && t in tasks && !tasks[t].pend
      modifies this
      ensures Valid() && (View(), code) == EventFlags.Pend(old(View()), t, mask, kind, consume, timeout)
    {
      hide Linked;
      PendKeeps(View(), t, mask, kind, consume, timeout);
      var rdy := if IsSet(kind) then flags * mask else mask - flags;
      if (if kind.SetAll? || kind.ClrAll? then rdy == mask else rdy != {}) {
        if consume { flags := if IsSet(kind) then flags - rdy else flags + rdy; }
        return Ok;
      }
      Block(t, mask, kind, timeout);
      code := Blocked;
    }

    /** OSFlagAccept. */
    method Accept(mask: Flags, kind: Kind, consume: bool) returns (ok: bool)
      requires Valid()
      modifies this`flags
      ensures Valid() && View() == EventFlags.Accept(old(View()), mask, kind, consume)
      ensures ok <==> Satisfied(kind, old(flags), mask)
    {
      hide Linked, OneEach, NodesKnown;
      var rdy := if IsSet(kind) then flags * mask else mask - flags;
      ok := if kind.SetAll? || kind.ClrAll? then rdy == mask else rdy != {};
      if ok && consume { flags := if IsSet(kind) then flags - rdy else flags + rdy; }
    }

    /** OS_FlagBlock. */
    method Block(t: Id, mask: Flags, kind: Kind, timeout: nat)
      requires Shows() && OneEach(waiting) && !Queued(waiting, t) && t in tasks
      modifies this`next, this`prev, this`head, this`waiting, this`flagNode, this`nodes, this`tasks, this`ready
      ensures Shows() && waiting == [Node(t, mask, kind)] + old(waiting)
      ensures ready == old(ready) - {t} && tasks == old(tasks)[t := old(tasks)[t].(pend := true, dly := timeout)]
      ensures flagNode == old(flagNode)[t := t]
    {
      hide Linked, OneEach, NodesKnown, Tasks;
      tasks := tasks[t := tasks[t].(pend := true, dly := timeout)];
      LinkNode(Node(t, mask, kind));
      ready := ready - {t};
    }

    method LinkNode(n: Node)
      requires Shows() && OneEach(waiting) && !Queued(waiting, n.task)
      modifies this`next, this`prev, this`head, this`waiting, this`flagNode, this`nodes
      ensures Shows() && waiting == [n] + old(waiting) && flagNode == old(flagNode)[n.task := n.task]
    {
      hide Linked, OneEach, NodesKnown, Tasks, Queued;
      var t := n.task;
      NotQueued(waiting, t);
      LinkFirst(next, prev, head, Tasks(waiting), t);
      TasksFirst(n, waiting);
      HeadIs(next, prev, head, Tasks(waiting));
      LinkedKnown(waiting, n, flagNode);
      NewNode(waiting, nodes, n);
      flagNode := flagNode[t := t];
      nodes := nodes[t := n];
      next, prev := next[t := head], prev[t := NULL];
      if head != NULL { prev := prev[head := t]; }
      head := t;
      waiting := [n] + waiting;
    }

    /** When the task runs again. */
    method Resume(t: Id, kind: Kind, consume: bool) returns (code: Code)
      requires Valid() && t in ready
      modifies this
      ensures Valid() && (View(), code) == EventFlags.Resume(old(View()), t, kind, consume)
    {
      hide Linked, WithoutTask, OneEach, NodesKnown;
      ResumeKeeps(View(), t, kind, consume);
      if tasks[t].pend {
        ghost var k := Place(waiting, t);
        WithoutAt(waiting, k);
        Unlink(t, k);
        tasks := tasks[t := tasks[t].(pend := false, suspend := false)];
        return TimedOut;
      }
      if consume {
        flags := if IsSet(kind) then flags - tasks[t].got else flags + tasks[t].got;
      }
      code := Ok;
    }

    // ----- Suspending, resuming, deleting and creating tasks

    /** The part of OSTaskDel that is about flags, in its first section. */
    method DeleteTask(t: Id)
      requires Valid() && t in tasks
      modifies this
      ensures Valid() && View() == Delete(old(View()), t)
    {
      hide Linked, WithoutTask, OneEach, NodesKnown;
      DeleteKeeps(View(), t);
      NodeOf(waiting, flagNode, t);
      if flagNode[t] != NULL {
        ghost var k := Place(waiting, t);
        WithoutAt(waiting, k);
        Unlink(flagNode[t], k);
      } else {
        NoneWithout(waiting, t);
      }
      ready := ready - {t};
      tasks := tasks - {t};
    }

    /** OSTaskSuspend. */
    method SuspendTask(t: Id)
      requires Valid() && t in tasks
      modifies this`ready, this`tasks
      ensures Valid() && View() == Suspend(old(View()), t)
    {
      hide Shows, OneEach;
      StepKeeps(View(), DoSuspend(t));
      ready := ready - {t};
      tasks := tasks[t := tasks[t].(suspend := true)];
    }

    /** OSTaskResume. */
    method ResumeTask(t: Id)
      requires Valid() && t in tasks
      modifies this`ready, this`tasks
      ensures Valid() && View() == Unsuspend(old(View()), t)
    {
      hide Shows, OneEach;
      StepKeeps(View(), DoUnsuspend(t));
      if tasks[t].suspend {
        tasks := tasks[t := tasks[t].(suspend := false)];
        if !tasks[t].pend && tasks[t].dly == 0 { ready := ready + {t}; }
      }
    }

    /** The part of OS_TCBInit that is about flags. */
    method CreateTask(t: Id, got: Flags)
      requires Valid() && t !in tasks
      modifies this`ready, this`tasks, this`flagNode
      ensures Valid() && View() == Create(old(View()), t, got)
    {
      hide Linked, OneEach, Queued;
      StepKeeps(View(), DoCreate(t, got));
      tasks := tasks[t := Task(0, false, false, got)];
      flagNode := flagNode[t := NULL];
      ready := ready + {t};
    }
  }

  /** OSTCBFlagNode leads to the node of exactly the tasks that have one in the list. */
  ghost predicate NodesKnown(ns: seq<Node>, flagNode: map<Id, int>) {
    && (forall n :: n in ns ==> n.task in flagNode && flagNode[n.task] == n.task)
    && (forall t :: t in flagNode && flagNode[t] != NULL ==> Queued(ns, t))
  }

  /** No TCB has lost its OSTCBFlagNode. */
  ghost predicate Grown(before: map<Id, int>, flagNode: map<Id, int>) { before.Keys <= flagNode.Keys }

  lemma StillGrown(a: map<Id, int>, b: map<Id, int>, c: map<Id, int>)
    ensures Grown(a, b) && Grown(b, c) ==> Grown(a, c)
    ensures Grown(a, a)
  {
  }

  lemma NodeOf(ns: seq<Node>, flagNode: map<Id, int>, t: Id)
    requires NodesKnown(ns, flagNode) && t in flagNode
    ensures flagNode[t] == NULL || flagNode[t] == t
    ensures flagNode[t] != NULL <==> Queued(ns, t)
  {
  }

  lemma RestNodes(ns: seq<Node>, k: nat, nodes: map<Id, Node>)
    requires k < |ns| && forall n :: n in ns ==> n.task in nodes && nodes[n.task] == n
    ensures forall n :: n in ns[..k] + ns[k + 1..] ==> n.task in nodes && nodes[n.task] == n
  {
    assert forall n :: n in ns[..k] + ns[k + 1..] ==> n in ns;
  }

  lemma UnlinkedKnown(ns: seq<Node>, k: nat, flagNode: map<Id, int>)
    requires NodesKnown(ns, flagNode) && OneEach(ns) && k < |ns|
    ensures NodesKnown(ns[..k] + ns[k + 1..], flagNode[ns[k].task := NULL])
  {
    var rest := ns[..k] + ns[k + 1..];
    forall i | 0 <= i < |rest| ensures rest[i] in ns && rest[i].task != ns[k].task {
      assert rest[i] == ns[if i < k then i else i + 1];
    }
    forall t | t in flagNode && flagNode[t] != NULL && t != ns[k].task ensures Queued(rest, t) {
      var i :| 0 <= i < |ns| && ns[i].task == t;
      assert rest[if i < k then i else i - 1] == ns[i];
    }
  }

  lemma LinkedKnown(ns: seq<Node>, n: Node, flagNode: map<Id, int>)
    requires NodesKnown(ns, flagNode)
    ensures NodesKnown([n] + ns, flagNode[n.task := n.task])
  {
    forall t | Queued(ns, t) ensures Queued([n] + ns, t) {
      var m :| m in ns && m.task == t;
      assert m in [n] + ns;
    }
    assert n in [n] + ns;
  }

  lemma TasksFirst(n: Node, ns: seq<Node>)
    ensures Tasks([n] + ns) == [n.task] + Tasks(ns)
  {
  }

  lemma NewNode(ns: seq<Node>, nodes: map<Id, Node>, n: Node)
    requires (forall m :: m in ns ==> m.task in nodes && nodes[m.task] == m) && !Queued(ns, n.task)
    ensures forall m :: m in [n] + ns ==> m.task in nodes[n.task := n] && nodes[n.task := n][m.task] == m
  {
  }

  lemma WakeNone(g: Group)
    ensures Wake(g, []) == g
  {
  }

  lemma WakeUnfold(g: Group, g': Group, ns: seq<Node>, k: nat)
    requires k < |ns| && (forall n :: n in ns ==> n.task in g.tasks)
    requires g' == (if Satisfied(ns[k].kind, g.flags, ns[k].mask) then TaskRdy(g, ns[k]) else g).(waiting := g'.waiting)
    ensures forall n :: n in ns[k + 1..] ==> n.task in g'.tasks
    ensures Wake(g.(waiting := ns), ns[k..]) == Wake(g'.(waiting := ns), ns[k + 1..])
  {
    hide Satisfied, FlagsRdy;
    assert ns[k..][1..] == ns[k + 1..] && ns[k..][0] == ns[k];
  }

  /** Waking does not look at the list of the group. */
  lemma {:induction false} WakeAnyList(g: Group, w: seq<Node>, ns: seq<Node>)
    requires forall n :: n in ns ==> n.task in g.tasks
    ensures Wake(g.(waiting := w), ns) == Wake(g, ns).(waiting := w)
    decreases |ns|
  {
    hide Satisfied, FlagsRdy;
    if ns != [] {
      var n := ns[0];
      WakeAnyList(if Satisfied(n.kind, g.flags, n.mask) then TaskRdy(g, n) else g, w, ns[1..]);
    }
  }

  /** The place of a task in a list that names it. */
  ghost function Place(ns: seq<Node>, t: Id): (k: nat)
    requires Queued(ns, t)
    ensures k < |ns| && ns[k].task == t
  {
    var n :| n in ns && n.task == t;
    var k :| 0 <= k < |ns| && ns[k] == n;
    k
  }

  lemma {:induction false} WithoutAt(ns: seq<Node>, k: nat)
    requires OneEach(ns) && k < |ns|
    ensures WithoutTask(ns, ns[k].task) == ns[..k] + ns[k + 1..]
  {
    hide OneEach;
    HeadDiffers(ns);
    if k > 0 {
      WithoutAt(ns[1..], k - 1);
      assert ns[1..][k - 1] == ns[k] && ns[k] in ns[1..];
      FrontBack(ns, k);
    } else {
      NoneWithout(ns[1..], ns[0].task);
      assert ns[..0] + ns[1..] == ns[1..];
    }
  }

  lemma FrontBack<T>(ns: seq<T>, k: nat)
    requires 0 < k < |ns|
    ensures [ns[0]] + (ns[1..][..k - 1] + ns[1..][k..]) == ns[..k] + ns[k + 1..]
  {
  }

  lemma {:induction false} NoneWithout(ns: seq<Node>, t: Id)
    requires !Queued(ns, t)
    ensures WithoutTask(ns, t) == ns
  {
    if ns != [] {
      assert ns[0] in ns;
      NoneWithout(ns[1..], t);
      assert ns == [ns[0]] + ns[1..];
    }
  }

  lemma NotQueued(ns: seq<Node>, t: Id)
    requires OneEach(ns) && !Queued(ns, t)
    ensures Distinct(Tasks(ns)) && t !in Tasks(ns)
  {
    forall i | 0 <= i < |ns| ensures Tasks(ns)[i] != t { assert ns[i] in ns; }
  }

  /** The list in the middle of the walk: node k of ns follows the kept ones. */
  lemma WalkAt(waiting: seq<Node>, ns: seq<Node>, k: nat, flags: Flags)
    requires k < |ns| && waiting == Kept(ns[..k], flags) + ns[k..]
    ensures var i := |Kept(ns[..k], flags)|;
            && i < |waiting| && waiting[i] == ns[k]
            && Kept(ns[..k + 1], flags) + ns[k + 1..]
               == if Satisfied(ns[k].kind, flags, ns[k].mask) then waiting[..i] + waiting[i + 1..] else waiting
  {
    hide Satisfied, Kept;
    KeptStep(ns, k, flags);
    var kept := Kept(ns[..k], flags);
    assert ns[k..] == [ns[k]] + ns[k + 1..];
    assert waiting[..|kept|] == kept && waiting[|kept| + 1..] == ns[k + 1..];
    assert kept + ([ns[k]] + ns[k + 1..]) == (kept + [ns[k]]) + ns[k + 1..];
  }

  /** The link of node k leads on in the walk. */
  lemma AfterIs(next: map<int, int>, prev: map<int, int>, head: int, waiting: seq<Node>, ns: seq<Node>, k: nat,
                flags: Flags)
    requires Linked(next, prev, head, Tasks(waiting)) && k < |ns| && waiting == Kept(ns[..k], flags) + ns[k..]
    ensures ns[k].task in next && next[ns[k].task] == if k + 1 < |ns| then ns[k + 1].task else NULL
  {
    hide Linked, Kept;
    assert waiting[|Kept(ns[..k], flags)|] == ns[k];
    NodeAt(next, prev, head, Tasks(waiting), |Kept(ns[..k], flags)|);
  }

  lemma KeptStep(ns: seq<Node>, k: nat, flags: Flags)
    requires k < |ns|
    ensures Kept(ns[..k + 1], flags) == Kept(ns[..k], flags)
              + if Satisfied(ns[k].kind, flags, ns[k].mask) then [] else [ns[k]]
  {
    KeptConcat(ns[..k], [ns[k]], flags);
    assert ns[..k + 1] == ns[..k] + [ns[k]];
  }

  lemma {:induction false} KeptConcat(a: seq<Node>, b: seq<Node>, flags: Flags)
    ensures Kept(a + b, flags) == Kept(a, flags) + Kept(b, flags)
  {
    hide Satisfied, Kept;
    if a == [] {
      assert a + b == b;
      KeptNone(flags);
    } else {
      KeptConcat(a[1..], b, flags);
      assert (a + b)[0] == a[0] && (a + b)[1..] == a[1..] + b;
      KeptHead(a, flags);
      KeptHead(a + b, flags);
      assert [a[0]] + (Kept(a[1..], flags) + Kept(b, flags)) == ([a[0]] + Kept(a[1..], flags)) + Kept(b, flags);
    }
  }

  lemma KeptNone(flags: Flags)
    ensures Kept([], flags) == []
  {
  }

  lemma KeptHead(ns: seq<Node>, flags: Flags)
    requires ns != []
    ensures Kept(ns, flags) == if Satisfied(ns[0].kind, flags, ns[0].mask) then Kept(ns[1..], flags)
                               else [ns[0]] + Kept(ns[1..], flags)
  {
    hide Satisfied;
  }

  /** The list in the middle of the walk names every task once. */
  lemma SubDistinct(ns: seq<Node>, k: nat, flags: Flags)
    requires OneEach(ns) && k <= |ns|
    ensures OneEach(Kept(ns[..k], flags) + ns[k..])
  {
    KeptDistinct(ns[..k], flags);
    var a, b := Kept(ns[..k], flags), ns[k..];
    forall i, j | 0 <= i < |a| && 0 <= j < |b| ensures a[i].task != b[j].task {
      assert a[i] in ns[..k];
      assert b[j] == ns[k + j];
    }
  }
}
