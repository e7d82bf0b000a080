// Event flag groups of thread_pool/ucos2/source/os_flag.c, as functions of the
// group and the tasks that wait on it.
module EventFlags {
  type Id = nat

  /** OS_FLAGS, as the set of the numbers of its bits. */
  type Flags = set<nat>

  datatype Kind = SetAll | SetAny | ClrAll | ClrAny

  predicate IsSet(kind: Kind) { kind.SetAll? || kind.SetAny? }

  /** A node of the wait list; it lies on the stack of its task. */
  datatype Node = Node(task: Id, mask: Flags, kind: Kind)

  /** pend is OS_STAT_FLAG, got is OSTCBFlagsRdy. */
  datatype Task = Task(dly: nat, suspend: bool, pend: bool, got: Flags)

  /** waiting is OSFlagWaitList from its head. */
  datatype Group = Group(flags: Flags, waiting: seq<Node>, tasks: map<Id, Task>, ready: set<Id>)

  /** The bits the wait is about: those of the mask that are set, or that are clear. */
  function FlagsRdy(kind: Kind, flags: Flags, mask: Flags): Flags {
    if IsSet(kind) then flags * mask else mask - flags
  }

  predicate Satisfied(kind: Kind, flags: Flags, mask: Flags) {
    var rdy := FlagsRdy(kind, flags, mask);
    if kind.SetAll? || kind.ClrAll? then rdy == mask else rdy != {}
  }

  /** A waiter that gets what it wanted changes the flags back, if it consumes them. */
  function Consumed(kind: Kind, flags: Flags, got: Flags): Flags {
    if IsSet(kind) then flags - got else flags + got
  }

  // ----- The invariant

  ghost predicate OneEach(ns: seq<Node>) {
    forall i, j :: 0 <= i < j < |ns| ==> ns[i].task != ns[j].task
  }

  /** Task t has a node in the list. */
  predicate Queued(ns: seq<Node>, t: Id) { exists n :: n in ns && n.task == t }

  ghost predicate Inv(g: Group) {
    && OneEach(g.waiting)
    && (forall n :: n in g.waiting ==> n.task in g.tasks && g.tasks[n.task].pend)
    && (forall t :: t in g.tasks && g.tasks[t].pend ==> Queued(g.waiting, t))
    && (forall t :: t in g.ready ==> t in g.tasks && !g.tasks[t].suspend)
  }

  /** No task waits for something that is there. */
  ghost predicate NoneLeft(g: Group) {
    forall i :: 0 <= i < |g.waiting| ==> !Satisfied(g.waiting[i].kind, g.flags, g.waiting[i].mask)
  }

  /** OSFlagCreate: nobody waits yet. */
  lemma InitInv(flags: Flags, tasks: map<Id, Task>, ready: set<Id>)
    requires forall t :: t in tasks ==> !tasks[t].pend
    requires forall t :: t in ready ==> t in tasks && !tasks[t].suspend
    ensures Inv(Group(flags, [], tasks, ready)) && NoneLeft(Group(flags, [], tasks, ready))
  {
  }

  // ----- OSFlagPost

  /** The waiters that stay. */
  function Kept(ns: seq<Node>, flags: Flags): (r: seq<Node>)
    ensures forall n :: n in r <==> n in ns && !Satisfied(n.kind, flags, n.mask)
  {
    if ns == [] then []
    else if Satisfied(ns[0].kind, flags, ns[0].mask) then Kept(ns[1..], flags)
    else [ns[0]] + Kept(ns[1..], flags)
  }

  /** OS_FlagTaskRdy, apart from the links. */
  function TaskRdy(g: Group, n: Node): (g': Group)
    requires n.task in g.tasks
    ensures g'.flags == g.flags && g'.waiting == g.waiting && g'.tasks.Keys == g.tasks.Keys
  {
    var t := g.tasks[n.task].(dly := 0, got := FlagsRdy(n.kind, g.flags, n.mask), pend := false);
    g.(tasks := g.tasks[n.task := t], ready := if !t.suspend then g.ready + {n.task} else g.ready)
  }

  /** The loop over the wait list, for the tasks behind its nodes. */
  function Wake(g: Group, ns: seq<Node>): (g': Group)
    requires forall n :: n in ns ==> n.task in g.tasks
    ensures g'.flags == g.flags && g'.waiting == g.waiting && g'.tasks.Keys == g.tasks.Keys
    decreases |ns|
  {
    if ns == [] then g
    else Wake(if Satisfied(ns[0].kind, g.flags, ns[0].mask) then TaskRdy(g, ns[0]) else g, ns[1..])
  }

  datatype Change = SetBits | ClearBits

  function Post(g: Group, bits: Flags, change: Change): Group
    requires Inv(g)
  {
    var flags := if change.SetBits? then g.flags + bits else g.flags - bits;
    Wake(g.(flags := flags, waiting := Kept(g.waiting, flags)), g.waiting)
  }

  // ----- OSFlagPend

  datatype Code = Ok | Blocked | TimedOut

  /** Up to the call of OS_Sched: the bits are there, or the task goes to the head of the wait list. */
  function Pend(g: Group, t: Id, mask: Flags, kind: Kind, consume: bool, timeout: nat): (Group, Code)
    requires t in g.tasks
  {
    if Satisfied(kind, g.flags, mask) then
      (g.(flags := if consume then Consumed(kind, g.flags, FlagsRdy(kind, g.flags, mask)) else g.flags), Ok)
    else
      (g.(waiting := [Node(t, mask, kind)] + g.waiting, ready := g.ready - {t},
          tasks := g.tasks[t := g.tasks[t].(pend := true, dly := timeout)]), Blocked)
  }

  /** OSFlagAccept, which does not wait; interrupts may call it too. */
  function Accept(g: Group, mask: Flags, kind: Kind, consume: bool): Group {
    if Satisfied(kind, g.flags, mask) && consume then
      g.(flags := Consumed(kind, g.flags, FlagsRdy(kind, g.flags, mask)))
    else g
  }

  function WithoutTask(ns: seq<Node>, t: Id): (r: seq<Node>)
    ensures forall n :: n in r <==> n in ns && n.task != t
  {
    if ns == [] then []
    else if ns[0].task == t then WithoutTask(ns[1..], t)
    else [ns[0]] + WithoutTask(ns[1..], t)
  }

  /** When the task runs again: it unlinks its node if it timed out, or takes what it was given. */
  function Resume(g: Group, t: Id, kind: Kind, consume: bool): (Group, Code)
    requires t in g.tasks
  {
    if g.tasks[t].pend then
      (g.(waiting := WithoutTask(g.waiting, t),
          tasks := g.tasks[t := g.tasks[t].(pend := false, suspend := false)]), TimedOut)
    else (g.(flags := if consume then Consumed(kind, g.flags, g.tasks[t].got) else g.flags), Ok)
  }

  // ----- Suspending, resuming, deleting and creating tasks

  /** OSTaskSuspend. */
  function Suspend(g: Group, t: Id): Group
    requires t in g.tasks
  {
    g.(ready := g.ready - {t}, tasks := g.tasks[t := g.tasks[t].(suspend := true)])
  }

  /** OSTaskResume: the task becomes ready if it waits for nothing else. */
  function Unsuspend(g: Group, t: Id): Group
    requires t in g.tasks
  {
    var c := g.tasks[t];
    if !c.suspend then g
    else g.(tasks := g.tasks[t := c.(suspend := false)],
            ready := if !c.pend && c.dly == 0 then g.ready + {t} else g.ready)
  }

  /** First section of OSTaskDel: the node of the task, if it has one, is found through OSTCBFlagNode and unlinked. */
  function Delete(g: Group, t: Id): Group {
    g.(waiting := WithoutTask(g.waiting, t), tasks := g.tasks - {t}, ready := g.ready - {t})
  }

  /** OSTaskCreate; OS_TCBInit leaves OSTCBFlagsRdy as it was. */
  function Create(g: Group, t: Id, got: Flags): Group {
    g.(tasks := g.tasks[t := Task(0, false, false, got)], ready := g.ready + {t})
  }

  // ----- What a post does

  /** Waking goes through the nodes one by one: a task on a satisfied node is given its flags, and made ready
      unless it is suspended; nothing happens to the other tasks. */
  lemma {:induction false} WakeIs(g: Group, ns: seq<Node>, t: Id)
    requires forall n :: n in ns ==> n.task in g.tasks
    requires OneEach(ns)
    requires t in g.tasks
    ensures var g' := Wake(g, ns);
            && (forall n :: n in ns && n.task == t && Satisfied(n.kind, g.flags, n.mask) ==>
                  && g'.tasks[t] == g.tasks[t].(dly := 0, got := FlagsRdy(n.kind, g.flags, n.mask), pend := false)
                  && (t in g'.ready <==> t in g.ready || !g.tasks[t].suspend))
            && ((forall n :: n in ns && n.task == t ==> !Satisfied(n.kind, g.flags, n.mask)) ==>
                  g'.tasks[t] == g.tasks[t] && (t in g'.ready <==> t in g.ready))
    decreases |ns|
  {
    hide Satisfied, FlagsRdy;
    if ns != [] {
      var n := ns[0];
      var g1 := if Satisfied(n.kind, g.flags, n.mask) then TaskRdy(g, n) else g;
      WakeIs(g1, ns[1..], t);
      assert ns == [n] + ns[1..];
      HeadDiffers(ns);
    }
  }

  lemma {:induction false} WakeStrangers(g: Group, ns: seq<Node>, t: Id)
    requires forall n :: n in ns ==> n.task in g.tasks
    requires t !in g.tasks
    ensures t in Wake(g, ns).ready <==> t in g.ready
    decreases |ns|
  {
    hide Satisfied, FlagsRdy;
    if ns != [] {
      WakeStrangers(if Satisfied(ns[0].kind, g.flags, ns[0].mask) then TaskRdy(g, ns[0]) else g, ns[1..], t);
    }
  }

  lemma PushOne(n: Node, ns: seq<Node>)
    requires OneEach(ns) && !Queued(ns, n.task)
    ensures OneEach([n] + ns)
  {
  }

  lemma HeadDiffers(ns: seq<Node>)
    requires OneEach(ns) && ns != []
    ensures OneEach(ns[1..]) && !Queued(ns[1..], ns[0].task)
  {
  }

  lemma {:induction false} KeptDistinct(ns: seq<Node>, flags: Flags)
    requires OneEach(ns)
    ensures OneEach(Kept(ns, flags))
    decreases |ns|
  {
    hide Satisfied;
    if ns != [] {
      HeadDiffers(ns);
      KeptDistinct(ns[1..], flags);
      if !Satisfied(ns[0].kind, flags, ns[0].mask) { PushOne(ns[0], Kept(ns[1..], flags)); }
    }
  }

  /** A post unlinks exactly the nodes that are satisfied by the new flags, in one pass, and makes exactly
      their tasks ready that are not suspended. */
  lemma PostIs(g: Group, bits: Flags, change: Change)
    requires Inv(g)
    ensures var g' := Post(g, bits, change);
            && g'.waiting == Kept(g.waiting, g'.flags) && NoneLeft(g') && g'.tasks.Keys == g.tasks.Keys
            && (forall n :: n in g.waiting && Satisfied(n.kind, g'.flags, n.mask) ==>
                  !g'.tasks[n.task].pend && g'.tasks[n.task].got == FlagsRdy(n.kind, g'.flags, n.mask)
                  && g'.tasks[n.task].dly == 0)
            && (forall t :: t in g'.ready <==>
                  t in g.ready || exists n :: n in g.waiting && n.task == t && Satisfied(n.kind, g'.flags, n.mask)
                                              && !g.tasks[t].suspend)
  {
    hide Satisfied, FlagsRdy, Wake, Kept;
    var g' := Post(g, bits, change);
    var g1 := g.(flags := g'.flags, waiting := Kept(g.waiting, g'.flags));
    forall t ensures t in g'.ready <==>
        t in g.ready || exists n :: n in g.waiting && n.task == t && Satisfied(n.kind, g'.flags, n.mask)
                                    && !g.tasks[t].suspend
    {
      if t in g.tasks { WakeIs(g1, g.waiting, t); } else { WakeStrangers(g1, g.waiting, t); }
    }
    forall n | n in g.waiting && Satisfied(n.kind, g'.flags, n.mask)
      ensures !g'.tasks[n.task].pend && g'.tasks[n.task].got == FlagsRdy(n.kind, g'.flags, n.mask)
              && g'.tasks[n.task].dly == 0
    {
      WakeIs(g1, g.waiting, n.task);
    }
  }

  lemma PostKeeps(g: Group, bits: Flags, change: Change)
    requires Inv(g)
    ensures Inv(Post(g, bits, change))
  {
    hide Satisfied, FlagsRdy, Wake, Kept;
    var g' := Post(g, bits, change);
    var g1 := g.(flags := g'.flags, waiting := Kept(g.waiting, g'.flags));
    KeptDistinct(g.waiting, g'.flags);
    forall t | t in g.tasks
      ensures t in g'.ready ==> !g'.tasks[t].suspend
      ensures g'.tasks[t].pend <==> Queued(g'.waiting, t)
    {
      WakeIs(g1, g.waiting, t);
      if g.tasks[t].pend {
        var n :| n in g.waiting && n.task == t;
        if Satisfied(n.kind, g'.flags, n.mask) {
          assert n !in g'.waiting;
        } else {
          assert n in g'.waiting;
        }
      }
    }
    forall t | t in g'.ready ensures t in g'.tasks && !g'.tasks[t].suspend {
      if t !in g.tasks { WakeStrangers(g1, g.waiting, t); }
    }
  }

  // ----- Whether somebody is left waiting for what is there

  lemma {:induction false} WithoutTaskDistinct(ns: seq<Node>, t: Id)
    requires OneEach(ns)
    ensures OneEach(WithoutTask(ns, t))
  {
    if ns != [] {
      HeadDiffers(ns);
      WithoutTaskDistinct(ns[1..], t);
      if ns[0].task != t { PushOne(ns[0], WithoutTask(ns[1..], t)); }
    }
  }

  /** A running task pends: it is ready and not pending. */
  lemma PendKeeps(g: Group, t: Id, mask: Flags, kind: Kind, consume: bool, timeout: nat)
    requires Inv(g) && t in g.ready && !g.tasks[t].pend
    ensures Inv(Pend(g, t, mask, kind, consume, timeout).0)
  {
    hide Satisfied, FlagsRdy, Consumed;
    var g' := Pend(g, t, mask, kind, consume, timeout).0;
    if g'.waiting != g.waiting {
      PushOne(g'.waiting[0], g.waiting);
      forall u | u in g.tasks && g.tasks[u].pend ensures Queued(g'.waiting, u) {
        var n :| n in g.waiting && n.task == u;
        assert n in g'.waiting;
      }
      assert g'.waiting[0] in g'.waiting;
    }
  }

  /** A pend gets through exactly when its condition holds.  If it consumes, the condition no longer holds and the
      other bits are as they were; if it blocks, the task is the first in the list and not ready. */
  lemma PendIs(g: Group, t: Id, mask: Flags, kind: Kind, consume: bool, timeout: nat)
    requires Inv(g) && t in g.ready && !g.tasks[t].pend
    ensures var (g', code) := Pend(g, t, mask, kind, consume, timeout);
            && (code == Ok <==> Satisfied(kind, g.flags, mask))
            && g'.flags - mask == g.flags - mask
            && (code == Ok ==> g' == g.(flags := g'.flags) && (!consume ==> g' == g))
            && (code == Ok && consume && mask != {} ==> !Satisfied(kind, g'.flags, mask))
            && (code == Blocked ==>
                  && g'.flags == g.flags && g'.waiting != [] && g'.waiting[0] == Node(t, mask, kind)
                  && g'.waiting[1..] == g.waiting && g'.ready == g.ready - {t} && g'.tasks.Keys == g.tasks.Keys
                  && g'.tasks[t].pend && g'.tasks[t].dly == timeout
                  && forall u :: u in g.tasks && u != t ==> g'.tasks[u] == g.tasks[u])
  {
    if Satisfied(kind, g.flags, mask) && consume && mask != {} {
      var g' := Pend(g, t, mask, kind, consume, timeout).0;
      var b :| b in FlagsRdy(kind, g.flags, mask);
      assert b in mask && b !in FlagsRdy(kind, g'.flags, mask);
      assert FlagsRdy(kind, g'.flags, mask) * FlagsRdy(kind, g.flags, mask) == {};
      if kind.SetAny? || kind.ClrAny? { AnyConsumed(kind, g.flags, mask); }
    }
  }

  lemma AnyConsumed(kind: Kind, flags: Flags, mask: Flags)
    ensures FlagsRdy(kind, Consumed(kind, flags, FlagsRdy(kind, flags, mask)), mask) == {}
  {
  }

  /** A task that runs again while it still pends has timed out: it takes its node along and changes no flag.  Else it
      has been given flags, and consumes just those. */
  lemma ResumeIs(g: Group, t: Id, kind: Kind, consume: bool)
    requires Inv(g) && t in g.ready
    ensures var (g', code) := Resume(g, t, kind, consume);
            && (code == TimedOut <==> Queued(g.waiting, t))
            && !Queued(g'.waiting, t) && !g'.tasks[t].pend && g'.ready == g.ready
            && (forall n :: n in g'.waiting <==> n in g.waiting && n.task != t)
            && (code == TimedOut || !consume ==> g'.flags == g.flags)
            && (code == Ok && consume ==> FlagsRdy(kind, g'.flags, g.tasks[t].got) == {})
            && g'.flags - g.tasks[t].got == g.flags - g.tasks[t].got
  {
    if !g.tasks[t].pend {
      assert !Queued(g.waiting, t);
    }
  }

  /** A task that is deleted takes exactly its node along. */
  lemma DeleteKeeps(g: Group, t: Id)
    requires Inv(g) && t in g.tasks
    ensures Inv(Delete(g, t)) && !Queued(Delete(g, t).waiting, t)
    ensures forall n :: n in Delete(g, t).waiting <==> n in g.waiting && n.task != t
  {
    hide WithoutTask;
    var g' := Delete(g, t);
    WithoutTaskDistinct(g.waiting, t);
    forall u | u in g'.tasks && g'.tasks[u].pend ensures Queued(g'.waiting, u) {
      var n :| n in g.waiting && n.task == u;
      assert n in g'.waiting;
    }
  }

  /** A task that is suspended while it waits does not run when it is posted to, but as soon as it is resumed. */
  lemma PostedRunsOnceResumed(g: Group, bits: Flags, change: Change, n: Node)
    requires Inv(g) && n in g.waiting && g.tasks[n.task].suspend
    ensures var g' := Post(g, bits, change);
            && n.task in g'.tasks
            && n.task !in g'.ready && n.task !in Unsuspend(g, n.task).ready
            && (Satisfied(n.kind, g'.flags, n.mask) <==> n.task in Unsuspend(g', n.task).ready)
  {
    hide Satisfied, FlagsRdy, Wake, Kept;
    PostKeeps(g, bits, change);
    PostIs(g, bits, change);
    var g' := Post(g, bits, change);
    WakeIs(g.(flags := g'.flags, waiting := Kept(g.waiting, g'.flags)), g.waiting, n.task);
  }

  lemma ResumeKeeps(g: Group, t: Id, kind: Kind, consume: bool)
    requires Inv(g) && t in g.ready
    ensures Inv(Resume(g, t, kind, consume).0)
  {
    hide Satisfied, FlagsRdy, Consumed, WithoutTask;
    var g' := Resume(g, t, kind, consume).0;
    if g.tasks[t].pend {
      WithoutTaskDistinct(g.waiting, t);
      forall u | u in g'.tasks && g'.tasks[u].pend ensures Queued(g'.waiting, u) {
        var n :| n in g.waiting && n.task == u;
        assert n in g'.waiting;
      }
    }
  }

  /** Consuming these bits hurts nobody.  A waiter for set bits clears them, and then no queued waiter for clear bits
      may be waiting for one of them: any of them, or the last ones missing to all; for a waiter for clear bits it is
      the other way round. */
  predicate Spares(kind: Kind, n: Node, flags: Flags, got: Flags) {
    if IsSet(kind) then
      && (n.kind.ClrAny? ==> n.mask * got == {})
      && (n.kind.ClrAll? ==> !(n.mask * flags <= got))
    else
      && (n.kind.SetAny? ==> n.mask * got == {})
      && (n.kind.SetAll? ==> !(n.mask - flags <= got))
  }

  /** Nobody is left waiting for what is there exactly when the consumption spares every queued waiter. */
  lemma ConsumeKeepsIff(g: Group, kind: Kind, got: Flags)
    requires NoneLeft(g)
    ensures NoneLeft(g.(flags := Consumed(kind, g.flags, got))) <==>
              forall i :: 0 <= i < |g.waiting| ==> Spares(kind, g.waiting[i], g.flags, got)
  {
    hide Satisfied, Spares;
    forall i | 0 <= i < |g.waiting|
      ensures var n := g.waiting[i];
              Satisfied(n.kind, Consumed(kind, g.flags, got), n.mask) <==> !Spares(kind, n, g.flags, got)
    {
      if IsSet(kind) { ClearOne(g.waiting[i], g.flags, got); } else { SetOne(g.waiting[i], g.flags, got); }
    }
  }

  lemma ClearOne(n: Node, flags: Flags, got: Flags)
    requires !Satisfied(n.kind, flags, n.mask)
    ensures Satisfied(n.kind, flags - got, n.mask) <==> !Spares(SetAny, n, flags, got)
    ensures Spares(SetAll, n, flags, got) <==> Spares(SetAny, n, flags, got)
  {
    match n.kind
    case SetAll =>
      var b :| b in n.mask && b !in flags * n.mask;
      assert b !in (flags - got) * n.mask;
    case SetAny => assert (flags - got) * n.mask <= flags * n.mask;
    case ClrAll =>
      if n.mask * flags <= got {
        assert n.mask - (flags - got) == n.mask;
      } else {
        var b :| b in n.mask * flags && b !in got;
        assert b in n.mask && b !in n.mask - (flags - got);
      }
    case ClrAny =>
      assert n.mask - flags == {};
      if n.mask * got != {} {
        var b :| b in n.mask * got;
        assert b in n.mask - (flags - got);
      } else {
        assert n.mask - (flags - got) == {};
      }
  }

  lemma SetOne(n: Node, flags: Flags, got: Flags)
    requires !Satisfied(n.kind, flags, n.mask)
    ensures Satisfied(n.kind, flags + got, n.mask) <==> !Spares(ClrAny, n, flags, got)
    ensures Spares(ClrAll, n, flags, got) <==> Spares(ClrAny, n, flags, got)
  {
    match n.kind
    case ClrAll =>
      var b :| b in n.mask && b !in n.mask - flags;
      assert b !in n.mask - (flags + got);
    case ClrAny => assert n.mask - (flags + got) <= n.mask - flags;
    case SetAll =>
      if n.mask - flags <= got {
        assert (flags + got) * n.mask == n.mask;
      } else {
        var b :| b in n.mask - flags && b !in got;
        assert b in n.mask && b !in (flags + got) * n.mask;
      }
    case SetAny =>
      assert flags * n.mask == {};
      if n.mask * got != {} {
        var b :| b in n.mask * got;
        assert b in (flags + got) * n.mask;
      } else {
        assert (flags + got) * n.mask == {};
      }
  }

  /** A task that waits for bit 0 to be clear stays queued while another one clears it by consuming. */
  lemma LeftWaitingExample()
    ensures var g := Group({0}, [Node(1, {0}, ClrAny)],
        map[0 := Task(0, false, false, {}), 1 := Task(0, false, true, {})], {0});
            var g' := Pend(g, 0, {0}, SetAny, true, 0).0;
            Inv(g) && NoneLeft(g) && Inv(g') && !NoneLeft(g')
  {
    var g := Group({0}, [Node(1, {0}, ClrAny)], map[0 := Task(0, false, false, {}), 1 := Task(0, false, true, {})],
        {0});
    assert g.waiting[0] in g.waiting && g.waiting[0].task == 1;
    PendKeeps(g, 0, {0}, SetAny, true, 0);
    var g' := Pend(g, 0, {0}, SetAny, true, 0).0;
    assert g'.flags == {} && g'.waiting == g.waiting;
    assert Satisfied(g'.waiting[0].kind, g'.flags, g'.waiting[0].mask);
  }

  /** The other way round: a task that waits for bit 0 to be set stays queued while another one sets it. */
  lemma LeftWaitingForSetExample()
    ensures var g := Group({}, [Node(1, {0}, SetAny)],
        map[0 := Task(0, false, false, {}), 1 := Task(0, false, true, {})], {0});
            var g' := Pend(g, 0, {0}, ClrAny, true, 0).0;
            Inv(g) && NoneLeft(g) && Inv(g') && !NoneLeft(g')
  {
    var g := Group({}, [Node(1, {0}, SetAny)], map[0 := Task(0, false, false, {}), 1 := Task(0, false, true, {})],
        {0});
    assert g.waiting[0] in g.waiting && g.waiting[0].task == 1;
    PendKeeps(g, 0, {0}, ClrAny, true, 0);
    var g' := Pend(g, 0, {0}, ClrAny, true, 0).0;
    assert 0 in FlagsRdy(ClrAny, {}, {0});
    assert g'.flags == {0} && g'.waiting == g.waiting;
    assert 0 in FlagsRdy(SetAny, g'.flags, {0});
    assert Satisfied(g'.waiting[0].kind, g'.flags, g'.waiting[0].mask);
  }

  // ----- Whole runs

  datatype Op =
    | DoPost(bits: Flags, change: Change)
    | DoPend(t: Id, mask: Flags, kind: Kind, consume: bool, timeout: nat)
    | DoResume(t: Id, kind: Kind, consume: bool)
    | DoAccept(mask: Flags, kind: Kind, consume: bool)
    | DoTimeout(t: Id)
    | DoSuspend(t: Id) | DoUnsuspend(t: Id)
    | DoDelete(t: Id) | DoCreate(t: Id, got: Flags)

  predicate Legal(g: Group, op: Op) {
    match op
    case DoPost(_, _) => true
    case DoPend(t, _, _, _, _) => t in g.ready && t in g.tasks && !g.tasks[t].pend
    case DoResume(t, _, _) => t in g.ready
    case DoAccept(_, _, _) => true
    case DoTimeout(t) => t in g.tasks && g.tasks[t].pend && !g.tasks[t].suspend
    case DoSuspend(t) => t in g.tasks
    case DoUnsuspend(t) => t in g.tasks
    case DoDelete(t) => t in g.tasks
    case DoCreate(t, _) => t !in g.tasks
  }

  /** OSTimeTick makes a waiting task ready whose timeout ends. */
  function Step(g: Group, op: Op): Group
    requires Inv(g) && Legal(g, op)
  {
    match op
    case DoPost(bits, change) => Post(g, bits, change)
    case DoPend(t, mask, kind, consume, timeout) => Pend(g, t, mask, kind, consume, timeout).0
    case DoResume(t, kind, consume) => Resume(g, t, kind, consume).0
    case DoAccept(mask, kind, consume) => Accept(g, mask, kind, consume)
    case DoTimeout(t) => g.(ready := g.ready + {t}, tasks := g.tasks[t := g.tasks[t].(dly := 0)])
    case DoSuspend(t) => Suspend(g, t)
    case DoUnsuspend(t) => Unsuspend(g, t)
    case DoDelete(t) => Delete(g, t)
    case DoCreate(t, got) => Create(g, t, got)
  }

  lemma StepKeeps(g: Group, op: Op)
    requires Inv(g) && Legal(g, op)
    ensures Inv(Step(g, op))
  {
    hide Post, Pend, Resume, Delete;
    match op
    case DoPost(bits, change) => PostKeeps(g, bits, change);
    case DoPend(t, mask, kind, consume, timeout) => PendKeeps(g, t, mask, kind, consume, timeout);
    case DoResume(t, kind, consume) => ResumeKeeps(g, t, kind, consume);
    case DoDelete(t) => DeleteKeeps(g, t);
    case _ =>
  }

  ghost predicate AllSet(g: Group) {
    forall i :: 0 <= i < |g.waiting| ==> IsSet(g.waiting[i].kind)
  }

  predicate SetOp(op: Op) {
    (op.DoPend? ==> IsSet(op.kind)) && (op.DoResume? ==> IsSet(op.kind)) && (op.DoAccept? ==> IsSet(op.kind))
  }

  /** What the step consumes spares everybody who is queued. */
  ghost predicate Harmless(g: Group, op: Op)
    requires Inv(g) && Legal(g, op)
  {
    match op
    case DoPend(t, mask, kind, true, _) =>
      Satisfied(kind, g.flags, mask) ==> SparesAll(g, kind, FlagsRdy(kind, g.flags, mask))
    case DoResume(t, kind, true) => !g.tasks[t].pend ==> SparesAll(g, kind, g.tasks[t].got)
    case DoAccept(mask, kind, true) =>
      Satisfied(kind, g.flags, mask) ==> SparesAll(g, kind, FlagsRdy(kind, g.flags, mask))
    case _ => true
  }

  ghost predicate SparesAll(g: Group, kind: Kind, got: Flags) {
    forall i :: 0 <= i < |g.waiting| ==> Spares(kind, g.waiting[i], g.flags, got)
  }

  /** Fewer nodes, and the same flags. */
  lemma FewerNodes(g: Group, g': Group)
    requires NoneLeft(g) && g'.flags == g.flags && forall n :: n in g'.waiting ==> n in g.waiting
    ensures NoneLeft(g')
  {
    hide Satisfied;
    forall i | 0 <= i < |g'.waiting| ensures !Satisfied(g'.waiting[i].kind, g'.flags, g'.waiting[i].mask) {
      assert g'.waiting[i] in g.waiting;
    }
  }

  /** Exactly the steps that consume what somebody else is queued for leave somebody waiting for what is there. */
  lemma StepNoneLeftIff(g: Group, op: Op)
    requires Inv(g) && Legal(g, op) && NoneLeft(g)
    ensures NoneLeft(Step(g, op)) <==> Harmless(g, op)
  {
    hide Wake, Satisfied, Spares, FlagsRdy, Consumed, Post, WithoutTask, NoneLeft;
    match op
    case DoPost(bits, change) => PostIs(g, bits, change);
    case DoPend(t, mask, kind, consume, timeout) => PendNoneLeftIff(g, t, mask, kind, consume, timeout);
    case DoResume(t, kind, consume) => ResumeNoneLeftIff(g, t, kind, consume);
    case DoAccept(mask, kind, consume) => AcceptNoneLeftIff(g, mask, kind, consume);
    case _ => FewerNodes(g, Step(g, op));
  }

  lemma PendNoneLeftIff(g: Group, t: Id, mask: Flags, kind: Kind, consume: bool, timeout: nat)
    requires t in g.tasks && NoneLeft(g)
    ensures NoneLeft(Pend(g, t, mask, kind, consume, timeout).0) <==>
              (Satisfied(kind, g.flags, mask) && consume ==> SparesAll(g, kind, FlagsRdy(kind, g.flags, mask)))
  {
    hide Satisfied, Spares, FlagsRdy, Consumed;
    if Satisfied(kind, g.flags, mask) { ConsumeKeepsIff(g, kind, FlagsRdy(kind, g.flags, mask)); }
  }

  lemma AcceptNoneLeftIff(g: Group, mask: Flags, kind: Kind, consume: bool)
    requires NoneLeft(g)
    ensures NoneLeft(Accept(g, mask, kind, consume)) <==>
              (Satisfied(kind, g.flags, mask) && consume ==> SparesAll(g, kind, FlagsRdy(kind, g.flags, mask)))
  {
    hide Satisfied, Spares, FlagsRdy, Consumed;
    if Satisfied(kind, g.flags, mask) { ConsumeKeepsIff(g, kind, FlagsRdy(kind, g.flags, mask)); }
  }

  lemma ResumeNoneLeftIff(g: Group, t: Id, kind: Kind, consume: bool)
    requires t in g.tasks && NoneLeft(g)
    ensures NoneLeft(Resume(g, t, kind, consume).0) <==>
              (!g.tasks[t].pend && consume ==> SparesAll(g, kind, g.tasks[t].got))
  {
    hide Satisfied, Spares, FlagsRdy, Consumed, NoneLeft, WithoutTask;
    if g.tasks[t].pend {
      FewerNodes(g, Resume(g, t, kind, consume).0);
    } else {
      ConsumeKeepsIff(g, kind, g.tasks[t].got);
      assert g.(flags := g.flags) == g;
    }
  }

  /** Waiters for set bits spare each other. */
  lemma SetsSpare(g: Group, op: Op)
    requires Inv(g) && Legal(g, op) && AllSet(g) && SetOp(op)
    ensures Harmless(g, op) && AllSet(Step(g, op))
  {
    hide Wake, Satisfied, Post;
    match op
    case DoPost(bits, change) => PostIs(g, bits, change);
    case _ =>
  }

  predicate LegalRun(g: Group, ops: seq<Op>)
    requires Inv(g)
    decreases |ops|
  {
    ops != [] ==> Legal(g, ops[0]) && (StepKeeps(g, ops[0]); LegalRun(Step(g, ops[0]), ops[1..]))
  }

  function Run(g: Group, ops: seq<Op>): (g': Group)
    requires Inv(g) && LegalRun(g, ops)
    ensures Inv(g')
    decreases |ops|
  {
    if ops == [] then g else (StepKeeps(g, ops[0]); Run(Step(g, ops[0]), ops[1..]))
  }

  ghost predicate HarmlessRun(g: Group, ops: seq<Op>)
    requires Inv(g) && LegalRun(g, ops)
    decreases |ops|
  {
    ops != [] ==> Harmless(g, ops[0]) && (StepKeeps(g, ops[0]); HarmlessRun(Step(g, ops[0]), ops[1..]))
  }

  /** In every run whose consumptions are harmless, no queued task waits for bits that are there. */
  lemma {:induction false} RunNoneLeft(g: Group, ops: seq<Op>)
    requires Inv(g) && LegalRun(g, ops) && NoneLeft(g) && HarmlessRun(g, ops)
    ensures NoneLeft(Run(g, ops))
    decreases |ops|
  {
    hide Inv, Step, Legal, NoneLeft, Harmless;
    if ops != [] {
      StepKeeps(g, ops[0]);
      StepNoneLeftIff(g, ops[0]);
      RunNoneLeft(Step(g, ops[0]), ops[1..]);
    }
  }

  /** All consumptions are harmless when all waits are for set bits. */
  lemma {:induction false} SetRunsHarmless(g: Group, ops: seq<Op>)
    requires Inv(g) && LegalRun(g, ops) && AllSet(g) && forall op :: op in ops ==> SetOp(op)
    ensures HarmlessRun(g, ops)
    decreases |ops|
  {
    hide Inv, Step, Legal, AllSet, SetOp, Harmless;
    if ops != [] {
      StepKeeps(g, ops[0]);
      SetsSpare(g, ops[0]);
      SetRunsHarmless(Step(g, ops[0]), ops[1..]);
    }
  }
}
