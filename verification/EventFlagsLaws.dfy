// What each flag service does, bit by bit and task by task.
module EventFlagsLaws {
  import opened EventFlags

  /** When a wait is over: all bits of the mask are set, some bit is, all are clear, or some bit is. */
  lemma SatisfiedIff(kind: Kind, flags: Flags, mask: Flags)
    ensures Satisfied(kind, flags, mask) <==>
              match kind
              case SetAll => forall b :: b in mask ==> b in flags
              case SetAny => exists b :: b in mask && b in flags
              case ClrAll => forall b :: b in mask ==> b !in flags
              case ClrAny => exists b :: b in mask && b !in flags
  {
    match kind
    case SetAll =>
      if Satisfied(kind, flags, mask) { forall b | b in mask ensures b in flags { assert b in flags * mask; } }
    case SetAny =>
      if b :| b in mask && b in flags { assert b in flags * mask; }
      if Satisfied(kind, flags, mask) { var b :| b in flags * mask; }
    case ClrAll =>
      if Satisfied(kind, flags, mask) { forall b | b in mask ensures b !in flags { assert b in mask - flags; } }
      if forall b :: b in mask ==> b !in flags { assert mask - flags == mask; }
    case ClrAny =>
      if b :| b in mask && b !in flags { assert b in mask - flags; }
      if Satisfied(kind, flags, mask) { var b :| b in mask - flags; }
  }

  /** A post sets or clears exactly its bits. The tasks of the nodes that it satisfies go on with the bits they waited
      for; the other tasks keep everything, and the nodes that stay keep their order. */
  lemma PostDoes(g: Group, bits: Flags, change: Change)
    requires Inv(g)
    ensures var g' := Post(g, bits, change);
            && (forall b :: b in g'.flags <==> if b in bits then change == SetBits else b in g.flags)
            && g'.tasks.Keys == g.tasks.Keys
            && (forall n :: n in g.waiting && Satisfied(n.kind, g'.flags, n.mask) ==>
                  n.task in g.tasks && g'.tasks[n.task]
                     == Task(0, g.tasks[n.task].suspend, false, FlagsRdy(n.kind, g'.flags, n.mask)))
            && (forall t :: t in g.tasks && (forall n :: n in g.waiting && n.task == t ==>
                                               !Satisfied(n.kind, g'.flags, n.mask)) ==>
                  g'.tasks[t] == g.tasks[t])
            && Stays(g.waiting, g'.waiting, g'.flags)
  {
    hide Satisfied, FlagsRdy, Wake, Kept;
    var g' := Post(g, bits, change);
    var g1 := g.(flags := g'.flags, waiting := Kept(g.waiting, g'.flags));
    forall t | t in g.tasks
      ensures (forall n :: n in g.waiting && n.task == t && Satisfied(n.kind, g'.flags, n.mask) ==>
                 g'.tasks[t] == Task(0, g.tasks[t].suspend, false, FlagsRdy(n.kind, g'.flags, n.mask)))
      ensures (forall n :: n in g.waiting && n.task == t ==> !Satisfied(n.kind, g'.flags, n.mask)) ==>
                g'.tasks[t] == g.tasks[t]
    {
      WakeIs(g1, g.waiting, t);
    }
    KeptStays(g.waiting, g'.flags);
  }

  /** kept are the nodes of ns that are not satisfied, in the same order. */
  ghost predicate Stays(ns: seq<Node>, kept: seq<Node>, flags: Flags)
    decreases |ns|
  {
    if ns == [] then kept == []
    else if Satisfied(ns[0].kind, flags, ns[0].mask) then Stays(ns[1..], kept, flags)
    else kept != [] && kept[0] == ns[0] && Stays(ns[1..], kept[1..], flags)
  }

  lemma {:induction false} KeptStays(ns: seq<Node>, flags: Flags)
    ensures Stays(ns, Kept(ns, flags), flags)
    decreases |ns|
  {
    hide Satisfied;
    if ns != [] {
      KeptStays(ns[1..], flags);
      assert ([ns[0]] + Kept(ns[1..], flags))[1..] == Kept(ns[1..], flags);
    }
  }

  /** A satisfied call that consumes clears the bits of its mask, or sets them when it waited for clear bits; one that
      does not consume, or is not satisfied, changes no bit. */
  ghost predicate Consumes(g: Group, g': Group, mask: Flags, kind: Kind, consume: bool) {
    if Satisfied(kind, g.flags, mask) && consume then
      g'.flags == if kind.SetAll? || kind.SetAny? then g.flags - mask else g.flags + mask
    else g'.flags == g.flags
  }

  /** OSFlagAccept changes nothing but the bits it consumes. */
  lemma AcceptDoes(g: Group, mask: Flags, kind: Kind, consume: bool)
    ensures var g' := Accept(g, mask, kind, consume);
            Consumes(g, g', mask, kind, consume) && g' == g.(flags := g'.flags)
  {
  }

  /** OSFlagPend returns at once exactly when its condition holds; else the task joins the wait list at its head. */
  lemma PendDoes(g: Group, t: Id, mask: Flags, kind: Kind, consume: bool, timeout: nat)
    requires t in g.tasks
    ensures var (g', code) := Pend(g, t, mask, kind, consume, timeout);
            && Consumes(g, g', mask, kind, consume)
            && if Satisfied(kind, g.flags, mask) then code == Ok && g' == g.(flags := g'.flags)
               else
                 code == Blocked
                 && g' == Group(g.flags, [Node(t, mask, kind)] + g.waiting,
                                g.tasks[t := Task(timeout, g.tasks[t].suspend, true, g.tasks[t].got)], g.ready - {t})
  {
  }

  /** From ns to ns' the node at position k leaves, which is the one of task t; when t has none, k is the length. */
  ghost predicate LeavesAt(ns: seq<Node>, ns': seq<Node>, t: Id, k: nat) {
    && k <= |ns| && (k < |ns| <==> Queued(ns, t))
    && if k < |ns| then ns[k].task == t && ns' == ns[..k] + ns[k + 1..] else ns' == ns
  }

  /** A task that runs again while it pends has timed out: its node leaves the list. Else it takes exactly the bits it
      was given. */
  lemma ResumeDoes(g: Group, t: Id, kind: Kind, consume: bool)
    requires Inv(g) && t in g.ready
    ensures var ((g', code), c) := (Resume(g, t, kind, consume), g.tasks[t]);
            if c.pend then
              && code == TimedOut
              && g' == g.(waiting := g'.waiting, tasks := g.tasks[t := Task(c.dly, false, false, c.got)])
              && g'.waiting != g.waiting && exists k: nat :: LeavesAt(g.waiting, g'.waiting, t, k)
            else
              && code == Ok
              && g' == g.(flags := if !consume then g.flags
                                   else if kind.SetAll? || kind.SetAny? then g.flags - c.got else g.flags + c.got)
  {
    if g.tasks[t].pend {
      var k := OneLeaves(g.waiting, t);
      assert Queued(g.waiting, t);
    }
  }

  lemma {:induction false} OneLeaves(ns: seq<Node>, t: Id) returns (k: nat)
    requires OneEach(ns)
    ensures LeavesAt(ns, WithoutTask(ns, t), t, k)
    decreases |ns|
  {
    hide Queued, LeavesAt, OneEach;
    k := 0;
    if ns != [] {
      HeadDiffers(ns);
      var j := OneLeaves(ns[1..], t);
      if ns[0].task == t { FirstLeaves(ns, t, j); } else { k := j + 1; LaterLeaves(ns, t, j); }
    } else {
      NoneLeaves(t);
    }
  }

  lemma NoneLeaves(t: Id)
    ensures LeavesAt([], WithoutTask([], t), t, 0)
  {
  }

  lemma FirstLeaves(ns: seq<Node>, t: Id, j: nat)
    requires ns != [] && ns[0].task == t && !Queued(ns[1..], t) && LeavesAt(ns[1..], WithoutTask(ns[1..], t), t, j)
    ensures LeavesAt(ns, WithoutTask(ns, t), t, 0)
  {
    assert ns[0] in ns;
  }

  lemma LaterLeaves(ns: seq<Node>, t: Id, j: nat)
    requires ns != [] && ns[0].task != t && LeavesAt(ns[1..], WithoutTask(ns[1..], t), t, j)
    ensures LeavesAt(ns, WithoutTask(ns, t), t, j + 1)
  {
    assert Queued(ns, t) <==> Queued(ns[1..], t) by { assert ns == [ns[0]] + ns[1..]; }
    if j < |ns| - 1 { assert [ns[0]] + (ns[1..][..j] + ns[1..][j + 1..]) == ns[..j + 1] + ns[j + 2..]; }
  }

  /** The other services change one task, and its readiness; a task that is deleted takes its node along. */
  lemma TasksDo(g: Group, t: Id, got: Flags)
    requires Inv(g) && t in g.tasks
    ensures var c := g.tasks[t];
            && Suspend(g, t) == Group(g.flags, g.waiting, g.tasks[t := Task(c.dly, true, c.pend, c.got)], g.ready - {t})
            && Unsuspend(g, t)
               == (if c.suspend then
                     Group(g.flags, g.waiting, g.tasks[t := Task(c.dly, false, c.pend, c.got)],
                           if c.pend || c.dly > 0 then g.ready else g.ready + {t})
                   else g)
            && (c.pend && !c.suspend ==>
                  Step(g, DoTimeout(t))
                  == Group(g.flags, g.waiting, g.tasks[t := Task(0, false, true, c.got)], g.ready + {t}))
    ensures forall u :: u !in g.tasks ==>
              Create(g, u, got) == Group(g.flags, g.waiting, g.tasks[u := Task(0, false, false, got)], g.ready + {u})
    ensures var g' := Delete(g, t);
            && g'.flags == g.flags && g'.tasks == g.tasks - {t} && g'.ready == g.ready - {t}
            && exists k: nat :: LeavesAt(g.waiting, g'.waiting, t, k)
  {
    var k := OneLeaves(g.waiting, t);
  }
}
