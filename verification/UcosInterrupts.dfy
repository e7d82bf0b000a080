// What uC/OS-II keeps while a service is between two critical sections: interrupts
// may suspend, resume, post and create, and the clock may tick.
module UcosInterrupts {
  import opened Lists
  import opened PrioTable
  import opened Ucos
  import opened UcosLaws

  // ----- A step and the tasks it is not about

  /** The step is about task u. */
  predicate Touches(k: Kernel, op: Op, u: Id)
    requires TablesOk(k)
  {
    match op
    case DoCreate(t, _) => t == u
    case DoDeleteBegin(t) => t == u
    case DoDeleteEnd => k.dying == Dying(u)
    case DoSuspend(t) => t == u
    case DoResume(t) => t == u
    case DoWait(_, _) => k.cur == u
    case DoPost(e) => e in k.events && Taken(k, Highest(k.events[e])) && k.prioTbl[Highest(k.events[e])].id == u
    case DoTimedOut => k.cur == u
    case DoDelay(_) => k.cur == u
    case DoTickOne => k.tick == At(u)
    case _ => false
  }

  /** Task u has the same control block, and is ready as before. */
  ghost predicate Same(k: Kernel, k': Kernel, u: Id) {
    && Shaped(k.ready) && Shaped(k'.ready) && u in k.tasks && u in k'.tasks && k'.tasks[u] == k.tasks[u]
    && (IsReady(k', u) <==> IsReady(k, u))
  }

  lemma SameByOthers(k: Kernel, k': Kernel, t: Id, u: Id)
    requires Others(k, k', t) && u in k.tasks && u != t
    ensures Same(k, k', u)
  {
  }

  lemma EntrySame(k: Kernel, prio: nat, entry: Entry, u: Id)
    requires Inv(k) && prio < |k.prioTbl| && u in k.tasks
    ensures Same(k, k.(prioTbl := k.prioTbl[prio := entry]), u)
  {
    hide Agrees, Member, TaskOk, NoStrangers, IdleOk;
  }

  lemma Untouched(k: Kernel, op: Op, u: Id)
    requires Inv(k) && Legal(k, op) && u in k.tasks && TablesOk(k) && !Touches(k, op, u)
    ensures Same(k, Step(k, op), u)
  {
    hide Inv, TablesOk, Others, Same, Create, DeleteBegin, DeleteEnd, Suspend, Resume, Wait, Post, TimedOut, Delay,
         TickBegin, TickOne, Highest, Member, Taken;
    match op
    case DoClaim(prio) => EntrySame(k, prio, Claimed, u);
    case DoUnclaim(prio) => EntrySame(k, prio, Unused, u);
    case DoCreate(t, prio) => CreateIs(k, t, prio); SameByOthers(k, Create(k, t, prio), t, u);
    case DoDeleteBegin(t) => DeleteBeginIs(k, t); SameByOthers(k, DeleteBegin(k, t), t, u);
    case DoDeleteEnd => DeleteEndSame(k, u);
    case DoSuspend(t) => SuspendIs(k, t); SameByOthers(k, Suspend(k, t), t, u);
    case DoResume(t) => ResumeOthers(k, t, u);
    case DoWait(e, timeout) => WaitIs(k, e, timeout); SameByOthers(k, Wait(k, e, timeout), k.cur, u);
    case DoPost(e) => PostSame(k, e, u);
    case DoTimedOut => TimedOutIs(k); SameByOthers(k, TimedOut(k), k.cur, u);
    case DoDelay(ticks) => DelayOthers(k, ticks, u);
    case DoTickBegin => TickBeginSame(k, u);
    case DoTickOne => TickOneSame(k, u);
    case DoSched => SchedIs(k); ItselfSame(k, Sched(k), u);
  }

  lemma DeleteEndSame(k: Kernel, u: Id)
    requires Inv(k) && Legal(k, DoDeleteEnd) && u in k.tasks && k.dying != Dying(u)
    ensures TablesOk(k) && k.tasks[k.dying.t].prio < PRIOS && Same(k, DeleteEnd(k), u)
  {
    hide Agrees, Member, TaskOk, NoStrangers, IdleOk, DeleteEnd;
    DeleteEndIs(k);
    SameByOthers(k, DeleteEnd(k), k.dying.t, u);
  }

  lemma PostSame(k: Kernel, e: nat, u: Id)
    requires Inv(k) && Legal(k, DoPost(e)) && u in k.tasks && TablesOk(k) && !Touches(k, DoPost(e), u)
    ensures Taken(k, Highest(k.events[e])) && Same(k, Post(k, e).0, u)
  {
    hide Agrees, Member, TaskOk, NoStrangers, IdleOk, Highest, Clear, Set;
    PostIs(k, e);
    SameByOthers(k, Post(k, e).0, k.prioTbl[Post(k, e).1].id, u);
  }

  lemma TickBeginSame(k: Kernel, u: Id)
    requires Inv(k) && u in k.tasks
    ensures k.list != [] && Same(k, TickBegin(k), u)
  {
    hide Inv;
    ChainOk(k);
    ItselfSame(k, TickBegin(k), u);
  }

  lemma TickOneSame(k: Kernel, u: Id)
    requires Inv(k) && k.tick.At? && u in k.tasks && k.tick != At(u)
    ensures TablesOk(k) && k.tick.t in k.tasks && k.tasks[k.tick.t].slot < PRIOS && k.list != []
    ensures Same(k, TickOne(k), u)
  {
    hide Agrees, Member, TaskOk, NoStrangers, IdleOk, TickOne;
    TickOneIs(k);
    SameByOthers(k, TickOne(k), k.tick.t, u);
  }

  lemma ItselfSame(k: Kernel, k': Kernel, u: Id)
    requires Inv(k) && k'.tasks == k.tasks && k'.ready == k.ready && u in k.tasks
    ensures Same(k, k', u)
  {
    hide Agrees, Member, TaskOk, NoStrangers, IdleOk;
  }

  lemma ResumeOthers(k: Kernel, t: Id, u: Id)
    requires Inv(k) && Legal(k, DoResume(t)) && u in k.tasks && u != t
    ensures k.tasks[t].slot < PRIOS && TablesOk(k) && Same(k, Resume(k, t), u)
  {
    hide Agrees, Member, Set, TaskOk, NoStrangers, IdleOk;
    OwnPrio(k, t);
    if k.tasks[t].suspend { ResumeIs(k, t); }
  }

  lemma DelayOthers(k: Kernel, ticks: nat, u: Id)
    requires Inv(k) && Legal(k, DoDelay(ticks)) && u in k.tasks && u != k.cur
    ensures k.tasks[k.cur].slot < PRIOS && TablesOk(k) && Same(k, Delay(k, ticks), u)
  {
    hide Agrees, Member, Clear, TaskOk, NoStrangers, IdleOk;
    OwnPrio(k, k.cur);
    if ticks > 0 { DelayIs(k, ticks); }
  }

  // ----- One tick, with interrupts between the tasks

  /** No step of the run is about task u, the tick apart, and no second tick begins. */
  ghost predicate Quiet(k: Kernel, ops: seq<Op>, u: Id)
    requires Inv(k) && LegalRun(k, ops)
    decreases |ops|
  {
    TablesKnown(k);
    ops != [] ==>
      && (ops[0] == DoTickOne || !Touches(k, ops[0], u)) && ops[0] != DoTickBegin
      && Quiet(Step(k, ops[0]), ops[1..], u)
  }

  /** What the loop has done to task u, once it has come to it. */
  ghost predicate CountedDown(k: Kernel, k': Kernel, u: Id) {
    && Shaped(k.ready) && Shaped(k'.ready) && u in k.tasks && u in k'.tasks
    && k'.tasks[u] == k.tasks[u].(dly := Ticked(k.tasks[u]))
    && (IsReady(k', u) <==> IsReady(k, u) || (k.tasks[u].dly == 1 && !k.tasks[u].suspend))
  }

  /** Whatever happens in between does not change what is ahead of the loop: new tasks go to the head of the chain. */
  lemma AheadStays(k: Kernel, op: Op)
    requires Inv(k) && Legal(k, op) && k.tick.At? && op != DoTickOne
    ensures Ahead(Step(k, op)) == Ahead(k) && Step(k, op).tick == k.tick
  {
    hide Find;
    ChainStays(k, op);
    if op.DoCreate? {
      ChainOk(k);
      TickInList(k);
      FindBehind(k.list, op.t, k.tick.t);
    }
  }

  lemma TickInList(k: Kernel)
    requires Inv(k) && k.tick.At?
    ensures k.tick.t in k.list
  {
    hide Agrees, Member, TaskOk, NoStrangers, Distinct;
  }

  lemma ChainStays(k: Kernel, op: Op)
    requires Inv(k) && Legal(k, op) && k.tick.At? && op != DoTickOne
    ensures Step(k, op).tick == k.tick
    ensures Step(k, op).list == if op.DoCreate? then [op.t] + k.list else k.list
  {
    hide Agrees, Member, TaskOk, NoStrangers, Set, Clear, Highest, Find, Distinct;
  }

  lemma FindBehind(list: seq<Id>, t: Id, u: Id)
    requires u in list && t !in list
    ensures ([t] + list)[Find([t] + list, u)..] == list[Find(list, u)..]
  {
    assert ([t] + list)[1..] == list;
  }

  lemma IdleAhead(k: Kernel, u: Id)
    requires Inv(k) && k.tick.At?
    ensures Ahead(k) != [] && Ahead(k)[0] == k.tick.t && k.tick.t in k.tasks
    ensures k.tick.t !in Ahead(k)[1..]
  {
    hide Agrees, Member, TaskOk, NoStrangers, Find;
    InChain(k);
    var i := Find(k.list, k.tick.t);
    assert Ahead(k)[1..] == k.list[i + 1..];
  }

  /** Every task that the loop passes is counted down exactly once, whatever interrupts do to the others in the
      meantime; the tasks it has not come to, or that were created behind it, are as they were. */
  lemma {:induction false} OneTick(k: Kernel, ops: seq<Op>, u: Id)
    requires Inv(k) && LegalRun(k, ops) && u in k.tasks && Quiet(k, ops, u)
    ensures var k' := Run(k, ops);
            if u in Ahead(k) && u !in Ahead(k') then CountedDown(k, k', u)
            else Same(k, k', u) && (u in Ahead(k') <==> u in Ahead(k))
    decreases |ops|
  {
    hide Inv, Legal, Step, Touches, Ahead, Same, CountedDown;
    if ops == [] {
      ItselfSame(k, k, u);
    } else {
      var op, k1 := ops[0], Step(k, ops[0]);
      TablesKnown(k);
      if op == DoTickOne {
        TickStep(k, u);
      } else {
        Untouched(k, op, u);
        NoAhead(k, op, u);
      }
      KeyKept(k, k1, u);
      OneTick(k1, ops[1..], u);
      Chained(k, k1, Run(k, ops), u);
    }
  }

  lemma KeyKept(k: Kernel, k': Kernel, u: Id)
    requires Same(k, k', u) || CountedDown(k, k', u)
    ensures u in k'.tasks
  {
  }

  lemma Chained(k: Kernel, k1: Kernel, k2: Kernel, u: Id)
    ensures Same(k, k1, u) && Same(k1, k2, u) ==> Same(k, k2, u)
    ensures Same(k, k1, u) && CountedDown(k1, k2, u) ==> CountedDown(k, k2, u)
    ensures CountedDown(k, k1, u) && Same(k1, k2, u) ==> CountedDown(k, k2, u)
  {
    hide Member, Shaped;
  }

  lemma NoAhead(k: Kernel, op: Op, u: Id)
    requires Inv(k) && Legal(k, op) && op != DoTickOne && op != DoTickBegin
    ensures u in Ahead(Step(k, op)) <==> u in Ahead(k)
  {
    hide Inv, Find;
    if k.tick.At? { AheadStays(k, op); }
  }

  lemma TickStep(k: Kernel, u: Id)
    requires Inv(k) && Legal(k, DoTickOne) && u in k.tasks
    ensures var k' := Step(k, DoTickOne);
            if k.tick == At(u) then u in Ahead(k) && u !in Ahead(k') && CountedDown(k, k', u)
            else Same(k, k', u) && (u in Ahead(k') <==> u in Ahead(k))
  {
    hide Inv, TickOne, Ahead, Same, Others, Member, TablesOk;
    TablesKnown(k);
    TickOneKeeps(k);
    TickOneIs(k);
    IdleAhead(k, u);
    assert Ahead(k) == [k.tick.t] + Ahead(k)[1..];
    if k.tick == At(u) {
      TickedNow(k, u);
    } else {
      SameByOthers(k, TickOne(k), k.tick.t, u);
    }
  }

  lemma TickedNow(k: Kernel, u: Id)
    requires Inv(k) && k.tick == At(u)
    ensures u in k.tasks && k.tasks[u].slot < PRIOS && TablesOk(k) && k.list != [] && CountedDown(k, TickOne(k), u)
  {
    hide Agrees, Member, TaskOk, NoStrangers, TickOne;
    TickOneIs(k);
  }

  /** A whole tick, from the beginning of the loop to its end, counts down every task once. */
  lemma WholeTick(k: Kernel, ops: seq<Op>, u: Id)
    requires Inv(k) && Legal(k, DoTickBegin) && LegalRun(Step(k, DoTickBegin), ops) && u in k.tasks
    requires Quiet(Step(k, DoTickBegin), ops, u) && Run(Step(k, DoTickBegin), ops).tick == NoTick
    ensures CountedDown(k, Run(Step(k, DoTickBegin), ops), u)
  {
    hide Inv, Same, CountedDown, Quiet, LegalRun, Run;
    var k1 := Step(k, DoTickBegin);
    TickBeginKeeps(k);
    InList(k, u);
    ItselfSame(k, k1, u);
    OneTick(k1, ops, u);
    Chained(k, k1, Run(k1, ops), u);
  }

  lemma InList(k: Kernel, u: Id)
    requires Inv(k) && u in k.tasks
    ensures u in k.list
  {
    hide Agrees, Member, TaskOk, NoStrangers, Distinct;
  }

  /** The loop of OSTimeTick to its end, when no other interrupt comes in between. */
  ghost function TickThrough(k: Kernel): (k': Kernel)
    requires Inv(k)
    ensures Inv(k') && k'.tick == NoTick
    decreases |Ahead(k)|
  {
    if k.tick == NoTick then k
    else
      LessAhead(k);
      TickThrough(Step(k, DoTickOne))
  }

  lemma LessAhead(k: Kernel)
    requires Inv(k) && k.tick.At?
    ensures |Ahead(Step(k, DoTickOne))| + 1 == |Ahead(k)|
  {
    hide Inv, TickOne, Ahead;
    TickOneKeeps(k);
  }

  /** A whole tick without other interrupts. */
  ghost function Tick(k: Kernel): (k': Kernel)
    requires Inv(k) && k.tick == NoTick
    ensures Inv(k') && k'.tick == NoTick
  {
    TickThrough(Step(k, DoTickBegin))
  }

  /** It is a run like any other. */
  lemma {:induction false} ThroughIsRun(k: Kernel, u: Id)
    requires Inv(k) && u in k.tasks
    ensures var ops := seq(|Ahead(k)|, i => DoTickOne);
            LegalRun(k, ops) && Run(k, ops) == TickThrough(k) && Quiet(k, ops, u)
    decreases |Ahead(k)|
  {
    hide Inv, Ahead, Touches, Step, Same, CountedDown;
    if k.tick == NoTick {
      assert |Ahead(k)| == 0 by { NoneAhead(k); }
    } else {
      LessAhead(k);
      var k1 := Step(k, DoTickOne);
      TickStep(k, u);
      KeyKept(k, k1, u);
      ThroughIsRun(k1, u);
      var ops := seq(|Ahead(k)|, i => DoTickOne);
      assert ops[1..] == seq(|Ahead(k1)|, i => DoTickOne);
      assert Legal(k, ops[0]);
    }
  }

  lemma NoneAhead(k: Kernel)
    requires k.tick == NoTick
    ensures Ahead(k) == []
  {
  }

  /** It counts every task down once. */
  lemma TickIs(k: Kernel, u: Id)
    requires Inv(k) && k.tick == NoTick && u in k.tasks
    ensures CountedDown(k, Tick(k), u)
  {
    hide Inv, CountedDown, Quiet, LegalRun, Run, TickThrough, Step, Ahead, Same;
    BeginsAt(k, u);
    var k1 := Step(k, DoTickBegin);
    ThroughIsRun(k1, u);
    WholeTick(k, seq(|Ahead(k1)|, i => DoTickOne), u);
  }

  lemma BeginsAt(k: Kernel, u: Id)
    requires Inv(k) && Legal(k, DoTickBegin) && u in k.tasks
    ensures u in Step(k, DoTickBegin).tasks
  {
    hide Inv;
  }

  // ----- Interrupts between the two sections of a deletion

  /** What has become of a dying task: nothing, suspended, or resumed after that. */
  datatype Fate = Plain | Held | Revived

  function NextFate(f: Fate, op: Op, t: Id): Fate {
    if op == DoSuspend(t) then Held else if op == DoResume(t) && f == Held then Revived else f
  }

  function FateAfter(f: Fate, ops: seq<Op>, t: Id): Fate
    decreases |ops|
  {
    if ops == [] then f else FateAfter(NextFate(f, ops[0], t), ops[1..], t)
  }

  ghost predicate HasFate(k: Kernel, t: Id, f: Fate) {
    && Shaped(k.ready) && t in k.tasks
    && (IsReady(k, t) <==> f == Revived) && (k.tasks[t].suspend <==> f == Held)
  }

  lemma DyingStep(k: Kernel, op: Op, t: Id, f: Fate)
    requires Inv(k) && Legal(k, op) && k.dying == Dying(t) && op != DoDeleteEnd && HasFate(k, t, f)
    ensures Step(k, op).dying == Dying(t) && HasFate(Step(k, op), t, NextFate(f, op, t))
  {
    hide Inv, Same, Member, Create, Suspend, Resume, Post, TickOne, Highest, Agrees, Others;
    TablesKnown(k);
    DyingStays(k, op, t);
    if op == DoSuspend(t) {
      DyingSuspend(k, t);
    } else if op == DoResume(t) {
      DyingResume(k, t, f);
    } else if op == DoTickOne && k.tick == At(t) {
      DyingTick(k, t, f);
    } else {
      if op.DoPost? { PostedIsAlive(k, op.e); }
      Untouched(k, op, t);
      SameFate(k, Step(k, op), t, f);
    }
  }

  lemma DyingSuspend(k: Kernel, t: Id)
    requires Inv(k) && Legal(k, DoSuspend(t))
    ensures TablesOk(k) && k.tasks[t].slot < PRIOS && HasFate(Suspend(k, t), t, Held)
  {
    hide Agrees, Member, TaskOk, NoStrangers, IdleOk, Suspend;
    SuspendIs(k, t);
  }

  lemma SameFate(k: Kernel, k': Kernel, t: Id, f: Fate)
    requires Same(k, k', t) && HasFate(k, t, f)
    ensures HasFate(k', t, f)
  {
  }

  lemma DyingStays(k: Kernel, op: Op, t: Id)
    requires Inv(k) && Legal(k, op) && k.dying == Dying(t) && op != DoDeleteEnd
    ensures Step(k, op).dying == Dying(t)
  {
    hide Agrees, Member, TaskOk, NoStrangers, IdleOk, Set, Clear, Highest;
  }

  lemma DyingResume(k: Kernel, t: Id, f: Fate)
    requires Inv(k) && k.dying == Dying(t) && HasFate(k, t, f)
    ensures TablesOk(k) && k.tasks[t].slot < PRIOS && HasFate(Resume(k, t), t, NextFate(f, DoResume(t), t))
  {
    hide Agrees, Member, Set, NoStrangers, IdleOk;
    OwnPrio(k, t);
    assert TaskOk(k, k.tasks[t], t);
    if k.tasks[t].suspend { ResumeIs(k, t); }
  }

  lemma DyingTick(k: Kernel, t: Id, f: Fate)
    requires Inv(k) && k.dying == Dying(t) && k.tick == At(t) && HasFate(k, t, f)
    ensures TablesOk(k) && k.tasks[t].slot < PRIOS && k.list != [] && HasFate(TickOne(k), t, f)
  {
    hide Agrees, Member, Set, NoStrangers, IdleOk, TickOne;
    TickOneIs(k);
    assert TaskOk(k, k.tasks[t], t);
  }

  lemma PostedIsAlive(k: Kernel, e: nat)
    requires Inv(k) && Legal(k, DoPost(e))
    ensures Taken(k, Highest(k.events[e])) && k.dying != Dying(k.prioTbl[Highest(k.events[e])].id)
  {
    hide Agrees, Member, NoStrangers, IdleOk, Highest;
    HighestWaiter(k, e);
    HighestIs(k.events[e]);
    var t := k.prioTbl[Highest(k.events[e])].id;
    assert TaskOk(k, k.tasks[t], t);
  }

  lemma {:induction false} DyingRun(k: Kernel, ops: seq<Op>, t: Id, f: Fate)
    requires Inv(k) && LegalRun(k, ops) && k.dying == Dying(t) && HasFate(k, t, f) && DoDeleteEnd !in ops
    ensures Run(k, ops).dying == Dying(t) && HasFate(Run(k, ops), t, FateAfter(f, ops, t))
    decreases |ops|
  {
    hide Inv, Legal, Step, HasFate, NextFate;
    if ops != [] {
      DyingStep(k, ops[0], t, f);
      DyingRun(Step(k, ops[0]), ops[1..], t, NextFate(f, ops[0], t));
    }
  }

  /** The tables agree again after OSTaskDel exactly when nobody resumed the dying task in between, or it was suspended
      again after that. */
  lemma DeleteAgreesIff(k: Kernel, t: Id, ops: seq<Op>)
    requires Inv(k) && Legal(k, DoDeleteBegin(t)) && LegalRun(Step(k, DoDeleteBegin(t)), ops)
    requires DoDeleteEnd !in ops && Run(Step(k, DoDeleteBegin(t)), ops).tick == NoTick
    ensures var k' := Run(Step(k, DoDeleteBegin(t)), ops);
            && k'.dying == Dying(t) && TablesOk(k') && t in k'.tasks && k'.tasks[t].prio < PRIOS
            && (Inv(DeleteEnd(k')) <==> FateAfter(Plain, ops, t) != Revived)
  {
    hide Inv, LegalRun, Run, DeleteBegin, DeleteEnd, Member, TablesOk, FateAfter, Others, Agrees;
    TablesKnown(k);
    DeleteBeginIs(k, t);
    var k1 := Step(k, DoDeleteBegin(t));
    TablesKnown(k1);
    assert HasFate(k1, t, Plain);
    DyingRun(k1, ops, t, Plain);
    DeleteEndKeepsIff(Run(k1, ops));
    TablesKnown(Run(k1, ops));
  }

  /** Where t was suspended last; -1 if it was not. */
  function LastSuspend(ops: seq<Op>, t: Id): (i: int)
    ensures -1 <= i < |ops| && (i >= 0 ==> ops[i] == DoSuspend(t))
    ensures forall m :: i < m < |ops| ==> ops[m] != DoSuspend(t)
    decreases |ops|
  {
    if ops == [] then -1
    else if ops[|ops| - 1] == DoSuspend(t) then |ops| - 1
    else LastSuspend(ops[..|ops| - 1], t)
  }

  /** Revived means: suspended, resumed after that, and not suspended again. */
  lemma {:induction false} FateIs(ops: seq<Op>, t: Id)
    ensures var i := LastSuspend(ops, t);
            FateAfter(Plain, ops, t) ==
              if i < 0 then Plain else if DoResume(t) in ops[i + 1..] then Revived else Held
    decreases |ops|
  {
    hide NextFate;
    if ops != [] {
      FateIs(ops[..|ops| - 1], t);
      FateLast(Plain, ops, t);
      FateNext(ops, t);
    }
  }

  lemma FateNext(ops: seq<Op>, t: Id)
    requires ops != []
    requires FateAfter(Plain, ops, t) == NextFate(FateAfter(Plain, ops[..|ops| - 1], t), ops[|ops| - 1], t)
    requires var pre := ops[..|ops| - 1];
             var i := LastSuspend(pre, t);
             FateAfter(Plain, pre, t) ==
               if i < 0 then Plain else if DoResume(t) in pre[i + 1..] then Revived else Held
    ensures var i := LastSuspend(ops, t);
            FateAfter(Plain, ops, t) ==
              if i < 0 then Plain else if DoResume(t) in ops[i + 1..] then Revived else Held
  {
    hide FateAfter;
    var n := |ops| - 1;
    var i := LastSuspend(ops[..n], t);
    if ops[n] == DoSuspend(t) {
      assert ops[n + 1..] == [];
    } else if i >= 0 {
      InLast(ops, i + 1, DoResume(t));
    }
  }

  lemma InLast<T>(list: seq<T>, i: nat, x: T)
    requires i < |list|
    ensures x in list[i..] <==> list[|list| - 1] == x || x in list[..|list| - 1][i..]
  {
    assert list[i..] == list[..|list| - 1][i..] + [list[|list| - 1]];
  }

  lemma {:induction false} FateLast(f: Fate, ops: seq<Op>, t: Id)
    requires ops != []
    ensures FateAfter(f, ops, t) == NextFate(FateAfter(f, ops[..|ops| - 1], t), ops[|ops| - 1], t)
    decreases |ops|
  {
    if |ops| > 1 {
      FateLast(NextFate(f, ops[0], t), ops[1..], t);
      assert ops[1..][..|ops| - 2] == ops[..|ops| - 1][1..];
    }
  }
}
