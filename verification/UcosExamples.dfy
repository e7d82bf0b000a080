// Runs of uC/OS-II from its start that end where a caller would not expect it.
module UcosExamples {
  import opened Lists
  import opened PrioTable
  import opened Ucos
  import opened UcosLaws

  lemma RunOne(k: Kernel, ops: seq<Op>, rest: seq<Op>)
    requires Inv(k) && ops != [] && ops[1..] == rest && Legal(k, ops[0]) && LegalRun(Step(k, ops[0]), rest)
    ensures LegalRun(k, ops) && Run(k, ops) == Run(Step(k, ops[0]), rest)
  {
  }

  lemma RunNone(k: Kernel)
    requires Inv(k)
    ensures LegalRun(k, []) && Run(k, []) == k
  {
  }

  /** The kernel at its start, with one event. */
  function Begin(): Kernel { Start(0, map[0 := Empty()]) }

  /** Task 1 is the only one next to the idle task, and runs. */
  ghost predicate Alone(k: Kernel) {
    && Inv(k) && AtTask(k) && k.tasks.Keys == {0, 1} && k.idle == 0 && k.cur == 1 && k.list == [1, 0]
    && k.tasks[1].prio == 10 && !k.tasks[1].suspend && k.tasks[1].event == Nothing && k.tasks[1].dly == 0
    && IsReady(k, 1) && 0 in k.events
  }

  /** The task is created, and the scheduler switches to it. */
  function Arrival(): seq<Op> { [DoClaim(10), DoCreate(1, 10), DoSched] }

  lemma OneTask()
    ensures Inv(Begin()) && LegalRun(Begin(), Arrival()) && Alone(Run(Begin(), Arrival()))
  {
    hide Inv, LegalRun, Run, Empty, Set, Member, Create, Highest, Alone;
    InitInv(0, map[0 := Empty()]);
    var k0 := Begin();
    var k1 := Step(k0, DoClaim(10));
    TablesKnown(k1);
    CreateIs(k1, 1, 10);
    var k2 := Step(k1, DoCreate(1, 10));
    SchedIs(k2);
    var k3 := Step(k2, DoSched);
    FirstRuns(k1, k2);
    RunNone(k3);
    RunOne(k2, [DoSched], []);
    RunOne(k1, [DoCreate(1, 10), DoSched], [DoSched]);
    RunOne(k0, [DoClaim(10), DoCreate(1, 10), DoSched], [DoCreate(1, 10), DoSched]);
  }

  lemma FirstRuns(k1: Kernel, k2: Kernel)
    requires Inv(k1) && k1 == Begin().(prioTbl := Begin().prioTbl[10 := Claimed])
    requires TablesOk(k1) && k2 == Create(k1, 1, 10) && Inv(k2)
    ensures Taken(k2, Highest(k2.ready)) && Alone(Sched(k2))
  {
    hide Agrees, Member, Empty, Set, Highest, Distinct;
    CreateIs(k1, 1, 10);
    SchedIs(k2);
  }

  lemma LeftAlone(k: Kernel)
    requires Alone(k)
    ensures var ops := [DoWait(0, 1), DoTickBegin, DoTickOne, DoTickOne, DoSuspend(1), DoResume(1)];
            && LegalRun(k, ops)
            && var k' := Run(k, ops);
               && Inv(k') && 1 in k'.tasks && Shaped(k'.ready) && !IsReady(k', 1)
               && !k'.tasks[1].suspend && k'.tasks[1].dly == 0 && k'.tasks[1].event == On(0)
  {
    hide Inv, LegalRun, Run, Member, Wait, TickOne, Suspend, Resume, Highest;
    TablesKnown(k);
    var k1 := Step(k, DoWait(0, 1));
    WaitIs(k, 0, 1);
    WaitFields(k);
    Timely(k1);
    var k2 := Step(k1, DoTickBegin);
    var k3 := Step(k2, DoTickOne);
    var k4 := Step(k3, DoTickOne);
    SuspendIs(k4, 1);
    var k5 := Step(k4, DoSuspend(1));
    ResumeIs(k5, 1);
    var k6 := Step(k5, DoResume(1));
    StaysDying(k4, k5, k6);
    RunNone(k6);
    RunOne(k5, [DoResume(1)], []);
    RunOne(k4, [DoSuspend(1), DoResume(1)], [DoResume(1)]);
    RunOne(k3, [DoTickOne, DoSuspend(1), DoResume(1)], [DoSuspend(1), DoResume(1)]);
    RunOne(k2, [DoTickOne, DoTickOne, DoSuspend(1), DoResume(1)], [DoTickOne, DoSuspend(1), DoResume(1)]);
    RunOne(k1, [DoTickBegin, DoTickOne, DoTickOne, DoSuspend(1), DoResume(1)],
           [DoTickOne, DoTickOne, DoSuspend(1), DoResume(1)]);
    RunOne(k, [DoWait(0, 1), DoTickBegin, DoTickOne, DoTickOne, DoSuspend(1), DoResume(1)],
           [DoTickBegin, DoTickOne, DoTickOne, DoSuspend(1), DoResume(1)]);
  }

  /** The timeout expires. */
  lemma Timely(k: Kernel)
    requires Inv(k) && AtTask(k) && k.tasks.Keys == {0, 1} && k.idle == 0 && k.list == [1, 0]
    requires k.tasks[1].dly == 1 && !k.tasks[1].suspend
    ensures var k2 := Step(k, DoTickBegin);
            && k2.tick.At?
            && var k3 := Step(k2, DoTickOne);
               && k3.tick.At?
               && var k4 := Step(k3, DoTickOne);
                  && AtTask(k4) && k4.tasks.Keys == {0, 1} && k4.idle == 0
                  && k4.tasks[1] == k.tasks[1].(dly := 0) && Shaped(k4.ready) && IsReady(k4, 1)
  {
    hide Inv, Member, TickOne;
    var k2 := Step(k, DoTickBegin);
    TickBeginKeeps(k);
    TickOneKeeps(k2);
    TickOneIs(k2);
    TickFields(k2);
    var k3 := Step(k2, DoTickOne);
    assert Ahead(k2) == [1, 0];
    TickOneKeeps(k3);
    TickOneIs(k3);
    TickFields(k3);
  }

  lemma TickFields(k: Kernel)
    requires Inv(k) && k.tick.At? && k.tick.t in k.tasks && k.tasks[k.tick.t].slot < PRIOS && k.list != []
    requires Shaped(k.ready)
    ensures TickOne(k).idle == k.idle && TickOne(k).dying == k.dying
  {
    hide Inv, Member, Set, Next;
  }

  lemma DyingAlone(k: Kernel)
    requires Alone(k)
    ensures var ops := [DoDeleteBegin(1), DoSuspend(1), DoResume(1)];
            && LegalRun(k, ops)
            && var k' := Run(k, ops);
               && k'.dying == Dying(1) && 1 in k'.tasks && k'.tasks[1].prio == 10 && |k'.prioTbl| == PRIOS
               && var k2 := DeleteEnd(k');
                  Shaped(k2.ready) && Highest(k2.ready) == 10 && k2.prioTbl[10] == Unused
  {
    hide Inv, LegalRun, Run, Member, DeleteBegin, Suspend, Resume, Highest, DeleteEnd;
    TablesKnown(k);
    DeleteBeginIs(k, 1);
    var k1 := Step(k, DoDeleteBegin(1));
    DyingIdle(k);
    SuspendIs(k1, 1);
    var k2 := Step(k1, DoSuspend(1));
    ResumeIs(k2, 1);
    var k3 := Step(k2, DoResume(1));
    StaysDying(k1, k2, k3);
    RunNone(k3);
    RunOne(k2, [DoResume(1)], []);
    RunOne(k1, [DoSuspend(1), DoResume(1)], [DoResume(1)]);
    RunOne(k, [DoDeleteBegin(1), DoSuspend(1), DoResume(1)], [DoSuspend(1), DoResume(1)]);
    DeleteEndIs(k3);
    MostUrgent(k3);
  }

  lemma DyingIdle(k: Kernel)
    requires Inv(k) && 1 in k.tasks && k.tasks[1].slot < PRIOS
    ensures TablesOk(k) && DeleteBegin(k, 1).idle == k.idle
  {
    hide Agrees, Member, Clear;
  }

  lemma WaitFields(k: Kernel)
    requires Inv(k) && k.cur in k.tasks && k.tasks[k.cur].slot < PRIOS && 0 in k.events
    ensures TablesOk(k) && Wait(k, 0, 1).idle == k.idle && Wait(k, 0, 1).list == k.list
    ensures Wait(k, 0, 1).dying == k.dying && Wait(k, 0, 1).tick == k.tick && Wait(k, 0, 1).tasks.Keys == k.tasks.Keys
  {
    hide Agrees, Member, Clear, Set;
  }

  lemma StaysDying(k1: Kernel, k2: Kernel, k3: Kernel)
    requires Inv(k1) && 1 in k1.tasks && k1.tasks[1].slot < PRIOS && k2 == Suspend(k1, 1)
    requires Inv(k2) && 1 in k2.tasks && k2.tasks[1].slot < PRIOS && k3 == Resume(k2, 1)
    ensures k2.dying == k1.dying == k3.dying && k2.idle == k1.idle == k3.idle
  {
    hide Inv, Member, Set, Clear;
  }

  lemma MostUrgent(k: Kernel)
    requires Inv(k) && k.tasks.Keys == {0, 1} && k.idle == 0 && k.tasks[1].prio == 10 && IsReady(k, 1)
    ensures Shaped(k.ready) && Highest(k.ready) == 10 && |k.prioTbl| == PRIOS
  {
    hide Agrees, Member, Highest, Distinct, TaskOk;
    HighestIs(k.ready);
    assert Taken(k, Highest(k.ready));
    OwnPrio(k, 0);
  }

  // ----- The two runs from the start

  lemma {:induction false} RunConcat(k: Kernel, a: seq<Op>, b: seq<Op>)
    requires Inv(k) && LegalRun(k, a) && LegalRun(Run(k, a), b)
    ensures LegalRun(k, a + b) && Run(k, a + b) == Run(Run(k, a), b)
    decreases |a|
  {
    hide Inv, Legal, Step;
    if a == [] {
      assert a + b == b;
    } else {
      assert (a + b)[0] == a[0] && (a + b)[1..] == a[1..] + b;
      RunConcat(Step(k, a[0]), a[1..], b);
    }
  }

  /** A task waits with a timeout of one tick, the tick comes, and before the task has run again it is suspended and
      resumed: it is neither ready nor suspended and has no delay left, but is still linked to the event. */
  lemma LeftBehind()
    ensures var ops := Arrival() + [DoWait(0, 1), DoTickBegin, DoTickOne, DoTickOne, DoSuspend(1), DoResume(1)];
            && Inv(Begin()) && LegalRun(Begin(), ops)
            && var k := Run(Begin(), ops);
               && Inv(k) && 1 in k.tasks && Shaped(k.ready) && !IsReady(k, 1)
               && !k.tasks[1].suspend && k.tasks[1].dly == 0 && k.tasks[1].event == On(0)
  {
    hide Inv, Alone, LegalRun, Run, IsReady, Begin, Arrival;
    OneTask();
    var k := Run(Begin(), Arrival());
    LeftAlone(k);
    RunConcat(Begin(), Arrival(), [DoWait(0, 1), DoTickBegin, DoTickOne, DoTickOne, DoSuspend(1), DoResume(1)]);
  }

  /** The task deletes itself, and between the two sections interrupts suspend and resume it: afterwards the most urgent
      ready priority belongs to no task, and OS_Sched would load a null pointer. */
  lemma NullTask()
    ensures var ops := Arrival() + [DoDeleteBegin(1), DoSuspend(1), DoResume(1)];
            && Inv(Begin()) && LegalRun(Begin(), ops)
            && var k := Run(Begin(), ops);
               && k.dying == Dying(1) && 1 in k.tasks && k.tasks[1].prio == 10 && |k.prioTbl| == PRIOS
               && var k2 := DeleteEnd(k);
                  Shaped(k2.ready) && Highest(k2.ready) == 10 && k2.prioTbl[10] == Unused
  {
    hide Inv, Alone, LegalRun, Run, Highest, DeleteEnd, Begin, Arrival;
    OneTask();
    DyingAlone(Run(Begin(), Arrival()));
    RunConcat(Begin(), Arrival(), [DoDeleteBegin(1), DoSuspend(1), DoResume(1)]);
  }
}
