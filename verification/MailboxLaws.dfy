// What each round of a send or a receive on the mailbox does, branch by branch, and whom it resumes.
module MailboxLaws {
  import opened Ipc
  import Lists
  import opened Mailbox

  /** One round of a send: it succeeds exactly when a slot is free; then the mail goes last and the first receiver that
      waits is resumed.  On a full mailbox a thread with time left joins the senders, and one without gives up. */
  lemma SendIs(m: Mailbox, w: Waiter, value: int, wait: bool)
    requires Inv(m) && Legal(m, DoSend(w, value, wait))
    ensures var ((m', code), woken) := (SendTry(m, w, value, wait), m.senders.woken - {w.id});
            && (code == Ok <==> |m.mails| < m.size)
            && (code == Blocked <==> |m.mails| == m.size && wait)
            && (code == Full <==> |m.mails| == m.size && !wait)
            && (code == Ok ==>
                  && m' == m.(mails := m.mails + [value], senders := Side(m.senders.waiting, woken),
                             receivers := m'.receivers)
                  && FirstWakes(m.receivers, m'.receivers))
            && (code == Blocked ==>
                  && m' == m.(senders := Side(Enqueue(m.senders.waiting, w, m.flag), woken))
                  && Waits(m'.senders.waiting, w.id))
            && (code == Full ==> m' == m.(senders := Side(m.senders.waiting, woken)))
  {
    hide Enqueue, Uninvolved;
    BlockConsistent(m.senders, w, m.flag);
  }

  /** One round of a receive: it succeeds exactly when there is mail; then the first sender that waits is resumed. On an
      empty mailbox a thread with time left joins the receivers, and one without gives up. */
  lemma RecvIs(m: Mailbox, w: Waiter, wait: bool)
    requires Inv(m) && Legal(m, DoRecv(w, wait))
    ensures var ((m', code), woken) := (RecvTry(m, w, wait), m.receivers.woken - {w.id});
            && (code == Ok <==> m.mails != [])
            && (code == Blocked <==> m.mails == [] && wait)
            && (code == TimedOut <==> m.mails == [] && !wait)
            && (code == Ok ==>
                  && m' == m.(mails := m.mails[1..], receivers := Side(m.receivers.waiting, woken),
                             senders := m'.senders)
                  && FirstWakes(m.senders, m'.senders))
            && (code == Blocked ==>
                  && m' == m.(receivers := Side(Enqueue(m.receivers.waiting, w, m.flag), woken))
                  && Waits(m'.receivers.waiting, w.id))
            && (code == TimedOut ==> m' == m.(receivers := Side(m.receivers.waiting, woken)))
  {
    hide Enqueue, Uninvolved;
    BlockConsistent(m.receivers, w, m.flag);
  }

  /** The first waiter, if there is one, is resumed. */
  ghost predicate FirstWakes(s: Side, s': Side) {
    if s.waiting == [] then s' == s
    else s.waiting == [s.waiting[0]] + s'.waiting && s'.woken == s.woken + {s.waiting[0].id}
  }

  /** A waiter whose time is over leaves the lists, where the others keep their order. */
  lemma TimeOutIs(m: Mailbox, t: Tid) returns (i: nat, j: nat)
    requires Inv(m)
    ensures i <= |m.receivers.waiting| && (i < |m.receivers.waiting| <==> Waits(m.receivers.waiting, t))
    ensures j <= |m.senders.waiting| && (j < |m.senders.waiting| <==> Waits(m.senders.waiting, t))
    ensures var (m', rs, ss) := (TimeOut(m, t), m.receivers.waiting, m.senders.waiting);
            && m' == m.(receivers := m'.receivers, senders := m'.senders)
            && m'.receivers.woken == m.receivers.woken && m'.senders.woken == m.senders.woken
            && (if i < |rs| then rs[i].id == t && m'.receivers.waiting == rs[..i] + rs[i + 1..]
                else m'.receivers == m.receivers)
            && (if j < |ss| then ss[j].id == t && m'.senders.waiting == ss[..j] + ss[j + 1..]
                else m'.senders == m.senders)
  {
    hide Without, Waits;
    i := WithoutIs(m.receivers.waiting, t);
    j := WithoutIs(m.senders.waiting, t);
  }

  /** After a reset there is no mail and nobody waits; a thread resumed before is still on its way. */
  lemma ResetIs(m: Mailbox, w: Waiter)
    ensures var m' := Reset(m);
            && RecvTry(m', w, false).1 == TimedOut && m'.size == m.size && m'.flag == m.flag
            && (forall t :: !Waits(m'.receivers.waiting, t) && !Waits(m'.senders.waiting, t))
            && m'.receivers.woken == m.receivers.woken && m'.senders.woken == m.senders.woken
  {
  }

  // ----- Who is resumed first

  /** The threads that wait to receive, or to send. */
  function Queue(m: Mailbox, receiving: bool): seq<Waiter> {
    if receiving then m.receivers.waiting else m.senders.waiting
  }

  /** v waits to receive, or to send, at every point of the run. */
  predicate WaitsThroughout(m: Mailbox, ops: seq<Op>, v: Waiter, receiving: bool)
    decreases |ops|
  {
    && v in Queue(m, receiving)
    && (ops != [] ==> WaitsThroughout(Step(m, ops[0]), ops[1..], v, receiving))
  }

  /** The threads that are resumed to receive, or to send, in the run. */
  function ResumedIn(m: Mailbox, ops: seq<Op>, receiving: bool): set<Waiter>
    decreases |ops|
  {
    if ops == [] then {}
    else
      var m1 := Step(m, ops[0]);
      (if receiving then Resumed(m.receivers, m1.receivers) else Resumed(m.senders, m1.senders))
      + ResumedIn(m1, ops[1..], receiving)
  }

  lemma StepFair(m: Mailbox, op: Op, v: Waiter)
    requires Inv(m) && Legal(m, op)
    ensures Step(m, op).flag == m.flag
    ensures v in m.receivers.waiting && v in Step(m, op).receivers.waiting ==>
              Fair(m.receivers, Step(m, op).receivers, v, m.flag)
    ensures v in m.senders.waiting && v in Step(m, op).senders.waiting ==>
              Fair(m.senders, Step(m, op).senders, v, m.flag)
  {
    var m' := Step(m, op);
    if v in m.receivers.waiting && v in m'.receivers.waiting { SideFair(m, op, v, m.receivers, m'.receivers); }
    if v in m.senders.waiting && v in m'.senders.waiting { SideFair(m, op, v, m.senders, m'.senders); }
  }

  lemma SideFair(m: Mailbox, op: Op, v: Waiter, s: Side, s': Side)
    requires Inv(m) && Legal(m, op) && v in s.waiting && v in s'.waiting
    requires (s, s') == (m.receivers, Step(m, op).receivers) || (s, s') == (m.senders, Step(m, op).senders)
    ensures Fair(s, s', v, m.flag)
  {
    hide Block, WakeFirst, Expire, Proceed, Fair, InFront, Sorted, Consistent, NoLostWakeUp;
    NothingResumed(s, v, m.flag);
    match op
    case DoSend(w, _, _) => NobodyResumed(s, w, w.id, m.flag, v); if s' == WakeFirst(s) { FirstResumed(s, m.flag, v); }
    case DoRecv(w, _) => NobodyResumed(s, w, w.id, m.flag, v); if s' == WakeFirst(s) { FirstResumed(s, m.flag, v); }
    case DoExpire(t) => NobodyResumed(s, v, t, m.flag, v);
    case DoReset =>
  }

  /** Nobody is passed over, on either side: while v waits, only threads that were in front of it are resumed, and, with
      the priority flag, more urgent ones.  So with the FIFO flag they are resumed in the order they began to wait. */
  lemma {:induction false} NoOvertaking(m: Mailbox, ops: seq<Op>, v: Waiter, receiving: bool)
    requires Inv(m) && LegalRun(m, ops) && WaitsThroughout(m, ops, v, receiving)
    ensures forall w :: w in ResumedIn(m, ops, receiving) ==>
              w in InFront(Queue(m, receiving), v.id) || MayPass(m.flag, w, v)
    decreases |ops|
  {
    hide Inv, Step, Legal, InFront, MayPass, Resumed;
    if ops != [] {
      StepKeeps(m, ops[0]);
      var m1 := Step(m, ops[0]);
      assert v in Queue(m1, receiving);
      StepFair(m, ops[0], v);
      NoOvertaking(m1, ops[1..], v, receiving);
    }
  }

  /** The thread that a step resumes on one side, and the one that begins to wait there. */
  function Leaving(m: Mailbox, op: Op, receiving: bool): seq<Waiter> {
    if Queue(m, receiving) != []
       && (if receiving then op.DoSend? && |m.mails| < m.size else op.DoRecv? && m.mails != [])
    then [Queue(m, receiving)[0]] else []
  }

  function Joining(m: Mailbox, op: Op, receiving: bool): seq<Waiter> {
    if (if receiving then op.DoRecv? && m.mails == [] && op.wait else op.DoSend? && |m.mails| == m.size && op.wait)
    then [op.w] else []
  }

  function LeavingIn(m: Mailbox, ops: seq<Op>, receiving: bool): seq<Waiter>
    decreases |ops|
  {
    if ops == [] then [] else Leaving(m, ops[0], receiving) + LeavingIn(Step(m, ops[0]), ops[1..], receiving)
  }

  function JoiningIn(m: Mailbox, ops: seq<Op>, receiving: bool): seq<Waiter>
    decreases |ops|
  {
    if ops == [] then [] else Joining(m, ops[0], receiving) + JoiningIn(Step(m, ops[0]), ops[1..], receiving)
  }

  lemma StepInOrder(m: Mailbox, op: Op, receiving: bool)
    requires Inv(m) && Legal(m, op) && m.flag.Fifo? && !op.DoExpire? && !op.DoReset?
    ensures Step(m, op).flag == m.flag
    ensures Leaving(m, op, receiving) + Queue(Step(m, op), receiving) == Queue(m, receiving) + Joining(m, op, receiving)
  {
    hide Enqueue, Uninvolved, SideOk;
    var k := EnqueueIs(Queue(m, receiving), op.w, m.flag);
  }

  /** First come, first resumed, on either side: over every run with the FIFO flag in which nobody times out and no
      reset comes, the threads resumed and then still waiting are those that waited and then began to wait, in that
      order. */
  lemma {:induction false} FirstComeFirstResumed(m: Mailbox, ops: seq<Op>, receiving: bool)
    requires Inv(m) && LegalRun(m, ops) && m.flag.Fifo?
    requires forall op :: op in ops ==> !op.DoExpire? && !op.DoReset?
    ensures LeavingIn(m, ops, receiving) + Queue(Run(m, ops), receiving)
            == Queue(m, receiving) + JoiningIn(m, ops, receiving)
    decreases |ops|
  {
    hide Inv, Step, Legal, Leaving, Joining, Queue;
    if ops != [] {
      StepKeeps(m, ops[0]);
      var m1 := Step(m, ops[0]);
      StepInOrder(m, ops[0], receiving);
      FirstComeFirstResumed(m1, ops[1..], receiving);
      Lists.InOrder(Leaving(m, ops[0], receiving), Queue(m1, receiving), Queue(m, receiving),
                    Joining(m, ops[0], receiving), LeavingIn(m1, ops[1..], receiving),
                    Queue(Run(m1, ops[1..]), receiving), JoiningIn(m1, ops[1..], receiving));
    }
  }
}
