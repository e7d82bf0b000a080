// What each section of a send or a receive on the message queue does, branch by branch, and whom it resumes.
module MessageQueueLaws {
  import opened Bytes
  import opened Ipc
  import Lists
  import opened MessageQueue

  /** The first section of a send: a message that is too long is an error, a queue without a free cell is full;
      otherwise the thread gets the first free cell, and the queue and the waiters stay as they are. */
  lemma SendIs(q: Queue, t: Tid, buffer: seq<byte>, urgent: bool)
    requires Inv(q) && Legal(q, DoSend(t, buffer, urgent))
    ensures forall i :: 0 <= i < |q.free| ==> q.free[i] < |q.place|
    ensures var (q', code) := SendBegin(q, t, buffer, urgent);
            if |buffer| > q.msgSize then code == Error && q' == q
            else if q.free == [] then code == Full && q' == q
            else
              && code == Ok && q' == q.(free := q'.free, senders := q'.senders, place := q'.place)
              && q.free == [q'.senders[t].cell] + q'.free
              && q'.senders == q.senders[t := Sender(q.free[0], buffer, 0, urgent)]
  {
    hide Listed, SendersOwn, ReceiversOwn, Intact, Phases;
    InRange(q);
  }

  /** The second section: an urgent message goes to the front, another one to the back, and the first waiter is resumed.
      */
  lemma CommitIs(q: Queue, t: Tid)
    requires Inv(q) && Legal(q, DoCommit(t))
    ensures q.senders[t].cell < |q.place|
    ensures var (q', msg) := (SendCommit(q, t), q.senders[t].buffer);
            && Messages(q') == (if q.senders[t].urgent then [msg] + Messages(q) else Messages(q) + [msg])
            && q'.senders == q.senders - {t} && q'.receivers == q.receivers
            && q'.free == q.free && q'.text == q.text
            && if q.side.waiting == [] then q'.side == q.side
               else q'.side.waiting == q.side.waiting[1..] && q'.side.woken == q.side.woken + {q.side.waiting[0].id}
  {
    hide Listed, ReceiversOwn, Intact, Phases;
  }

  /** One round of a receive: it succeeds exactly when a message is queued, and takes the first one. On an empty queue a
      thread with time left joins the suspend list, and one without leaves with an error; nothing else changes. */
  lemma RecvIs(q: Queue, w: Waiter, want: nat, wait: bool)
    requires Inv(q) && Legal(q, DoRecv(w, want, wait))
    ensures forall i :: 0 <= i < |q.queued| ==> q.queued[i].cell < |q.place|
    ensures var (q', code) := RecvTry(q, w, want, wait);
            && (code == Ok <==> Messages(q) != [])
            && (code == Blocked <==> Messages(q) == [] && wait)
            && (code == TimedOut <==> Messages(q) == [] && !wait)
            && (code == Ok ==>
                  && w.id in q'.receivers && Messages(q) == [q'.receivers[w.id].item.msg] + Messages(q')
                  && q'.receivers == q.receivers[w.id := Receiver(q.queued[0], want, [])]
                  && q'.senders == q.senders && q'.free == q.free && q'.text == q.text
                  && q'.side == Side(q.side.waiting, q.side.woken - {w.id}))
            && (code == Blocked ==>
                  q' == q.(side := Side(Enqueue(q.side.waiting, w, q.flag), q.side.woken - {w.id}))
                  && Waits(q'.side.waiting, w.id))
            && (code == TimedOut ==> q' == q.(side := Side(q.side.waiting, q.side.woken - {w.id})))
  {
    hide Partitioned, Intact, Enqueue, Uninvolved;
    InRange(q);
    if q.queued == [] && wait { BlockConsistent(q.side, w, q.flag); }
  }

  /** A receiver that has copied its message gives the cell back, first in the free list. */
  lemma FinishIs(q: Queue, t: Tid)
    requires Inv(q) && Legal(q, DoFinish(t))
    ensures q.receivers[t].item.cell < |q.place|
    ensures var q' := RecvFinish(q, t);
            && q'.free == [q.receivers[t].item.cell] + q.free && q'.receivers == q.receivers - {t}
            && q'.queued == q.queued && q'.senders == q.senders && q'.side == q.side && q'.text == q.text
  {
    hide Listed, SendersOwn, Intact, Phases;
  }

  /** A waiter whose time is over leaves the list, where the others keep their order. */
  lemma TimeOutIs(q: Queue, t: Tid) returns (k: nat)
    requires Inv(q) && Waits(q.side.waiting, t)
    ensures k < |q.side.waiting| && q.side.waiting[k].id == t
    ensures var ws := q.side.waiting;
            TimeOut(q, t) == q.(side := Side(ws[..k] + ws[k + 1..], q.side.woken)) && !Waits(ws[..k] + ws[k + 1..], t)
  {
    hide Partitioned, Intact, Without;
    k := WithoutIs(q.side.waiting, t);
    ExpireConsistent(q.side, t);
  }

  // ----- Who gets a message first

  /** v waits at every point of the run. */
  predicate WaitsThroughout(q: Queue, ops: seq<Op>, v: Waiter)
    requires Inv(q) && LegalRun(q, ops)
    decreases |ops|
  {
    v in q.side.waiting && (ops != [] ==> (StepKeeps(q, ops[0]); WaitsThroughout(Step(q, ops[0]), ops[1..], v)))
  }

  /** The threads that a send resumes in the run. */
  function ResumedIn(q: Queue, ops: seq<Op>): set<Waiter>
    requires Inv(q) && LegalRun(q, ops)
    decreases |ops|
  {
    if ops == [] then {}
    else (StepKeeps(q, ops[0]);
          Resumed(q.side, Step(q, ops[0]).side) + ResumedIn(Step(q, ops[0]), ops[1..]))
  }

  lemma StepFair(q: Queue, op: Op, v: Waiter)
    requires Inv(q) && Legal(q, op) && v in q.side.waiting && v in Step(q, op).side.waiting
    ensures Fair(q.side, Step(q, op).side, v, q.flag) && Step(q, op).flag == q.flag
  {
    hide Partitioned, Intact, Uninvolved, Block, WakeFirst, Expire, Proceed, Fair, InFront, Drain, Sorted, Consistent;
    InRange(q);
    NothingResumed(q.side, v, q.flag);
    match op
    case DoCommit(_) => FirstResumed(q.side, q.flag, v);
    case DoRecv(w, _, _) => NobodyResumed(q.side, w, w.id, q.flag, v);
    case DoExpire(t) => NobodyResumed(q.side, v, t, q.flag, v);
    case DoReset => ResetKeeps(q);
    case _ =>
  }

  /** Nobody is passed over: while a receiver v waits, sends resume only threads that were in front of it, and, with the
      priority flag, more urgent ones.  So with the FIFO flag receivers are resumed in the order they began to wait. */
  lemma {:induction false} NoOvertaking(q: Queue, ops: seq<Op>, v: Waiter)
    requires Inv(q) && LegalRun(q, ops) && WaitsThroughout(q, ops, v)
    ensures NoPassing(q.side.waiting, Run(q, ops).side.waiting, v, q.flag)
    ensures forall w :: w in ResumedIn(q, ops) ==> w in InFront(q.side.waiting, v.id) || MayPass(q.flag, w, v)
    decreases |ops|
  {
    hide Inv, Step, Legal, InFront, MayPass, Resumed;
    if ops != [] {
      StepKeeps(q, ops[0]);
      var q1 := Step(q, ops[0]);
      assert v in q1.side.waiting;
      StepFair(q, ops[0], v);
      NoOvertaking(q1, ops[1..], v);
    }
  }

  /** The thread that a step resumes, and the one that begins to wait. */
  function Leaving(q: Queue, op: Op): seq<Waiter> {
    if op.DoCommit? && q.side.waiting != [] then [q.side.waiting[0]] else []
  }

  function Joining(q: Queue, op: Op): seq<Waiter> {
    if op.DoRecv? && q.queued == [] && op.wait then [op.w] else []
  }

  function LeavingIn(q: Queue, ops: seq<Op>): seq<Waiter>
    requires Inv(q) && LegalRun(q, ops)
    decreases |ops|
  {
    if ops == [] then [] else (StepKeeps(q, ops[0]); Leaving(q, ops[0]) + LeavingIn(Step(q, ops[0]), ops[1..]))
  }

  function JoiningIn(q: Queue, ops: seq<Op>): seq<Waiter>
    requires Inv(q) && LegalRun(q, ops)
    decreases |ops|
  {
    if ops == [] then [] else (StepKeeps(q, ops[0]); Joining(q, ops[0]) + JoiningIn(Step(q, ops[0]), ops[1..]))
  }

  /** That is the thread whose id is new among the woken ones. */
  lemma LeavingIs(q: Queue, op: Op)
    requires Inv(q) && Legal(q, op)
    ensures Resumed(q.side, Step(q, op).side) == set w | w in Leaving(q, op)
  {
    hide Partitioned, Intact, Uninvolved, Block, Expire, Proceed, Drain, Sorted, Consistent, NoLostWakeUp, Resumed;
    InRange(q);
    if op.DoCommit? {
      OneResumed(q.side);
    } else {
      if op.DoReset? { ResetKeeps(q); }
      FewerWoken(q, op);
      OnlyWaiting(q.side, Step(q, op).side);
    }
  }

  lemma OneResumed(s: Side)
    requires Consistent(s)
    ensures Resumed(s, WakeFirst(s)) == if s.waiting == [] then {} else {s.waiting[0]}
  {
    forall w | w in Resumed(s, WakeFirst(s)) ensures w == s.waiting[0] {
      var i :| 0 <= i < |s.waiting| && s.waiting[i] == w;
    }
  }

  lemma FewerWoken(q: Queue, op: Op)
    requires Inv(q) && Legal(q, op) && !op.DoCommit?
    ensures Step(q, op).side.woken <= q.side.woken
  {
    hide Partitioned, Intact, Uninvolved, Drain, Sorted, Consistent, NoLostWakeUp, Enqueue, Without;
    InRange(q);
    if op.DoReset? { ResetKeeps(q); }
  }

  lemma StepInOrder(q: Queue, op: Op)
    requires Inv(q) && Legal(q, op) && q.flag.Fifo? && !op.DoExpire? && !op.DoReset?
    ensures Leaving(q, op) + Step(q, op).side.waiting == q.side.waiting + Joining(q, op)
    ensures Step(q, op).flag == q.flag
  {
    hide Partitioned, Intact, Uninvolved, Enqueue;
    InRange(q);
    if op.DoRecv? { var k := EnqueueIs(q.side.waiting, op.w, q.flag); }
  }

  /** First come, first resumed: over every run with the FIFO flag in which nobody times out and no reset comes, the
      threads resumed and then still waiting are those that waited and then began to wait, in that order. */
  lemma {:induction false} FirstComeFirstResumed(q: Queue, ops: seq<Op>)
    requires Inv(q) && LegalRun(q, ops) && q.flag.Fifo?
    requires forall op :: op in ops ==> !op.DoExpire? && !op.DoReset?
    ensures LeavingIn(q, ops) + Run(q, ops).side.waiting == q.side.waiting + JoiningIn(q, ops)
    decreases |ops|
  {
    hide Inv, Step, Legal, Leaving, Joining;
    if ops != [] {
      StepKeeps(q, ops[0]);
      var q1 := Step(q, ops[0]);
      StepInOrder(q, ops[0]);
      FirstComeFirstResumed(q1, ops[1..]);
      Lists.InOrder(Leaving(q, ops[0]), q1.side.waiting, q.side.waiting, Joining(q, ops[0]),
                    LeavingIn(q1, ops[1..]), Run(q1, ops[1..]).side.waiting, JoiningIn(q1, ops[1..]));
    }
  }
}
