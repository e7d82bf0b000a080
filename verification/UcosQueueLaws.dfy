// What each service of the uC/OS-II message queue does, branch by branch.
module UcosQueueLaws {
  import opened PrioTable
  import opened Ucos
  import opened UcosLaws
  import opened UcosQueue

  /** Task t, the most urgent one that waits, has the message; it waits no longer, and is ready unless it is suspended.
      */
  ghost predicate Given(q: State, q': State, t: Id, msg: int) {
    && Awaits(q, t) && t !in q.mail
    && (forall u :: u in q.k.tasks && Awaits(q, u) ==> q.k.tasks[t].prio <= q.k.tasks[u].prio)
    && q' == q.(k := q'.k, mail := q.mail[t := msg])
    && t in q'.k.tasks && q'.k.tasks[t] == q.k.tasks[t].(dly := 0, event := Nothing, pend := false)
    && Others(q.k, q'.k, t) && Rest(q.k, q'.k)
    && (IsReady(q'.k, t) <==> !q.k.tasks[t].suspend)
  }

  /** A post hands the message to a waiting task if there is one. Else the message goes into the ring, at the front or
      at the back; when the ring is full the post fails and changes nothing. */
  lemma PostDoes(q: State, msg: int, front: bool)
    requires QueueInv(q) && msg != NONE
    ensures var (q', code) := UcosQueue.Post(q, msg, front);
            if exists t :: Awaits(q, t) then code == Ok && exists t :: Given(q, q', t, msg)
            else if |q.items| == q.size then code == Full && q' == q
            else code == Ok && q' == q.(items := if front then [msg] + q.items else q.items + [msg])
  {
    hide Inv, HandOff, First, Given;
    if Waiting(q) {
      HandedIs(q, msg);
      assert Given(q, UcosQueue.Post(q, msg, front).0, First(q), msg);
    } else {
      forall t ensures !Awaits(q, t) { if t in q.k.tasks { NobodyWaits(q, t); } }
    }
  }

  lemma HandedIs(q: State, msg: int)
    requires QueueInv(q) && Waiting(q) && msg != NONE
    ensures Awaits(q, First(q)) && Given(q, HandOff(q, msg), First(q), msg)
  {
    hide Inv, Highest, Ucos.Post;
    HandOffIs(q, msg);
    PostIs(q.k, q.event);
  }

  /** A broadcast with a waiting task is not a post into the ring: every waiting task gets the message. With no waiting
      task, or without the option, the message is posted as usual. */
  lemma PostOptDoes(q: State, msg: int, broadcast: bool, front: bool)
    requires QueueInv(q) && msg != NONE
    ensures var (q', code) := PostOpt(q, msg, broadcast, front);
            if broadcast && exists t :: Awaits(q, t) then
              && code == Ok && q'.items == q.items
              && forall t :: t in q.k.tasks ==>
                   && t in q'.k.tasks
                   && if Awaits(q, t) then t in q'.mail && q'.mail[t] == msg else q'.k.tasks[t] == q.k.tasks[t]
            else (q', code) == UcosQueue.Post(q, msg, front)
  {
    hide QueueInv, Broadcast, UcosQueue.Post;
    if Waiting(q) {
      forall t | t in q.k.tasks ensures
          var q' := Broadcast(q, msg);
          && t in q'.k.tasks
          && if Awaits(q, t) then t in q'.mail && q'.mail[t] == msg else q'.k.tasks[t] == q.k.tasks[t]
      {
        BroadcastIs(q, msg, t);
      }
      SomebodyWaits(q);
    } else {
      forall t ensures !Awaits(q, t) { if t in q.k.tasks { NobodyWaits(q, t); } }
    }
  }

  lemma SomebodyWaits(q: State)
    requires QueueInv(q) && Waiting(q)
    ensures exists t :: Awaits(q, t)
  {
    hide Inv, HandOff;
    HandedIs(q, 1);
  }

  /** OSQAccept, and OSQPend while there is a message, take the oldest one; a pend on an empty ring waits. */
  lemma PendDoes(q: State, timeout: nat)
    requires QueueInv(q) && Allowed(q, DoPend(timeout))
    ensures q.k.tasks[q.k.cur].slot < PRIOS
    ensures var (q', code) := Pend(q, timeout);
            if q.items != [] then
              code == Ok && (q', q.items[0]) == Accept(q) && q' == q.(items := q.items[1..])
            else
              && code == Blocked && Accept(q) == (q, NONE) && q' == q.(k := q'.k)
              && q.k.cur in q'.k.tasks && Others(q.k, q'.k, q.k.cur) && Rest(q.k, q'.k)
              && !IsReady(q'.k, q.k.cur)
              && q'.k.tasks[q.k.cur] == q.k.tasks[q.k.cur].(pend := true, dly := timeout, event := On(q.event))
  {
    hide Inv, Wait;
    RunsInSlot(q.k);
    if q.items == [] { WaitIs(q.k, q.event, timeout); }
  }

  /** A task that runs again takes the message it was given; without one it has timed out, and waits no longer. */
  lemma ReturnDoes(q: State)
    requires QueueInv(q) && Allowed(q, DoReturn)
    ensures q.k.tasks[q.k.cur].slot < PRIOS
    ensures var ((q', code), cur) := (Return(q), q.k.cur);
            if cur in q.mail then code == Ok && q' == q.(mail := q.mail - {cur})
            else
              && code == TimedOut && q' == q.(k := q'.k) && cur in q'.k.tasks
              && Others(q.k, q'.k, cur) && Rest(q.k, q'.k) && IsReady(q'.k, cur)
              && q'.k.tasks[cur] == q.k.tasks[cur].(pend := false, event := Nothing)
  {
    hide Inv, Ucos.TimedOut;
    RunsInSlot(q.k);
    if q.k.cur !in q.mail { TimedOutIs(q.k); }
  }

  /** After a flush there is no message to accept; tasks and the messages they were given stay. */
  lemma FlushDoes(q: State)
    requires QueueInv(q)
    ensures var q' := Flush(q);
            && Accept(q') == (q', NONE) && q' == q.(items := q'.items) && (q' == q <==> Accept(q).1 == NONE)
  {
  }
}
