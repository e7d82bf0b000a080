// The code of thread_pool/ucos2/source/os_q.c over the ring of a queue and the
// global tables.
module UcosQueueCode {
  import opened Bitmap
  import opened PrioTable
  import opened Ucos
  import opened UcosQueue
  import Ring
  import UcosCode

  class Object {
    const tables: UcosCode.Tables
    const event: nat
    const store: array<int>       // the ring from OSQStart to OSQEnd
    var qIn: nat                  // OSQIn
    var qOut: nat                 // OSQOut
    var entries: nat              // OSQEntries
    var mail: map<Id, int>        // OSTCBMsg of the tasks where it is not NULL
    ghost var items: seq<int>

    ghost function View(): State
      reads this, tables, tables.prioTbl, tables.rdyTbl
    {
      State(tables.View(), event, store.Length, items, mail)
    }

    /** The ring holds the messages from OSQOut on, and OSQIn is OSQOut + OSQEntries modulo the size. */
    ghost predicate RingOk()
      reads this, store
    {
      && entries == |items| && Ring.Holds(store[..], qOut, items)
      && qIn == if store.Length == 0 then 0 else Ring.Wrap(qOut + entries, store.Length)
    }

    ghost predicate Valid()
      reads this, tables, tables.prioTbl, tables.rdyTbl, store
    {
      QueueInv(View()) && RingOk()
    }

    /** OSQCreate on an event of its own. */
    constructor (tables: UcosCode.Tables, event: nat, size: nat)
      requires Inv(tables.View()) && event in tables.events && tables.events[event] == Empty()
      ensures this.tables == tables && this.event == event && fresh(store)
      ensures Valid() && View() == State(tables.View(), event, size, [], map[])
    {
      this.tables, this.event := tables, event;
      store := new int[size];
      qIn, qOut, entries, mail, items := 0, 0, 0, map[], [];
      new;
      hide Inv;
    }

    // ----- The ring

    method TakeOldest() returns (msg: int)
      requires RingOk() && items != []
      modifies this`qOut, this`entries, this`items
      ensures RingOk() && items == old(items)[1..] && msg == old(items)[0]
    {
      Ring.Get(store[..], qOut, items);
      msg := store[qOut];
      qOut := qOut + 1;
      entries := entries - 1;
      if qOut == store.Length { qOut := 0; }
      items := items[1..];
    }

    method Append(msg: int)
      requires RingOk() && |items| < store.Length
      modifies this`qIn, this`entries, this`items, store
      ensures RingOk() && items == old(items) + [msg]
    {
      Ring.Put(store[..], qOut, items, msg);
      store[qIn] := msg;
      qIn := qIn + 1;
      entries := entries + 1;
      if qIn == store.Length { qIn := 0; }
      items := items + [msg];
    }

    method Prepend(msg: int)
      requires RingOk() && |items| < store.Length
      modifies this`qOut, this`entries, this`items, store
      ensures RingOk() && items == [msg] + old(items)
    {
      Ring.PutFront(store[..], qOut, items, msg);
      if qOut == 0 { qOut := store.Length; }
      qOut := qOut - 1;
      store[qOut] := msg;
      entries := entries + 1;
      items := [msg] + items;
    }

    // ----- The services

    /** OSQAccept. */
    method Accept() returns (msg: int)
      requires Valid()
      modifies this
      ensures Valid() && (View(), msg) == UcosQueue.Accept(old(View()))
    {
      hide Inv, Ring.Holds;
      if entries != 0 {
        msg := TakeOldest();
      } else {
        msg := NONE;
      }
    }

    /** OSQPend, up to the call of OS_Sched. */
    method Pend(timeout: nat) returns (code: Code, msg: int)
      requires Valid() && Allowed(View(), DoPend(timeout))
      modifies this, tables, tables.rdyTbl
      ensures old(tables.tasks[tables.cur].slot) < PRIOS
      ensures Valid() && (View(), code) == UcosQueue.Pend(old(View()), timeout)
      ensures code == Ok ==> [msg] == Received(old(View()), DoPend(timeout))
    {
      hide Agrees, Member, TaskOk, NoStrangers, IdleOk, Ring.Holds, Wait, Set, Clear;
      UcosQueue.PendKeeps(View(), timeout);
      msg := NONE;
      if entries != 0 {
        msg := TakeOldest();
        return Ok, msg;
      }
      tables.EventTaskWait(event, timeout);
      code := Blocked;
    }

    /** The end of OSQPend, when the task runs again. */
    method Return() returns (code: Code, msg: int)
      requires Valid() && Allowed(View(), DoReturn)
      modifies this, tables
      ensures old(tables.tasks[tables.cur].slot) < PRIOS
      ensures Valid() && (View(), code) == UcosQueue.Return(old(View()))
      ensures code == Ok ==> [msg] == Received(old(View()), DoReturn)
    {
      hide Agrees, Member, TaskOk, NoStrangers, IdleOk, Ring.Holds, Ucos.TimedOut, Clear;
      UcosQueue.ReturnKeeps(View());
      if tables.cur in mail {
        msg := mail[tables.cur];
        mail := mail - {tables.cur};
        return Ok, msg;
      }
      tables.EventTimeout();
      code, msg := TimedOut, NONE;
    }

    method TaskRdy(msg: int)
      requires Valid() && Waiting(View()) && msg != NONE
      modifies this`mail, tables`tasks, tables`events, tables`rdyGrp, tables.rdyTbl
      ensures Valid() && View() == HandOff(old(View()), msg)
    {
      hide Agrees, Member, TaskOk, NoStrangers, IdleOk, Ring.Holds, Highest, Set, Clear;
      HandOffKeeps(View(), msg);
      ghost var t := First(View());
      var prio := tables.EventTaskRdy(event);
      mail := mail[tables.prioTbl[prio].id := msg];
    }

    /** OSQPostOpt; without broadcast it is OSQPost or OSQPostFront. */
    method Post(msg: int, broadcast: bool, front: bool) returns (code: Code)
      requires Valid() && msg != NONE
      modifies this, tables`tasks, tables`events, tables`rdyGrp, tables.rdyTbl, store
      ensures Valid() && (View(), code) == PostOpt(old(View()), msg, broadcast, front)
    {
      hide Inv, Ring.Holds, HandOff, Waiters;
      PostKeepsQueue(View(), msg, front);
      if !Zero(tables.events[event].grp) {
        if broadcast {
          ghost var done := Broadcast(View(), msg);
          while !Zero(tables.events[event].grp)
            invariant Valid() && Broadcast(View(), msg) == done
            decreases Waiters(View())
          {
            HandOffKeeps(View(), msg);
            TaskRdy(msg);
          }
        } else {
          TaskRdy(msg);
        }
        return Ok;
      }
      if entries >= store.Length { return Full; }
      if front {
        Prepend(msg);
      } else {
        Append(msg);
      }
      code := Ok;
    }

    /** OSQFlush. */
    method Flush()
      requires Valid()
      modifies this
      ensures Valid() && View() == UcosQueue.Flush(old(View()))
    {
      hide Inv;
      qIn, qOut, entries, items := 0, 0, 0, [];
    }
  }
}
