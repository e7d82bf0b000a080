// Threads blocked on an IPC object of thread_pool/rt-thread/src/ipc.c.
//
// A blocking call is a loop: test the object with interrupts off, and either go
// on, or join a suspend list, be resumed, and test again.  Between the resume
// and the new test the thread is woken: it holds no claim on the object.
module Ipc {
  type Tid = nat

  /** RT_IPC_FLAG_FIFO and RT_IPC_FLAG_PRIO. */
  datatype Flag = Fifo | Prio

  /** A thread in a suspend list, with its current priority; smaller is more urgent. */
  datatype Waiter = Waiter(id: Tid, prio: nat)

  ghost predicate Sorted(ws: seq<Waiter>) {
    forall i, j :: 0 <= i < j < |ws| ==> ws[i].prio <= ws[j].prio
  }

  /** The place behind every waiter that is at least as urgent, in a sorted list. */
  function Position(ws: seq<Waiter>, prio: nat): (k: nat)
    ensures k <= |ws|
    ensures forall i :: 0 <= i < k ==> ws[i].prio <= prio
    ensures k < |ws| ==> prio < ws[k].prio
  {
    if ws == [] || prio < ws[0].prio then 0 else 1 + Position(ws[1..], prio)
  }

  function InsertAt(ws: seq<Waiter>, k: nat, w: Waiter): (r: seq<Waiter>)
    requires k <= |ws|
    ensures |r| == |ws| + 1 && r[k] == w
    ensures forall i :: 0 <= i < k ==> r[i] == ws[i]
    ensures forall i :: k <= i < |ws| ==> r[i + 1] == ws[i]
  {
    ws[..k] + [w] + ws[k..]
  }

  function Enqueue(ws: seq<Waiter>, w: Waiter, flag: Flag): seq<Waiter> {
    InsertAt(ws, if flag.Fifo? then |ws| else Position(ws, w.prio), w)
  }

  /** A priority list stays sorted, and a newcomer goes behind its equals: the thread resumed first is the
      most urgent one, and among those the one that has waited longest. */
  lemma EnqueueSorts(ws: seq<Waiter>, w: Waiter)
    requires Sorted(ws)
    ensures Sorted(Enqueue(ws, w, Prio))
    ensures forall i :: 0 <= i < |ws| ==>
              (i < Position(ws, w.prio) <==> ws[i].prio <= w.prio)
  {
    hide InsertAt, Position;
    var k := Position(ws, w.prio);
    var r := InsertAt(ws, k, w);
    forall i | k <= i < |ws| ensures w.prio < ws[i].prio {
      assert ws[k].prio <= ws[i].prio;
    }
    forall i, j | 0 <= i < j < |r| ensures r[i].prio <= r[j].prio {
      var i', j' := if i < k then i else i - 1, if j < k then j else j - 1;
      assert i != k ==> r[i] == ws[i'];
      assert j != k ==> r[j] == ws[j'];
    }
  }

  /** The loop of rt_ipc_list_suspend. */
  method ListSuspend(ws: seq<Waiter>, w: Waiter, flag: Flag) returns (r: seq<Waiter>)
    ensures r == Enqueue(ws, w, flag)
    ensures flag.Fifo? ==> r == ws + [w]
  {
    var n := 0;
    match flag {
      case Fifo => n := |ws|;
      case Prio =>
        while n < |ws| && ws[n].prio <= w.prio
          invariant n <= |ws|
          invariant Position(ws, w.prio) == n + Position(ws[n..], w.prio)
        {
          assert ws[n..][1..] == ws[n + 1..];
          n := n + 1;
        }
    }
    r := ws[..n] + [w] + ws[n..];
  }

  // ----- One side of an IPC object: the receivers, or the senders

  /** waiting is the suspend list; woken holds the threads that were resumed without an error and have not
      tested the object again. */
  datatype Side = Side(waiting: seq<Waiter>, woken: set<Tid>)

  predicate Waits(ws: seq<Waiter>, t: Tid) { exists i :: 0 <= i < |ws| && ws[i].id == t }

  ghost predicate Consistent(s: Side) {
    && (forall i, j :: 0 <= i < j < |s.waiting| ==> s.waiting[i].id != s.waiting[j].id)
    && (forall i :: 0 <= i < |s.waiting| ==> s.waiting[i].id !in s.woken)
  }

  predicate Uninvolved(s: Side, t: Tid) { t !in s.woken && !Waits(s.waiting, t) }

  /** Nobody sleeps on a resource that no woken thread will come and test. */
  predicate NoLostWakeUp(s: Side, available: int) {
    s.waiting != [] ==> |s.woken| >= available
  }

  function Block(s: Side, w: Waiter, flag: Flag): Side {
    Side(Enqueue(s.waiting, w, flag), s.woken - {w.id})
  }

  /** A woken thread, or a new caller, gets through its test. */
  function Proceed(s: Side, t: Tid): Side { s.(woken := s.woken - {t}) }

  /** rt_ipc_list_resume, when there is somebody to resume. */
  function WakeFirst(s: Side): Side {
    if s.waiting == [] then s else Side(s.waiting[1..], s.woken + {s.waiting[0].id})
  }

  function Without(ws: seq<Waiter>, t: Tid): seq<Waiter> {
    if ws == [] then [] else if ws[0].id == t then ws[1..] else [ws[0]] + Without(ws[1..], t)
  }

  /** rt_thread_timeout takes t off the list; t leaves with an error. */
  function Expire(s: Side, t: Tid): Side { s.(waiting := Without(s.waiting, t)) }

  /** rt_ipc_list_resume_all: everybody leaves with an error. */
  function Clear(s: Side): Side { s.(waiting := []) }

  lemma BlockConsistent(s: Side, w: Waiter, flag: Flag)
    requires Consistent(s) && !Waits(s.waiting, w.id)
    ensures Consistent(Block(s, w, flag))
    ensures forall t :: Waits(Block(s, w, flag).waiting, t) <==> t == w.id || Waits(s.waiting, t)
  {
    hide InsertAt, Position;
    var k := if flag.Fifo? then |s.waiting| else Position(s.waiting, w.prio);
    InsertWaits(s.waiting, k, w);
    var ws := InsertAt(s.waiting, k, w);
    forall i, j | 0 <= i < j < |ws| ensures ws[i].id != ws[j].id {
      var i', j' := if i < k then i else i - 1, if j < k then j else j - 1;
      assert i != k ==> ws[i] == s.waiting[i'];
      assert j != k ==> ws[j] == s.waiting[j'];
    }
    forall i | 0 <= i < |ws| ensures ws[i].id !in s.woken - {w.id} {
      assert i != k ==> ws[i] == s.waiting[if i < k then i else i - 1];
    }
  }

  lemma BlockOthers(s: Side, w: Waiter, flag: Flag)
    requires Consistent(s) && !Waits(s.waiting, w.id)
    ensures forall t :: t != w.id && Uninvolved(s, t) ==> Uninvolved(Block(s, w, flag), t)
  {
    BlockConsistent(s, w, flag);
  }

  lemma InsertWaits(ws: seq<Waiter>, k: nat, w: Waiter)
    requires k <= |ws|
    ensures forall t :: Waits(InsertAt(ws, k, w), t) <==> t == w.id || Waits(ws, t)
  {
    hide InsertAt;
    var r := InsertAt(ws, k, w);
    forall t ensures Waits(r, t) <==> t == w.id || Waits(ws, t) {
      if Waits(ws, t) {
        var i :| 0 <= i < |ws| && ws[i].id == t;
        assert r[if i < k then i else i + 1].id == t;
      }
      if Waits(r, t) && t != w.id {
        var i :| 0 <= i < |r| && r[i].id == t;
        assert ws[if i < k then i else i - 1].id == t;
      }
      assert r[k].id == w.id;
    }
  }

  lemma WakeConsistent(s: Side)
    requires Consistent(s)
    ensures Consistent(WakeFirst(s))
    ensures forall t :: Uninvolved(s, t) ==> Uninvolved(WakeFirst(s), t)
  {
  }

  lemma {:induction false} WithoutIds(ws: seq<Waiter>, t: Tid)
    requires forall i, j :: 0 <= i < j < |ws| ==> ws[i].id != ws[j].id
    ensures var r := Without(ws, t);
            && |r| <= |ws|
            && (forall i, j :: 0 <= i < j < |r| ==> r[i].id != r[j].id)
            && (forall i :: 0 <= i < |r| ==> r[i] in ws && r[i].id != t)
  {
    if ws != [] && ws[0].id != t {
      WithoutIds(ws[1..], t);
    }
  }

  lemma ExpireConsistent(s: Side, t: Tid)
    requires Consistent(s)
    ensures Consistent(Expire(s, t)) && !Waits(Expire(s, t).waiting, t)
    ensures forall u :: Uninvolved(s, u) ==> Uninvolved(Expire(s, t), u)
  {
    WithoutIds(s.waiting, t);
  }

  // ----- No lost wake-up, side by side with what happens to the resource

  /** A unit of the resource appears: one waiting thread is resumed. */
  lemma AppearKeeps(s: Side, available: int)
    requires Consistent(s) && NoLostWakeUp(s, available)
    ensures NoLostWakeUp(WakeFirst(s), available + 1)
  {
  }

  /** A thread takes a unit of the resource, whether it was woken for it or came by and stole it. */
  lemma TakeKeeps(s: Side, t: Tid, available: int)
    requires NoLostWakeUp(s, available)
    ensures NoLostWakeUp(Proceed(s, t), available - 1)
  {
    assert t in s.woken ==> s.woken == (s.woken - {t}) + {t};
  }

  /** A thread gives up: it is harmless for a waiting thread, and for a woken one when nothing is there. */
  lemma LeaveKeeps(s: Side, t: Tid, available: int)
    requires NoLostWakeUp(s, available)
    ensures NoLostWakeUp(Expire(s, t), available)
    ensures available <= 0 ==> NoLostWakeUp(Proceed(s, t), available)
  {
  }

  lemma SortedEmpty()
    ensures Sorted([])
  {
  }

  /** A priority list stays sorted whichever way it changes. */
  lemma StaysSorted(s: Side, w: Waiter, t: Tid)
    requires Consistent(s) && Sorted(s.waiting)
    ensures Sorted(Block(s, w, Prio).waiting) && Sorted(WakeFirst(s).waiting) && Sorted(Expire(s, t).waiting)
  {
    EnqueueSorts(s.waiting, w);
    WithoutSorted(s.waiting, t);
  }

  lemma {:induction false} WithoutSorted(ws: seq<Waiter>, t: Tid)
    requires Sorted(ws) && forall i, j :: 0 <= i < j < |ws| ==> ws[i].id != ws[j].id
    ensures Sorted(Without(ws, t))
  {
    if ws != [] && ws[0].id != t {
      WithoutSorted(ws[1..], t);
      WithoutIds(ws[1..], t);
    }
  }

  // ----- Who is resumed before whom

  /** With the FIFO flag a newcomer goes last; with the priority flag it goes in front of the first waiter that is less
      urgent.  The others keep their order. */
  lemma EnqueueIs(ws: seq<Waiter>, w: Waiter, flag: Flag) returns (k: nat)
    ensures k <= |ws| && Enqueue(ws, w, flag) == ws[..k] + [w] + ws[k..]
    ensures flag.Fifo? ==> k == |ws| && Enqueue(ws, w, flag) == ws + [w]
    ensures flag.Prio? ==> (forall i :: 0 <= i < k ==> ws[i].prio <= w.prio) && (k < |ws| ==> w.prio < ws[k].prio)
  {
    k := if flag.Fifo? then |ws| else Position(ws, w.prio);
  }

  /** A waiter leaves; the others keep their order. */
  lemma {:induction false} WithoutIs(ws: seq<Waiter>, t: Tid) returns (k: nat)
    ensures k <= |ws| && (k < |ws| <==> Waits(ws, t))
    ensures forall i :: 0 <= i < k ==> ws[i].id != t
    ensures if k < |ws| then ws[k].id == t && Without(ws, t) == ws[..k] + ws[k + 1..] else Without(ws, t) == ws
  {
    if ws == [] || ws[0].id == t {
      k := 0;
    } else {
      k := WithoutIs(ws[1..], t);
      k := k + 1;
      if k < |ws| { assert ws[1..][k..] == ws[k + 1..]; }
      assert Waits(ws, t) ==> Waits(ws[1..], t) by {
        if Waits(ws, t) {
          var i :| 0 <= i < |ws| && ws[i].id == t;
          assert ws[1..][i - 1].id == t;
        }
      }
    }
  }

  /** The waiters in front of t, which are resumed before it. */
  function InFront(ws: seq<Waiter>, t: Tid): seq<Waiter> {
    if ws == [] || ws[0].id == t then [] else [ws[0]] + InFront(ws[1..], t)
  }

  lemma {:induction false} InFrontIs(ws: seq<Waiter>, t: Tid, k: nat)
    requires k <= |ws| && (k < |ws| ==> ws[k].id == t) && forall i :: 0 <= i < k ==> ws[i].id != t
    ensures InFront(ws, t) == ws[..k]
  {
    if k > 0 {
      InFrontIs(ws[1..], t, k - 1);
      assert [ws[0]] + ws[1..][..k - 1] == ws[..k];
    }
  }

  /** A newcomer w may go in front of v only with the priority flag, and only when it is more urgent. */
  predicate MayPass(flag: Flag, w: Waiter, v: Waiter) { flag.Prio? && w.prio < v.prio }

  /** From ws to ws' nobody gets in front of v who was not, except a more urgent thread with the priority flag. */
  ghost predicate NoPassing(ws: seq<Waiter>, ws': seq<Waiter>, v: Waiter, flag: Flag) {
    forall w :: w in InFront(ws', v.id) ==> w in InFront(ws, v.id) || MayPass(flag, w, v)
  }

  /** Where v stands in the list. */
  lemma PlaceOf(ws: seq<Waiter>, v: Waiter) returns (k: nat)
    requires v in ws && forall i, j :: 0 <= i < j < |ws| ==> ws[i].id != ws[j].id
    ensures k < |ws| && ws[k] == v && InFront(ws, v.id) == ws[..k]
  {
    k :| 0 <= k < |ws| && ws[k] == v;
    InFrontIs(ws, v.id, k);
  }

  lemma EnqueueNoPassing(ws: seq<Waiter>, w: Waiter, flag: Flag, v: Waiter)
    requires Consistent(Side(ws, {})) && v in ws && w.id != v.id && (flag.Prio? ==> Sorted(ws))
    ensures v in Enqueue(ws, w, flag) && NoPassing(ws, Enqueue(ws, w, flag), v, flag)
  {
    hide Enqueue, InFront;
    var k := EnqueueIs(ws, w, flag);
    var i := PlaceOf(ws, v);
    if flag.Prio? && k <= i { assert w.prio < ws[k].prio <= ws[i].prio; }
    InsertNoPassing(ws, w, k, i, flag);
  }

  lemma InsertNoPassing(ws: seq<Waiter>, w: Waiter, k: nat, i: nat, flag: Flag)
    requires k <= |ws| && i < |ws| && (forall j :: 0 <= j < i ==> ws[j].id != ws[i].id) && w.id != ws[i].id
    requires i < k || MayPass(flag, w, ws[i])
    ensures ws[i] in ws[..k] + [w] + ws[k..] && NoPassing(ws, ws[..k] + [w] + ws[k..], ws[i], flag)
  {
    hide InFront;
    var r := ws[..k] + [w] + ws[k..];
    var i' := if i < k then i else i + 1;
    assert r[i'] == ws[i];
    InFrontIs(ws, ws[i].id, i);
    forall j | 0 <= j < i' ensures r[j].id != ws[i].id {
      assert j != k ==> r[j] == ws[if j < k then j else j - 1];
    }
    InFrontIs(r, ws[i].id, i');
    forall x | x in r[..i'] ensures x in ws[..i] || MayPass(flag, x, ws[i]) {
      var j :| 0 <= j < i' && r[j] == x;
      if j != k { assert ws[..i][if j < k then j else j - 1] == x; }
    }
  }

  lemma WakeNoPassing(ws: seq<Waiter>, flag: Flag, v: Waiter)
    requires Consistent(Side(ws, {})) && ws != [] && v in ws[1..]
    ensures ws[0] in InFront(ws, v.id) && NoPassing(ws, ws[1..], v, flag)
  {
    hide InFront;
    var i := PlaceOf(ws, v);
    var j :| 0 <= j < |ws[1..]| && ws[1..][j] == v;
    assert ws[j + 1] == v && i == j + 1;
    InFrontIs(ws[1..], v.id, i - 1);
    assert ws[..i][0] == ws[0];
    forall x | x in ws[1..][..i - 1] ensures x in ws[..i] {
      var n :| 0 <= n < i - 1 && ws[1..][n] == x;
      assert ws[..i][n + 1] == x;
    }
  }

  lemma WithoutNoPassing(ws: seq<Waiter>, t: Tid, flag: Flag, v: Waiter)
    requires Consistent(Side(ws, {})) && v in ws && t != v.id
    ensures v in Without(ws, t) && NoPassing(ws, Without(ws, t), v, flag)
  {
    hide InFront, Without;
    var k := WithoutIs(ws, t);
    var i := PlaceOf(ws, v);
    if k < |ws| { CutNoPassing(ws, k, i, flag); }
  }

  lemma CutNoPassing(ws: seq<Waiter>, k: nat, i: nat, flag: Flag)
    requires k < |ws| && i < |ws| && k != i && (forall j :: 0 <= j < i ==> ws[j].id != ws[i].id)
    ensures ws[i] in ws[..k] + ws[k + 1..] && NoPassing(ws, ws[..k] + ws[k + 1..], ws[i], flag)
  {
    hide InFront;
    var r := ws[..k] + ws[k + 1..];
    var i' := if i < k then i else i - 1;
    assert r[i'] == ws[i];
    InFrontIs(r, ws[i].id, i');
    InFrontIs(ws, ws[i].id, i);
    forall x | x in r[..i'] ensures x in ws[..i] {
      var j :| 0 <= j < i' && r[j] == x;
      assert ws[..i][if j < k then j else j + 1] == x;
    }
  }

  /** The threads that one step resumes without an error. */
  function Resumed(s: Side, s': Side): set<Waiter> { set w | w in s.waiting && w.id in s'.woken }

  /** From s to s' nobody is put in front of v unduly, and only threads in front of v are resumed. */
  ghost predicate Fair(s: Side, s': Side, v: Waiter, flag: Flag) {
    NoPassing(s.waiting, s'.waiting, v, flag) && forall w :: w in Resumed(s, s') ==> w in InFront(s.waiting, v.id)
  }

  lemma OnlyWaiting(s: Side, s': Side)
    requires Consistent(s) && s'.woken <= s.woken
    ensures Resumed(s, s') == {}
  {
    forall w | w in s.waiting ensures w.id !in s'.woken {
      var i :| 0 <= i < |s.waiting| && s.waiting[i] == w;
    }
  }

  /** A thread that joins the list, passes its test or gives up resumes nobody. */
  lemma NobodyResumed(s: Side, w: Waiter, t: Tid, flag: Flag, v: Waiter)
    requires Consistent(s) && (flag.Prio? ==> Sorted(s.waiting)) && v in s.waiting
    ensures !Waits(s.waiting, w.id) ==> Fair(s, Block(s, w, flag), v, flag)
    ensures Fair(s, Proceed(s, t), v, flag)
    ensures v in Expire(s, t).waiting ==> Fair(s, Expire(s, t), v, flag)
  {
    hide Sorted, InFront, Enqueue, Without, Resumed;
    if !Waits(s.waiting, w.id) {
      assert w.id != v.id by { var i :| 0 <= i < |s.waiting| && s.waiting[i] == v; }
      EnqueueNoPassing(s.waiting, w, flag, v);
      OnlyWaiting(s, Block(s, w, flag));
    }
    OnlyWaiting(s, Proceed(s, t));
    OnlyWaiting(s, Expire(s, t));
    if v in Expire(s, t).waiting {
      WithoutIds(s.waiting, t);
      WithoutNoPassing(s.waiting, t, flag, v);
    }
  }

  /** The first waiter is resumed, so everybody else stays where it was. */
  lemma FirstResumed(s: Side, flag: Flag, v: Waiter)
    requires Consistent(s) && v in s.waiting && v in WakeFirst(s).waiting
    ensures Fair(s, WakeFirst(s), v, flag)
  {
    hide InFront;
    WakeNoPassing(s.waiting, flag, v);
  }

  lemma NothingResumed(s: Side, v: Waiter, flag: Flag)
    requires Consistent(s)
    ensures Fair(s, s, v, flag)
  {
    hide InFront;
    OnlyWaiting(s, s);
  }
}
