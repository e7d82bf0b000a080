// The ready lists of RT-Thread and the suspend list of an IPC object, over the list
// node of each thread: rtservice.h, with the uses of scheduler.c, thread.c and ipc.c.
module ThreadLists {
  import opened Lists
  import opened CircularList

  /** The address of the head of list p; thread t has its node at address t. */
  function Head(p: nat): int { -1 - p }

  /** Every list is a circle through its head, a thread is in the list that at says, and a thread in no list is linked
      to itself. */
  ghost predicate Linked(l: Links, known: set<nat>, lists: seq<seq<nat>>, at: map<nat, nat>) {
    && (forall p :: 0 <= p < |lists| ==> Circle(l, [Head(p)] + lists[p]))
    && (forall p, t :: 0 <= p < |lists| && t in lists[p] ==> t in known && t in at && at[t] == p)
    && (forall t :: t in at ==> at[t] < |lists| && t in lists[at[t]])
    && (forall t :: t in known && t !in at ==> Alone(l, t))
  }

  /** The circle of one list. */
  lemma CircleOf(l: Links, known: set<nat>, lists: seq<seq<nat>>, at: map<nat, nat>, p: nat, t: nat)
    requires Linked(l, known, lists, at) && p < |lists|
    ensures Circle(l, [Head(p)] + lists[p]) && Distinct(lists[p])
    ensures t !in at ==> t !in [Head(p)] + lists[p]
    ensures t in at && at[t] == p ==> t in lists[p]
  {
    hide Alone;
    var ring := [Head(p)] + lists[p];
    assert forall i :: 0 <= i < |lists[p]| ==> lists[p][i] == ring[i + 1];
  }

  /** The other lists keep their nodes. */
  lemma OtherCircle(l: Links, l': Links, known: set<nat>, lists: seq<seq<nat>>, at: map<nat, nat>, p: nat, t: nat,
                    q: nat)
    requires Linked(l, known, lists, at) && p < |lists| && q < |lists| && q != p && (t in at ==> at[t] == p)
    requires Outside(l, l', [Head(p)] + lists[p], t)
    ensures Circle(l', [Head(q)] + lists[q])
  {
    hide Circle, Alone, Same;
    forall m | m in [Head(q)] + lists[q] ensures Same(l, l', m) {
      if m == Head(q) { assert m < 0 && m != Head(p); } else { assert m in lists[q] && at[m] == q; }
      assert m != t && m !in [Head(p)] + lists[p];
    }
    CircleSame(l, l', [Head(q)] + lists[q]);
  }

  lemma OtherAlone(l: Links, l': Links, known: set<nat>, lists: seq<seq<nat>>, at: map<nat, nat>, p: nat, t: nat,
                   u: nat)
    requires Linked(l, known, lists, at) && p < |lists| && u in known && u !in at && u != t
    requires Outside(l, l', [Head(p)] + lists[p], t)
    ensures Alone(l', u)
  {
    hide Circle, Same;
    CircleOf(l, known, lists, at, p, u);
    SameAlone(l, l', u);
  }

  /** Thread t at place k. */
  function PutAt(list: seq<nat>, k: nat, t: nat): (r: seq<nat>)
    requires k <= |list|
    ensures r == Inserted(list, k, t)
  {
    list[..k] + [t] + list[k..]
  }

  /** Thread t has been linked into list p. */
  lemma PutIs(l: Links, l': Links, known: set<nat>, lists: seq<seq<nat>>, at: map<nat, nat>, p: nat, k: nat, t: nat)
    requires Linked(l, known, lists, at) && p < |lists| && k <= |lists[p]| && t in known && t !in at
    requires Circle(l', Inserted([Head(p)] + lists[p], k + 1, t)) && Outside(l, l', [Head(p)] + lists[p], t)
    ensures Linked(l', known, lists[p := PutAt(lists[p], k, t)], at[t := p])
  {
    hide Circle, Alone, Inserted, Outside;
    var lists', at' := lists[p := PutAt(lists[p], k, t)], at[t := p];
    InsertedBehind(Head(p), lists[p], k, t);
    InsertedMembers(lists[p], k, t);
    forall q | 0 <= q < |lists'| && q != p ensures Circle(l', [Head(q)] + lists'[q]) {
      OtherCircle(l, l', known, lists, at, p, t, q);
    }
    forall u | u in known && u !in at' ensures Alone(l', u) {
      OtherAlone(l, l', known, lists, at, p, t, u);
    }
  }

  lemma InsertedMembers(list: seq<nat>, k: nat, t: nat)
    requires k <= |list|
    ensures forall u :: u in Inserted(list, k, t) <==> u == t || u in list
  {
    hide Inserted;
    var r := Inserted(list, k, t);
    forall u | u in list ensures u in r {
      var i :| 0 <= i < |list| && list[i] == u;
      assert r[if i < k then i else i + 1] == u;
    }
    forall u | u in r && u != t ensures u in list {
      var i :| 0 <= i < |r| && r[i] == u;
      assert list[if i < k then i else i - 1] == u;
    }
    assert r[k] == t;
  }

  /** The lists after thread t has left the one it was in. */
  function Left(lists: seq<seq<nat>>, at: map<nat, nat>, t: nat): seq<seq<nat>> {
    if t in at && at[t] < |lists| then lists[at[t] := Drop(lists[at[t]], t)] else lists
  }

  lemma TakenIs(l: Links, l': Links, known: set<nat>, lists: seq<seq<nat>>, at: map<nat, nat>, t: nat)
    requires Linked(l, known, lists, at) && t in at && at[t] < |lists|
    requires Find(lists[at[t]], t) < |lists[at[t]]|
    requires Circle(l', [t]) && Circle(l', Deleted([Head(at[t])] + lists[at[t]], Find(lists[at[t]], t) + 1))
    requires Outside(l, l', [Head(at[t])] + lists[at[t]], t)
    ensures Linked(l', known, Left(lists, at, t), at - {t})
  {
    hide Circle, Alone, Deleted, Drop, Find, Outside, Linked;
    var p := at[t];
    TakenMembers(l, known, lists, at, t);
    var lists', at' := Left(lists, at, t), at - {t};
    CircleOf(l, known, lists, at, p, t);
    assert t in lists[p];
    DropAt(lists[p], t);
    DeletedBehind(Head(p), lists[p], Find(lists[p], t));
    DropOne(lists[p], t);
    forall q | 0 <= q < |lists'| ensures Circle(l', [Head(q)] + lists'[q]) {
      if q != p { OtherCircle(l, l', known, lists, at, p, t, q); }
    }
    AloneIff(l', t);
    forall u | u in known && u !in at' ensures Alone(l', u) {
      if u != t { OtherAlone(l, l', known, lists, at, p, t, u); }
    }
    LinkedBy(l', known, lists', at');
  }

  lemma LinkedBy(l: Links, known: set<nat>, lists: seq<seq<nat>>, at: map<nat, nat>)
    requires forall p :: 0 <= p < |lists| ==> Circle(l, [Head(p)] + lists[p])
    requires forall p, t :: 0 <= p < |lists| && t in lists[p] ==> t in known && t in at && at[t] == p
    requires forall t :: t in at ==> at[t] < |lists| && t in lists[at[t]]
    requires forall t :: t in known && t !in at ==> Alone(l, t)
    ensures Linked(l, known, lists, at)
  {
    hide Circle, Alone;
  }

  lemma TakenMembers(l: Links, known: set<nat>, lists: seq<seq<nat>>, at: map<nat, nat>, t: nat)
    requires Linked(l, known, lists, at) && t in at && at[t] < |lists|
    ensures t in lists[at[t]]
    ensures var lists', at' := Left(lists, at, t), at - {t};
            && (forall p, u :: 0 <= p < |lists'| && u in lists'[p] ==> u in known && u in at' && at'[u] == p)
            && (forall u :: u in at' ==> at'[u] < |lists'| && u in lists'[at'[u]])
  {
    hide Circle, Alone, Drop, Find;
    CircleOf(l, known, lists, at, at[t], t);
    DropOne(lists[at[t]], t);
  }

  /** A thread in no list is taken out of its own circle. */
  lemma NotTaken(l: Links, l': Links, known: set<nat>, lists: seq<seq<nat>>, at: map<nat, nat>, t: nat)
    requires Linked(l, known, lists, at) && t !in at && Circle(l', [t]) && Outside(l, l', [t], t)
    ensures Linked(l', known + {t}, lists, at)
  {
    hide Circle, Alone, Same;
    AloneIff(l', t);
    forall p | 0 <= p < |lists| ensures Circle(l', [Head(p)] + lists[p]) {
      CircleOf(l, known, lists, at, p, t);
      assert forall m :: m in [Head(p)] + lists[p] ==> m != t && m !in [t] && Same(l, l', m);
      CircleSame(l, l', [Head(p)] + lists[p]);
    }
    forall u | u in known + {t} && u !in at ensures Alone(l', u) {
      if u != t { assert u !in [t]; SameAlone(l, l', u); }
    }
  }

  class Queues {
    const nodes: Nodes
    ghost var known: set<nat>
    ghost var lists: seq<seq<nat>>
    ghost var at: map<nat, nat>

    ghost predicate Valid()
      reads this, nodes
    {
      Linked(nodes.View(), known, lists, at)
    }

    /** n empty lists. */
    constructor (n: nat)
      ensures Valid() && fresh(nodes) && known == {} && at == map[] && lists == seq(n, i => [])
    {
      hide Circle;
      known, lists, at := {}, [], map[];
      nodes := new Nodes();
      new;
      var p := 0;
      while p < n
        invariant p <= n && lists == seq(p, i => []) && at == map[] && known == {} && Valid()
      {
        ghost var l := nodes.View();
        nodes.ListInit(Head(p));
        forall q | 0 <= q < p ensures Circle(nodes.View(), [Head(q)] + lists[q]) {
          assert [Head(q)] + lists[q] == [Head(q)];
          CircleElse(l, nodes.View(), Head(q), Head(p));
        }
        lists := lists + [[]];
        assert [Head(p)] + lists[p] == [Head(p)];
        p := p + 1;
      }
    }

    /** The node at place k of list p, or the head of the list behind the end. */
    ghost function NodeAt(p: nat, k: nat): int
      reads this
      requires p < |lists|
    {
      if k < |lists[p]| then lists[p][k] else Head(p)
    }

    /** A new thread is in no list. */
    method Add(t: nat)
      requires Valid() && t !in at
      modifies this`known, nodes
      ensures Valid() && known == old(known) + {t}
    {
      hide Linked, Circle, Outside;
      ghost var l := nodes.View();
      nodes.ListInit(t);
      OutsideMore(l, nodes.View(), t);
      NotTaken(l, nodes.View(), known, lists, at, t);
      known := known + {t};
    }

    /** rt_list_insert_before: in front of the node at place k. */
    method InsertBefore(n: int, t: nat, ghost p: nat, ghost k: nat)
      requires Valid() && t in known && t !in at && p < |lists| && k <= |lists[p]| && n == NodeAt(p, k)
      modifies this`lists, this`at, nodes
      ensures Valid() && at == old(at)[t := p] && lists == old(lists)[p := PutAt(old(lists)[p], k, t)]
    {
      hide Linked, Circle, Outside, Inserted, PutAt;
      ghost var l := nodes.View();
      CircleOf(l, known, lists, at, p, t);
      nodes.ListInsertBefore(n, t, [Head(p)] + lists[p], if k < |lists[p]| then k + 1 else 0);
      PutIs(l, nodes.View(), known, lists, at, p, k, t);
      lists := lists[p := PutAt(lists[p], k, t)];
      at := at[t := p];
    }

    /** rt_list_insert_before the head: at the end. */
    method Append(p: nat, t: nat)
      requires Valid() && t in known && t !in at && p < |lists|
      modifies this`lists, this`at, nodes
      ensures Valid() && at == old(at)[t := p] && lists == old(lists)[p := old(lists)[p] + [t]]
    {
      hide Linked;
      InsertBefore(Head(p), t, p, |lists[p]|);
      assert PutAt(old(lists)[p], |old(lists)[p]|, t) == old(lists)[p] + [t];
    }

    /** rt_list_remove, from whatever list the thread is in. */
    method Remove(t: nat)
      requires Valid() && t in known
      modifies this`lists, this`at, nodes
      ensures Valid() && at == old(at) - {t} && lists == Left(old(lists), old(at), t)
    {
      hide Linked, Circle, Outside, Deleted, Drop, Find;
      ghost var l := nodes.View();
      ghost var ring, i := [t], 0;
      if t in at {
        InList(t);
        CircleOf(l, known, lists, at, at[t], t);
        ring, i := [Head(at[t])] + lists[at[t]], Find(lists[at[t]], t) + 1;
      } else {
        OnItsOwn(t);
      }
      nodes.ListRemove(t, ring, i);
      if t in at {
        TakenIs(l, nodes.View(), known, lists, at, t);
      } else {
        NotTaken(l, nodes.View(), known, lists, at, t);
        assert known + {t} == known && at - {t} == at;
      }
      lists := Left(lists, at, t);
      at := at - {t};
    }

    lemma InList(t: nat)
      requires Valid() && t in at
      ensures at[t] < |lists| && t in lists[at[t]]
    {
    }

    lemma OnItsOwn(t: nat)
      requires Valid() && t in known && t !in at
      ensures Circle(nodes.View(), [t])
    {
      hide Circle;
      AloneIff(nodes.View(), t);
    }

    method IsEmpty(p: nat) returns (empty: bool)
      requires Valid() && p < |lists|
      ensures empty <==> lists[p] == []
    {
      hide Circle;
      CircleOf(nodes.View(), known, lists, at, p, 0);
      empty := nodes.ListIsEmpty(Head(p), [Head(p)] + lists[p]);
      assert lists[p] != [] ==> |[Head(p)] + lists[p]| > 1;
    }

    /** n->next, from the head or from the node before place k. */
    method Next(n: int, ghost p: nat, ghost k: nat) returns (m: int)
      requires Valid() && p < |lists| && k <= |lists[p]| && n == (if k == 0 then Head(p) else lists[p][k - 1])
      ensures m == NodeAt(p, k)
    {
      hide Linked, Alone;
      CircleOf(nodes.View(), known, lists, at, p, 0);
      ghost var ring := [Head(p)] + lists[p];
      assert ring[k] == n && Follows(k, if k + 1 == |ring| then 0 else k + 1, |ring|);
      m := nodes.next[n];
    }

    /** n->next != n->prev, which tells a thread that it is not alone in its list. */
    method HasOthers(t: nat) returns (others: bool)
      requires Valid() && t in at && at[t] < |lists|
      ensures others <==> |lists[at[t]]| > 1
    {
      hide Linked, Alone;
      ghost var p := at[t];
      CircleOf(nodes.View(), known, lists, at, p, t);
      ghost var ring, k := [Head(p)] + lists[p], Find(lists[p], t) + 1;
      assert ring[k] == t && Follows(k, if k + 1 == |ring| then 0 else k + 1, |ring|) && Follows(k - 1, k, |ring|);
      others := nodes.next[t] != nodes.prev[t];
    }
  }

  lemma CircleElse(l: Links, l': Links, h: int, n: int)
    requires Circle(l, [h]) && h != n && Outside(l, l', [], n)
    ensures Circle(l', [h])
  {
    hide Circle, Same;
    assert h !in [];
    CircleSame(l, l', [h]);
  }

  lemma OutsideMore(l: Links, l': Links, t: int)
    requires Outside(l, l', [], t)
    ensures Outside(l, l', [t], t)
  {
  }
}
