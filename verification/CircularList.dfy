// The doubly linked circular lists of thread_pool/rt-thread/inc/rtservice.h, which
// the scheduler, the IPC objects and the timers keep their queues in; memheap.c
// writes the same stores out by hand for its block ring and its free ring.
module CircularList {
  import opened Lists

  /** The next and prev fields of the nodes, by node address. */
  datatype Links = Links(next: map<int, int>, prev: map<int, int>)

  /** j follows i in a circle of n nodes. */
  predicate Follows(i: int, j: int, n: nat) {
    0 <= i < n && j == if i + 1 == n then 0 else i + 1
  }

  /** Following next leads round exactly these nodes, and prev leads back. */
  ghost predicate Circle(l: Links, ring: seq<int>) {
    && ring != [] && Distinct(ring)
    && (forall i :: 0 <= i < |ring| ==> ring[i] in l.next && ring[i] in l.prev)
    && (forall i, j :: 0 <= i < |ring| && 0 <= j < |ring| && Follows(i, j, |ring|) ==>
          l.next[ring[i]] == ring[j] && l.prev[ring[j]] == ring[i])
  }

  /** rt_list_init. */
  function Init(l: Links, n: int): Links { Links(l.next[n := n], l.prev[n := n]) }

  /** rt_list_insert_after: l->next->prev = n; n->next = l->next; l->next = n; n->prev = l. */
  function InsertAfter(l: Links, p: int, n: int): Links
    requires p in l.next
  {
    var q := l.next[p];
    Links(l.next[n := q][p := n], l.prev[q := n][n := p])
  }

  /** rt_list_insert_before: l->prev->next = n; n->prev = l->prev; l->prev = n; n->next = l. */
  function InsertBefore(l: Links, p: int, n: int): Links
    requires p in l.prev
  {
    var q := l.prev[p];
    Links(l.next[q := n][n := p], l.prev[n := q][p := n])
  }

  /** The two stores that take n out of its circle. */
  function Unlink(l: Links, n: int): Links
    requires n in l.next && n in l.prev
  {
    Links(l.next[l.prev[n] := l.next[n]], l.prev[l.next[n] := l.prev[n]])
  }

  /** rt_list_remove. */
  function Remove(l: Links, n: int): Links
    requires n in l.next && n in l.prev
  {
    Init(Unlink(l, n), n)
  }

  predicate IsEmpty(l: Links, p: int)
    requires p in l.next
  {
    l.next[p] == p
  }

  function Inserted(ring: seq<int>, k: nat, n: int): (r: seq<int>)
    requires k <= |ring|
    ensures |r| == |ring| + 1 && r[k] == n
    ensures forall i :: 0 <= i < k ==> r[i] == ring[i]
    ensures forall i :: k <= i < |ring| ==> r[i + 1] == ring[i]
  {
    ring[..k] + [n] + ring[k..]
  }

  function Deleted(ring: seq<int>, k: nat): (r: seq<int>)
    requires k < |ring|
    ensures |r| == |ring| - 1
    ensures forall i :: 0 <= i < k ==> r[i] == ring[i]
    ensures forall i :: k <= i < |r| ==> r[i] == ring[i + 1]
  {
    ring[..k] + ring[k + 1..]
  }

  lemma DeletedMembers(ring: seq<int>, k: nat)
    requires Distinct(ring) && k < |ring|
    ensures Distinct(Deleted(ring, k))
    ensures forall n :: n in Deleted(ring, k) <==> n in ring && n != ring[k]
  {
    hide Deleted;
    var r := Deleted(ring, k);
    assert forall i :: 0 <= i < |ring| && i != k ==> ring[i] == r[if i < k then i else i - 1];
    forall n | n in ring && n != ring[k] ensures n in r {
      var i :| 0 <= i < |ring| && ring[i] == n;
      assert r[if i < k then i else i - 1] == n;
    }
  }

  lemma InitIs(l: Links, n: int)
    ensures Circle(Init(l, n), [n])
  {
  }

  lemma IsEmptyIff(l: Links, p: int, ring: seq<int>)
    requires Circle(l, ring) && ring[0] == p
    ensures IsEmpty(l, p) <==> ring == [p]
  {
    assert Follows(0, if |ring| == 1 then 0 else 1, |ring|);
  }

  /** The node goes behind node k. */
  lemma InsertAfterIs(l: Links, ring: seq<int>, k: nat, n: int)
    requires Circle(l, ring) && k < |ring| && n !in ring
    ensures Circle(InsertAfter(l, ring[k], n), Inserted(ring, k + 1, n))
  {
    hide Inserted;
    var r := Inserted(ring, k + 1, n);
    var l' := InsertAfter(l, ring[k], n);
    var k' := if k + 1 == |ring| then 0 else k + 1;
    assert Follows(k, k', |ring|);
    forall i | 0 <= i < |r| && i != k + 1 ensures r[i] == ring[if i <= k then i else i - 1] {}
    forall i, j | 0 <= i < |r| && 0 <= j < |r| && Follows(i, j, |r|)
      ensures l'.next[r[i]] == r[j] && l'.prev[r[j]] == r[i]
    {
      if i != k && i != k + 1 {
        var i', j' := if i <= k then i else i - 1, if j <= k then j else j - 1;
        assert Follows(i', j', |ring|);
        assert j' != k';
      }
    }
  }

  /** The node goes in front of node k; in front of the list head means at the end. */
  lemma InsertBeforeIs(l: Links, ring: seq<int>, k: nat, n: int)
    requires Circle(l, ring) && k < |ring| && n !in ring
    ensures Circle(InsertBefore(l, ring[k], n), Inserted(ring, if k == 0 then |ring| else k, n))
  {
    var q := if k == 0 then |ring| - 1 else k - 1;
    assert Follows(q, k, |ring|);
    InsertAfterIs(l, ring, q, n);
    assert l.next[ring[q]] == ring[k] && l.prev[ring[k]] == ring[q];
    assert InsertBefore(l, ring[k], n) == InsertAfter(l, ring[q], n);
  }

  lemma UnlinkIs(l: Links, ring: seq<int>, k: nat)
    requires Circle(l, ring) && k < |ring| && |ring| > 1
    ensures Circle(Unlink(l, ring[k]), Deleted(ring, k))
  {
    hide Deleted;
    var r := Deleted(ring, k);
    var l' := Unlink(l, ring[k]);
    var a, b := if k == 0 then |ring| - 1 else k - 1, if k + 1 == |ring| then 0 else k + 1;
    assert Follows(a, k, |ring|) && Follows(k, b, |ring|);
    forall i | 0 <= i < |r| ensures r[i] == ring[if i < k then i else i + 1] {}
    forall i, j | 0 <= i < |r| && 0 <= j < |r| && Follows(i, j, |r|)
      ensures l'.next[r[i]] == r[j] && l'.prev[r[j]] == r[i]
    {
      var i', j' := if i < k then i else i + 1, if j < k then j else j + 1;
      if i' == a {
        assert j' == b;
      } else {
        assert Follows(i', j', |ring|);
        assert j' != b;
      }
    }
  }

  /** The node leaves its circle and is a circle of its own. */
  lemma RemoveIs(l: Links, ring: seq<int>, k: nat)
    requires Circle(l, ring) && k < |ring|
    ensures Circle(Remove(l, ring[k]), [ring[k]])
    ensures |ring| > 1 ==> Circle(Remove(l, ring[k]), Deleted(ring, k))
  {
    if |ring| > 1 {
      UnlinkIs(l, ring, k);
      CircleElsewhere(Unlink(l, ring[k]), Deleted(ring, k), ring[k], ring[k], ring[k]);
    }
  }

  /** The fields of a node outside the circle do not matter. */
  lemma CircleElsewhere(l: Links, ring: seq<int>, n: int, a: int, b: int)
    requires Circle(l, ring) && n !in ring
    ensures Circle(Links(l.next[n := a], l.prev[n := b]), ring)
  {
  }

  /** The fields of node m are the same. */
  predicate Same(l: Links, l': Links, m: int) {
    && (m in l.next ==> m in l'.next && l'.next[m] == l.next[m])
    && (m in l.prev ==> m in l'.prev && l'.prev[m] == l.prev[m])
  }

  /** Only the fields of node n and of the nodes of the ring differ. */
  ghost predicate Outside(l: Links, l': Links, ring: seq<int>, n: int) {
    forall m :: m !in ring && m != n ==> Same(l, l', m)
  }

  /** A node that is in no list is linked to itself. */
  predicate Alone(l: Links, t: int) {
    t in l.next && t in l.prev && l.next[t] == t && l.prev[t] == t
  }

  lemma AloneIff(l: Links, t: int)
    ensures Alone(l, t) <==> Circle(l, [t])
  {
    assert Circle(l, [t]) ==> Follows(0, 0, 1) && [t][0] == t;
  }

  lemma CircleSame(l: Links, l': Links, ring: seq<int>)
    requires Circle(l, ring) && forall m :: m in ring ==> Same(l, l', m)
    ensures Circle(l', ring)
  {
    assert forall i :: 0 <= i < |ring| ==> ring[i] in ring && Same(l, l', ring[i]);
  }

  lemma SameAlone(l: Links, l': Links, t: int)
    requires Alone(l, t) && Same(l, l', t)
    ensures Alone(l', t)
  {
  }

  /** Inserting and deleting behind the list head. */
  lemma InsertedBehind(head: int, list: seq<int>, k: nat, n: int)
    requires k <= |list|
    ensures Inserted([head] + list, k + 1, n) == [head] + Inserted(list, k, n)
  {
  }

  lemma DeletedBehind(head: int, list: seq<int>, k: nat)
    requires k < |list|
    ensures Deleted([head] + list, k + 1) == [head] + (list[..k] + list[k + 1..])
  {
  }

  /** The list nodes of a system. */
  class Nodes {
    var next: map<int, int>
    var prev: map<int, int>

    ghost function View(): Links
      reads this
    {
      Links(next, prev)
    }

    constructor ()
      ensures next == map[] && prev == map[]
    {
      next, prev := map[], map[];
    }

    method ListInit(l: int)
      modifies this
      ensures View() == Init(old(View()), l) && Circle(View(), [l]) && Outside(old(View()), View(), [], l)
    {
      InitIs(View(), l);
      next := next[l := l];
      prev := prev[l := l];
    }

    method ListInsertAfter(l: int, n: int, ghost ring: seq<int>, ghost k: nat)
      requires Circle(View(), ring) && k < |ring| && ring[k] == l && n !in ring
      modifies this
      ensures Circle(View(), Inserted(ring, k + 1, n)) && Outside(old(View()), View(), ring, n)
    {
      assert Follows(k, if k + 1 == |ring| then 0 else k + 1, |ring|);
      InsertAfterIs(View(), ring, k, n);
      prev := prev[next[l] := n];
      next := next[n := next[l]];
      next := next[l := n];
      prev := prev[n := l];
    }

    method ListInsertBefore(l: int, n: int, ghost ring: seq<int>, ghost k: nat)
      requires Circle(View(), ring) && k < |ring| && ring[k] == l && n !in ring
      modifies this
      ensures Circle(View(), Inserted(ring, if k == 0 then |ring| else k, n)) && Outside(old(View()), View(), ring, n)
    {
      assert Follows(if k == 0 then |ring| - 1 else k - 1, k, |ring|);
      InsertBeforeIs(View(), ring, k, n);
      next := next[prev[l] := n];
      prev := prev[n := prev[l]];
      prev := prev[l := n];
      next := next[n := l];
    }

    method ListRemove(n: int, ghost ring: seq<int>, ghost k: nat)
      requires Circle(View(), ring) && k < |ring| && ring[k] == n
      modifies this
      ensures Circle(View(), [n]) && (|ring| > 1 ==> Circle(View(), Deleted(ring, k)))
      ensures Outside(old(View()), View(), ring, n)
    {
      RemoveIs(View(), ring, k);
      assert Follows(k, if k + 1 == |ring| then 0 else k + 1, |ring|);
      assert Follows(if k == 0 then |ring| - 1 else k - 1, k, |ring|);
      prev := prev[next[n] := prev[n]];
      next := next[prev[n] := next[n]];
      next, prev := next[n := n], prev[n := n];
    }

    method ListIsEmpty(l: int, ghost ring: seq<int>) returns (empty: bool)
      requires Circle(View(), ring) && ring[0] == l
      ensures empty <==> ring == [l]
    {
      IsEmptyIff(View(), l, ring);
      empty := next[l] == l;
    }
  }
}
