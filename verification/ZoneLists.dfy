// The lists of zones of thread_pool/rt-thread/src/slab.c, linked through z_next: the
// lists of zone_array, and zone_free behind them.
module ZoneLists {
  import opened Lists

  const NIL := -1

  /** first and next lead through these zones. */
  ghost predicate Chain(next: map<nat, int>, first: int, list: seq<nat>) {
    && first == (if list == [] then NIL else list[0])
    && (forall i :: 0 <= i < |list| ==> list[i] in next)
    && (forall i, j :: 0 <= i && j == i + 1 && j < |list| ==> next[list[i]] == list[j])
    && (list != [] ==> next[list[|list| - 1]] == NIL)
  }

  /** Every list is a chain, and a zone is in one list at most, once. */
  ghost predicate Chained(next: map<nat, int>, heads: seq<int>, lists: seq<seq<nat>>) {
    && |heads| == |lists|
    && (forall k :: 0 <= k < |lists| ==> Chain(next, heads[k], lists[k]) && Distinct(lists[k]))
    && forall a, b, p :: 0 <= a < |lists| && 0 <= b < |lists| && p in lists[a] && p in lists[b] ==> a == b
  }

  predicate Nowhere(lists: seq<seq<nat>>, p: nat) { forall k :: 0 <= k < |lists| ==> p !in lists[k] }

  /** The link of a zone that is not in the list does not matter. */
  lemma ChainElsewhere(next: map<nat, int>, first: int, list: seq<nat>, p: nat, v: int)
    requires Chain(next, first, list) && p !in list
    ensures Chain(next[p := v], first, list)
  {
  }

  lemma ChainPush(next: map<nat, int>, first: int, list: seq<nat>, p: nat)
    requires Chain(next, first, list) && p !in list
    ensures Chain(next[p := first], p, [p] + list)
  {
  }

  lemma ChainPop(next: map<nat, int>, first: int, list: seq<nat>)
    requires Chain(next, first, list) && Distinct(list) && list != []
    ensures list[0] in next && Chain(next, next[list[0]], list[1..])
    ensures Chain(next[list[0] := NIL], next[list[0]], list[1..])
  {
  }

  lemma ChainAt(next: map<nat, int>, first: int, list: seq<nat>, k: nat)
    requires Chain(next, first, list) && k < |list|
    ensures list[k] in next && next[list[k]] == if k + 1 < |list| then list[k + 1] else NIL
  {
    if k + 1 < |list| { var j := k + 1; assert next[list[k]] == list[j]; }
  }

  /** The link to zone k now leads past it. */
  lemma ChainCut(next: map<nat, int>, first: int, list: seq<nat>, k: nat)
    requires Chain(next, first, list) && Distinct(list) && k < |list|
    ensures list[k] in next
    ensures k == 0 ==> Chain(next, next[list[0]], list[..k] + list[k + 1..])
    ensures k > 0 ==> Chain(next[list[k - 1] := next[list[k]]], first, list[..k] + list[k + 1..])
  {
    ChainAt(next, first, list, k);
    var r := list[..k] + list[k + 1..];
    if k == 0 {
      ChainPop(next, first, list);
      assert r == list[1..];
    } else {
      var next' := next[list[k - 1] := next[list[k]]];
      assert forall i :: 0 <= i < |r| ==> r[i] == list[if i < k then i else i + 1];
      forall i, j | 0 <= i && j == i + 1 && j < |r| ensures next'[r[i]] == r[j] {
        var i', j' := if i < k then i else i + 1, if j < k then j else j + 1;
        if j != k { assert next[list[i']] == list[j']; }
      }
    }
  }

  /** One list has changed, and the links of zones outside the others. */
  lemma OneChanged(next: map<nat, int>, heads: seq<int>, lists: seq<seq<nat>>, k: nat, q: nat, v: int, first: int,
                   list: seq<nat>)
    requires Chained(next, heads, lists) && k < |lists|
    requires forall p :: p in list ==> p in lists[k] || Nowhere(lists, p)
    requires q in lists[k] || Nowhere(lists, q)
    requires Chain(next[q := v], first, list) && Distinct(list)
    ensures Chained(next[q := v], heads[k := first], lists[k := list])
  {
    hide Chain, Distinct;
    forall j | 0 <= j < |lists| && j != k ensures Chain(next[q := v], heads[j], lists[j]) {
      ChainElsewhere(next, heads[j], lists[j], q, v);
    }
  }

  lemma SameLinks(next: map<nat, int>, heads: seq<int>, lists: seq<seq<nat>>, k: nat, first: int, list: seq<nat>)
    requires Chained(next, heads, lists) && k < |lists|
    requires forall p :: p in list ==> p in lists[k]
    requires Chain(next, first, list) && Distinct(list)
    ensures Chained(next, heads[k := first], lists[k := list])
  {
    hide Chain, Distinct;
  }

  class Heads {
    const heads: array<int>
    var next: map<nat, int>      // z_next
    ghost var lists: seq<seq<nat>>

    ghost predicate Valid()
      reads this, heads
    {
      Chained(next, heads[..], lists)
    }

    constructor (n: nat)
      ensures Valid() && fresh(heads) && heads.Length == n && lists == seq(n, i => [])
    {
      heads := new int[n](i => NIL);
      next, lists := map[], seq(n, i => []);
    }

    /** A zone becomes the first of list k. */
    method Push(k: nat, p: nat)
      requires Valid() && k < |lists| && Nowhere(lists, p)
      modifies this`next, this`lists, heads
      ensures Valid() && lists == old(lists)[k := [p] + old(lists)[k]]
    {
      hide Chain, Distinct;
      ChainPush(next, heads[k], lists[k], p);
      AddOne(lists[k], p);
      OneChanged(next, heads[..], lists, k, p, heads[k], p, [p] + lists[k]);
      next := next[p := heads[k]];
      heads[k] := p;
      lists := lists[k := [p] + lists[k]];
    }

    /** The first zone of list k leaves it. */
    method Pop(k: nat)
      requires Valid() && k < |lists| && lists[k] != []
      modifies this`next, this`lists, heads
      ensures Valid() && lists == old(lists)[k := old(lists)[k][1..]]
    {
      hide Chained, Chain, Distinct;
      First(k);
      var p := heads[k];
      PopLinks(next, heads[..], lists, k);
      var after := next[p];
      heads[k] := after;
      next := next[p := NIL];
      lists := lists[k := lists[k][1..]];
    }

    lemma First(k: nat)
      requires Valid() && k < |lists|
      ensures k < heads.Length && heads[k] == if lists[k] == [] then NIL else lists[k][0]
      ensures lists[k] != [] ==> heads[k] in next
    {
    }

    /** Zone p is the only one in its list exactly when it has no successor and is the first. */
    lemma NotAlone(k: nat, p: nat)
      requires Valid() && k < |lists| && p in lists[k]
      ensures p in next && k < heads.Length
      ensures next[p] != NIL || heads[k] != p <==> |lists[k]| > 1
    {
      var i :| 0 <= i < |lists[k]| && lists[k][i] == p;
      ChainAt(next, heads[k], lists[k], i);
    }

    /** The loop that looks for the link to zone p, and the store that leads past it. */
    method Unlist(k: nat, p: nat)
      requires Valid() && k < |lists| && p in lists[k]
      modifies this`next, this`lists, heads
      ensures Valid() && lists == old(lists)[k := Drop(old(lists)[k], p)]
    {
      hide Chained, Chain, Distinct;
      First(k);
      ghost var list, i := lists[k], 0;
      var prev, cur := NIL, heads[k];
      while cur != p
        invariant lists == old(lists) && Valid() && list == lists[k]
        invariant i < |list| && cur == list[i] && i <= Find(list, p) < |list|
        invariant prev == if i == 0 then NIL else list[i - 1]
        decreases |list| - i
      {
        Further(next, heads[..], lists, k, i, p);
        prev, cur := cur, next[cur];
        i := i + 1;
      }
      CutLinks(next, heads[..], lists, k, i);
      FirstFound(list, p, i);
      if prev == NIL {
        heads[k] := next[p];
      } else {
        next := next[prev := next[p]];
      }
      lists := lists[k := list[..i] + list[i + 1..]];
    }
  }

  lemma FirstFound(list: seq<nat>, p: nat, i: nat)
    requires i < |list| && list[i] == p && i <= Find(list, p) && p in list
    ensures Find(list, p) == i
  {
    if Find(list, p) > i { FindFirst(list, p, i); }
  }

  lemma {:induction false} FindFirst(list: seq<nat>, p: nat, i: nat)
    requires i < |list| && list[i] == p
    ensures Find(list, p) <= i
  {
    if i > 0 && list[0] != p { FindFirst(list[1..], p, i - 1); }
  }

  lemma Further(next: map<nat, int>, heads: seq<int>, lists: seq<seq<nat>>, k: nat, i: nat, p: nat)
    requires Chained(next, heads, lists) && k < |lists| && i < |lists[k]| && p in lists[k]
    requires i <= Find(lists[k], p) && lists[k][i] != p
    ensures i + 1 < |lists[k]| && i + 1 <= Find(lists[k], p)
    ensures lists[k][i] in next && next[lists[k][i]] == lists[k][i + 1]
  {
    hide Find;
    ChainAt(next, heads[k], lists[k], i);
  }

  lemma PopLinks(next: map<nat, int>, heads: seq<int>, lists: seq<seq<nat>>, k: nat)
    requires Chained(next, heads, lists) && k < |lists| && lists[k] != []
    ensures lists[k][0] in next
    ensures Chained(next[lists[k][0] := NIL], heads[k := next[lists[k][0]]], lists[k := lists[k][1..]])
  {
    hide Chain;
    ChainPop(next, heads[k], lists[k]);
    OneChanged(next, heads, lists, k, lists[k][0], NIL, next[lists[k][0]], lists[k][1..]);
  }

  lemma CutLinks(next: map<nat, int>, heads: seq<int>, lists: seq<seq<nat>>, k: nat, i: nat)
    requires Chained(next, heads, lists) && k < |lists| && i < |lists[k]|
    ensures lists[k][i] in next
    ensures var rest := lists[k][..i] + lists[k][i + 1..];
            var after := next[lists[k][i]];
            if i == 0 then Chained(next, heads[k := after], lists[k := rest])
            else Chained(next[lists[k][i - 1] := after], heads, lists[k := rest])
  {
    hide Chain;
    var list := lists[k];
    var rest := list[..i] + list[i + 1..];
    ChainCut(next, heads[k], list, i);
    assert Distinct(rest) by { assert forall j :: 0 <= j < |rest| ==> rest[j] == list[if j < i then j else j + 1]; }
    if i == 0 {
      SameLinks(next, heads, lists, k, next[list[0]], rest);
    } else {
      OneChanged(next, heads, lists, k, list[i - 1], next[list[i]], heads[k], rest);
      assert heads[k := heads[k]] == heads;
    }
  }
}
