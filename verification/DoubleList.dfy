// Doubly linked lists that end in a null pointer at both ends: the chain of task
// control blocks and the wait lists of event flag groups in uC/OS-II.
module DoubleList {
  import opened Lists

  const NULL := -1

  /** head, next and prev lead through these nodes, forwards and backwards. */
  ghost predicate Linked(next: map<int, int>, prev: map<int, int>, head: int, ids: seq<nat>) {
    && head == (if ids == [] then NULL else ids[0])
    && (forall i :: 0 <= i < |ids| ==> ids[i] in next && ids[i] in prev)
    && (forall i, j :: 0 <= i && j == i + 1 && j < |ids| ==> next[ids[i]] == ids[j] && prev[ids[j]] == ids[i])
    && (ids != [] ==> prev[ids[0]] == NULL && next[ids[|ids| - 1]] == NULL)
  }

  lemma HeadIs(next: map<int, int>, prev: map<int, int>, head: int, ids: seq<nat>)
    requires Linked(next, prev, head, ids)
    ensures head == if ids == [] then NULL else ids[0]
  {
  }

  /** A new node at the head. */
  lemma LinkFirst(next: map<int, int>, prev: map<int, int>, head: int, ids: seq<nat>, n: nat)
    requires Linked(next, prev, head, ids) && Distinct(ids) && n !in ids
    ensures var prev1 := prev[n := NULL];
            Linked(next[n := head], if ids == [] then prev1 else prev1[ids[0] := n], n, [n] + ids)
  {
  }

  /** What the fields of node k say. */
  lemma NodeAt(next: map<int, int>, prev: map<int, int>, head: int, ids: seq<nat>, k: nat)
    requires Linked(next, prev, head, ids) && k < |ids|
    ensures ids[k] in next && ids[k] in prev
    ensures next[ids[k]] == if k + 1 < |ids| then ids[k + 1] else NULL
    ensures prev[ids[k]] == if k > 0 then ids[k - 1] else NULL
  {
    if k > 0 { var i := k - 1; assert prev[ids[k]] == ids[i]; }
    if k + 1 < |ids| { var j := k + 1; assert next[ids[k]] == ids[j]; }
  }

  /** The neighbours of node k are linked to each other, and the node itself is not touched. */
  lemma UnlinkAt(next: map<int, int>, prev: map<int, int>, head: int, ids: seq<nat>, k: nat)
    requires Linked(next, prev, head, ids) && Distinct(ids) && k < |ids|
    ensures ids[k] in next && ids[k] in prev
    ensures var n, p := next[ids[k]], prev[ids[k]];
            Linked(if p == NULL then next else next[p := n], if n == NULL then prev else prev[n := p],
                   if p == NULL then n else head, ids[..k] + ids[k + 1..])
  {
    NodeAt(next, prev, head, ids, k);
    var r := ids[..k] + ids[k + 1..];
    assert forall i :: 0 <= i < |r| ==> r[i] == ids[if i < k then i else i + 1];
    var n, p := next[ids[k]], prev[ids[k]];
    var next', prev' := if p == NULL then next else next[p := n], if n == NULL then prev else prev[n := p];
    forall i, j | 0 <= i && j == i + 1 && j < |r| ensures next'[r[i]] == r[j] && prev'[r[j]] == r[i] {
      var i', j' := if i < k then i else i + 1, if j < k then j else j + 1;
      if j != k { assert next[ids[i']] == ids[j']; }
    }
  }

  lemma NotOwn(ids: seq<nat>, k: nat)
    requires Distinct(ids) && k < |ids|
    ensures k > 0 ==> ids[k - 1] != ids[k]
    ensures k + 1 < |ids| ==> ids[k + 1] != ids[k]
  {
  }
}
