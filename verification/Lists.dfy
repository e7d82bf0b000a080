// Lists without repetition, as the queues of the kernels are, and lists that are
// first in, first out over a whole run.
module Lists {
  ghost predicate Distinct<T>(list: seq<T>) {
    forall i, j :: 0 <= i < j < |list| ==> list[i] != list[j]
  }

  function Find<T(==)>(list: seq<T>, t: T): (k: nat)
    ensures k <= |list|
    ensures if k < |list| then list[k] == t else t !in list
  {
    if list == [] || list[0] == t then 0 else 1 + Find(list[1..], t)
  }

  /** The list without the element t, if it is there. */
  function Drop<T(==)>(list: seq<T>, t: T): (r: seq<T>)
    ensures t !in list ==> r == list
    ensures t in list ==> |r| == |list| - 1
    ensures t in list ==> forall i :: 0 <= i < |r| ==> r[i] == list[if i < Find(list, t) then i else i + 1]
  {
    var k := Find(list, t);
    if k < |list| then list[..k] + list[k + 1..] else list
  }

  lemma DropAt<T>(list: seq<T>, t: T)
    requires t in list
    ensures Find(list, t) < |list| && Drop(list, t) == list[..Find(list, t)] + list[Find(list, t) + 1..]
  {
    hide Find;
  }

  lemma DropOne<T>(list: seq<T>, t: T)
    requires Distinct(list)
    ensures Distinct(Drop(list, t))
    ensures forall u :: u in Drop(list, t) <==> u in list && u != t
  {
    hide Drop, Find;
    var r, k := Drop(list, t), Find(list, t);
    if t in list {
      assert forall i :: 0 <= i < |list| && i != k ==> list[i] == r[if i < k then i else i - 1];
      forall u | u in list && u != t ensures u in r {
        var i :| 0 <= i < |list| && list[i] == u;
        assert r[if i < k then i else i - 1] == u;
      }
    }
  }

  lemma AddOne<T>(list: seq<T>, t: T)
    requires Distinct(list) && t !in list
    ensures Distinct(list + [t]) && Distinct([t] + list)
  {
  }

  /** One step and the rest of a run, both first in, first out, make a run that is first in, first out. */
  lemma InOrder<T>(taken: seq<T>, after: seq<T>, before: seq<T>, committed: seq<T>,
                   taken': seq<T>, final: seq<T>, committed': seq<T>)
    requires taken + after == before + committed
    requires taken' + final == after + committed'
    ensures (taken + taken') + final == before + (committed + committed')
  {
    assert (taken + taken') + final == taken + (taken' + final);
    assert taken + (after + committed') == (taken + after) + committed';
    assert (before + committed) + committed' == before + (committed + committed');
  }
}
