// Bounded rings: a stretch of a buffer that may run over its physical end.
module Ring {
  /** Position k of a buffer of the given size, k at most once round. */
  function Wrap(k: nat, size: nat): nat { if k < size then k else k - size }

  /** The buffer holds content from out on. */
  ghost predicate Holds<T>(pool: seq<T>, out: nat, content: seq<T>) {
    && |content| <= |pool| && (out < |pool| || (pool == [] && out == 0))
    && forall i :: 0 <= i < |content| ==> pool[Wrap(out + i, |pool|)] == content[i]
  }

  lemma Put<T>(pool: seq<T>, out: nat, content: seq<T>, v: T)
    requires Holds(pool, out, content) && |content| < |pool|
    ensures Holds(pool[Wrap(out + |content|, |pool|) := v], out, content + [v])
  {
  }

  lemma Get<T>(pool: seq<T>, out: nat, content: seq<T>)
    requires Holds(pool, out, content) && content != []
    ensures pool[out] == content[0] && Holds(pool, Wrap(out + 1, |pool|), content[1..])
  {
    assert pool[Wrap(out + 0, |pool|)] == content[0];
    var rest := content[1..];
    forall i | 0 <= i < |rest| ensures pool[Wrap(Wrap(out + 1, |pool|) + i, |pool|)] == rest[i] {
      assert pool[Wrap(out + (i + 1), |pool|)] == content[i + 1];
    }
  }

  /** The position in front of out. */
  function Back(out: nat, size: nat): nat
    requires 0 < size
  {
    if out == 0 then size - 1 else out - 1
  }

  lemma PutFront<T>(pool: seq<T>, out: nat, content: seq<T>, v: T)
    requires Holds(pool, out, content) && |content| < |pool|
    ensures Holds(pool[Back(out, |pool|) := v], Back(out, |pool|), [v] + content)
  {
    var b := Back(out, |pool|);
    var pool', content' := pool[b := v], [v] + content;
    forall i | 0 <= i < |content'| ensures pool'[Wrap(b + i, |pool|)] == content'[i] {
      if i > 0 { assert pool[Wrap(out + (i - 1), |pool|)] == content[i - 1]; }
    }
  }
}
