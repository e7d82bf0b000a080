// The page allocator of thread_pool/rt-thread/src/slab.c: free runs of pages in a
// list sorted by address.
module Pages {
  /** Free pages at, at + 1, ..., at + count - 1. */
  datatype Run = Run(at: nat, count: nat)

  predicate Covers(r: Run, p: nat) { r.at <= p < r.at + r.count }

  /** The page is in some free run. */
  predicate FreePage(rs: seq<Run>, p: nat) {
    exists i :: 0 <= i < |rs| && Covers(rs[i], p)
  }

  /** Runs start at or behind lo, are not empty, in address order, and no two of them touch. */
  ghost predicate Sorted(rs: seq<Run>, lo: nat) {
    rs != [] ==> lo <= rs[0].at && 0 < rs[0].count && Sorted(rs[1..], rs[0].at + rs[0].count + 1)
  }

  datatype Found = None | At(page: nat)

  /** rt_page_alloc: the front of the first run that is long enough. */
  function Alloc(rs: seq<Run>, n: nat): (seq<Run>, Found) {
    if n == 0 || rs == [] then (rs, None)
    else if rs[0].count > n then ([Run(rs[0].at + n, rs[0].count - n)] + rs[1..], At(rs[0].at))
    else if rs[0].count == n then (rs[1..], At(rs[0].at))
    else
      var (rest, found) := Alloc(rs[1..], n);
      ([rs[0]] + rest, found)
  }

  /** rt_page_free of a run that is not free: joined with the run in front, the one behind, or both. */
  function Free(rs: seq<Run>, n: Run): seq<Run> {
    if rs == [] then [n]
    else
      var b := rs[0];
      if b.at + b.count == n.at then
        var b' := Run(b.at, b.count + n.count);
        if |rs| > 1 && b'.at + b'.count == rs[1].at
        then [Run(b.at, b'.count + rs[1].count)] + rs[2..]
        else [b'] + rs[1..]
      else if b.at == n.at + n.count then [Run(n.at, b.count + n.count)] + rs[1..]
      else if b.at > n.at + n.count then [n] + rs
      else [b] + Free(rs[1..], n)
  }

  // ----- The free pages determine the list

  lemma {:induction false} NoneBelow(rs: seq<Run>, lo: nat, p: nat)
    requires Sorted(rs, lo) && FreePage(rs, p)
    ensures lo <= p
  {
    if !Covers(rs[0], p) {
      FreeTail(rs, p);
      NoneBelow(rs[1..], rs[0].at + rs[0].count + 1, p);
    }
  }

  /** A page is free when it is in the first run or in the others. */
  lemma FreeTail(rs: seq<Run>, p: nat)
    requires rs != []
    ensures FreePage(rs, p) <==> Covers(rs[0], p) || FreePage(rs[1..], p)
  {
    if FreePage(rs, p) && !Covers(rs[0], p) {
      var i :| 0 <= i < |rs| && Covers(rs[i], p);
      assert rs[1..][i - 1] == rs[i];
    }
    if FreePage(rs[1..], p) {
      var i :| 0 <= i < |rs[1..]| && Covers(rs[1..][i], p);
      assert rs[i + 1] == rs[1..][i];
    }
  }

  lemma FreeCons(r: Run, rs: seq<Run>, p: nat)
    ensures FreePage([r] + rs, p) <==> Covers(r, p) || FreePage(rs, p)
  {
    FreeTail([r] + rs, p);
    assert ([r] + rs)[1..] == rs;
  }

  lemma {:induction false} SortedAbove(rs: seq<Run>, lo: nat, lo': nat)
    requires Sorted(rs, lo) && (rs != [] ==> lo' <= rs[0].at)
    ensures Sorted(rs, lo')
  {
  }

  /** Two lists with the same free pages are the same list. */
  lemma {:induction false} Canonical(a: seq<Run>, b: seq<Run>, lo: nat)
    requires Sorted(a, lo) && Sorted(b, lo)
    requires forall p: nat :: FreePage(a, p) <==> FreePage(b, p)
    ensures a == b
    decreases |a|
  {
    if a != [] { HeadFree(a, lo); }
    if b != [] { HeadFree(b, lo); }
    if a != [] && b != [] {
      SameHead(a, b, lo);
      SameHead(b, a, lo);
      forall p: nat ensures FreePage(a[1..], p) <==> FreePage(b[1..], p) {
        FreeTail(a, p);
        FreeTail(b, p);
        if FreePage(a[1..], p) { NoneBelow(a[1..], a[0].at + a[0].count + 1, p); }
        if FreePage(b[1..], p) { NoneBelow(b[1..], b[0].at + b[0].count + 1, p); }
      }
      Canonical(a[1..], b[1..], a[0].at + a[0].count + 1);
      assert a == [a[0]] + a[1..] && b == [b[0]] + b[1..];
    }
  }

  /** The first run of a covers at least the first run of b. */
  lemma SameHead(a: seq<Run>, b: seq<Run>, lo: nat)
    requires Sorted(a, lo) && Sorted(b, lo) && a != [] && b != []
    requires forall p: nat :: FreePage(a, p) <==> FreePage(b, p)
    ensures a[0].at <= b[0].at && b[0].at + b[0].count <= a[0].at + a[0].count
  {
    HeadFree(a, lo);
    HeadFree(b, lo);
    NoneBelow(a, a[0].at, b[0].at);
    NoneBelow(b, b[0].at, a[0].at);
    var e := a[0].at + a[0].count;
    FreeTail(a, e);
    if FreePage(a[1..], e) { NoneBelow(a[1..], e + 1, e); }
    assert e < b[0].at + b[0].count ==> Covers(b[0], e);
  }

  lemma HeadFree(rs: seq<Run>, lo: nat)
    requires Sorted(rs, lo) && rs != []
    ensures FreePage(rs, rs[0].at)
  {
    assert Covers(rs[0], rs[0].at);
  }

  // ----- Allocation and release

  lemma {:induction false} AllocSorted(rs: seq<Run>, lo: nat, n: nat)
    requires Sorted(rs, lo)
    ensures Sorted(Alloc(rs, n).0, lo)
    ensures Alloc(rs, n).1.At? ==> lo <= Alloc(rs, n).1.page
  {
    if n != 0 && rs != [] {
      if rs[0].count > n {
        assert ([Run(rs[0].at + n, rs[0].count - n)] + rs[1..])[1..] == rs[1..];
      } else if rs[0].count == n {
        SortedAbove(rs[1..], rs[0].at + rs[0].count + 1, lo);
      } else {
        AllocSorted(rs[1..], rs[0].at + rs[0].count + 1, n);
        assert ([rs[0]] + Alloc(rs[1..], n).0)[1..] == Alloc(rs[1..], n).0;
      }
    }
  }

  /** An allocation takes n free pages, or changes nothing. */
  lemma {:induction false} AllocTakes(rs: seq<Run>, lo: nat, n: nat, p: nat)
    requires Sorted(rs, lo)
    ensures var (rs', f) := Alloc(rs, n);
            if f.None? then rs' == rs
            else (f.page <= p < f.page + n ==> FreePage(rs, p))
                 && (FreePage(rs', p) <==> FreePage(rs, p) && !(f.page <= p < f.page + n))
  {
    if n != 0 && rs != [] {
      FreeTail(rs, p);
      if FreePage(rs[1..], p) { NoneBelow(rs[1..], rs[0].at + rs[0].count + 1, p); }
      if rs[0].count > n {
        FreeCons(Run(rs[0].at + n, rs[0].count - n), rs[1..], p);
      } else if rs[0].count < n {
        AllocTakes(rs[1..], rs[0].at + rs[0].count + 1, n, p);
        AllocSorted(rs[1..], rs[0].at + rs[0].count + 1, n);
        FreeCons(rs[0], Alloc(rs[1..], n).0, p);
        assert [rs[0]] + rs[1..] == rs;
      }
    }
  }

  /** It fails exactly when the request is empty or longer than every free run. */
  lemma {:induction false} AllocFailsIff(rs: seq<Run>, n: nat)
    ensures Alloc(rs, n).1.None? <==> n == 0 || forall i :: 0 <= i < |rs| ==> rs[i].count < n
  {
    if n != 0 && rs != [] && rs[0].count < n {
      AllocFailsIff(rs[1..], n);
      assert forall i :: 0 < i < |rs| ==> rs[i] == rs[1..][i - 1];
    }
  }

  /** The n pages from q on are free. */
  ghost predicate PagesFree(rs: seq<Run>, q: nat, n: nat) {
    forall p: nat :: q <= p < q + n ==> FreePage(rs, p)
  }

  /** An allocation takes the n free pages with the lowest address, and finds them wherever there are any. */
  lemma {:induction false} AllocLowest(rs: seq<Run>, lo: nat, n: nat, q: nat)
    requires Sorted(rs, lo) && 0 < n && PagesFree(rs, q, n)
    ensures Alloc(rs, n).1.At? && Alloc(rs, n).1.page <= q
  {
    assert FreePage(rs, q);
    FreeTail(rs, q);
    var e := rs[0].at + rs[0].count;
    if Covers(rs[0], q) {
      FreeTail(rs, e);
      if FreePage(rs[1..], e) { NoneBelow(rs[1..], e + 1, e); }
    } else {
      NoneBelow(rs[1..], e + 1, q);
      forall p: nat | q <= p < q + n ensures FreePage(rs[1..], p) { FreeTail(rs, p); }
      if rs[0].count < n { AllocLowest(rs[1..], e + 1, n, q); }
    }
  }

  lemma FirstTwo(rs: seq<Run>, lo: nat)
    requires Sorted(rs, lo) && |rs| > 1
    ensures rs[0].at + rs[0].count < rs[1].at && 0 < rs[1].count && rs[1..][0] == rs[1] && rs[1..][1..] == rs[2..]
    ensures Sorted(rs[2..], rs[1].at + rs[1].count + 1)
  {
    assert Sorted(rs[1..], rs[0].at + rs[0].count + 1);
  }

  ghost predicate NoneFree(rs: seq<Run>, n: Run) {
    forall p: nat :: Covers(n, p) ==> !FreePage(rs, p)
  }

  /** A run that is not free lies on one side of every free run. */
  lemma OneSide(rs: seq<Run>, lo: nat, n: Run)
    requires Sorted(rs, lo) && rs != [] && 0 < n.count && NoneFree(rs, n)
    ensures rs[0].at + rs[0].count <= n.at || n.at + n.count <= rs[0].at
    ensures NoneFree(rs[1..], n)
  {
    forall p: nat | Covers(n, p) ensures !FreePage(rs[1..], p) && !Covers(rs[0], p) { FreeTail(rs, p); }
    var first := if n.at <= rs[0].at then rs[0].at else n.at;
    assert !(Covers(n, first) && Covers(rs[0], first));
  }

  lemma {:induction false} FreeSorted(rs: seq<Run>, lo: nat, n: Run)
    requires Sorted(rs, lo) && lo <= n.at && 0 < n.count && NoneFree(rs, n)
    ensures Sorted(Free(rs, n), lo)
    decreases |rs|
  {
    if rs != [] {
      var b := rs[0];
      OneSide(rs, lo, n);
      if |rs| > 1 { FirstTwo(rs, lo); OneSide(rs[1..], b.at + b.count + 1, n); }
      var r := Free(rs, n);
      if b.at + b.count == n.at {
        if |rs| > 1 && n.at + n.count == rs[1].at {
          assert r[1..] == rs[2..];
        } else {
          assert r[1..] == rs[1..];
          if |rs| > 1 { SortedAbove(rs[1..], b.at + b.count + 1, n.at + n.count + 1); }
        }
      } else if b.at == n.at + n.count {
        assert r[1..] == rs[1..];
      } else if b.at > n.at + n.count {
        assert r[1..] == rs;
        SortedAbove(rs, lo, n.at + n.count + 1);
      } else {
        FreeSorted(rs[1..], b.at + b.count + 1, n);
        assert r[1..] == Free(rs[1..], n);
      }
    }
  }

  /** A release adds exactly the pages of the run. */
  lemma {:induction false} FreeAdds(rs: seq<Run>, lo: nat, n: Run, p: nat)
    requires Sorted(rs, lo) && 0 < n.count && NoneFree(rs, n)
    ensures FreePage(Free(rs, n), p) <==> FreePage(rs, p) || Covers(n, p)
    decreases |rs|
  {
    if rs == [] {
      FreeCons(n, [], p);
      assert [n] + [] == [n];
    } else {
      var b := rs[0];
      OneSide(rs, lo, n);
      FreeTail(rs, p);
      if b.at + b.count == n.at {
        FreeCons(Run(b.at, b.count + n.count), rs[1..], p);
        if |rs| > 1 && n.at + n.count == rs[1].at {
          FirstTwo(rs, lo);
          FreeTail(rs[1..], p);
          FreeCons(Run(b.at, b.count + n.count + rs[1].count), rs[2..], p);
        }
      } else if b.at == n.at + n.count {
        FreeCons(Run(n.at, b.count + n.count), rs[1..], p);
      } else if b.at > n.at + n.count {
        FreeCons(n, rs, p);
      } else {
        FreeAdds(rs[1..], b.at + b.count + 1, n, p);
        FreeCons(b, Free(rs[1..], n), p);
      }
    }
  }

  /** Releasing what was just allocated restores the list. */
  lemma FreeUndoesAlloc(rs: seq<Run>, lo: nat, n: nat)
    requires Sorted(rs, lo) && Alloc(rs, n).1.At?
    ensures Free(Alloc(rs, n).0, Run(Alloc(rs, n).1.page, n)) == rs
  {
    hide Alloc, Free, Sorted;
    var (rs', f) := Alloc(rs, n);
    assert n != 0 by { AllocFailsIff(rs, n); }
    AllocSorted(rs, lo, n);
    forall p: nat ensures (Covers(Run(f.page, n), p) ==> FreePage(rs, p) && !FreePage(rs', p))
                          && (FreePage(rs', p) || Covers(Run(f.page, n), p) <==> FreePage(rs, p)) {
      AllocTakes(rs, lo, n, p);
    }
    FreeSorted(rs', lo, Run(f.page, n));
    forall p: nat ensures FreePage(Free(rs', Run(f.page, n)), p) <==> FreePage(rs, p) {
      FreeAdds(rs', lo, Run(f.page, n), p);
    }
    Canonical(Free(rs', Run(f.page, n)), rs, lo);
  }

  // ----- The pages of a heap

  /** The pages lo, ..., hi - 1: the free ones, and the runs that are handed out. */
  datatype Pool = Pool(lo: nat, hi: nat, free: seq<Run>, taken: set<Run>)

  predicate Overlap(a: Run, b: Run) { a.at < b.at + b.count && b.at < a.at + a.count }

  /** Every page is free or in exactly one run that is handed out. */
  ghost predicate Conserved(h: Pool) {
    && Sorted(h.free, h.lo)
    && (forall a :: a in h.taken ==> 0 < a.count && h.lo <= a.at && a.at + a.count <= h.hi && NoneFree(h.free, a))
    && (forall a, b :: a in h.taken && b in h.taken && a != b ==> !Overlap(a, b))
    && (forall p: nat :: h.lo <= p < h.hi <==> FreePage(h.free, p) || Taken(h, p))
  }

  predicate Taken(h: Pool, p: nat) { exists a :: a in h.taken && Covers(a, p) }

  function Obtain(h: Pool, n: nat): (Pool, Found) {
    var (rs, f) := Alloc(h.free, n);
    (if f.At? then h.(free := rs, taken := h.taken + {Run(f.page, n)}) else h, f)
  }

  function Return(h: Pool, a: Run): Pool {
    h.(free := Free(h.free, a), taken := h.taken - {a})
  }

  lemma CommonPage(a: Run, b: Run) returns (p: nat)
    requires Overlap(a, b) && 0 < a.count && 0 < b.count
    ensures Covers(a, p) && Covers(b, p)
  {
    p := if a.at <= b.at then b.at else a.at;
  }

  lemma ObtainKeeps(h: Pool, n: nat)
    requires Conserved(h)
    ensures var (h', f) := Obtain(h, n);
            && Conserved(h')
            && (f.At? ==> 0 < n && Run(f.page, n) !in h.taken
                          && h.lo <= f.page && f.page + n <= h.hi
                          && forall a :: a in h.taken ==> !Overlap(a, Run(f.page, n)))
  {
    hide Alloc, Sorted;
    var (rs, f) := Alloc(h.free, n);
    if f.At? {
      assert n != 0 by { AllocFailsIff(h.free, n); }
      var part, h' := Run(f.page, n), Obtain(h, n).0;
      AllocSorted(h.free, h.lo, n);
      forall p: nat ensures (Covers(part, p) ==> FreePage(h.free, p))
                            && (FreePage(rs, p) <==> FreePage(h.free, p) && !Covers(part, p)) {
        AllocTakes(h.free, h.lo, n, p);
      }
      assert Covers(part, f.page + n - 1);
      forall a | a in h.taken ensures !Overlap(a, part) {
        if Overlap(a, part) { var p := CommonPage(a, part); }
      }
      forall p: nat ensures Taken(h', p) <==> Taken(h, p) || Covers(part, p) {
        assert part in h'.taken;
      }
    }
  }

  lemma ReturnKeeps(h: Pool, a: Run)
    requires Conserved(h) && a in h.taken
    ensures Conserved(Return(h, a))
  {
    hide Free, Sorted;
    var h' := Return(h, a);
    FreeSorted(h.free, h.lo, a);
    forall p: nat ensures FreePage(h'.free, p) <==> FreePage(h.free, p) || Covers(a, p) {
      FreeAdds(h.free, h.lo, a, p);
    }
    forall b | b in h'.taken ensures NoneFree(h'.free, b) {
      forall p: nat | Covers(b, p) ensures !FreePage(h'.free, p) {
        assert !Overlap(a, b);
      }
    }
    forall p: nat ensures Taken(h, p) <==> Taken(h', p) || Covers(a, p) {
      if Taken(h, p) && !Covers(a, p) {
        var b :| b in h.taken && Covers(b, p);
        assert b in h'.taken;
      }
    }
  }

  // ----- The code

  const NULL := -1

  /** The next and page fields of the headers lead through the runs. */
  ghost predicate Linked(next: map<nat, int>, page: map<nat, nat>, first: int, rs: seq<Run>) {
    && first == (if rs == [] then NULL else rs[0].at)
    && (forall i :: 0 <= i < |rs| ==> rs[i].at in next && rs[i].at in page && page[rs[i].at] == rs[i].count)
    && (forall i, j :: 0 <= i && j == i + 1 && j < |rs| ==> next[rs[i].at] == rs[j].at)
    && (rs != [] ==> next[rs[|rs| - 1].at] == NULL)
  }

  /** A sorted list names every header once. */
  ghost predicate Apart(rs: seq<Run>) {
    forall i, j :: 0 <= i < j < |rs| ==> rs[i].at < rs[j].at
  }

  lemma {:induction false} SortedApart(rs: seq<Run>, lo: nat)
    requires Sorted(rs, lo)
    ensures Apart(rs) && forall i :: 0 <= i < |rs| ==> lo <= rs[i].at
  {
    if rs != [] {
      SortedApart(rs[1..], rs[0].at + rs[0].count + 1);
      assert forall i :: 0 < i < |rs| ==> rs[i] == rs[1..][i - 1];
    }
  }

  /** The search passes over the runs that are too short. */
  lemma {:induction false} AllocFrom(rs: seq<Run>, k: nat, n: nat)
    requires k <= |rs| && n != 0 && forall i :: 0 <= i < k ==> rs[i].count < n
    ensures Alloc(rs, n).0 == rs[..k] + Alloc(rs[k..], n).0 && Alloc(rs, n).1 == Alloc(rs[k..], n).1
  {
    if k == 0 {
      assert rs[0..] == rs;
    } else {
      AllocFrom(rs[1..], k - 1, n);
      assert rs[1..][k - 1..] == rs[k..] && [rs[0]] + rs[1..][..k - 1] == rs[..k];
      assert [rs[0]] + (rs[1..][..k - 1] + Alloc(rs[k..], n).0) == rs[..k] + Alloc(rs[k..], n).0;
    }
  }

  /** Run k gives way to a run r with a header of its own. */
  lemma Relinked(next: map<nat, int>, page: map<nat, nat>, first: int, rs: seq<Run>, k: nat, r: Run)
    requires Linked(next, page, first, rs) && k < |rs| && Apart(rs) && Apart(rs[..k] + [r] + rs[k + 1..])
    ensures rs[k].at in next
    ensures var next1 := next[r.at := next[rs[k].at]];
            Linked(if k == 0 then next1 else next1[rs[k - 1].at := r.at], page[r.at := r.count],
                   if k == 0 then r.at else first, rs[..k] + [r] + rs[k + 1..])
  {
    var rs' := rs[..k] + [r] + rs[k + 1..];
    forall i | 0 <= i < |rs'| ensures rs'[i] == if i == k then r else rs[i] {}
  }

  /** Run k leaves the list. */
  lemma Unlinked(next: map<nat, int>, page: map<nat, nat>, first: int, rs: seq<Run>, k: nat)
    requires Linked(next, page, first, rs) && k < |rs| && Apart(rs)
    ensures rs[k].at in next
    ensures Linked(if k == 0 then next else next[rs[k - 1].at := next[rs[k].at]], page,
                   if k == 0 then next[rs[k].at] else first, rs[..k] + rs[k + 1..])
  {
    var rs' := rs[..k] + rs[k + 1..];
    forall i | 0 <= i < |rs'| ensures rs'[i] == rs[if i < k then i else i + 1] {}
  }

  /** A new run r is linked in front of run k. */
  lemma LinkedIn(next: map<nat, int>, page: map<nat, nat>, first: int, rs: seq<Run>, k: nat, r: Run)
    requires Linked(next, page, first, rs) && k <= |rs| && Apart(rs) && Apart(rs[..k] + [r] + rs[k..])
    ensures var next1 := next[r.at := if k < |rs| then rs[k].at else NULL];
            Linked(if k == 0 then next1 else next1[rs[k - 1].at := r.at], page[r.at := r.count],
                   if k == 0 then r.at else first, rs[..k] + [r] + rs[k..])
  {
    hide Apart;
    NewDiffers(rs, k, r);
    var rs' := rs[..k] + [r] + rs[k..];
    assert forall i :: 0 <= i < |rs'| ==> rs'[i] == if i < k then rs[i] else if i == k then r else rs[i - 1];
    var next1 := next[r.at := if k < |rs| then rs[k].at else NULL];
    var next' := if k == 0 then next1 else next1[rs[k - 1].at := r.at];
    forall i, j | 0 <= i && j == i + 1 && j < |rs'| ensures next'[rs'[i].at] == rs'[j].at {
      if j < k {
        assert next[rs[i].at] == rs[j].at;
      } else if k < i {
        var i', j' := i - 1, j - 1;
        assert next[rs[i'].at] == rs[j'].at;
      }
    }
  }

  lemma NewDiffers(rs: seq<Run>, k: nat, r: Run)
    requires k <= |rs| && Apart(rs) && Apart(rs[..k] + [r] + rs[k..])
    ensures forall i :: 0 <= i < |rs| ==> rs[i].at != r.at && (i != k - 1 && k > 0 ==> rs[i].at != rs[k - 1].at)
  {
    var rs' := rs[..k] + [r] + rs[k..];
    forall i | 0 <= i < |rs| ensures rs[i].at != r.at && (i != k - 1 && k > 0 ==> rs[i].at != rs[k - 1].at) {
      assert rs'[if i < k then i else i + 1] == rs[i] && rs'[k] == r;
    }
  }

  /** Run k grows at its end. */
  lemma Grown(next: map<nat, int>, page: map<nat, nat>, first: int, rs: seq<Run>, k: nat, count: nat)
    requires Linked(next, page, first, rs) && k < |rs| && Apart(rs)
    ensures Linked(next, page[rs[k].at := count], first, rs[k := Run(rs[k].at, count)])
  {
  }

  /** The search passes over the runs that end before the page in front of n. */
  lemma {:induction false} FreeFrom(rs: seq<Run>, k: nat, n: Run)
    requires k <= |rs| && forall i :: 0 <= i < k ==> Passed(rs[i], n)
    ensures Free(rs, n) == rs[..k] + Free(rs[k..], n)
  {
    if k == 0 {
      assert rs[0..] == rs;
    } else {
      assert Passed(rs[0], n);
      FreeFrom(rs[1..], k - 1, n);
      assert rs[1..][k - 1..] == rs[k..] && [rs[0]] + rs[1..][..k - 1] == rs[..k];
      assert [rs[0]] + (rs[1..][..k - 1] + Free(rs[k..], n)) == rs[..k] + Free(rs[k..], n);
    }
  }

  predicate Passed(b: Run, n: Run) {
    b.at + b.count != n.at && b.at != n.at + n.count && b.at <= n.at + n.count
  }

  /** The assertions of rt_page_free hold for every header it meets. */
  lemma {:induction false} HeaderSane(rs: seq<Run>, lo: nat, n: Run, k: nat)
    requires Sorted(rs, lo) && 0 < n.count && NoneFree(rs, n) && k < |rs|
    ensures rs[k].count > 0 && (rs[k].at > n.at || rs[k].at + rs[k].count <= n.at)
  {
    OneSide(rs, lo, n);
    if k > 0 { HeaderSane(rs[1..], rs[0].at + rs[0].count + 1, n, k - 1); }
  }

  /** What the header of run k says. */
  lemma HeaderAt(next: map<nat, int>, page: map<nat, nat>, first: int, rs: seq<Run>, k: nat)
    requires Linked(next, page, first, rs)
    ensures k == 0 ==> first == if rs == [] then NULL else rs[0].at
    ensures k < |rs| ==>
              && rs[k].at in next && rs[k].at in page && page[rs[k].at] == rs[k].count
              && next[rs[k].at] == if k + 1 < |rs| then rs[k + 1].at else NULL
  {
    if k + 1 < |rs| {
      var j := k + 1;
      assert next[rs[k].at] == rs[j].at;
    }
  }

  lemma GrownApart(rs: seq<Run>, k: nat, count: nat)
    requires Apart(rs) && k < |rs|
    ensures Apart(rs[k := Run(rs[k].at, count)])
  {
  }

  /** The first run is long enough. */
  lemma AllocHere(rs: seq<Run>, n: nat)
    requires rs != [] && 0 < n <= rs[0].count
    ensures Alloc(rs, n) == (if n < rs[0].count then [Run(rs[0].at + n, rs[0].count - n)] + rs[1..] else rs[1..],
        At(rs[0].at))
  {
  }

  /** The first fit is run k. */
  lemma AllocAt(rs: seq<Run>, lo: nat, k: nat, npages: nat)
    requires Sorted(rs, lo) && k < |rs| && 0 < npages <= rs[k].count
    requires forall i :: 0 <= i < k ==> rs[i].count < npages
    ensures Sorted(Alloc(rs, npages).0, lo) && Apart(Alloc(rs, npages).0) && Apart(rs)
    ensures var rest := Run(rs[k].at + npages, rs[k].count - npages);
            Alloc(rs, npages)
            == (if rs[k].count > npages then rs[..k] + [rest] + rs[k + 1..] else rs[..k] + rs[k + 1..], At(rs[k].at))
  {
    hide Sorted, Apart, Alloc;
    AllocHere(rs[k..], npages);
    AllocSorted(rs, lo, npages);
    SortedApart(rs, lo);
    AllocFrom(rs, k, npages);
    SortedApart(Alloc(rs, npages).0, lo);
    var rest := Run(rs[k].at + npages, rs[k].count - npages);
    assert rs[k..][0] == rs[k] && rs[k..][1..] == rs[k + 1..];
    assert rs[..k] + ([rest] + rs[k + 1..]) == rs[..k] + [rest] + rs[k + 1..];
  }

  class PageList {
    var head: int                // rt_page_list
    var next: map<nat, int>
    var page: map<nat, nat>
    ghost var rs: seq<Run>

    ghost predicate Shows()
      reads this
    {
      Linked(next, page, head, rs)
    }

    /** rt_page_init. */
    constructor (npages: nat)
      requires 0 < npages
      ensures Shows() && rs == [Run(0, npages)] && Sorted(rs, 0)
    {
      head, next, page, rs := NULL, map[], map[], [];
      new;
      PageFree(0, npages, 0);
    }

    /** b is run k, and *prev is the field that leads to it. */
    ghost predicate Stands(prev: int, b: int, k: nat)
      reads this
    {
      && k <= |rs| && b == (if k < |rs| then rs[k].at else NULL)
      && prev == (if k == 0 then NULL else rs[k - 1].at)
    }

    method SetPrev(prev: int, b: int)
      requires prev != NULL ==> 0 <= prev
      modifies this`head, this`next
      ensures head == if prev == NULL then b else old(head)
      ensures next == if prev == NULL then old(next) else old(next)[prev := b]
    {
      if prev == NULL { head := b; } else { next := next[prev := b]; }
    }

    /** Takes the front of run k, or all of it. */
    method TakeFront(prev: int, b: nat, npages: nat, ghost k: nat, ghost lo: nat)
      requires Shows() && Sorted(rs, lo) && Stands(prev, b, k) && k < |rs| && 0 < npages <= rs[k].count
      requires forall i :: 0 <= i < k ==> rs[i].count < npages
      modifies this
      ensures Shows() && Sorted(rs, lo) && (rs, At(b)) == Alloc(old(rs), npages)
    {
      hide Sorted, Apart, Linked, Alloc;
      HeaderAt(next, page, head, rs, k);
      AllocAt(rs, lo, k, npages);
      if page[b] > npages {
        var n := b + npages;
        ghost var r := Run(n, rs[k].count - npages);
        Relinked(next, page, head, rs, k, r);
        next := next[n := next[b]];
        page := page[n := page[b] - npages];
        SetPrev(prev, n);
        rs := rs[..k] + [r] + rs[k + 1..];
      } else {
        Unlinked(next, page, head, rs, k);
        SetPrev(prev, next[b]);
        rs := rs[..k] + rs[k + 1..];
      }
    }

    /** rt_page_alloc. */
    method PageAlloc(npages: nat, ghost lo: nat) returns (found: Found)
      requires Shows() && Sorted(rs, lo)
      modifies this
      ensures Shows() && Sorted(rs, lo) && (rs, found) == Alloc(old(rs), npages)
    {
      hide Sorted, Linked, Alloc;
      AllocTakes(rs, lo, npages, 0);
      AllocFailsIff(rs, npages);
      if npages == 0 { return None; }
      var prev, b := NULL, head;
      ghost var k := 0;
      HeaderAt(next, page, head, rs, 0);
      while b != NULL
        invariant Shows() && rs == old(rs) && Stands(prev, b, k)
        invariant forall i :: 0 <= i < k ==> rs[i].count < npages
        decreases |rs| - k
      {
        HeaderAt(next, page, head, rs, k);
        if page[b] >= npages {
          TakeFront(prev, b, npages, k, lo);
          return At(b);
        }
        prev := b;
        b := next[b];
        k := k + 1;
      }
      found := None;
    }

    /** rt_page_free. */
    method PageFree(n: nat, npages: nat, ghost lo: nat)
      requires Shows() && Sorted(rs, lo) && lo <= n && 0 < npages && NoneFree(rs, Run(n, npages))
      modifies this
      ensures Shows() && Sorted(rs, lo) && rs == Free(old(rs), Run(n, npages))
    {
      hide Sorted, NoneFree, Apart, Linked;
      ghost var r := Run(n, npages);
      FreeSorted(rs, lo, r);
      SortedApart(rs, lo);
      SortedApart(Free(rs, r), lo);
      var prev, b := NULL, head;
      ghost var k := 0;
      HeaderAt(next, page, head, rs, 0);
      while b != NULL
        invariant Shows() && rs == old(rs) && Stands(prev, b, k)
        invariant forall i :: 0 <= i < k ==> Passed(rs[i], r)
        decreases |rs| - k
      {
        HeaderSane(rs, lo, r, k);
        HeaderAt(next, page, head, rs, k);
        assert page[b] > 0 && (b > n || b + page[b] <= n);
        if b + page[b] == n {
          GrowRun(b, npages, k, r);
          return;
        }
        if b == n + npages {
          JoinFront(prev, b, n, npages, k, r);
          return;
        }
        if b > n + npages { break; }
        prev := b;
        b := next[b];
        k := k + 1;
      }
      LinkNew(prev, b, n, npages, k, r);
    }

    /** r goes in front of run k, without touching it. */
    method LinkNew(prev: int, b: int, n: nat, npages: nat, ghost k: nat, ghost r: Run)
      requires Shows() && Stands(prev, b, k) && r == Run(n, npages) && Apart(rs) && Apart(Free(rs, r))
      requires forall i :: 0 <= i < k ==> Passed(rs[i], r)
      requires k < |rs| ==> rs[k].at > n + npages
      modifies this
      ensures Shows() && rs == Free(old(rs), r)
    {
      hide Apart, Linked;
      FreeFrom(rs, k, r);
      if k < |rs| { assert rs[k..][0] == rs[k]; } else { assert rs[k..] == []; }
      assert Free(rs, r) == rs[..k] + ([r] + rs[k..]) == rs[..k] + [r] + rs[k..];
      LinkedIn(next, page, head, rs, k, r);
      page := page[n := npages];
      next := next[n := b];
      SetPrev(prev, n);
      rs := rs[..k] + [r] + rs[k..];
    }

    /** r and run k, which starts where r ends, become one run. */
    method JoinFront(prev: int, b: nat, n: nat, npages: nat, ghost k: nat, ghost r: Run)
      requires Shows() && Stands(prev, b, k) && k < |rs| && r == Run(n, npages) && b == n + npages && 0 < npages
      requires Apart(rs) && Apart(Free(rs, r))
      requires forall i :: 0 <= i < k ==> Passed(rs[i], r)
      modifies this
      ensures Shows() && rs == Free(old(rs), r)
    {
      hide Apart, Linked;
      HeaderAt(next, page, head, rs, k);
      FreeFrom(rs, k, r);
      ghost var joined := Run(n, rs[k].count + npages);
      assert rs[k..][0] == rs[k] && rs[k..][1..] == rs[k + 1..];
      assert rs[..k] + ([joined] + rs[k + 1..]) == rs[..k] + [joined] + rs[k + 1..];
      Relinked(next, page, head, rs, k, joined);
      page := page[n := page[b] + npages];
      next := next[n := next[b]];
      SetPrev(prev, n);
      rs := rs[..k] + [joined] + rs[k + 1..];
    }

    /** Run k takes in r, which starts where it ends, and the run behind when that touches r. */
    method GrowRun(b: nat, npages: nat, ghost k: nat, ghost r: Run)
      requires Shows() && k < |rs| && b == rs[k].at && r.at == b + rs[k].count && r.count == npages && Apart(rs)
      requires forall i :: 0 <= i < k ==> Passed(rs[i], r)
      modifies this
      ensures Shows() && rs == Free(old(rs), r)
    {
      hide Apart, Linked;
      HeaderAt(next, page, head, rs, k);
      GrownApart(rs, k, rs[k].count + npages);
      FreeFrom(rs, k, r);
      assert rs[k..][0] == rs[k] && rs[k..][1..] == rs[k + 1..];
      if k + 1 < |rs| { assert rs[k..][1] == rs[k + 1] && rs[k..][2..] == rs[k + 2..]; }
      Grown(next, page, head, rs, k, page[b] + npages);
      page := page[b := page[b] + npages];
      ghost var rs1 := rs[k := Run(b, page[b])];
      HeaderAt(next, page, head, rs1, k);
      assert rs1 == rs[..k] + ([Run(b, page[b])] + rs[k + 1..]);
      rs := rs1;
      if b + page[b] == next[b] { TakeNext(b, k); }
    }

    /** The run behind run k joins it. */
    method TakeNext(b: nat, ghost k: nat)
      requires Shows() && Apart(rs) && k + 1 < |rs| && b == rs[k].at
      modifies this`next, this`page, this`rs
      ensures Shows() && rs == old(rs)[..k] + ([Run(b, old(rs)[k].count + old(rs)[k + 1].count)] + old(rs)[k + 2..])
    {
      hide Apart, Linked;
      HeaderAt(next, page, head, rs, k);
      HeaderAt(next, page, head, rs, k + 1);
      var second := next[b];
      ghost var count := page[b] + page[second];
      GrownApart(rs, k, count);
      Grown(next, page, head, rs, k, count);
      page := page[b := page[b] + page[second]];
      ghost var rs2 := rs[k := Run(b, count)];
      Unlinked(next, page, head, rs2, k + 1);
      next := next[b := next[second]];
      assert rs2[..k + 1] + rs2[k + 2..] == rs[..k] + ([Run(b, count)] + rs[k + 2..]);
      rs := rs2[..k + 1] + rs2[k + 2..];
    }
  }
}
