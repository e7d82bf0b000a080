// How the layout of the first-fit heap lies in memory: the link fields of the
// in-band headers, and the bytes they share the arena with.
module HeapMemory {
  import opened Layout
  import opened SmallHeap
  import opened Bytes

  const MAGIC := 0x1ea0

  /** struct heap_mem. */
  datatype Header = Header(magic: nat, used: nat, next: nat, prev: nat)

  /** The headers form the chain of the layout.  The prev field of heap_end is not part of this: a split
      next to heap_end leaves it stale, and nothing reads it. */
  ghost predicate Represents(hdr: map<nat, Header>, bs: seq<Block>, size: nat) {
    && (forall i :: 0 <= i < |bs| ==> Linked(hdr, bs, i))
    && size + HDR in hdr
    && hdr[size + HDR].used == 1 && hdr[size + HDR].next == size + HDR
  }

  ghost predicate Linked(hdr: map<nat, Header>, bs: seq<Block>, i: nat)
    requires i < |bs|
  {
    && bs[i].start in hdr
    && var h := hdr[bs[i].start];
       && h.next == bs[i].end
       && h.prev == (if i == 0 then 0 else bs[i - 1].start)
       && h.used == (if bs[i].used then 1 else 0)
       && (bs[i].used ==> h.magic == MAGIC)
  }

  // ----- Bytes

  /** n as count little-endian bytes. */
  function LittleEndian(n: nat, count: nat): (s: seq<byte>)
    ensures |s| == count
  {
    if count == 0 then [] else [n % 256] + LittleEndian(n / 256, count - 1)
  }

  /** The bytes of a header in memory. */
  function Encode(h: Header): (s: seq<byte>)
    ensures |s| == HDR
  {
    LittleEndian(h.magic, 2) + LittleEndian(h.used, 2) + LittleEndian(h.next, 4) + LittleEndian(h.prev, 4)
  }

  /** Memory m with header h written at p. */
  function Put(m: seq<byte>, p: nat, h: Header): (m': seq<byte>)
    requires p + HDR <= |m|
    ensures |m'| == |m| && m'[p..p + HDR] == Encode(h)
  {
    m[..p] + Encode(h) + m[p + HDR..]
  }

  lemma PutElsewhere(m: seq<byte>, p: nat, h: Header, lo: nat, hi: nat)
    requires p + HDR <= |m| && lo <= hi <= |m| && (hi <= p || p + HDR <= lo)
    ensures Put(m, p, h)[lo..hi] == m[lo..hi]
  {
    hide Encode;
    forall k | lo <= k < hi ensures Put(m, p, h)[k] == m[k] {
      if p + HDR <= k { assert Put(m, p, h)[k] == m[p + HDR..][k - p - HDR]; }
    }
  }

  /** Every header field agrees with the bytes at its place: no payload overlaps a header. */
  ghost predicate Imaged(m: seq<byte>, hdr: map<nat, Header>, bs: seq<Block>) {
    forall b :: b in bs ==> b.start in hdr && b.start + HDR <= |m| && m[b.start..b.start + HDR] == Encode(hdr[b.start])
  }

  /** The payload of every used block has the same bytes in m and m'. */
  ghost predicate Kept(m: seq<byte>, m': seq<byte>, bs: set<Block>) {
    && |m| == |m'|
    && forall b :: b in bs ==> b.start + HDR <= b.end <= |m| && m[b.start + HDR..b.end] == m'[b.start + HDR..b.end]
  }

  /** A header at p overlaps no other header of the layout. */
  ghost predicate ClearOfHeaders(bs: seq<Block>, p: nat) {
    forall b :: b in bs ==> b.start == p || b.start + HDR <= p || p + HDR <= b.start
  }

  /** A header at p overlaps no payload of the given blocks. */
  ghost predicate ClearOfPayloads(bs: set<Block>, p: nat) {
    forall b :: b in bs ==> p <= b.start || b.end <= p
  }

  lemma PutKeeps(m: seq<byte>, hdr: map<nat, Header>, bs: seq<Block>, live: set<Block>, p: nat, h: Header)
    requires p + HDR <= |m| && Imaged(m, hdr, bs) && ClearOfHeaders(bs, p)
    requires ClearOfPayloads(live, p) && forall b :: b in live ==> b.start + HDR <= b.end <= |m|
    ensures Imaged(Put(m, p, h), hdr[p := h], bs)
    ensures Kept(m, Put(m, p, h), live)
  {
    hide Put, Encode;
    forall b | b in bs ensures Put(m, p, h)[b.start..b.start + HDR] == Encode(hdr[p := h][b.start]) {
      if b.start != p { PutElsewhere(m, p, h, b.start, b.start + HDR); }
    }
    forall b | b in live ensures m[b.start + HDR..b.end] == Put(m, p, h)[b.start + HDR..b.end] {
      PutElsewhere(m, p, h, b.start + HDR, b.end);
    }
  }

  lemma KeptTransitive(m0: seq<byte>, m1: seq<byte>, m2: seq<byte>, bs: set<Block>)
    requires Kept(m0, m1, bs) && Kept(m1, m2, bs)
    ensures Kept(m0, m2, bs)
  {
  }

  lemma KeptSubset(m: seq<byte>, m': seq<byte>, bs: set<Block>, sub: set<Block>)
    requires Kept(m, m', bs) && sub <= bs
    ensures Kept(m, m', sub)
  {
  }

  /** m' differs from m at most in [lo, hi). */
  ghost predicate SameOutside(m: seq<byte>, m': seq<byte>, lo: int, hi: int) {
    |m| == |m'| && forall j :: 0 <= j < |m| && (j < lo || hi <= j) ==> m[j] == m'[j]
  }

  lemma KeptItself(m: seq<byte>, bs: seq<Block>, size: nat)
    requires Tiles(bs, 0, size + HDR, HDR) && |m| == size + 2 * HDR
    ensures Kept(m, m, Used(bs))
  {
    hide Tiles;
    UsedInMemory(m, bs, size);
  }

  // ----- Which headers a layout has

  /** Every header of bs' is a header of bs, or the one at address extra. */
  ghost predicate HeadersWithin(bs': seq<Block>, bs: seq<Block>, extra: nat) {
    forall b :: b in bs' ==> b.start == extra || exists c :: c in bs && c.start == b.start
  }

  lemma ImagedWithin(m: seq<byte>, hdr: map<nat, Header>, bs: seq<Block>, bs': seq<Block>, extra: nat)
    requires Imaged(m, hdr, bs) && HeadersWithin(bs', bs, extra)
    requires extra in hdr && extra + HDR <= |m| && m[extra..extra + HDR] == Encode(hdr[extra])
    ensures Imaged(m, hdr, bs')
  {
    hide Encode;
  }

  lemma CutHeaders(bs: seq<Block>, i: nat, at: nat)
    requires i < |bs|
    ensures HeadersWithin(Cut(bs, i, at), bs, at)
  {
    hide Cut;
    forall b | b in Cut(bs, i, at) ensures b.start == at || exists c :: c in bs && c.start == b.start {
      var k :| 0 <= k <= |bs| && Cut(bs, i, at)[k] == b;
      if k <= i { assert bs[k].start == b.start; }
      if k > i + 1 { assert bs[k - 1] == b; }
    }
  }

  lemma JoinHeaders(bs: seq<Block>, i: nat)
    requires i + 1 < |bs|
    ensures HeadersWithin(Join(bs, i), bs, bs[i].start)
  {
    hide Join;
    forall b | b in Join(bs, i) ensures exists c :: c in bs && c.start == b.start {
      var k :| 0 <= k < |bs| - 1 && Join(bs, i)[k] == b;
      assert bs[if k <= i then k else k + 1].start == b.start;
    }
  }

  lemma MarkHeaders(bs: seq<Block>, i: nat, used: bool)
    requires i < |bs|
    ensures HeadersWithin(Mark(bs, i, used), bs, bs[i].start)
  {
    hide Mark;
    forall b | b in Mark(bs, i, used) ensures exists c :: c in bs && c.start == b.start {
      var k :| 0 <= k < |bs| && Mark(bs, i, used)[k] == b;
      assert bs[k].start == b.start;
    }
  }

  // ----- Link surgery

  /** Unlinking the right neighbour of block i. */
  lemma JoinLinks(hdr: map<nat, Header>, bs: seq<Block>, size: nat, i: nat)
    requires Tiles(bs, 0, size + HDR, HDR) && Represents(hdr, bs, size) && i + 1 < |bs|
    ensures bs[i].start in hdr && bs[i + 1].end in hdr
    ensures bs[i + 1].start in hdr && hdr[bs[i + 1].start].next == bs[i + 1].end
    ensures Represents(Unlinked(hdr, bs[i].start, bs[i + 1].end), Join(bs, i), size)
  {
    hide Join, Tiles;
    Inside(bs, 0, size + HDR, HDR, i);
    Inside(bs, 0, size + HDR, HDR, i + 1);
    assert Linked(hdr, bs, i) && Linked(hdr, bs, i + 1);
    if i + 2 < |bs| {
      assert Linked(hdr, bs, i + 2);
      StartsDiffer(bs, 0, size + HDR, HDR, i, i + 2);
    }
    var hdr' := Unlinked(hdr, bs[i].start, bs[i + 1].end);
    var bs' := Join(bs, i);
    forall j | 0 <= j < |bs'| ensures Linked(hdr', bs', j) {
      var o := if j <= i then j else j + 1;
      assert Linked(hdr, bs, o);
      if j != i { StartsDiffer(bs, 0, size + HDR, HDR, o, i); }
      if i + 2 < |bs| && o != i + 2 { StartsDiffer(bs, 0, size + HDR, HDR, o, i + 2); }
    }
  }

  /** The two stores that make header n the successor of header m. */
  function Unlinked(hdr: map<nat, Header>, m: nat, n: nat): map<nat, Header>
    requires m in hdr && n in hdr
  {
    var hdr1 := hdr[m := hdr[m].(next := n)];
    hdr1[n := hdr1[n].(prev := m)]
  }

  /** The stores that put a free header at address at behind header m; heap_end is not told about it. */
  function Split(hdr: map<nat, Header>, size: nat, m: nat, at: nat, magic: nat): map<nat, Header>
    requires m in hdr && hdr[m].next in hdr && at != m
  {
    var n := hdr[m].next;
    var hdr1 := hdr[at := Header(magic, 0, n, m)];
    var hdr2 := hdr1[m := hdr1[m].(next := at)];
    if n != size + HDR then hdr2[n := hdr2[n].(prev := at)] else hdr2
  }

  lemma CutLinks(hdr: map<nat, Header>, bs: seq<Block>, size: nat, i: nat, at: nat, magic: nat)
    requires Tiles(bs, 0, size + HDR, HDR) && Represents(hdr, bs, size) && i < |bs|
    requires bs[i].start < at < bs[i].end
    ensures bs[i].start in hdr && hdr[bs[i].start].next == bs[i].end && bs[i].end in hdr
    ensures Represents(Split(hdr, size, bs[i].start, at, magic), Cut(bs, i, at), size)
  {
    hide Cut, Tiles;
    Inside(bs, 0, size + HDR, HDR, i);
    assert Linked(hdr, bs, i);
    if i + 1 < |bs| {
      assert Linked(hdr, bs, i + 1);
      Inside(bs, 0, size + HDR, HDR, i + 1);
    }
    var hdr' := Split(hdr, size, bs[i].start, at, magic);
    var bs' := Cut(bs, i, at);
    forall j | 0 <= j < |bs'| ensures Linked(hdr', bs', j) {
      if j < i || i + 1 < j {
        var o := if j < i then j else j - 1;
        assert Linked(hdr, bs, o);
        Inside(bs, 0, size + HDR, HDR, o);
        StartsDiffer(bs, 0, size + HDR, HDR, o, i);
        Apart(bs, 0, size + HDR, HDR, bs[o], bs[i]);
        if i + 1 < |bs| && o != i + 1 { StartsDiffer(bs, 0, size + HDR, HDR, o, i + 1); }
      }
    }
  }

  /** Writing the used and magic fields of block i. */
  lemma MarkLinks(hdr: map<nat, Header>, bs: seq<Block>, size: nat, i: nat, used: bool, magic: nat)
    requires Tiles(bs, 0, size + HDR, HDR) && Represents(hdr, bs, size) && i < |bs|
    requires used ==> magic == MAGIC
    ensures bs[i].start in hdr
    ensures var m := bs[i].start;
            Represents(hdr[m := hdr[m].(magic := magic, used := if used then 1 else 0)], Mark(bs, i, used), size)
  {
    hide Mark;
    Disjoint(bs, 0, size + HDR, HDR);
    assert Linked(hdr, bs, i);
    var m := bs[i].start;
    var hdr1 := hdr[m := hdr[m].(magic := magic, used := if used then 1 else 0)];
    forall j | 0 <= j < |bs| ensures Linked(hdr1, Mark(bs, i, used), j) {
      assert Linked(hdr, bs, j);
    }
  }

  /** What the header of block i says about its neighbours. */
  lemma Neighbours(hdr: map<nat, Header>, bs: seq<Block>, size: nat, i: nat)
    requires Tiles(bs, 0, size + HDR, HDR) && Represents(hdr, bs, size) && i < |bs|
    ensures var m := bs[i].start;
            && m in hdr && hdr[m].used == (if bs[i].used then 1 else 0)
            && m < hdr[m].next == bs[i].end <= size + HDR
            && (hdr[m].next == size + HDR <==> i + 1 == |bs|)
            && bs[i].end in hdr
            && (i + 1 < |bs| ==> bs[i + 1].start == bs[i].end
                                 && hdr[bs[i].end].used == (if bs[i + 1].used then 1 else 0))
            && hdr[m].prev in hdr && (hdr[m].prev == m <==> i == 0)
            && (i > 0 ==> hdr[m].prev == bs[i - 1].start
                          && hdr[hdr[m].prev].used == (if bs[i - 1].used then 1 else 0))
  {
    hide Tiles;
    Inside(bs, 0, size + HDR, HDR, i);
    assert Linked(hdr, bs, i);
    if i + 1 < |bs| {
      assert Linked(hdr, bs, i + 1);
      Inside(bs, 0, size + HDR, HDR, i + 1);
    }
    if i > 0 {
      assert Linked(hdr, bs, i - 1);
      StartsDiffer(bs, 0, size + HDR, HDR, i, i - 1);
    } else {
      FirstStart(bs, size);
    }
  }

  lemma FirstStart(bs: seq<Block>, size: nat)
    requires Tiles(bs, 0, size + HDR, HDR) && bs != []
    ensures bs[0].start == 0
  {
  }

  // ----- The stores of a merge, in memory

  /** A header at the start of a block, or at heap_end, overlaps nothing else of the layout. */
  lemma HeaderClear(bs: seq<Block>, size: nat, off: nat)
    requires Tiles(bs, 0, size + HDR, HDR)
    requires off == size + HDR || exists i :: 0 <= i < |bs| && bs[i].start == off
    ensures ClearOfHeaders(bs, off) && ClearOfPayloads(Used(bs), off) && off <= size + HDR
  {
    hide Tiles;
    forall k | 0 <= k < |bs| ensures bs[k].start + HDR <= bs[k].end <= size + HDR {
      Inside(bs, 0, size + HDR, HDR, k);
    }
    if off != size + HDR {
      var i :| 0 <= i < |bs| && bs[i].start == off;
      forall b | b in bs && b != bs[i] ensures b.end <= off || bs[i].end <= b.start {
        Apart(bs, 0, size + HDR, HDR, bs[i], b);
      }
    }
  }

  lemma UsedInMemory(m: seq<byte>, bs: seq<Block>, size: nat)
    requires Tiles(bs, 0, size + HDR, HDR) && |m| == size + 2 * HDR
    ensures forall b :: b in bs ==> b.start + HDR <= b.end <= |m|
  {
    hide Tiles;
    forall b | b in bs ensures b.start + HDR <= b.end <= |m| {
      var k :| 0 <= k < |bs| && bs[k] == b;
      Inside(bs, 0, size + HDR, HDR, k);
    }
  }

  /** Memory after the two stores of Unlinked. */
  function UnlinkedBytes(m: seq<byte>, hdr: map<nat, Header>, p: nat, n: nat): seq<byte>
    requires p in hdr && n in hdr && p + HDR <= |m| && n + HDR <= |m|
  {
    var h1 := hdr[p].(next := n);
    var hdr1 := hdr[p := h1];
    Put(Put(m, p, h1), n, hdr1[n].(prev := p))
  }

  /** A header that is not overwritten keeps its bytes. */
  lemma HeaderStays(m: seq<byte>, hdr: map<nat, Header>, n: nat, h: Header, p: nat)
    requires n + HDR <= |m| && (p + HDR <= n || n + HDR <= p)
    requires p in hdr && p + HDR <= |m| && m[p..p + HDR] == Encode(hdr[p])
    ensures Put(m, n, h)[p..p + HDR] == Encode(hdr[n := h][p])
  {
    hide Put, Encode;
    PutElsewhere(m, n, h, p, p + HDR);
  }

  lemma MergeStores(m: seq<byte>, hdr: map<nat, Header>, bs: seq<Block>, size: nat, i: nat)
    requires Tiles(bs, 0, size + HDR, HDR) && |m| == size + 2 * HDR && i + 1 < |bs|
    requires Represents(hdr, bs, size) && Imaged(m, hdr, bs)
    ensures var p, n := bs[i].start, bs[i + 1].end;
            && p in hdr && n in hdr && p + HDR <= |m| && n + HDR <= |m|
            && Imaged(UnlinkedBytes(m, hdr, p, n), Unlinked(hdr, p, n), Join(bs, i))
            && Kept(m, UnlinkedBytes(m, hdr, p, n), Used(bs))
  {
    hide Tiles, Put, Encode, Join, Used, Represents, Kept, ClearOfHeaders, ClearOfPayloads, Imaged, HeadersWithin;
    var p, n := bs[i].start, bs[i + 1].end;
    JoinLinks(hdr, bs, size, i);
    Inside(bs, 0, size + HDR, HDR, i);
    Inside(bs, 0, size + HDR, HDR, i + 1);
    HeaderClear(bs, size, p);
    assert i + 2 < |bs| ==> bs[i + 2].start == n;
    HeaderClear(bs, size, n);
    UsedInMemory(m, bs, size);
    UsedSubset(bs);
    var h1 := hdr[p].(next := n);
    var m1, hdr1 := Put(m, p, h1), hdr[p := h1];
    PutKeeps(m, hdr, bs, Used(bs), p, h1);
    var h2 := hdr1[n].(prev := p);
    PutKeeps(m1, hdr1, bs, Used(bs), n, h2);
    KeptTransitive(m, m1, Put(m1, n, h2), Used(bs));
    JoinHeaders(bs, i);
    HeaderStays(m1, hdr1, n, h2, p);
    ImagedWithin(Put(m1, n, h2), hdr1[n := h2], bs, Join(bs, i), p);
  }

  // ----- The stores of a split, in memory

  /** Memory after the stores of Split. */
  function SplitBytes(m: seq<byte>, hdr: map<nat, Header>, size: nat, p: nat, at: nat, magic: nat): seq<byte>
    requires p in hdr && hdr[p].next in hdr && at != p
    requires p + HDR <= |m| && at + HDR <= |m| && hdr[p].next + HDR <= |m|
  {
    var n := hdr[p].next;
    var h0 := Header(magic, 0, n, p);
    var hdr1 := hdr[at := h0];
    var h1 := hdr1[p].(next := at);
    var hdr2 := hdr1[p := h1];
    var m2 := Put(Put(m, at, h0), p, h1);
    if n != size + HDR then Put(m2, n, hdr2[n].(prev := at)) else m2
  }

  lemma SplitStores(m: seq<byte>, hdr: map<nat, Header>, bs: seq<Block>, size: nat, i: nat, at: nat, magic: nat)
    requires Tiles(bs, 0, size + HDR, HDR) && |m| == size + 2 * HDR && i < |bs| && bs[i].used
    requires at % ALIGN == 0 && bs[i].start + HDR <= at && at + HDR <= bs[i].end
    requires Represents(hdr, bs, size) && Imaged(m, hdr, bs)
    ensures var p, n := bs[i].start, bs[i].end;
            && p in hdr && n in hdr && hdr[p].next == n && n + HDR <= |m|
            && Imaged(SplitBytes(m, hdr, size, p, at, magic), Split(hdr, size, p, at, magic), Cut(bs, i, at))
            && Kept(m, SplitBytes(m, hdr, size, p, at, magic), Used(Cut(bs, i, at)))
  {
    hide Tiles, Put, Encode, Cut, Used, Represents, Kept, ClearOfHeaders, ClearOfPayloads, Imaged;
    var p, n := bs[i].start, bs[i].end;
    var bs' := Cut(bs, i, at);
    var live := Used(bs');
    CutLinks(hdr, bs, size, i, at, magic);
    CutTiles(bs, 0, size + HDR, HDR, i, at);
    Inside(bs, 0, size + HDR, HDR, i);
    assert bs'[i].start == p && bs'[i + 1].start == at;
    assert i + 2 < |bs'| ==> bs'[i + 2] == bs[i + 1];
    Inside(bs', 0, size + HDR, HDR, i + 1);
    HeaderClear(bs', size, p);
    HeaderClear(bs', size, at);
    HeaderClear(bs', size, n);
    UsedInMemory(m, bs', size);
    UsedSubset(bs');
    var h0 := Header(magic, 0, n, p);
    var m1, hdr1 := Put(m, at, h0), hdr[at := h0];
    FirstSplitStore(m, hdr, bs, size, i, at, h0);
    var h1 := hdr1[p].(next := at);
    var m2, hdr2 := Put(m1, p, h1), hdr1[p := h1];
    PutKeeps(m1, hdr1, bs', live, p, h1);
    if n != size + HDR {
      PutKeeps(m2, hdr2, bs', live, n, hdr2[n].(prev := at));
      KeptTransitive(m1, m2, Put(m2, n, hdr2[n].(prev := at)), live);
    }
    KeptTransitive(m, m1, SplitBytes(m, hdr, size, p, at, magic), live);
  }

  lemma CutClear(bs: seq<Block>, size: nat, i: nat, at: nat)
    requires Tiles(bs, 0, size + HDR, HDR) && i < |bs|
    requires bs[i].start + HDR <= at && at + HDR <= bs[i].end
    ensures ClearOfHeaders(bs, at)
  {
    hide Tiles;
    forall b | b in bs ensures b.start + HDR <= at || at + HDR <= b.start {
      var k :| 0 <= k < |bs| && bs[k] == b;
      Inside(bs, 0, size + HDR, HDR, k);
      if b != bs[i] { Apart(bs, 0, size + HDR, HDR, bs[i], b); }
    }
  }

  /** The new header lies in the tail that is cut off. */
  lemma FirstSplitStore(m: seq<byte>, hdr: map<nat, Header>, bs: seq<Block>, size: nat, i: nat, at: nat, h: Header)
    requires Tiles(bs, 0, size + HDR, HDR) && |m| == size + 2 * HDR && i < |bs| && bs[i].used
    requires at % ALIGN == 0 && bs[i].start + HDR <= at && at + HDR <= bs[i].end
    requires Imaged(m, hdr, bs)
    ensures at + HDR <= |m|
    ensures Imaged(Put(m, at, h), hdr[at := h], Cut(bs, i, at))
    ensures Kept(m, Put(m, at, h), Used(Cut(bs, i, at)))
  {
    hide Tiles, Put, Encode, Cut, Used, Kept, ClearOfHeaders, ClearOfPayloads, Imaged, HeadersWithin;
    var bs' := Cut(bs, i, at);
    CutTiles(bs, 0, size + HDR, HDR, i, at);
    Inside(bs, 0, size + HDR, HDR, i);
    assert bs'[i + 1].start == at;
    HeaderClear(bs', size, at);
    UsedInMemory(m, bs', size);
    UsedSubset(bs');
    CutClear(bs, size, i, at);
    PutKeeps(m, hdr, bs, Used(bs'), at, h);
    CutHeaders(bs, i, at);
    ImagedWithin(Put(m, at, h), hdr[at := h], bs, bs', at);
  }

  /** Rewriting the header of block i disturbs neither the other headers nor any payload. */
  lemma MarkStores(m: seq<byte>, hdr: map<nat, Header>, bs: seq<Block>, size: nat, i: nat, h: Header, used: bool)
    requires Tiles(bs, 0, size + HDR, HDR) && |m| == size + 2 * HDR && i < |bs| && Imaged(m, hdr, bs)
    ensures bs[i].start + HDR <= |m|
    ensures Imaged(Put(m, bs[i].start, h), hdr[bs[i].start := h], Mark(bs, i, used))
    ensures Kept(m, Put(m, bs[i].start, h), Used(bs))
  {
    hide Tiles, Put, Encode, Mark, Used, Kept, ClearOfHeaders, ClearOfPayloads, Imaged, HeadersWithin;
    var p := bs[i].start;
    Inside(bs, 0, size + HDR, HDR, i);
    HeaderClear(bs, size, p);
    UsedInMemory(m, bs, size);
    UsedSubset(bs);
    PutKeeps(m, hdr, bs, Used(bs), p, h);
    MarkHeaders(bs, i, used);
    ImagedWithin(Put(m, p, h), hdr[p := h], bs, Mark(bs, i, used), p);
  }

  lemma UsedSubset(bs: seq<Block>)
    ensures forall b :: b in Used(bs) ==> b in bs
  {
  }

  /** Writing inside the payload of block i disturbs neither a header nor another payload. */
  lemma PayloadStores(m: seq<byte>, m': seq<byte>, hdr: map<nat, Header>, bs: seq<Block>, size: nat, i: nat)
    requires Tiles(bs, 0, size + HDR, HDR) && |m| == size + 2 * HDR && i < |bs| && Imaged(m, hdr, bs)
    requires SameOutside(m, m', bs[i].start + HDR, bs[i].end)
    ensures Imaged(m', hdr, bs) && Kept(m, m', Used(bs) - {bs[i]})
  {
    hide Tiles, Encode;
    UsedInMemory(m, bs, size);
    forall b | b in bs && b != bs[i] ensures b.end <= bs[i].start || bs[i].end <= b.start {
      Apart(bs, 0, size + HDR, HDR, bs[i], b);
    }
    forall b | b in bs ensures m'[b.start..b.start + HDR] == m[b.start..b.start + HDR] {}
    forall b | b in Used(bs) - {bs[i]} ensures m[b.start + HDR..b.end] == m'[b.start + HDR..b.end] {}
  }
}
