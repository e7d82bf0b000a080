// Block layouts shared by the two address-ordered heaps (mem.c and memheap.c).
//
// Both allocators cut one arena into consecutive blocks, each starting with a
// header of fixed size.  A layout is the sequence of those blocks in address
// order; the link fields of the real headers are related to it in the modules
// that model the allocators.
module Layout {

  /** The block [start, end) of the arena, header included. */
  datatype Block = Block(start: nat, end: nat, used: bool)

  const ALIGN := 4

  /** Aligned at both ends, with room for the header. */
  predicate Proper(b: Block, hdr: nat) {
    b.start + hdr <= b.end && b.start % ALIGN == 0 && b.end % ALIGN == 0
  }

  /** The blocks cover [lo, hi) in address order, without gap or overlap. */
  predicate Tiles(bs: seq<Block>, lo: nat, hi: nat, hdr: nat) {
    if bs == [] then lo == hi
    else bs[0].start == lo && Proper(bs[0], hdr) && Tiles(bs[1..], bs[0].end, hi, hdr)
  }

  /** No two neighbouring blocks are both free. */
  ghost predicate Coalesced(bs: seq<Block>) {
    forall i, j :: 0 <= i && j == i + 1 && j < |bs| ==> bs[i].used || bs[j].used
  }

  /** Only block i may have a free neighbour. */
  ghost predicate CoalescedBut(bs: seq<Block>, i: nat) {
    forall a, b :: 0 <= a && b == a + 1 && b < |bs| && a != i && b != i ==> bs[a].used || bs[b].used
  }

  /** The blocks handed out to the client. */
  function Used(bs: seq<Block>): set<Block> {
    set b | b in bs && b.used
  }

  // ----- Sums over blocks

  function Extent(b: Block): int { if b.used then b.end - b.start else 0 }

  function Room(b: Block, hdr: nat): int { b.end - b.start - hdr }

  /** Bytes in used blocks, headers included. */
  function UsedBytes(bs: seq<Block>): int {
    if bs == [] then 0 else Extent(bs[0]) + UsedBytes(bs[1..])
  }

  /** Payload bytes in free blocks. */
  function FreeRoom(bs: seq<Block>, hdr: nat): int {
    if bs == [] then 0 else (if bs[0].used then 0 else Room(bs[0], hdr)) + FreeRoom(bs[1..], hdr)
  }

  // ----- Concatenation

  function EndOf(bs: seq<Block>, lo: nat): nat {
    if bs == [] then lo else bs[|bs| - 1].end
  }

  lemma {:induction false} TilesConcat(a: seq<Block>, b: seq<Block>, lo: nat, hi: nat, hdr: nat)
    ensures Tiles(a + b, lo, hi, hdr) <==> Tiles(a, lo, EndOf(a, lo), hdr) && Tiles(b, EndOf(a, lo), hi, hdr)
  {
    if a == [] {
      assert a + b == b;
    } else {
      TilesConcat(a[1..], b, a[0].end, hi, hdr);
      assert (a + b)[1..] == a[1..] + b;
    }
  }

  lemma {:induction false} SumsConcat(a: seq<Block>, b: seq<Block>, hdr: nat)
    ensures UsedBytes(a + b) == UsedBytes(a) + UsedBytes(b)
    ensures FreeRoom(a + b, hdr) == FreeRoom(a, hdr) + FreeRoom(b, hdr)
  {
    if a == [] {
      assert a + b == b;
    } else {
      SumsConcat(a[1..], b, hdr);
      assert (a + b)[1..] == a[1..] + b;
    }
  }

  lemma UsedConcat(a: seq<Block>, b: seq<Block>)
    ensures Used(a + b) == Used(a) + Used(b)
  {
    assert forall x :: x in a + b <==> x in a || x in b;
  }

  // ----- Order

  /** Every block of a tiling of [lo, hi) is proper and lies inside it. */
  lemma {:induction false} Inside(bs: seq<Block>, lo: nat, hi: nat, hdr: nat, i: nat)
    requires Tiles(bs, lo, hi, hdr) && i < |bs|
    ensures Proper(bs[i], hdr) && lo <= bs[i].start && bs[i].end <= hi
    ensures if i + 1 == |bs| then bs[i].end == hi else bs[i].end == bs[i + 1].start
  {
    if i > 0 {
      Inside(bs[1..], bs[0].end, hi, hdr, i - 1);
    } else if |bs| > 1 {
      Inside(bs[1..], bs[0].end, hi, hdr, 0);
    }
  }

  lemma {:induction false} Ordered(bs: seq<Block>, lo: nat, hi: nat, hdr: nat, i: nat, j: nat)
    requires Tiles(bs, lo, hi, hdr) && i < j < |bs|
    ensures bs[i].end <= bs[j].start
  {
    if i == 0 {
      Inside(bs[1..], bs[0].end, hi, hdr, j - 1);
    } else {
      Ordered(bs[1..], bs[0].end, hi, hdr, i - 1, j - 1);
    }
  }

  /** Blocks of a tiling are disjoint and lie inside it, so a start address identifies a block. */
  lemma Disjoint(bs: seq<Block>, lo: nat, hi: nat, hdr: nat)
    requires Tiles(bs, lo, hi, hdr) && hdr > 0
    ensures forall i :: 0 <= i < |bs| ==> lo <= bs[i].start && bs[i].start + hdr <= bs[i].end <= hi
    ensures forall i, j :: 0 <= i < j < |bs| ==> bs[i].end <= bs[j].start
    ensures forall i, j :: 0 <= i < |bs| && 0 <= j < |bs| && bs[i].start == bs[j].start ==> i == j
  {
    forall i | 0 <= i < |bs| ensures lo <= bs[i].start && bs[i].start + hdr <= bs[i].end <= hi {
      Inside(bs, lo, hi, hdr, i);
    }
    forall i, j | 0 <= i < j < |bs| ensures bs[i].end <= bs[j].start {
      Ordered(bs, lo, hi, hdr, i, j);
    }
  }

  lemma StartsDiffer(bs: seq<Block>, lo: nat, hi: nat, hdr: nat, i: nat, j: nat)
    requires Tiles(bs, lo, hi, hdr) && hdr > 0 && i < |bs| && j < |bs| && i != j
    ensures bs[i].start != bs[j].start && bs[i].start < hi
  {
    Inside(bs, lo, hi, hdr, i);
    Inside(bs, lo, hi, hdr, j);
    if i < j { Ordered(bs, lo, hi, hdr, i, j); } else { Ordered(bs, lo, hi, hdr, j, i); }
  }

  /** Two different blocks of a tiling do not overlap. */
  lemma Apart(bs: seq<Block>, lo: nat, hi: nat, hdr: nat, b: Block, c: Block)
    requires Tiles(bs, lo, hi, hdr) && b in bs && c in bs && b != c
    ensures c.end <= b.start || b.end <= c.start
  {
    var i :| 0 <= i < |bs| && bs[i] == b;
    var k :| 0 <= k < |bs| && bs[k] == c;
    if k < i { Ordered(bs, lo, hi, hdr, k, i); } else { Ordered(bs, lo, hi, hdr, i, k); }
  }

  /** The index of the block that starts at off; |bs| when there is none. */
  function IndexOf(bs: seq<Block>, off: nat): (k: nat)
    ensures k <= |bs|
    ensures k < |bs| ==> bs[k].start == off
    ensures k == |bs| ==> forall i :: 0 <= i < |bs| ==> bs[i].start != off
  {
    if bs == [] then 0
    else if bs[0].start == off then 0
    else 1 + IndexOf(bs[1..], off)
  }

  // ----- Updates

  function Mark(bs: seq<Block>, i: nat, used: bool): (r: seq<Block>)
    requires i < |bs|
    ensures |r| == |bs| && r[i] == bs[i].(used := used)
    ensures forall j :: 0 <= j < |bs| && j != i ==> r[j] == bs[j]
  {
    bs[..i] + [bs[i].(used := used)] + bs[i + 1..]
  }

  /** Block i keeps [start, at); a free block [at, end) follows it. */
  function Cut(bs: seq<Block>, i: nat, at: nat): (r: seq<Block>)
    requires i < |bs|
    ensures |r| == |bs| + 1 && r[i] == bs[i].(end := at) && r[i + 1] == Block(at, bs[i].end, false)
    ensures forall j :: 0 <= j < i ==> r[j] == bs[j]
    ensures forall j :: i < j < |bs| ==> r[j + 1] == bs[j]
  {
    bs[..i] + [bs[i].(end := at), Block(at, bs[i].end, false)] + bs[i + 1..]
  }

  /** Block i swallows its right neighbour. */
  function Join(bs: seq<Block>, i: nat): (r: seq<Block>)
    requires i + 1 < |bs|
    ensures |r| == |bs| - 1 && r[i] == bs[i].(end := bs[i + 1].end)
    ensures forall j :: 0 <= j < i ==> r[j] == bs[j]
    ensures forall j :: i + 1 < j < |bs| ==> r[j - 1] == bs[j]
  {
    bs[..i] + [bs[i].(end := bs[i + 1].end)] + bs[i + 2..]
  }

  /** Replacing some blocks of a tiling by others that cover the same addresses. */
  lemma Replaced(pre: seq<Block>, mid: seq<Block>, mid': seq<Block>, post: seq<Block>, lo: nat, hi: nat, hdr: nat)
    requires Tiles(pre + mid + post, lo, hi, hdr)
    requires mid != [] && mid' != [] && mid'[0].start == mid[0].start && EndOf(mid', 0) == EndOf(mid, 0)
    requires Tiles(mid', mid[0].start, EndOf(mid, 0), hdr)
    ensures Tiles(pre + mid' + post, lo, hi, hdr)
    ensures UsedBytes(pre + mid' + post) == UsedBytes(pre + mid + post) - UsedBytes(mid) + UsedBytes(mid')
    ensures FreeRoom(pre + mid' + post, hdr)
            == FreeRoom(pre + mid + post, hdr) - FreeRoom(mid, hdr) + FreeRoom(mid', hdr)
  {
    TilesConcat(pre + mid, post, lo, hi, hdr);
    TilesConcat(pre, mid, lo, EndOf(mid, 0), hdr);
    TilesConcat(pre, mid', lo, EndOf(mid, 0), hdr);
    TilesConcat(pre + mid', post, lo, hi, hdr);
    SumsConcat(pre + mid, post, hdr);
    SumsConcat(pre, mid, hdr);
    SumsConcat(pre + mid', post, hdr);
    SumsConcat(pre, mid', hdr);
  }

  lemma ReplacedUsed(bs: seq<Block>, i: nat, j: nat, mid': seq<Block>, lo: nat, hi: nat, hdr: nat)
    requires Tiles(bs, lo, hi, hdr) && hdr > 0 && i <= j <= |bs|
    ensures Used(bs[..i] + mid' + bs[j..]) == Used(bs) - Used(bs[i..j]) + Used(mid')
  {
    var pre, mid, post := bs[..i], bs[i..j], bs[j..];
    assert bs == pre + mid + post;
    UsedConcat(pre + mid, post);
    UsedConcat(pre, mid);
    UsedConcat(pre + mid', post);
    UsedConcat(pre, mid');
    assert Used(mid) !! Used(pre) && Used(mid) !! Used(post) by {
      Disjoint(bs, lo, hi, hdr);
    }
  }

  lemma MarkTiles(bs: seq<Block>, lo: nat, hi: nat, hdr: nat, i: nat, used: bool)
    requires Tiles(bs, lo, hi, hdr) && hdr > 0 && i < |bs|
    ensures Tiles(Mark(bs, i, used), lo, hi, hdr)
    ensures Used(Mark(bs, i, used)) == Used(bs) - {bs[i]} + (if used then {bs[i].(used := true)} else {})
    ensures UsedBytes(Mark(bs, i, used)) == UsedBytes(bs) - Extent(bs[i]) + Extent(bs[i].(used := used))
    ensures FreeRoom(Mark(bs, i, used), hdr) == FreeRoom(bs, hdr)
              - (if bs[i].used then 0 else Room(bs[i], hdr)) + (if used then 0 else Room(bs[i], hdr))
  {
    var b' := bs[i].(used := used);
    Inside(bs, lo, hi, hdr, i);
    assert bs == bs[..i] + [bs[i]] + bs[i + 1..];
    Replaced(bs[..i], [bs[i]], [b'], bs[i + 1..], lo, hi, hdr);
    ReplacedUsed(bs, i, i + 1, [b'], lo, hi, hdr);
    assert Used([b']) == if used then {b'} else {};
    assert bs[i..i + 1] == [bs[i]];
    assert Used([bs[i]]) == if bs[i].used then {bs[i]} else {};
  }

  lemma CutTiles(bs: seq<Block>, lo: nat, hi: nat, hdr: nat, i: nat, at: nat)
    requires Tiles(bs, lo, hi, hdr) && hdr > 0 && i < |bs| && bs[i].used
    requires at % ALIGN == 0 && bs[i].start + hdr <= at && at + hdr <= bs[i].end
    ensures Tiles(Cut(bs, i, at), lo, hi, hdr)
    ensures Used(Cut(bs, i, at)) == Used(bs) - {bs[i]} + {bs[i].(end := at)}
    ensures UsedBytes(Cut(bs, i, at)) == UsedBytes(bs) - (bs[i].end - at)
    ensures FreeRoom(Cut(bs, i, at), hdr) == FreeRoom(bs, hdr) + (bs[i].end - at - hdr)
  {
    var l, r := bs[i].(end := at), Block(at, bs[i].end, false);
    Inside(bs, lo, hi, hdr, i);
    assert bs == bs[..i] + [bs[i]] + bs[i + 1..];
    assert [l, r][1..] == [r];
    Replaced(bs[..i], [bs[i]], [l, r], bs[i + 1..], lo, hi, hdr);
    ReplacedUsed(bs, i, i + 1, [l, r], lo, hi, hdr);
    assert Used([l, r]) == {l};
    assert bs[i..i + 1] == [bs[i]];
    assert Used([bs[i]]) == {bs[i]};
  }

  lemma FreeNotUsed(bs: seq<Block>, lo: nat, hi: nat, hdr: nat, i: nat)
    requires Tiles(bs, lo, hi, hdr) && hdr > 0 && i < |bs| && !bs[i].used
    ensures bs[i] !in Used(bs) && bs[i].(used := true) !in Used(bs)
  {
    Disjoint(bs, lo, hi, hdr);
  }

  /** A free block goes into use, whole or up to at. */
  lemma TakenTiles(bs: seq<Block>, lo: nat, hi: nat, hdr: nat, i: nat, at: nat)
    requires Tiles(bs, lo, hi, hdr) && hdr > 0 && i < |bs| && !bs[i].used
    requires at == bs[i].end || (at % ALIGN == 0 && bs[i].start + hdr <= at && at + hdr <= bs[i].end)
    ensures var marked := Mark(bs, i, true);
            var r := if at < bs[i].end then Cut(marked, i, at) else marked;
            && Tiles(r, lo, hi, hdr) && Used(r) == Used(bs) + {Block(bs[i].start, at, true)}
            && UsedBytes(r) == UsedBytes(bs) + (at - bs[i].start)
            && FreeRoom(r, hdr) == FreeRoom(bs, hdr) - (if at < bs[i].end then at - bs[i].start else Room(bs[i], hdr))
  {
    hide Mark, Cut, Tiles, UsedBytes, FreeRoom, Used;
    MarkTiles(bs, lo, hi, hdr, i, true);
    FreeNotUsed(bs, lo, hi, hdr, i);
    if at < bs[i].end {
      var marked := Mark(bs, i, true);
      CutTiles(marked, lo, hi, hdr, i, at);
      assert Used(marked) == Used(bs) + {marked[i]};
    }
  }

  lemma JoinTiles(bs: seq<Block>, lo: nat, hi: nat, hdr: nat, i: nat)
    requires Tiles(bs, lo, hi, hdr) && hdr > 0 && i + 1 < |bs|
    requires !bs[i].used && !bs[i + 1].used
    ensures Tiles(Join(bs, i), lo, hi, hdr)
    ensures Used(Join(bs, i)) == Used(bs)
    ensures UsedBytes(Join(bs, i)) == UsedBytes(bs)
    ensures FreeRoom(Join(bs, i), hdr) == FreeRoom(bs, hdr) + hdr
  {
    var m := bs[i].(end := bs[i + 1].end);
    Inside(bs, lo, hi, hdr, i);
    Inside(bs, lo, hi, hdr, i + 1);
    assert bs == bs[..i] + [bs[i], bs[i + 1]] + bs[i + 2..];
    SumsConcat([bs[i]], [bs[i + 1]], hdr);
    assert [bs[i], bs[i + 1]] == [bs[i]] + [bs[i + 1]];
    Replaced(bs[..i], [bs[i], bs[i + 1]], [m], bs[i + 2..], lo, hi, hdr);
    ReplacedUsed(bs, i, i + 2, [m], lo, hi, hdr);
    assert bs[i..i + 2] == [bs[i], bs[i + 1]];
    assert Used([bs[i], bs[i + 1]]) == {} && Used([m]) == {};
  }

  // ----- Canonicity

  lemma TailUsed(bs: seq<Block>, lo: nat, hi: nat, hdr: nat)
    requires Tiles(bs, lo, hi, hdr) && hdr > 0 && bs != []
    ensures Used(bs[1..]) == Used(bs) - {bs[0]}
  {
    ReplacedUsed(bs, 0, 1, [], lo, hi, hdr);
    assert bs[..0] + [] + bs[1..] == bs[1..];
    assert bs[0..1] == [bs[0]];
    assert Used([]) == {};
  }

  /** A used first block is the first block of every tiling with the same used blocks. */
  lemma SameUsedHead(a: seq<Block>, b: seq<Block>, lo: nat, hi: nat, hdr: nat)
    requires Tiles(a, lo, hi, hdr) && a != [] && a[0].used
    requires Tiles(b, lo, hi, hdr) && b != [] && hdr > 0
    requires Used(a) == Used(b)
    ensures a[0] == b[0]
  {
    Disjoint(b, lo, hi, hdr);
    assert a[0] in Used(b);
  }

  /** A free first block ends where the first used block starts, or at the end of the tiling. */
  lemma FreeHeadNotLonger(a: seq<Block>, b: seq<Block>, lo: nat, hi: nat, hdr: nat)
    requires Tiles(a, lo, hi, hdr) && a != [] && !a[0].used
    requires Tiles(b, lo, hi, hdr) && b != [] && !b[0].used && Coalesced(b) && hdr > 0
    requires Used(a) == Used(b)
    ensures a[0].end <= b[0].end
  {
    Disjoint(a, lo, hi, hdr);
    Inside(b, lo, hi, hdr, 0);
    if |b| > 1 {
      assert b[1] in Used(a);
      var k :| 0 <= k < |a| && a[k] == b[1];
      assert k != 0 && a[0].end <= a[k].start;
    }
  }

  /** A coalesced layout is determined by its used blocks alone. */
  lemma {:induction false} Canonical(a: seq<Block>, b: seq<Block>, lo: nat, hi: nat, hdr: nat)
    requires Tiles(a, lo, hi, hdr) && Coalesced(a)
    requires Tiles(b, lo, hi, hdr) && Coalesced(b)
    requires Used(a) == Used(b) && hdr > 0
    ensures a == b
    decreases |a|
  {
    Disjoint(a, lo, hi, hdr);
    Disjoint(b, lo, hi, hdr);
    if a != [] && b != [] {
      if a[0].used {
        SameUsedHead(a, b, lo, hi, hdr);
      } else if b[0].used {
        SameUsedHead(b, a, lo, hi, hdr);
      } else {
        FreeHeadNotLonger(a, b, lo, hi, hdr);
        FreeHeadNotLonger(b, a, lo, hi, hdr);
      }
      TailUsed(a, lo, hi, hdr);
      TailUsed(b, lo, hi, hdr);
      Canonical(a[1..], b[1..], a[0].end, hi, hdr);
      assert a == [a[0]] + a[1..] && b == [b[0]] + b[1..];
    }
  }
}
