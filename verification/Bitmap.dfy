// Sets of small numbers as machine words, and the table that finds the lowest
// member: rt_lowest_bitmap of RT-Thread, OSUnMapTbl of uC/OS-II.
module Bitmap {
  /** A machine word is the sequence of its bits, lowest first. */
  type Word = seq<bool>

  /** 1 << p. */
  function Mask(width: nat, p: nat): (r: Word)
    requires p < width
    ensures |r| == width && forall i :: 0 <= i < width ==> r[i] == (i == p)
  {
    seq(width, i => i == p)
  }

  /** a | b. */
  function Or(a: Word, b: Word): (r: Word)
    requires |a| == |b|
    ensures |r| == |a| && forall i :: 0 <= i < |a| ==> r[i] == (a[i] || b[i])
  {
    seq(|a|, i requires 0 <= i < |a| => a[i] || b[i])
  }

  /** a & ~b. */
  function AndNot(a: Word, b: Word): (r: Word)
    requires |a| == |b|
    ensures |r| == |a| && forall i :: 0 <= i < |a| ==> r[i] == (a[i] && !b[i])
  {
    seq(|a|, i requires 0 <= i < |a| => a[i] && !b[i])
  }

  predicate Zero(a: Word) { forall i :: 0 <= i < |a| ==> !a[i] }

  function Digit(b: bool): nat { if b then 1 else 0 }

  /** The number four bits stand for. */
  function Nibble(a: Word): (n: nat)
    requires |a| == 4
    ensures n < 16
  {
    Digit(a[0]) + 2 * Digit(a[1]) + 4 * Digit(a[2]) + 8 * Digit(a[3])
  }

  function Value(a: Word): (n: nat)
    requires |a| == 8
    ensures n < 256
  {
    Nibble(a[..4]) + 16 * Nibble(a[4..])
  }

  /** The sixteen rows of the table differ in their first entry only: ROW, and the first entries. */
  const ROW: seq<nat> := [0, 0, 1, 0, 2, 0, 1, 0, 3, 0, 1, 0, 2, 0, 1, 0]
  const COLUMN: seq<nat> := [0, 4, 5, 4, 6, 4, 5, 4, 7, 4, 5, 4, 6, 4, 5, 4]

  function Table(n: nat): nat
    requires n < 256
  {
    if n % 16 != 0 then ROW[n % 16] else COLUMN[n / 16]
  }

  /** k is the number of the lowest bit that is set. */
  ghost predicate LowestBit(a: Word, k: nat) {
    k < |a| && a[k] && forall i :: 0 <= i < k ==> !a[i]
  }

  lemma NibbleLowest(a: Word)
    requires |a| == 4
    ensures Nibble(a) == 0 <==> Zero(a)
    ensures !Zero(a) ==> LowestBit(a, ROW[Nibble(a)]) && COLUMN[Nibble(a)] == ROW[Nibble(a)] + 4
  {
    if a[0] {
      if a[1] { if a[2] { if a[3] {} else {} } else if a[3] {} else {} }
      else if a[2] { if a[3] {} else {} } else if a[3] {} else {}
    } else if a[1] { if a[2] { if a[3] {} else {} } else if a[3] {} else {} }
    else if a[2] { if a[3] {} else {} } else if a[3] {} else {}
  }

  /** The entry of a non-zero byte is the number of its lowest bit. */
  lemma TableLowest(a: Word)
    requires |a| == 8 && !Zero(a)
    ensures LowestBit(a, Table(Value(a)))
  {
    hide Nibble;
    var lo, hi := a[..4], a[4..];
    NibbleLowest(lo);
    NibbleLowest(hi);
    assert Value(a) % 16 == Nibble(lo) && Value(a) / 16 == Nibble(hi);
    assert forall i :: 4 <= i < 8 ==> a[i] == hi[i - 4];
    assert forall i :: 0 <= i < 4 ==> a[i] == lo[i];
  }

  /** (g >> 8 * k) & 0xff. */
  function ByteOf(g: Word, k: nat): (b: Word)
    requires |g| == 32 && k < 4
    ensures |b| == 8 && forall i :: 0 <= i < 8 ==> b[i] == g[8 * k + i]
  {
    g[8 * k..8 * k + 8]
  }

  /** The search of rt_schedule in a word of 32 bits, byte by byte. */
  function Lowest32(g: Word): nat
    requires |g| == 32
  {
    if !Zero(ByteOf(g, 0)) then Table(Value(ByteOf(g, 0)))
    else if !Zero(ByteOf(g, 1)) then Table(Value(ByteOf(g, 1))) + 8
    else if !Zero(ByteOf(g, 2)) then Table(Value(ByteOf(g, 2))) + 16
    else Table(Value(ByteOf(g, 3))) + 24
  }

  lemma Lowest32Is(g: Word)
    requires |g| == 32 && !Zero(g)
    ensures LowestBit(g, Lowest32(g))
  {
    hide Table, Value, ByteOf;
    var i :| 0 <= i < 32 && g[i];
    assert ByteOf(g, i / 8)[i % 8];
    var k := if !Zero(ByteOf(g, 0)) then 0 else if !Zero(ByteOf(g, 1)) then 1
             else if !Zero(ByteOf(g, 2)) then 2 else 3;
    TableLowest(ByteOf(g, k));
    forall j | 0 <= j < Lowest32(g) ensures !g[j] {
      assert g[j] == ByteOf(g, j / 8)[j % 8];
    }
  }
}
