// Sets of priorities as uC/OS-II keeps them: a group byte with a bit for every row
// that is not zero, and eight rows of eight bits.  The ready list and the wait list
// of every event are such tables.
module PrioTable {
  import opened Bitmap

  const PRIOS := 64

  datatype Table = Table(grp: Word, rows: seq<Word>)

  predicate Shaped(t: Table) {
    |t.grp| == 8 && |t.rows| == 8 && forall y :: 0 <= y < 8 ==> |t.rows[y]| == 8
  }

  /** Bit y of the group is set exactly when row y is not zero. */
  predicate Agrees(t: Table) {
    Shaped(t) && forall y :: 0 <= y < 8 ==> (t.grp[y] <==> !Zero(t.rows[y]))
  }

  predicate Member(t: Table, p: nat)
    requires Shaped(t)
  {
    p < PRIOS && t.rows[p / 8][p % 8]
  }

  function Empty(): Table { Table(seq(8, i => false), seq(8, y => seq(8, x => false))) }

  /** grp |= bity; tbl[y] |= bitx, for the bits of priority p. */
  function Set(t: Table, p: nat): (r: Table)
    requires Shaped(t) && p < PRIOS
    ensures Shaped(r)
  {
    Table(Or(t.grp, Mask(8, p / 8)), t.rows[p / 8 := Or(t.rows[p / 8], Mask(8, p % 8))])
  }

  /** if ((tbl[y] &= ~bitx) == 0) grp &= ~bity. */
  function Clear(t: Table, p: nat): (r: Table)
    requires Shaped(t) && p < PRIOS
    ensures Shaped(r)
  {
    var row := AndNot(t.rows[p / 8], Mask(8, p % 8));
    Table(if Zero(row) then AndNot(t.grp, Mask(8, p / 8)) else t.grp, t.rows[p / 8 := row])
  }

  /** (OSUnMapTbl[grp] << 3) + OSUnMapTbl[tbl[y]]. */
  function Highest(t: Table): nat
    requires Shaped(t)
  {
    var y := Bitmap.Table(Value(t.grp));
    if y < 8 then 8 * y + Bitmap.Table(Value(t.rows[y])) else 0
  }

  lemma EmptyAgrees()
    ensures Agrees(Empty()) && forall p: nat :: !Member(Empty(), p)
  {
  }

  lemma SetAgrees(t: Table, p: nat)
    requires Agrees(t) && p < PRIOS
    ensures Agrees(Set(t, p))
    ensures forall q: nat :: Member(Set(t, p), q) <==> Member(t, q) || q == p
  {
    var r := Set(t, p);
    assert r.rows[p / 8][p % 8];
    forall q: nat ensures Member(r, q) <==> Member(t, q) || q == p {
      assert q / 8 == p / 8 && q % 8 == p % 8 ==> q == p;
    }
  }

  lemma ClearAgrees(t: Table, p: nat)
    requires Agrees(t) && p < PRIOS
    ensures Agrees(Clear(t, p))
    ensures forall q: nat :: Member(Clear(t, p), q) <==> Member(t, q) && q != p
  {
    var r := Clear(t, p);
    forall q: nat ensures Member(r, q) <==> Member(t, q) && q != p {
      assert q / 8 == p / 8 && q % 8 == p % 8 ==> q == p;
    }
  }

  /** The group byte is zero exactly when the table is empty; otherwise the lookup finds the least member. */
  lemma HighestIs(t: Table)
    requires Agrees(t)
    ensures Zero(t.grp) <==> forall p: nat :: !Member(t, p)
    ensures !Zero(t.grp) ==> Member(t, Highest(t)) && forall p: nat :: Member(t, p) ==> Highest(t) <= p
  {
    hide Bitmap.Table, Value;
    forall p: nat | Member(t, p) ensures t.grp[p / 8] {}
    if !Zero(t.grp) {
      TableLowest(t.grp);
      var y := Bitmap.Table(Value(t.grp));
      TableLowest(t.rows[y]);
      var x := Bitmap.Table(Value(t.rows[y]));
      assert (8 * y + x) / 8 == y && (8 * y + x) % 8 == x;
      assert Member(t, Highest(t));
    }
  }
}
