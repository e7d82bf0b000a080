// Which zones the slab allocator of thread_pool/rt-thread/src/slab.c takes chunks from, and which it retires.
module SlabZoneLaws {
  import opened Lists
  import opened Pages
  import opened Zones
  import opened Slab

  // ----- Which chunk a request gets

  /** Chunk i leaves the zone: the next one never handed out, while there are any, or else the one that came back last.
      */
  predicate ChunkLeaves(z: Zone, z': Zone, i: nat) {
    if z.uindex + 1 < z.nmax then i == z.uindex + 1 && z' == z.(nfree := z.nfree - 1, uindex := i)
    else z.freed == [i] + z'.freed && z' == z.(nfree := z.nfree - 1, freed := z'.freed)
  }

  /** The first zone of the list hands out a chunk, and leaves the list with its last free one. */
  ghost predicate FromHead(s: State, s': State, zi: nat, p: nat, i: nat)
    requires zi < |s.lists| && s.lists[zi] != []
  {
    && p == s.lists[zi][0] && p in s.zones && p in s'.zones && ChunkLeaves(s.zones[p], s'.zones[p], i)
    && s'.zones == s.zones[p := s'.zones[p]]
    && s' == s.(zones := s'.zones,
                lists := if s.zones[p].nfree == 1 then s.lists[zi := s.lists[zi][1..]] else s.lists)
  }

  /** A new zone, made of one in reserve if there is one, else of fresh pages, is the only one of its list. */
  ghost predicate FromNew(s: State, s': State, zi: nat, chunk: nat, p: nat)
    requires zi < |s.lists| && 0 < chunk
  {
    && p !in s.zones && s'.zones == s.zones[p := NewZone(zi, chunk, s.zoneSize)]
    && s'.lists == s.lists[zi := [p]] && s'.large == s.large
    && (s.spare != [] ==> s.spare == [p] + s'.spare && s'.pool == s.pool && s'.usage == s.usage)
    && (s.spare == [] ==> s'.spare == [] && s'.pool.taken == s.pool.taken + {Run(p, ZonePages(s))})
  }

  /** A small request is served by the first zone of its list; when the list is empty, by the first chunk of a new zone.
      */
  lemma MallocSmallIs(s: State, n: nat) returns (p: nat, i: nat)
    requires Inv(s) && 0 < n < s.limit && Malloc(s, n).1.To?
    ensures ZoneIndex(n).0 < |s.lists| && 0 < ZoneIndex(n).1
    ensures var ((s', addr), (zi, chunk)) := (Malloc(s, n), ZoneIndex(n));
            && p in s'.zones && 0 < s'.zones[p].chunk && addr == To(ChunkAddr(s', p, i))
            && if s.lists[zi] != [] then FromHead(s, s', zi, p, i) else i == 0 && FromNew(s, s', zi, chunk, p)
  {
    hide Inv, ZoneIndex, MallocFrom, MallocNew, FromHead, FromNew;
    LimitBound(s);
    ZoneIndexIs(n);
    if s.lists[ZoneIndex(n).0] != [] {
      p, i := FromIs(s, ZoneIndex(n).0);
    } else {
      p := NewIs(s, n);
      i := 0;
    }
  }

  lemma FromIs(s: State, zi: nat) returns (p: nat, i: nat)
    requires Inv(s) && zi < NZONES && s.lists[zi] != []
    ensures s.lists[zi][0] in s.zones && 0 < s.zones[s.lists[zi][0]].chunk
    ensures var (s', addr) := MallocFrom(s, zi);
            && p in s'.zones && 0 < s'.zones[p].chunk && addr == To(ChunkAddr(s', p, i)) && FromHead(s, s', zi, p, i)
  {
    hide BlocksOk, UsageOk, ArrayOk, ZonesOk, ZoneOk, Offset;
    LimitBound(s);
    ListHead(s, zi);
    p := s.lists[zi][0];
    UindexBound(s.zones[p], s.zoneSize);
    i := TakeChunk(s.zones[p]).1;
  }

  lemma NewIs(s: State, n: nat) returns (p: nat)
    requires Inv(s) && 0 < n < s.limit && s.lists[ZoneIndex(n).0] == []
    ensures ZoneIndex(n).0 < NZONES && 0 < ZoneIndex(n).1
    ensures var ((s', addr), (zi, chunk)) := (MallocNew(s, ZoneIndex(n).0, ZoneIndex(n).1), ZoneIndex(n));
            addr.To? ==>
              && p in s'.zones && 0 < s'.zones[p].chunk && addr == To(ChunkAddr(s', p, 0))
              && FromNew(s, s', zi, chunk, p)
  {
    hide Inv, ZoneIndex, Offset, GetZone, Count;
    LimitBound(s);
    ZoneIndexIs(n);
    GetZoneKeeps(s);
    GotFrom(s);
    assert forall q: nat :: [q] + s.lists[ZoneIndex(n).0] == [q];
    p := if GetZone(s).1.At? then GetZone(s).1.page else 0;
  }

  lemma GotFrom(s: State)
    requires Inv(s)
    ensures var (s1, f) := GetZone(s);
            && s1.large == s.large
            && (s.spare != [] ==> f == At(s.spare[0]) && s1 == s.(spare := s.spare[1..]))
            && (s.spare == [] && f.At? ==>
                  s1.spare == [] && s1.pool.taken == s.pool.taken + {Run(f.page, ZonePages(s))})
  {
    hide ZonesOk, ArrayOk, UsageOk, Conserved, Obtain, Slab.Mark;
    ObtainFrame(s.pool, ZonePages(s));
  }

  lemma UindexBound(z: Zone, zoneSize: nat)
    requires ZoneOk(z, zoneSize)
    ensures z.uindex + 1 <= z.nmax
  {
  }

  // ----- Which zone a free retires

  /** Chunk i goes back to its zone, which comes back to the head of its list if it had left it. When the zone is all
      free and another one of its index is in the list, it leaves the list for the reserve; and when the reserve is
      full, its pages go back to the page allocator. Nothing else changes. */
  lemma FreeChunkIs(s: State, p: nat, i: nat)
    requires Inv(s) && Holds(s, p, i)
    ensures s.zones[p].zi < |s.lists|
    ensures var (s', z) := (FreeChunk(s, p, i), s.zones[p]);
            var given := z.(freed := [i] + z.freed, nfree := z.nfree + 1);
            var list := if z.nfree == 0 then [p] + s.lists[z.zi] else s.lists[z.zi];
            if z.nfree + 1 < z.nmax || list == [p] then
              s' == s.(zones := s.zones[p := given], lists := s.lists[z.zi := list])
            else
              && s'.zones == s.zones - {p} && s'.lists == s.lists[z.zi := Drop(list, p)] && s'.large == s.large
              && p in list && (forall q :: q in Drop(list, p) <==> q in list && q != p)
              && if |s.spare| < 2 then
                   s'.spare == [p] + s.spare && s'.pool == s.pool && s'.usage == s.usage
                 else
                   s'.spare == s.spare && s'.pool == Return(s.pool, Run(p, ZonePages(s)))
                   && |s'.usage| == |s.usage|
                   && forall q :: 0 <= q < |s.usage| ==>
                        s'.usage[q] == if p <= q < p + ZonePages(s) then FreeType else s.usage[q]
  {
    hide BlocksOk, UsageOk, Drop, Distinct, Out, ChunkSize, Count, Return;
    LimitBound(s);
    GiveBackKeeps(s, p, i);
    var s1, z := GiveBack(s, p, i), s.zones[p];
    GivenIn(s1, p);
    FreeBound(s.zones[p], s.zoneSize, i);
    assert s1.lists[z.zi] == (if z.nfree == 0 then [p] + s.lists[z.zi] else s.lists[z.zi]);
    if |s1.lists[z.zi]| > 1 {
      DropOne(s1.lists[z.zi], p);
    }
  }

  /** A zone with a free chunk is in the list of its index. */
  lemma GivenIn(s: State, p: nat)
    requires Inv(s) && p in s.zones && s.zones[p].nfree > 0
    ensures s.zones[p].zi < |s.lists| && p in s.lists[s.zones[p].zi] && Distinct(s.lists[s.zones[p].zi])
    ensures s.lists[s.zones[p].zi] == [p] <==> |s.lists[s.zones[p].zi]| == 1
  {
    hide BlocksOk, UsageOk, Distinct;
    assert ZoneOk(s.zones[p], s.zoneSize);
  }

  lemma FreeBound(z: Zone, zoneSize: nat, i: nat)
    requires ZoneOk(z, zoneSize) && i in Out(z)
    ensures 0 <= z.nfree < z.nmax
  {
    OutCount(z, zoneSize);
  }

  /** A zone of list i that is all free. */
  predicate Idle(s: State, i: nat, p: nat)
    requires i < |s.lists|
  {
    p in s.lists[i] && p in s.zones && s.zones[p].nfree == s.zones[p].nmax
  }

  /** No list holds two zones that are all free. */
  ghost predicate OneIdle(s: State) {
    forall i, p, q :: 0 <= i < |s.lists| && Idle(s, i, p) && Idle(s, i, q) ==> p == q
  }

  lemma InOwnList(s: State, p: nat, j: nat)
    requires Inv(s) && j < |s.lists| && p in s.lists[j]
    ensures p in s.zones && s.zones[p].zi == j && s.zones[p].nfree <= s.zones[p].nmax
  {
    hide BlocksOk, UsageOk, Out, Distinct;
    OutCount(s.zones[p], s.zoneSize);
  }

  lemma FreeOneIdle(s: State, p: nat, i: nat)
    requires Inv(s) && Holds(s, p, i) && OneIdle(s)
    ensures s.zones[p].zi < |s.lists| && OneIdle(FreeChunk(s, p, i))
  {
    hide FreeChunk, Inv, Drop, Out;
    LimitBound(s);
    FreeChunkIs(s, p, i);
    FreeChunkKeeps(s, p, i);
    var (s', zi) := (FreeChunk(s, p, i), s.zones[p].zi);
    forall j, q | 0 <= j < |s'.lists| && Idle(s', j, q) ensures Idle(s, j, q) || (j == zi && s'.lists[zi] == [p]) {
      if q == p { InOwnList(s', p, j); }
    }
    assert s'.lists[zi] == [p] ==> forall q :: q in s'.lists[zi] ==> q == p;
  }

  /** Frames the zones of the large blocks and of failed requests. */
  lemma NoSmall(s: State, n: nat)
    requires Inv(s) && n < WORD && !(0 < n < s.limit && Malloc(s, n).1.To?)
    ensures Malloc(s, n).0.zones == s.zones && Malloc(s, n).0.lists == s.lists
  {
    hide ZonesOk, ArrayOk, UsageOk, BlocksOk, ZoneIndex, Obtain, TakeChunk, Offset;
  }

  lemma MallocOneIdle(s: State, n: nat)
    requires Inv(s) && n < WORD && OneIdle(s)
    ensures OneIdle(Malloc(s, n).0)
  {
    hide Malloc, Inv, ZoneIndex;
    LimitBound(s);
    if Malloc(s, n).1.To? && 0 < n < s.limit {
      var p, i := MallocSmallIs(s, n);
      var (s', zi) := (Malloc(s, n).0, ZoneIndex(n).0);
      if s.lists[zi] != [] { InOwnList(s, p, zi); }
      assert p in s'.zones && s'.zones[p].nfree < s'.zones[p].nmax;
      assert forall j, q :: 0 <= j < |s'.lists| && Idle(s', j, q) ==> Idle(s, j, q);
    } else {
      NoSmall(s, n);
      var s' := Malloc(s, n).0;
      assert forall j, q :: 0 <= j < |s'.lists| && Idle(s', j, q) ==> Idle(s, j, q);
    }
  }

  lemma StepOneIdle(s: State, op: Op)
    requires Inv(s) && OneIdle(s) && Legal(s, op)
    ensures OneIdle(Step(s, op))
  {
    hide Inv, OneIdle, Malloc, FreeLarge, FreeChunk, Holds, Offset;
    match op
    case DoMalloc(n) => MallocOneIdle(s, n);
    case DoFree(addr) =>
      if LiveLarge(s, addr) {
        FreeLargeKeeps(s, addr / PAGE);
        LargeOneIdle(s, addr / PAGE);
      } else {
        LiveHolds(s, addr);
        var p := addr / PAGE - s.usage[addr / PAGE].off;
        FreeOneIdle(s, p, (addr - PAGE * p - Offset(s.zones[p].chunk)) / s.zones[p].chunk);
      }
  }

  lemma LargeOneIdle(s: State, p: nat)
    requires p in s.large && p < |s.usage| && OneIdle(s)
    ensures OneIdle(FreeLarge(s, p))
  {
    var s' := FreeLarge(s, p);
    assert forall j, q :: 0 <= j < |s'.lists| && Idle(s', j, q) ==> Idle(s, j, q);
  }

  /** Every run keeps that each list of zone_array holds at most one zone that is all free: the others go to the
      reserve, or back to the page allocator. */
  lemma {:induction false} RunOneIdle(s: State, ops: seq<Op>)
    requires Inv(s) && OneIdle(s) && LegalRun(s, ops)
    ensures OneIdle(RunOps(s, ops))
    decreases |ops|
  {
    hide Inv, OneIdle, Step, Legal;
    if ops != [] {
      StepKeeps(s, ops[0]);
      StepOneIdle(s, ops[0]);
      RunOneIdle(Step(s, ops[0]), ops[1..]);
    }
  }

  /** So it holds after every run from a heap that has no zone yet. */
  lemma FreshOneIdle(s: State, ops: seq<Op>)
    requires Inv(s) && s.lists == seq(NZONES, i => []) && LegalRun(s, ops)
    ensures OneIdle(RunOps(s, ops))
  {
    hide Inv, LegalRun, RunOps;
    RunOneIdle(s, ops);
  }
}
