// Chunk sizes, zone layout and zone bookkeeping of thread_pool/rt-thread/src/slab.c.
module Zones {
  import opened Lists

  const NZONES := 72
  const HEADER := 36       // sizeof(slab_zone) on a 32-bit target

  // ----- zoneindex

  /** bytes rounded up to a multiple of unit, a power of two. */
  function RoundUp(n: nat, unit: nat): nat
    requires 0 < unit
  {
    (n + unit - 1) / unit * unit
  }

  /** zoneindex: the zone index of a request and the chunk size it is rounded to. */
  function ZoneIndex(n: nat): (nat, nat)
    requires 0 < n < 16384
  {
    if n < 128 then (RoundUp(n, 8) / 8 - 1, RoundUp(n, 8))
    else if n < 256 then (RoundUp(n, 16) / 16 + 7, RoundUp(n, 16))
    else if n < 512 then (RoundUp(n, 32) / 32 + 15, RoundUp(n, 32))
    else if n < 1024 then (RoundUp(n, 64) / 64 + 23, RoundUp(n, 64))
    else if n < 2048 then (RoundUp(n, 128) / 128 + 31, RoundUp(n, 128))
    else if n < 4096 then (RoundUp(n, 256) / 256 + 39, RoundUp(n, 256))
    else if n < 8192 then (RoundUp(n, 512) / 512 + 47, RoundUp(n, 512))
    else (RoundUp(n, 1024) / 1024 + 55, RoundUp(n, 1024))
  }

  /** The chunk size of a zone index. */
  function ChunkSize(zi: nat): nat {
    if zi < 16 then 8 * (zi + 1)
    else if zi < 24 then 16 * (zi - 7)
    else if zi < 32 then 32 * (zi - 15)
    else if zi < 40 then 64 * (zi - 23)
    else if zi < 48 then 128 * (zi - 31)
    else if zi < 56 then 256 * (zi - 39)
    else if zi < 64 then 512 * (zi - 47)
    else 1024 * (zi - 55)
  }

  lemma ChunkSizesIncrease(a: nat, b: nat)
    requires a < b
    ensures ChunkSize(a) < ChunkSize(b)
  {
  }

  /** Rounding up finds the k-th multiple of the unit. */
  lemma RoundUpIs(n: nat, unit: nat) returns (k: nat)
    requires 0 < n && 0 < unit
    ensures RoundUp(n, unit) == unit * k && RoundUp(n, unit) / unit == k && unit * k - unit < n <= unit * k
  {
    k := (n + unit - 1) / unit;
    assert n + unit - 1 == unit * k + (n + unit - 1) % unit;
    DivIs(unit * k, unit, k);
  }

  lemma DivIs(a: nat, b: nat, q: nat)
    requires 0 < b && b * q <= a < b * q + b
    ensures a / b == q
  {
    var d := a / b;
    assert a == b * d + a % b;
    if d < q { LessTimes(b, d, q); }
    if q < d { LessTimes(b, q, d); }
  }

  lemma LessTimes(b: nat, x: nat, y: nat)
    requires x < y
    ensures b * x + b <= b * y
  {
    assert b * y == b * (y - 1) + b;
    if x + 1 < y { LessTimes(b, x, y - 1); }
  }

  /** A request gets the smallest chunk size that holds it, and the index of that size: requests share a zone
      exactly when they are rounded to the same size. */
  lemma ZoneIndexIs(n: nat)
    requires 0 < n < 16384
    ensures var (zi, bytes) := ZoneIndex(n);
            && zi < NZONES && bytes == ChunkSize(zi) && n <= bytes
            && (zi > 0 ==> ChunkSize(zi - 1) < n)
  {
    hide RoundUp;
    var unit := if n < 128 then 8 else if n < 256 then 16 else if n < 512 then 32 else if n < 1024 then 64
                else if n < 2048 then 128 else if n < 4096 then 256 else if n < 8192 then 512 else 1024;
    var k := RoundUpIs(n, unit);
  }

  lemma SmallestChunk(n: nat, z: nat)
    requires 0 < n < 16384 && n <= ChunkSize(z)
    ensures ZoneIndex(n).1 <= ChunkSize(z)
  {
    ZoneIndexIs(n);
    var zi := ZoneIndex(n).0;
    if z < zi {
      if z < zi - 1 { ChunkSizesIncrease(z, zi - 1); }
    } else if zi < z {
      ChunkSizesIncrease(zi, z);
    }
  }

  lemma SameZoneIff(n: nat, m: nat)
    requires 0 < n < 16384 && 0 < m < 16384
    ensures ZoneIndex(n).0 == ZoneIndex(m).0 <==> ZoneIndex(n).1 == ZoneIndex(m).1
  {
    ZoneIndexIs(n);
    ZoneIndexIs(m);
    var a, b := ZoneIndex(n).0, ZoneIndex(m).0;
    if a < b { ChunkSizesIncrease(a, b); }
    if b < a { ChunkSizesIncrease(b, a); }
  }

  // ----- Zone layout

  /** What the test (size | (size - 1)) + 1 == size << 1 asks. */
  predicate PowerOfTwo(n: nat) {
    n == 1 || (n > 1 && n % 2 == 0 && PowerOfTwo(n / 2))
  }

  /** Where the chunks of a zone start: power-of-two chunks are aligned to their size. */
  function Offset(chunk: nat): nat
    requires 0 < chunk
  {
    if PowerOfTwo(chunk) then RoundUp(HEADER, chunk) else RoundUp(HEADER, 8)
  }

  /** The zone sizes and limits that rt_system_heap_init can arrive at. */
  predicate Sizes(zoneSize: nat, limit: nat) {
    && (zoneSize == 0x8000 || zoneSize == 0x10000 || zoneSize == 0x20000)
    && limit == if zoneSize / 4 > 16384 then 16384 else zoneSize / 4
  }

  method ChooseSizes(limsize: nat) returns (zoneSize: nat, limit: nat)
    ensures Sizes(zoneSize, limit)
    ensures zoneSize > 0x8000 ==> zoneSize < limsize / 1024
    ensures zoneSize < 0x20000 ==> 2 * zoneSize >= limsize / 1024
  {
    zoneSize := 0x8000;
    while zoneSize < 0x20000 && 2 * zoneSize < limsize / 1024
      invariant zoneSize == 0x8000 || zoneSize == 0x10000 || zoneSize == 0x20000
      invariant zoneSize > 0x8000 ==> zoneSize < limsize / 1024
    {
      zoneSize := 2 * zoneSize;
    }
    limit := zoneSize / 4;
    if limit > 16384 { limit := 16384; }
  }

  lemma SmallPowers(n: nat)
    requires PowerOfTwo(n) && n < 64 && n % 8 == 0
    ensures n == 8 || n == 16 || n == 32
  {
    assert PowerOfTwo(n / 2) && PowerOfTwo(n / 2 / 2) && PowerOfTwo(n / 2 / 2 / 2);
    var m := n / 2 / 2 / 2;
    assert m < 8 && n == 8 * m;
    assert m == 1 || PowerOfTwo(m / 2);
  }

  lemma OffsetSmall(chunk: nat)
    requires 8 <= chunk && chunk % 8 == 0
    ensures HEADER <= Offset(chunk) && (Offset(chunk) == chunk || Offset(chunk) <= 64)
    ensures PowerOfTwo(chunk) ==> Offset(chunk) % chunk == 0
  {
    hide PowerOfTwo, RoundUp;
    if PowerOfTwo(chunk) {
      var k := RoundUpIs(HEADER, chunk);
      assert Offset(chunk) == chunk * k;
      MultipleOf(chunk, k);
      if chunk >= 64 {
        if k > 1 { LessTimes(chunk, 1, k); }
      } else {
        SmallPowers(chunk);
      }
    } else {
      var k := RoundUpIs(HEADER, 8);
    }
  }

  lemma MultipleOf(b: nat, k: nat)
    requires 0 < b
    ensures b * k % b == 0
  {
    DivIs(b * k, b, k);
    assert b * k == b * (b * k / b) + b * k % b;
  }

  // ----- Powers of two

  lemma Remainder(b: nat, q: nat, r: nat)
    requires r < b
    ensures (b * q + r) % b == r
  {
    DivIs(b * q + r, b, q);
    assert b * q + r == b * ((b * q + r) / b) + (b * q + r) % b;
  }

  /** The smaller of two powers of two divides the larger. */
  lemma {:induction false} PowerDivides(a: nat, b: nat)
    requires PowerOfTwo(a) && PowerOfTwo(b) && 0 < a <= b
    ensures b % a == 0
  {
    if a > 1 {
      PowerDivides(a / 2, b / 2);
      var q := b / 2 / (a / 2);
      assert b / 2 == a / 2 * q;
      assert b == a * q;
      MultipleOf(a, q);
    }
  }

  lemma Divides(a: nat, b: nat, n: nat)
    requires 0 < a && 0 < b && b % a == 0 && n % b == 0
    ensures n % a == 0
  {
    assert n == b * (n / b) && b == a * (b / a);
    assert n == a * (b / a * (n / b));
    MultipleOf(a, b / a * (n / b));
  }

  /** A request for a power of two gets chunks of that size, or of 8 bytes. */
  lemma PowerChunk(n: nat)
    requires PowerOfTwo(n) && 0 < n < 16384
    ensures ZoneIndex(n).1 == if n < 8 then 8 else n
  {
    hide PowerOfTwo, RoundUp;
    var unit := if n < 128 then 8 else if n < 256 then 16 else if n < 512 then 32 else if n < 1024 then 64
                else if n < 2048 then 128 else if n < 4096 then 256 else if n < 8192 then 512 else 1024;
    assert ZoneIndex(n).1 == RoundUp(n, unit);
    if n < 8 {
      RoundedUp(n, 8, 1);
    } else {
      UnitIsPower(unit);
      PowerDivides(unit, n);
      RoundedUp(n, unit, n / unit);
    }
  }

  lemma RoundedUp(n: nat, unit: nat, k: nat)
    requires 0 < unit && unit * k - unit < n <= unit * k
    ensures RoundUp(n, unit) == unit * k
  {
    DivIs(n + unit - 1, unit, k);
  }

  lemma UnitIsPower(unit: nat)
    requires unit in {8, 16, 32, 64, 128, 256, 512, 1024}
    ensures PowerOfTwo(unit)
  {
    assert PowerOfTwo(8) && PowerOfTwo(32) by { assert PowerOfTwo(4); }
    assert PowerOfTwo(128);
    assert PowerOfTwo(512);
  }

  /** z_nmax. */
  function Count(zoneSize: nat, chunk: nat): int
    requires 0 < chunk
  {
    (zoneSize - Offset(chunk)) / chunk
  }

  /** A new zone has room for at least two chunks, so one is left when the first is handed out; and chunk i of
      a zone ends inside it. */
  lemma RoomForTwo(zoneSize: nat, limit: nat, n: nat)
    requires Sizes(zoneSize, limit) && 0 < n < limit
    ensures 2 <= Count(zoneSize, ZoneIndex(n).1)
  {
    hide PowerOfTwo, Offset, ZoneIndex;
    ZoneIndexIs(n);
    var chunk := ZoneIndex(n).1;
    LimitRounds(zoneSize, limit, n);
    OffsetSmall(chunk);
    AtLeast(zoneSize - Offset(chunk), chunk, 2);
  }

  lemma LimitRounds(zoneSize: nat, limit: nat, n: nat)
    requires Sizes(zoneSize, limit) && 0 < n < limit
    ensures ZoneIndex(n).1 <= limit
  {
    SmallestChunk(n, if limit == 8192 then 63 else 71);
  }

  lemma AtLeast(a: int, b: nat, q: nat)
    requires 0 < b && b * q <= a
    ensures q <= a / b
  {
    var d := a / b;
    assert a == b * d + a % b;
    if d < q { LessTimes(b, d, q); }
  }

  /** Chunk i of a zone ends inside the zone, and behind the header. */
  lemma ChunkInside(zoneSize: nat, chunk: nat, i: nat)
    requires 8 <= chunk && chunk % 8 == 0 && i < Count(zoneSize, chunk)
    ensures HEADER <= Offset(chunk) && Offset(chunk) + chunk * i + chunk <= zoneSize
  {
    hide PowerOfTwo, Offset;
    OffsetSmall(chunk);
    var room := zoneSize - Offset(chunk);
    var d := room / chunk;
    assert room == chunk * d + room % chunk;
    if i + 1 < d { LessTimes(chunk, i + 1, d); }
    assert chunk * (i + 1) == chunk * i + chunk;
  }

  // ----- Zones

  /** The fields of a zone; freed is the list behind z_freechunk, as chunk numbers. */
  datatype Zone = Zone(zi: nat, chunk: nat, nmax: int, uindex: nat, nfree: int, freed: seq<nat>)

  /** z_nfree counts the chunks never handed out and those handed back. */
  ghost predicate ZoneOk(z: Zone, zoneSize: nat) {
    && z.zi < NZONES && z.chunk == ChunkSize(z.zi) && z.nmax == Count(zoneSize, z.chunk) && 2 <= z.nmax
    && z.uindex < z.nmax
    && Distinct(z.freed) && (forall i :: 0 <= i < |z.freed| ==> z.freed[i] <= z.uindex)
    && z.nfree == z.nmax - 1 - z.uindex + |z.freed|
  }

  function UpTo(n: nat): (r: set<nat>)
    ensures |r| == n + 1 && forall i: nat :: i in r <==> i <= n
  {
    if n == 0 then {0} else UpTo(n - 1) + {n}
  }

  /** The chunks in the hands of the client. */
  function Out(z: Zone): set<nat> {
    set i | i in UpTo(z.uindex) && i !in z.freed
  }

  function NewZone(zi: nat, chunk: nat, zoneSize: nat): Zone
    requires 0 < chunk
  {
    Zone(zi, chunk, Count(zoneSize, chunk), 0, Count(zoneSize, chunk) - 1, [])
  }

  /** A zone with free chunks hands one out: a new one while there are any. */
  function TakeChunk(z: Zone): (Zone, nat)
    requires z.uindex + 1 == z.nmax ==> z.freed != []
  {
    if z.uindex + 1 != z.nmax then (z.(nfree := z.nfree - 1, uindex := z.uindex + 1), z.uindex + 1)
    else (z.(nfree := z.nfree - 1, freed := z.freed[1..]), z.freed[0])
  }

  function GiveChunk(z: Zone, i: nat): Zone {
    z.(freed := [i] + z.freed, nfree := z.nfree + 1)
  }

  lemma NewZoneOk(n: nat, zoneSize: nat, limit: nat)
    requires Sizes(zoneSize, limit) && 0 < n < limit
    ensures var (zi, chunk) := ZoneIndex(n);
            0 < chunk && ZoneOk(NewZone(zi, chunk, zoneSize), zoneSize) && Out(NewZone(zi, chunk, zoneSize)) == {0}
  {
    hide ZoneIndex, ChunkSize, Count;
    ZoneIndexIs(n);
    RoomForTwo(zoneSize, limit, n);
  }

  lemma TakeChunkOk(z: Zone, zoneSize: nat)
    requires ZoneOk(z, zoneSize) && z.nfree > 0
    ensures z.uindex + 1 == z.nmax ==> z.freed != []
    ensures var (z', i) := TakeChunk(z);
            ZoneOk(z', zoneSize) && z'.zi == z.zi && i !in Out(z) && Out(z') == Out(z) + {i}
  {
    hide ChunkSize, Count, Out;
    var (z', i) := TakeChunk(z);
    forall j: nat ensures (j in Out(z) <==> j <= z.uindex && j !in z.freed)
                          && (j in Out(z') <==> j <= z'.uindex && j !in z'.freed) {
      OutIff(z, j);
      OutIff(z', j);
    }
    if z.uindex + 1 == z.nmax { assert z.freed == [i] + z'.freed && i !in z'.freed; }
  }

  lemma OutIff(z: Zone, i: nat)
    ensures i in Out(z) <==> i <= z.uindex && i !in z.freed
  {
  }

  lemma GiveChunkOk(z: Zone, zoneSize: nat, i: nat)
    requires ZoneOk(z, zoneSize) && i in Out(z)
    ensures ZoneOk(GiveChunk(z, i), zoneSize) && Out(GiveChunk(z, i)) == Out(z) - {i}
  {
    hide ChunkSize, Count;
  }

  /** Handed out and free chunks make up the zone; it is all free exactly when nothing is handed out. */
  lemma OutCount(z: Zone, zoneSize: nat)
    requires ZoneOk(z, zoneSize)
    ensures |Out(z)| + z.nfree == z.nmax
    ensures z.nfree == z.nmax <==> Out(z) == {}
  {
    hide ChunkSize, Count;
    Members(z.freed);
    var back := ToSet(z.freed);
    assert back <= UpTo(z.uindex) && Out(z) == UpTo(z.uindex) - back;
    assert UpTo(z.uindex) * back == back;
  }

  function ToSet(s: seq<nat>): set<nat> { set i | i in s }

  lemma {:induction false} Members(s: seq<nat>)
    requires Distinct(s)
    ensures |ToSet(s)| == |s|
  {
    if s != [] {
      Members(s[1..]);
      assert s[0] !in s[1..];
      assert ToSet(s) == ToSet(s[1..]) + {s[0]};
    }
  }
}
