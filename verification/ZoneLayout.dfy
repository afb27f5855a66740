/** The size classes of the slab allocator and the layout of a zone (src/slab.c:401-459, 614-645). */
module ZoneLayout {

  const NZONES := 72
  const PAGE := 4096
  const HEADER := 36            // sizeof(slab_zone)
  const MIN_CHUNK := 8
  const ZONE_LIMIT := 16384

  function RoundUp(n: nat, m: nat): nat
    requires m > 0
  {
    (n + m - 1) / m * m
  }

  /** zoneindex: the class of a request, and the request rounded up to the chunk size. */
  function ZoneIndex(n: nat): (nat, nat)
    requires 1 <= n < ZONE_LIMIT
  {
    if n < 128 then (RoundUp(n, 8) / 8 - 1, RoundUp(n, 8))
    else if n < 256 then (RoundUp(n, 16) / 16 + 7, RoundUp(n, 16))
    else if n < 8192 then
      if n < 512 then (RoundUp(n, 32) / 32 + 15, RoundUp(n, 32))
      else if n < 1024 then (RoundUp(n, 64) / 64 + 23, RoundUp(n, 64))
      else if n < 2048 then (RoundUp(n, 128) / 128 + 31, RoundUp(n, 128))
      else if n < 4096 then (RoundUp(n, 256) / 256 + 39, RoundUp(n, 256))
      else (RoundUp(n, 512) / 512 + 47, RoundUp(n, 512))
    else (RoundUp(n, 1024) / 1024 + 55, RoundUp(n, 1024))
  }

  /** The chunk size of a class, from the table at the head of the source file. */
  function ChunkOf(zi: nat): nat
    requires zi < NZONES
  {
    if zi < 16 then 8 * (zi + 1)
    else if zi < 24 then 16 * (zi - 7)
    else if zi < 32 then 32 * (zi - 15)
    else if zi < 40 then 64 * (zi - 23)
    else if zi < 48 then 128 * (zi - 31)
    else if zi < 56 then 256 * (zi - 39)
    else if zi < 64 then 512 * (zi - 47)
    else 1024 * (zi - 55)
  }

  lemma ChunksGrow(i: nat, j: nat)
    requires i < j < NZONES
    ensures ChunkOf(i) < ChunkOf(j)
  {
  }

  /** A request goes to the smallest class whose chunks hold it. */
  lemma SmallestClass(n: nat)
    requires 1 <= n < ZONE_LIMIT
    ensures var (zi, bytes) := ZoneIndex(n);
            && zi < NZONES && bytes == ChunkOf(zi) && n <= bytes
            && forall j :: 0 <= j < NZONES ==> (n <= ChunkOf(j) <==> zi <= j)
  {
    var (zi, bytes) := ZoneIndex(n);
    ClassBounds(n);
    forall j | 0 <= j < NZONES ensures n <= ChunkOf(j) <==> zi <= j {
      if zi < j { ChunksGrow(zi, j); }
      if j < zi - 1 { ChunksGrow(j, zi - 1); }
    }
  }

  lemma ClassBounds(n: nat)
    requires 1 <= n < ZONE_LIMIT
    ensures var (zi, bytes) := ZoneIndex(n);
            0 <= zi < NZONES && bytes == ChunkOf(zi) && n <= bytes && (zi > 0 ==> ChunkOf(zi - 1) < n)
  {
    if n < 512 {
      SmallBounds(n);
    } else if n < 2048 {
      if n < 1024 { Bounds512(n); } else { Bounds1024(n); }
    } else if n < 8192 {
      if n < 4096 { Bounds2048(n); } else { Bounds4096(n); }
    } else {
      Bounds8192(n);
    }
  }

  lemma SmallBounds(n: nat)
    requires 1 <= n < 512
    ensures var (zi, bytes) := ZoneIndex(n);
            0 <= zi < NZONES && bytes == ChunkOf(zi) && n <= bytes && (zi > 0 ==> ChunkOf(zi - 1) < n)
  {
  }

  lemma Bounds512(n: nat)
    requires 512 <= n < 1024
    ensures var (zi, bytes) := ZoneIndex(n);
            zi < NZONES && bytes == ChunkOf(zi) && n <= bytes && (zi > 0 ==> ChunkOf(zi - 1) < n)
  {
    var q := (n + 63) / 64;
    assert ZoneIndex(n) == (q + 23, 64 * q) && 8 <= q <= 16;
  }

  lemma Bounds1024(n: nat)
    requires 1024 <= n < 2048
    ensures var (zi, bytes) := ZoneIndex(n);
            zi < NZONES && bytes == ChunkOf(zi) && n <= bytes && (zi > 0 ==> ChunkOf(zi - 1) < n)
  {
    var q := (n + 127) / 128;
    assert ZoneIndex(n) == (q + 31, 128 * q) && 8 <= q <= 16;
  }

  lemma Bounds2048(n: nat)
    requires 2048 <= n < 4096
    ensures var (zi, bytes) := ZoneIndex(n);
            zi < NZONES && bytes == ChunkOf(zi) && n <= bytes && (zi > 0 ==> ChunkOf(zi - 1) < n)
  {
    var q := (n + 255) / 256;
    assert ZoneIndex(n) == (q + 39, 256 * q) && 8 <= q <= 16;
  }

  lemma Bounds4096(n: nat)
    requires 4096 <= n < 8192
    ensures var (zi, bytes) := ZoneIndex(n);
            zi < NZONES && bytes == ChunkOf(zi) && n <= bytes && (zi > 0 ==> ChunkOf(zi - 1) < n)
  {
    var q := (n + 511) / 512;
    assert ZoneIndex(n) == (q + 47, 512 * q) && 8 <= q <= 16;
  }

  lemma Bounds8192(n: nat)
    requires 8192 <= n < 16384
    ensures var (zi, bytes) := ZoneIndex(n);
            zi < NZONES && bytes == ChunkOf(zi) && n <= bytes && (zi > 0 ==> ChunkOf(zi - 1) < n)
  {
    var q := (n + 1023) / 1024;
    assert ZoneIndex(n) == (q + 55, 1024 * q) && 8 <= q <= 16;
  }

  /** Requests of 128 bytes or more waste at most an eighth of the request, smaller ones at most seven bytes. */
  lemma Waste(n: nat)
    requires 1 <= n < ZONE_LIMIT
    ensures ZoneIndex(n).1 - n <= if n < 128 then 7 else n / 8
  {
  }

  // ---------- The layout of a zone ----------

  predicate IsPow2(n: nat) {
    n == 1 || (n > 0 && n % 2 == 0 && IsPow2(n / 2))
  }

  /** Where the chunk array starts: behind the header, aligned to the chunk size for powers of two. */
  function BaseOffset(chunk: nat): nat
    requires chunk > 0
  {
    if IsPow2(chunk) then RoundUp(HEADER, chunk) else RoundUp(HEADER, MIN_CHUNK)
  }

  function ChunkLimit(zoneSize: nat): nat {
    if zoneSize / 4 > ZONE_LIMIT then ZONE_LIMIT else zoneSize / 4
  }

  predicate IsZoneSize(zoneSize: nat) {
    zoneSize == 0x8000 || zoneSize == 0x10000 || zoneSize == 0x20000
  }

  lemma RoundUpIs(n: nat, m: nat)
    requires m > 0
    ensures n <= RoundUp(n, m) < n + m
  {
    var q := (n + m - 1) / m;
    assert n + m - 1 == q * m + (n + m - 1) % m;
  }

  /** Every zone has room for at least three chunks. */
  lemma ThreeChunks(zoneSize: nat, n: nat)
    requires IsZoneSize(zoneSize) && 1 <= n < ChunkLimit(zoneSize)
    ensures var bytes := ZoneIndex(n).1;
            && HEADER <= BaseOffset(bytes) <= zoneSize
            && (zoneSize - BaseOffset(bytes)) / bytes >= 3
  {
    var bytes := ZoneIndex(n).1;
    SmallestClass(n);
    assert 8 <= bytes <= ChunkLimit(zoneSize) by { ClassLimit(zoneSize, n); }
    OffsetBound(bytes);
    var room := zoneSize - BaseOffset(bytes);
    assert room >= 3 * bytes;
    DivAtLeast(room, bytes, 3);
  }

  lemma ClassLimit(zoneSize: nat, n: nat)
    requires IsZoneSize(zoneSize) && 1 <= n < ChunkLimit(zoneSize)
    ensures 8 <= ZoneIndex(n).1 <= ChunkLimit(zoneSize)
  {
  }

  lemma OffsetBound(chunk: nat)
    requires chunk >= 8
    ensures HEADER <= BaseOffset(chunk) <= if chunk < 64 then 72 else chunk
  {
    if IsPow2(chunk) {
      RoundUpIs(HEADER, chunk);
      if chunk >= 64 {
        DivAtLeast(HEADER + chunk - 1, chunk, 1);
        DivBelow(HEADER + chunk - 1, chunk, 2);
      } else {
        Pow2Below64(chunk);
      }
    }
  }

  lemma Pow2Below64(chunk: nat)
    requires 8 <= chunk < 64 && IsPow2(chunk)
    ensures chunk == 8 || chunk == 16 || chunk == 32
  {
    assert IsPow2(chunk / 2) && IsPow2(chunk / 4) && IsPow2(chunk / 8);
    assert chunk / 8 % 2 == 0 || chunk / 8 == 1;
  }

  lemma MulGrows(p: nat, q: nat, b: nat)
    ensures p <= q ==> p * b <= q * b
  {
  }

  lemma DivAtLeast(a: nat, b: nat, q: nat)
    requires b > 0 && a >= q * b
    ensures a / b >= q
  {
    assert a == a / b * b + a % b;
    MulGrows(a / b + 1, q, b);
  }

  lemma DivBelow(a: nat, b: nat, q: nat)
    requires b > 0 && a < q * b
    ensures a / b < q
  {
    assert a == a / b * b + a % b;
    MulGrows(q, a / b, b);
  }
}
