/** The first-fit heap of src/mem.c.

    Addresses are offsets from heap_ptr.  blocks are the offsets of the block headers in address order,
    the permanent end block last; used are the ones whose used flag is set.  RT_ALIGN_SIZE is 4.
  */
module SmallMemSpec {
  import opened Options
  import opened Rings
  import opened Tiles

  const HEADER := 12        // SIZEOF_STRUCT_MEM
  const MIN_SIZE := 12
  const U32 := 0x1_0000_0000

  /** size is mem_size_aligned. */
  datatype Mem = Mem(blocks: seq<int>, used: set<int>, lfree: int, usedMem: int, maxMem: int, size: int)

  /** RT_ALIGN on rt_size_t. */
  function Align(n: nat): nat {
    (n + 3) / 4 * 4 % U32
  }

  function Max(a: int, b: int): int {
    if a < b then b else a
  }

  // ---------- Operations ----------

  predicate Fits(m: Mem, k: nat, size: int)
    requires k + 1 < |m.blocks|
  {
    m.blocks[k] !in m.used && m.blocks[k + 1] - (m.blocks[k] + HEADER) >= size
  }

  /** The search loop of rt_malloc from block k on. */
  function Search(m: Mem, k: nat, size: int): Option<nat>
    decreases |m.blocks| - k
  {
    if k + 1 >= |m.blocks| || m.blocks[k] >= m.size - size then None
    else if Fits(m, k, size) then Some(k)
    else Search(m, k + 1, size)
  }

  /** The lowest free block from block k on, or the end block. */
  function NextFree(blocks: seq<int>, used: set<int>, k: nat): int
    requires k < |blocks|
    decreases |blocks| - k
  {
    if k + 1 == |blocks| || blocks[k] !in used then blocks[k] else NextFree(blocks, used, k + 1)
  }

  /** Block k is taken, cut if the rest can hold a block of its own. */
  ghost function Cut(m: Mem, k: nat, size: int): seq<int>
    requires k + 1 < |m.blocks|
  {
    if m.blocks[k + 1] - (m.blocks[k] + HEADER) >= size + HEADER + MIN_SIZE
    then Insert(m.blocks, k + 1, m.blocks[k] + HEADER + size) else m.blocks
  }

  ghost function Take(m: Mem, k: nat, size: int): Mem
    requires k + 1 < |m.blocks|
  {
    var blocks, used := Cut(m, k, size), m.used + {m.blocks[k]};
    var usedMem := m.usedMem + (blocks[k + 1] - m.blocks[k]);
    m.(blocks := blocks, used := used, usedMem := usedMem, maxMem := Max(m.maxMem, usedMem),
       lfree := if m.lfree == m.blocks[k] then NextFree(blocks, used, k) else m.lfree)
  }

  ghost function Malloc(m: Mem, n: nat): (Option<int>, Mem)
    requires m.lfree in m.blocks
  {
    var size := Align(n);
    if n == 0 || size > m.size then (None, m)
    else
      var need := Max(size, MIN_SIZE);
      match Search(m, IndexOf(m.blocks, m.lfree), need)
      case None => (None, m)
      case Some(k) => if k + 1 < |m.blocks| then (Some(m.blocks[k] + HEADER), Take(m, k, need)) else (None, m)
  }

  /** The forward half of plug_holes: block k swallows a free successor that is not the end. */
  ghost function PlugForward(m: Mem, k: nat): Mem
    requires k < |m.blocks|
  {
    if k + 2 < |m.blocks| && m.blocks[k + 1] !in m.used then
      m.(blocks := Drop(m.blocks, k + 1), lfree := if m.lfree == m.blocks[k + 1] then m.blocks[k] else m.lfree)
    else m
  }

  /** The backward half: a free predecessor swallows block k. */
  ghost function PlugBackward(m: Mem, k: nat): Mem
    requires k < |m.blocks|
  {
    if k > 0 && m.blocks[k - 1] !in m.used then
      m.(blocks := Drop(m.blocks, k), lfree := if m.lfree == m.blocks[k] then m.blocks[k - 1] else m.lfree)
    else m
  }

  /** plug_holes. */
  ghost function Plug(m: Mem, k: nat): Mem
    requires k < |m.blocks|
    ensures k < |PlugForward(m, k).blocks|
  {
    PlugBackward(PlugForward(m, k), k)
  }

  /** rt_free before plug_holes. */
  ghost function Unuse(m: Mem, k: nat): Mem
    requires k + 1 < |m.blocks|
  {
    var x := m.blocks[k];
    m.(used := m.used - {x}, usedMem := m.usedMem - (m.blocks[k + 1] - x), lfree := if x < m.lfree then x else m.lfree)
  }

  ghost function FreeBlock(m: Mem, k: nat): Mem
    requires k + 1 < |m.blocks|
  {
    Plug(Unuse(m, k), k)
  }

  /** The data size of block k. */
  ghost function SizeOf(m: Mem, k: nat): int
    requires k + 1 < |m.blocks|
  {
    m.blocks[k + 1] - m.blocks[k] - HEADER
  }

  /** rt_realloc cutting a used block in place; lfree is left to plug_holes. */
  ghost function Shrink(m: Mem, k: nat, size: int): Mem
    requires k + 1 < |m.blocks|
  {
    var x := m.blocks[k] + HEADER + size;
    Plug(m.(blocks := Insert(m.blocks, k + 1, x), usedMem := m.usedMem - (SizeOf(m, k) - size)), k + 1)
  }

  // ---------- The invariant ----------

  ghost predicate IsTiled(m: Mem) {
    && m.size >= MIN_SIZE && Word(m.size) && Tiling(m.blocks, 16, m.size + HEADER)
    && m.size + HEADER in m.used
    && forall x :: x in m.used ==> x in m.blocks
  }

  /** IsTiled, which proofs unfold only where they ask for it. */
  ghost predicate Tiled(m: Mem) {
    forall u {:trigger Unfolded(m, u)} :: Unfolded(m, u) ==> IsTiled(m)
  }

  predicate Unfolded(m: Mem, u: bool) {
    true
  }

  lemma TiledMeans(m: Mem)
    ensures Tiled(m) <==> IsTiled(m)
  {
    assert Unfolded(m, true);
  }

  /** No two neighbours are free. */
  ghost predicate IsPlugged(blocks: seq<int>, used: set<int>) {
    forall i, j :: 0 <= i && j == i + 1 < |blocks| ==> blocks[i] in used || blocks[j] in used
  }

  /** IsPlugged, which proofs unfold only where they ask for it. */
  ghost predicate NoHoles(blocks: seq<int>, used: set<int>) {
    forall u {:trigger Opened(blocks, u)} :: Opened(blocks, u) ==> IsPlugged(blocks, used)
  }

  predicate Opened(blocks: seq<int>, u: bool) {
    true
  }

  lemma NoHolesMeans(blocks: seq<int>, used: set<int>)
    ensures NoHoles(blocks, used) <==> IsPlugged(blocks, used)
  {
    assert Opened(blocks, true);
  }

  /** lfree is a free block, or the end block. */
  ghost predicate FreeOrEnd(m: Mem) {
    m.lfree in m.blocks && (m.lfree in m.used ==> m.lfree == m.size + HEADER)
  }

  ghost predicate Lowest(m: Mem) {
    forall x :: x in m.blocks && x !in m.used ==> m.lfree <= x
  }

  /** The span of a used block counts. */
  ghost function Weight(used: set<int>): (int, int) -> int {
    (x: int, y: int) => if x in used then y - x else 0
  }

  ghost predicate Counted(m: Mem) {
    |m.blocks| > 0 && m.usedMem == Sum(m.blocks, Weight(m.used))
  }

  ghost predicate Inv(m: Mem) {
    Tiled(m) && NoHoles(m.blocks, m.used) && FreeOrEnd(m) && Counted(m)
  }

  function Init(size: int): Mem {
    Mem([0, size + HEADER], {size + HEADER}, 0, 0, 0, size)
  }
}

/** What every operation keeps. */
module SmallMemProofs {
  import opened Seqs
  import opened Options
  import opened Rings
  import opened Tiles
  import opened SmallMemSpec

  // ---------- Used blocks and their data sizes ----------

  /** A used block starts at y and has n bytes of data. */
  ghost predicate IsOccupant(blocks: seq<int>, used: set<int>, y: int, n: int) {
    y in used && exists i, j {:trigger blocks[i], blocks[j]} ::
      0 <= i && j == i + 1 < |blocks| && blocks[i] == y && blocks[j] == y + HEADER + n
  }

  /** IsOccupant, which proofs unfold only where they ask for it. */
  ghost predicate Occupies(blocks: seq<int>, used: set<int>, y: int, n: int) {
    forall u {:trigger Seen(y, n, u)} :: Seen(y, n, u) ==> IsOccupant(blocks, used, y, n)
  }

  predicate Seen(y: int, n: int, u: bool) {
    true
  }

  lemma OccupiesMeans(blocks: seq<int>, used: set<int>, y: int, n: int)
    ensures Occupies(blocks, used, y, n) <==> IsOccupant(blocks, used, y, n)
  {
    assert Seen(y, n, true);
  }

  /** The data of a used block ends in front of the header of every used block behind it. */
  lemma OccupantsApart(m: Mem, y: int, n: int, z: int, l: int)
    requires Tiled(m) && Occupies(m.blocks, m.used, y, n) && Occupies(m.blocks, m.used, z, l) && y < z
    ensures y + HEADER + n <= z
  {
    OccupiesMeans(m.blocks, m.used, y, n);
    OccupiesMeans(m.blocks, m.used, z, l);
    TiledMeans(m);
  }

  lemma OccupiesInsert(b: seq<int>, used: set<int>, k: nat, x: int, r: seq<int>, y: int, n: int)
    requires IsInsert(b, k + 1, x, r) && k + 1 < |b| && Distinct(b) && x !in used && y != b[k]
    ensures Occupies(r, used, y, n) <==> Occupies(b, used, y, n)
  {
    OccupiesMeans(b, used, y, n);
    OccupiesMeans(r, used, y, n);
    if IsOccupant(b, used, y, n) {
      OccupiesMore(b, used, k, x, r, y, n);
    }
    if IsOccupant(r, used, y, n) {
      OccupiesLess(b, used, k, x, r, y, n);
    }
  }

  lemma OccupiesMore(b: seq<int>, used: set<int>, k: nat, x: int, r: seq<int>, y: int, n: int)
    requires IsInsert(b, k + 1, x, r) && k + 1 < |b| && y != b[k] && IsOccupant(b, used, y, n)
    ensures IsOccupant(r, used, y, n)
  {
    var i, j :| 0 <= i && j == i + 1 < |b| && b[i] == y && b[j] == y + HEADER + n;
    var d := if i < k then 0 else 1;
    assert r[i + d] == y && r[j + d] == y + HEADER + n;
  }

  lemma OccupiesLess(b: seq<int>, used: set<int>, k: nat, x: int, r: seq<int>, y: int, n: int)
    requires IsInsert(b, k + 1, x, r) && k + 1 < |b| && x !in used && y != b[k] && IsOccupant(r, used, y, n)
    ensures IsOccupant(b, used, y, n)
  {
    var i, j :| 0 <= i && j == i + 1 < |r| && r[i] == y && r[j] == y + HEADER + n;
    var d := if i < k then 0 else 1;
    assert b[i - d] == y && b[j - d] == y + HEADER + n;
  }

  lemma OccupiesDrop(b: seq<int>, used: set<int>, d: nat, r: seq<int>, y: int, n: int)
    requires IsDrop(b, d, r) && 0 < d < |b| - 1 && Distinct(b) && b[d] !in used && b[d - 1] !in used
    ensures Occupies(r, used, y, n) <==> Occupies(b, used, y, n)
  {
    OccupiesMeans(b, used, y, n);
    OccupiesMeans(r, used, y, n);
    if y in used {
      assert y != b[d] && y != b[d - 1];
      assert IsInsert(r, d, b[d], b);
      OccupiesInsert(r, used, d - 1, b[d], b, y, n);
    }
  }

  lemma OccupiesUse(b: seq<int>, used: set<int>, k: nat, y: int, n: int)
    requires Distinct(b) && k + 1 < |b|
    ensures Occupies(b, used + {b[k]}, y, n) <==>
              if y == b[k] then n == b[k + 1] - b[k] - HEADER else Occupies(b, used, y, n)
    ensures Occupies(b, used - {b[k]}, y, n) <==> y != b[k] && Occupies(b, used, y, n)
  {
    OccupiesMeans(b, used + {b[k]}, y, n);
    OccupiesMeans(b, used - {b[k]}, y, n);
    OccupiesMeans(b, used, y, n);
  }

  // ---------- Searching ----------

  lemma {:induction false} SearchIs(m: Mem, k: nat, size: int)
    requires Tiled(m) && k < |m.blocks|
    ensures Search(m, k, size) == None ==>
              forall j :: k <= j < |m.blocks| - 1 && m.blocks[j] < m.size - size ==> !Fits(m, j, size)
    ensures var r := Search(m, k, size);
            r.Some? ==> && k <= r.value < |m.blocks| - 1 && m.blocks[r.value] < m.size - size && Fits(m, r.value, size)
                        && forall j :: k <= j < r.value ==> !Fits(m, j, size)
    decreases |m.blocks| - k
  {
    TiledMeans(m);
    if k + 1 < |m.blocks| && m.blocks[k] < m.size - size && !Fits(m, k, size) {
      SearchIs(m, k + 1, size);
    }
  }

  lemma {:induction false} NextFreeIs(blocks: seq<int>, used: set<int>, k: nat)
    requires k < |blocks| && forall i, j :: 0 <= i < j < |blocks| ==> blocks[i] < blocks[j]
    ensures var r := NextFree(blocks, used, k);
            && r in blocks && r >= blocks[k] && (r in used ==> r == blocks[|blocks| - 1])
            && forall i :: k <= i < |blocks| && blocks[i] !in used ==> r <= blocks[i]
    decreases |blocks| - k
  {
    if k + 1 < |blocks| && blocks[k] in used {
      NextFreeIs(blocks, used, k + 1);
    }
  }

  // ---------- rt_malloc ----------

  lemma TileFacts(m: Mem)
    requires Tiled(m)
    ensures Distinct(m.blocks) && (forall i, j :: 0 <= i < j < |m.blocks| ==> m.blocks[i] < m.blocks[j])
  {
    TiledMeans(m);
  }

  /** A cut inside block k leaves a tiling. */
  lemma CutTiles(m: Mem, k: nat, size: int, r: seq<int>)
    requires Tiled(m) && k + 1 < |m.blocks| && size >= 4 && Word(size)
    requires m.blocks[k + 1] - (m.blocks[k] + HEADER) >= size + HEADER + 4
    requires r == Insert(m.blocks, k + 1, m.blocks[k] + HEADER + size)
    ensures Tiling(r, 16, m.size + HEADER) && r[k + 1] !in m.blocks && r[k + 1] !in m.used
    ensures forall x :: x in r <==> x in m.blocks || x == r[k + 1]
  {
    TiledMeans(m);
    var x := m.blocks[k] + HEADER + size;
    assert Word(m.blocks[k]);
    TilingInsert(m.blocks, 16, m.size + HEADER, k, x, r);
    InsertMembers(m.blocks, k + 1, x, r);
    forall i | 0 <= i < |m.blocks| ensures m.blocks[i] != x {
      assert i <= k ==> m.blocks[i] <= m.blocks[k];
      assert i > k ==> m.blocks[k + 1] <= m.blocks[i];
    }
  }

  lemma InsertMembers(s: seq<int>, k: nat, x: int, r: seq<int>)
    requires IsInsert(s, k, x, r)
    ensures forall y :: y in r <==> y in s || y == x
  {
    forall y | y in s ensures y in r {
      var i :| 0 <= i < |s| && s[i] == y;
      assert r[if i < k then i else i + 1] == y;
    }
    assert r[k] == x;
  }

  /** What Take leaves of the block list. */
  lemma TakeTiles(m: Mem, k: nat, size: int, r: seq<int>)
    requires Tiled(m) && NoHoles(m.blocks, m.used) && k + 1 < |m.blocks| && Fits(m, k, size) && size >= 12 && Word(size)
    requires r == Cut(m, k, size)
    ensures Tiling(r, 16, m.size + HEADER) && r[k] == m.blocks[k] && k + 1 < |r|
    ensures (forall i :: 0 <= i <= k ==> r[i] == m.blocks[i]) && (forall x :: x in m.blocks ==> x in r)
    ensures NoHoles(r, m.used + {m.blocks[k]})
    ensures forall x :: x in r && x !in m.blocks ==> x > m.blocks[k]
  {
    TiledMeans(m);
    if r != m.blocks {
      CutTiles(m, k, size, r);
      CutHoles(m.blocks, m.used, k, r[k + 1], r);
    }
  }

  lemma CutHoles(b: seq<int>, used: set<int>, k: nat, x: int, r: seq<int>)
    requires NoHoles(b, used) && k + 1 < |b| && b[k] !in used && IsInsert(b, k + 1, x, r)
    ensures NoHoles(r, used + {b[k]})
  {
    NoHolesMeans(b, used);
    NoHolesMeans(r, used + {b[k]});
    forall i, j | 0 <= i && j == i + 1 < |r| ensures r[i] in used + {b[k]} || r[j] in used + {b[k]} {
      if i < k {
        assert b[i] in used || b[j] in used;
      } else if i > k + 1 {
        assert b[i - 1] in used || b[j - 1] in used;
      } else {
        assert b[k] in used || b[k + 1] in used;
      }
    }
  }

  /** Marking block k used adds its span. */
  lemma SumUse(b: seq<int>, used: set<int>, k: nat)
    requires Distinct(b) && k + 1 < |b| && b[k] !in used
    ensures Sum(b, Weight(used + {b[k]})) == Sum(b, Weight(used)) + (b[k + 1] - b[k])
  {
    var w, v := Weight(used), Weight(used + {b[k]});
    forall i, j | 0 <= i < |b| - 1 && j == i + 1 && i != k ensures w(b[i], b[j]) == v(b[i], b[j]) {
      assert b[i] != b[k];
    }
    SumChangeTo(b, w, v, k, |b| - 1);
  }

  lemma CutCounts(b: seq<int>, used: set<int>, k: nat, x: int, r: seq<int>)
    requires IsInsert(b, k + 1, x, r) && k + 1 < |b| && b[k] !in used && x !in used
    ensures Sum(r, Weight(used)) == Sum(b, Weight(used))
  {
    SumInsert(b, Weight(used), k, x, r);
  }

  lemma TakeCounts(m: Mem, k: nat, size: int, r: seq<int>)
    requires Tiled(m) && Counted(m) && k + 1 < |m.blocks| && Fits(m, k, size) && size >= 12 && Word(size)
    requires r == Cut(m, k, size) && Tiling(r, 16, m.size + HEADER) && k + 1 < |r| && r[k] == m.blocks[k]
    ensures Sum(r, Weight(m.used + {m.blocks[k]})) == m.usedMem + (r[k + 1] - m.blocks[k])
  {
    TiledMeans(m);
    if r != m.blocks {
      CutTiles(m, k, size, r);
      CutCounts(m.blocks, m.used, k, r[k + 1], r);
    }
    TilingIsDistinct(r, 16, m.size + HEADER);
    SumUse(r, m.used, k);
  }

  ghost predicate Grows(b: seq<int>) {
    forall i, j :: 0 <= i < j < |b| ==> b[i] < b[j]
  }

  /** lfree moves on to the next free block when the block it named is taken. */
  lemma TakeFree(b: seq<int>, used: set<int>, k: nat, lfree: int, r: seq<int>, end: int)
    requires k + 1 < |r| && b != [] && Grows(b) && Grows(r) && r[|r| - 1] == end && k < |b| && r[k] == b[k]
    requires b[k] !in used && lfree in b && (lfree in used ==> lfree == end)
    requires (forall i :: 0 <= i <= k ==> r[i] == b[i]) && (forall x :: x in b ==> x in r)
    requires forall x :: x in r && x !in b ==> x > b[k]
    ensures var used' := used + {b[k]};
            var lfree' := if lfree == b[k] then NextFree(r, used', k) else lfree;
            && lfree' in r && (lfree' in used' ==> lfree' == end)
            && ((forall x :: x in b && x !in used ==> lfree <= x) ==> forall x :: x in r && x !in used' ==> lfree' <= x)
  {
    var used' := used + {b[k]};
    if lfree == b[k] {
      NextFreeIs(r, used', k);
      if forall x :: x in b && x !in used ==> lfree <= x {
        forall i | 0 <= i < k ensures r[i] in used' {
          assert b[i] in b && b[i] < b[k];
        }
      }
    }
  }

  lemma TakeLfree(m: Mem, k: nat, size: int)
    requires Tiled(m) && NoHoles(m.blocks, m.used) && FreeOrEnd(m)
    requires k + 1 < |m.blocks| && Fits(m, k, size) && size >= 12 && Word(size)
    ensures FreeOrEnd(Take(m, k, size)) && (Lowest(m) ==> Lowest(Take(m, k, size)))
  {
    TiledMeans(m);
    var r := Take(m, k, size).blocks;
    TakeTiles(m, k, size, r);
    assert Grows(r) && Grows(m.blocks);
    TakeFree(m.blocks, m.used, k, m.lfree, r, m.size + HEADER);
  }

  /** Taking a free block that fits keeps the invariant, and keeps lfree the lowest free block. */
  lemma TakeKeeps(m: Mem, k: nat, size: int)
    requires Inv(m) && k + 1 < |m.blocks| && Fits(m, k, size) && size >= 12 && Word(size)
    ensures Inv(Take(m, k, size)) && (Lowest(m) ==> Lowest(Take(m, k, size)))
  {
    TakeLfree(m, k, size);
    TakeShape(m, k, size);
  }

  lemma TakeShape(m: Mem, k: nat, size: int)
    requires Tiled(m) && NoHoles(m.blocks, m.used) && Counted(m)
    requires k + 1 < |m.blocks| && Fits(m, k, size) && size >= 12 && Word(size)
    ensures var m' := Take(m, k, size); Tiled(m') && NoHoles(m'.blocks, m'.used) && Counted(m')
  {
    var m' := Take(m, k, size);
    TakeTiles(m, k, size, m'.blocks);
    TakeStaysTiled(m, k, m');
    TakeCounts(m, k, size, m'.blocks);
  }

  lemma TakeStaysTiled(m: Mem, k: nat, m': Mem)
    requires Tiled(m) && k < |m.blocks| && m'.size == m.size && m'.used == m.used + {m.blocks[k]}
    requires Tiling(m'.blocks, 16, m.size + HEADER) && forall x :: x in m.blocks ==> x in m'.blocks
    ensures Tiled(m')
  {
    TiledMeans(m);
    TiledMeans(m');
    assert m.blocks[k] in m.blocks;
  }

  lemma TakeOccupies(m: Mem, k: nat, size: int, y: int, n: int)
    requires Inv(m) && k + 1 < |m.blocks| && Fits(m, k, size) && size >= 12 && Word(size)
    ensures var m' := Take(m, k, size);
            && k + 1 < |m'.blocks| && m'.blocks[k + 1] - m'.blocks[k] - HEADER >= size
            && (Occupies(m'.blocks, m'.used, y, n) <==>
                  if y == m.blocks[k] then n == m'.blocks[k + 1] - m.blocks[k] - HEADER
                  else Occupies(m.blocks, m.used, y, n))
  {
    var m' := Take(m, k, size);
    TakeTiles(m, k, size, m'.blocks);
    TileFacts(m);
    OccupiesUse(m'.blocks, m.used, k, y, n);
    if m'.blocks != m.blocks && y != m.blocks[k] {
      CutTiles(m, k, size, m'.blocks);
      OccupiesInsert(m.blocks, m.used, k, m'.blocks[k + 1], m'.blocks, y, n);
    }
  }

  // ---------- rt_malloc as a whole ----------

  lemma AlignIs(n: nat)
    ensures Word(Align(n)) && Align(n) >= 0
    ensures n <= U32 - 4 ==> n <= Align(n) < n + 4
    ensures U32 - 4 < n < U32 ==> Align(n) == 0
  {
  }

  /** The block has room and lies in the part of the heap that rt_malloc searches. */
  ghost predicate Suits(m: Mem, k: nat, need: int) {
    k + 1 < |m.blocks| && m.blocks[k] < m.size - need && Fits(m, k, need)
  }

  /** Where the search starts and what it finds. */
  lemma MallocSearches(m: Mem, need: int) returns (k0: nat, r: Option<nat>)
    requires Tiled(m) && FreeOrEnd(m) && need >= MIN_SIZE && Word(need)
    ensures m.lfree in m.blocks && k0 == IndexOf(m.blocks, m.lfree) && r == Search(m, k0, need)
    ensures r.Some? ==> Suits(m, r.value, need) && m.blocks[r.value] >= m.lfree
    ensures r == None ==> forall k :: 0 <= k < |m.blocks| && m.blocks[k] >= m.lfree ==> !Suits(m, k, need)
    ensures r.Some? ==> forall k :: 0 <= k < r.value && m.blocks[k] >= m.lfree ==> !Suits(m, k, need)
  {
    k0 := IndexOf(m.blocks, m.lfree);
    r := Search(m, k0, need);
    SearchIs(m, k0, need);
    assert Grows(m.blocks) by { TileFacts(m); }
  }

  lemma NeedIs(n: nat)
    ensures Max(Align(n), MIN_SIZE) >= MIN_SIZE && Max(Align(n), MIN_SIZE) >= Align(n) && Word(Max(Align(n), MIN_SIZE))
  {
    AlignIs(n);
  }

  /** rt_malloc keeps the invariant in any reachable heap, and keeps lfree the lowest free block. */
  lemma MallocKeeps(m: Mem, n: nat)
    requires Inv(m)
    ensures m.lfree in m.blocks
    ensures var (r, m') := Malloc(m, n); Inv(m') && (Lowest(m) ==> Lowest(m')) && (r == None ==> m' == m)
  {
    if n != 0 && Align(n) <= m.size {
      NeedIs(n);
      var k0, r := MallocSearches(m, Max(Align(n), MIN_SIZE));
      if r.Some? {
        TakeKeeps(m, r.value, Max(Align(n), MIN_SIZE));
      }
    }
  }

  /** First fit: no suitable block lies between lfree and the block that rt_malloc hands out. */
  lemma MallocFirst(m: Mem, n: nat, k: nat)
    requires Inv(m) && m.lfree in m.blocks && Malloc(m, n).0.Some?
    requires k < |m.blocks| && m.lfree <= m.blocks[k] < Malloc(m, n).0.value - HEADER
    ensures !Suits(m, k, Max(Align(n), MIN_SIZE))
  {
    NeedIs(n);
    var k0, r := MallocSearches(m, Max(Align(n), MIN_SIZE));
    assert Distinct(m.blocks) && Grows(m.blocks) by { TileFacts(m); }
    assert k < r.value && k >= k0 by { GrowsOnly(m.blocks, k, r.value); GrowsOnly(m.blocks, k0, k); }
  }

  lemma GrowsOnly(b: seq<int>, i: nat, j: nat)
    requires Grows(b) && i < |b| && j < |b|
    ensures b[i] < b[j] <==> i < j
  {
  }

  /** rt_malloc fails exactly when the size is zero or too large, or no block from lfree on is suitable. */
  lemma MallocIs(m: Mem, n: nat)
    requires Inv(m)
    ensures m.lfree in m.blocks
    ensures Malloc(m, n).0 == None <==>
              n == 0 || Align(n) > m.size ||
              forall k :: 0 <= k < |m.blocks| && m.blocks[k] >= m.lfree ==> !Suits(m, k, Max(Align(n), MIN_SIZE))
  {
    if n != 0 && Align(n) <= m.size {
      NeedIs(n);
      var k0, r := MallocSearches(m, Max(Align(n), MIN_SIZE));
    }
  }

  /** While lfree is the lowest free block, rt_malloc of a nonzero size that passes the size check fails
      exactly when no free block below mem_size_aligned - size has room. */
  lemma MallocFails(m: Mem, n: nat)
    requires Inv(m) && Lowest(m) && n > 0 && Align(n) <= m.size
    ensures Malloc(m, n).0 == None <==> forall k :: 0 <= k < |m.blocks| ==> !Suits(m, k, Max(Align(n), MIN_SIZE))
  {
    MallocIs(m, n);
    var need := Max(Align(n), MIN_SIZE);
    forall k | 0 <= k < |m.blocks| && m.blocks[k] < m.lfree ensures !Suits(m, k, need) {
      assert m.blocks[k] in m.blocks;
    }
  }

  /** A successful rt_malloc adds one used block, which was free, and leaves the others as they are;
      the block has at least the aligned size. */
  lemma MallocGives(m: Mem, n: nat) returns (l: int)
    requires Inv(m) && Malloc(m, n).0.Some?
    ensures var (r, m') := Malloc(m, n); var y := r.value - HEADER;
            && l >= Align(n) && l >= MIN_SIZE && y !in m.used
            && forall z, d :: Occupies(m'.blocks, m'.used, z, d) <==>
                Occupies(m.blocks, m.used, z, d) || (z == y && d == l)
  {
    var need := Max(Align(n), MIN_SIZE);
    NeedIs(n);
    var k0, found := MallocSearches(m, need);
    var k := found.value;
    var m' := Take(m, k, need);
    TakeOccupies(m, k, need, 0, 0);
    l := m'.blocks[k + 1] - m'.blocks[k] - HEADER;
    forall z, d
      ensures Occupies(m'.blocks, m'.used, z, d) <==> Occupies(m.blocks, m.used, z, d) || (z == m.blocks[k] && d == l)
    {
      TakeOccupies(m, k, need, z, d);
      TakeTiles(m, k, need, m'.blocks);
    }
  }

  // ---------- plug_holes ----------

  lemma SameTiles(m: Mem, m': Mem)
    requires Tiled(m) && m'.blocks == m.blocks && m'.used == m.used && m'.size == m.size
    ensures Tiled(m')
  {
    TiledMeans(m);
    TiledMeans(m');
  }

  /** Free neighbours only around block k. */
  ghost predicate HolesAt(blocks: seq<int>, used: set<int>, k: nat) {
    forall i, j :: 0 <= i && j == i + 1 < |blocks| && i != k && j != k ==> blocks[i] in used || blocks[j] in used
  }

  lemma DropTiles(m: Mem, d: nat, r: seq<int>)
    requires Tiled(m) && 0 < d < |m.blocks| - 1 && r == Drop(m.blocks, d) && m.blocks[d] !in m.used
    ensures Tiled(m.(blocks := r))
    ensures forall x :: x in r <==> x in m.blocks && x != m.blocks[d]
  {
    TiledMeans(m);
    TiledMeans(m.(blocks := r));
    TilingDrop(m.blocks, 16, m.size + HEADER, d, r);
    TilingIsDistinct(m.blocks, 16, m.size + HEADER);
    DropDistinct(m.blocks, d, r);
  }

  lemma DropCounts(b: seq<int>, used: set<int>, d: nat, r: seq<int>)
    requires IsDrop(b, d, r) && 0 < d < |b| - 1 && b[d] !in used && b[d - 1] !in used
    ensures Sum(r, Weight(used)) == Sum(b, Weight(used))
  {
    SumDrop(b, Weight(used), d, r);
  }

  lemma ForwardKeeps(m: Mem, k: nat)
    requires Tiled(m) && Counted(m) && FreeOrEnd(m) && HolesAt(m.blocks, m.used, k)
    requires k + 1 < |m.blocks| && m.blocks[k] !in m.used
    ensures var m' := PlugForward(m, k);
            && Tiled(m') && Counted(m') && FreeOrEnd(m') && m'.used == m.used
            && k + 1 < |m'.blocks| && m'.blocks[k] == m.blocks[k]
            && HolesAt(m'.blocks, m.used, k) && m'.blocks[k + 1] in m.used
            && (Lowest(m) ==> Lowest(m'))
  {
    var m' := PlugForward(m, k);
    if k + 2 < |m.blocks| && m.blocks[k + 1] !in m.used {
      ForwardDrops(m, k, m'.blocks);
      SameTiles(m.(blocks := m'.blocks), m');
      MergeLfree(m, m.blocks[k + 1], m.blocks[k], m');
    } else {
      EndUsed(m, k);
    }
  }

  lemma EndUsed(m: Mem, k: nat)
    requires Tiled(m) && k + 1 < |m.blocks| && !(k + 2 < |m.blocks| && m.blocks[k + 1] !in m.used)
    ensures m.blocks[k + 1] in m.used
  {
    TiledMeans(m);
  }

  /** lfree when the free block gone has been swallowed by the free block into in front of it. */
  lemma MergeLfree(m: Mem, gone: int, into: int, m': Mem)
    requires FreeOrEnd(m) && gone !in m.used && into !in m.used && into < gone && into in m.blocks
    requires m'.used == m.used && m'.size == m.size && m'.lfree == if m.lfree == gone then into else m.lfree
    requires forall x :: x in m'.blocks <==> x in m.blocks && x != gone
    ensures FreeOrEnd(m') && (Lowest(m) ==> Lowest(m'))
  {
  }

  lemma ForwardDrops(m: Mem, k: nat, r: seq<int>)
    requires Tiled(m) && Counted(m) && FreeOrEnd(m) && HolesAt(m.blocks, m.used, k)
    requires k + 2 < |m.blocks| && m.blocks[k] !in m.used && m.blocks[k + 1] !in m.used
    requires r == Drop(m.blocks, k + 1)
    ensures Tiled(m.(blocks := r)) && Sum(r, Weight(m.used)) == m.usedMem && k + 1 < |r|
    ensures r[k] == m.blocks[k] && HolesAt(r, m.used, k) && r[k + 1] in m.used
    ensures forall x :: x in r <==> x in m.blocks && x != m.blocks[k + 1]
    ensures m.blocks[k] < m.blocks[k + 1]
  {
    TileFacts(m);
    DropTiles(m, k + 1, r);
    DropCounts(m.blocks, m.used, k + 1, r);
    DropHoles(m.blocks, m.used, k, r);
  }

  lemma DropHoles(b: seq<int>, used: set<int>, k: nat, r: seq<int>)
    requires HolesAt(b, used, k) && k + 2 < |b| && b[k + 1] !in used && IsDrop(b, k + 1, r)
    ensures HolesAt(r, used, k) && r[k + 1] in used
  {
    assert b[k + 1] in used || b[k + 2] in used;
    forall i, j | 0 <= i && j == i + 1 < |r| && i != k && j != k ensures r[i] in used || r[j] in used {
      if i < k {
        assert b[i] in used || b[j] in used;
      } else {
        assert b[i + 1] in used || b[j + 1] in used;
      }
    }
  }

  lemma BackwardDrops(m: Mem, k: nat, r: seq<int>)
    requires Tiled(m) && Counted(m) && HolesAt(m.blocks, m.used, k)
    requires 0 < k && k + 1 < |m.blocks| && m.blocks[k] !in m.used && m.blocks[k + 1] in m.used
    requires m.blocks[k - 1] !in m.used && r == Drop(m.blocks, k)
    ensures Tiled(m.(blocks := r)) && NoHoles(r, m.used) && Sum(r, Weight(m.used)) == m.usedMem
    ensures forall x :: x in r <==> x in m.blocks && x != m.blocks[k]
    ensures m.blocks[k - 1] < m.blocks[k] && m.blocks[k - 1] in m.blocks
  {
    TileFacts(m);
    DropTiles(m, k, r);
    DropCounts(m.blocks, m.used, k, r);
    BackHoles(m.blocks, m.used, k, r);
  }

  lemma BackwardKeeps(m: Mem, k: nat)
    requires Tiled(m) && Counted(m) && FreeOrEnd(m) && HolesAt(m.blocks, m.used, k)
    requires k + 1 < |m.blocks| && m.blocks[k] !in m.used && m.blocks[k + 1] in m.used
    ensures Inv(PlugBackward(m, k)) && (Lowest(m) ==> Lowest(PlugBackward(m, k)))
  {
    var m' := PlugBackward(m, k);
    if k > 0 && m.blocks[k - 1] !in m.used {
      BackwardDrops(m, k, m'.blocks);
      SameTiles(m.(blocks := m'.blocks), m');
      MergeLfree(m, m.blocks[k], m.blocks[k - 1], m');
    } else {
      NoneAt(m.blocks, m.used, k);
    }
  }

  lemma NoneAt(b: seq<int>, used: set<int>, k: nat)
    requires HolesAt(b, used, k) && k + 1 < |b| && b[k + 1] in used && (k > 0 ==> b[k - 1] in used)
    ensures NoHoles(b, used)
  {
    NoHolesMeans(b, used);
  }

  lemma BackHoles(b: seq<int>, used: set<int>, k: nat, r: seq<int>)
    requires HolesAt(b, used, k) && 0 < k < |b| - 1 && b[k - 1] !in used && b[k + 1] in used && IsDrop(b, k, r)
    ensures NoHoles(r, used)
  {
    NoHolesMeans(r, used);
    forall i, j | 0 <= i && j == i + 1 < |r| ensures r[i] in used || r[j] in used {
      if i < k - 1 {
        assert b[i] in used || b[j] in used;
      } else if i > k - 1 {
        assert b[i + 1] in used || b[j + 1] in used;
      }
    }
  }

  /** plug_holes restores the invariant, and keeps lfree the lowest free block. */
  lemma PlugKeeps(m: Mem, k: nat)
    requires Tiled(m) && Counted(m) && FreeOrEnd(m) && HolesAt(m.blocks, m.used, k)
    requires k + 1 < |m.blocks| && m.blocks[k] !in m.used
    ensures Inv(Plug(m, k)) && (Lowest(m) ==> Lowest(Plug(m, k)))
  {
    ForwardKeeps(m, k);
    BackwardKeeps(PlugForward(m, k), k);
  }

  lemma ForwardOccupies(m: Mem, k: nat, y: int, n: int)
    requires Tiled(m) && k + 1 < |m.blocks| && m.blocks[k] !in m.used
    ensures var m' := PlugForward(m, k);
            && (Occupies(m'.blocks, m.used, y, n) <==> Occupies(m.blocks, m.used, y, n))
            && m'.used == m.used && Tiled(m') && k + 1 < |m'.blocks| && m'.blocks[k] == m.blocks[k]
  {
    var r := PlugForward(m, k).blocks;
    if r != m.blocks {
      TileFacts(m);
      DropTiles(m, k + 1, r);
      SameTiles(m.(blocks := r), PlugForward(m, k));
      OccupiesDrop(m.blocks, m.used, k + 1, r, y, n);
    }
  }

  lemma BackwardOccupies(m: Mem, k: nat, y: int, n: int)
    requires Tiled(m) && k + 1 < |m.blocks| && m.blocks[k] !in m.used
    ensures Occupies(PlugBackward(m, k).blocks, m.used, y, n) <==> Occupies(m.blocks, m.used, y, n)
  {
    var r := PlugBackward(m, k).blocks;
    if k > 0 && m.blocks[k - 1] !in m.used {
      TileFacts(m);
      OccupiesDrop(m.blocks, m.used, k, r, y, n);
    }
  }

  /** plug_holes leaves the used blocks as they are. */
  lemma PlugOccupies(m: Mem, k: nat, y: int, n: int)
    requires Tiled(m) && k + 1 < |m.blocks| && m.blocks[k] !in m.used
    ensures Occupies(Plug(m, k).blocks, Plug(m, k).used, y, n) <==> Occupies(m.blocks, m.used, y, n)
  {
    ForwardOccupies(m, k, y, n);
    BackwardOccupies(PlugForward(m, k), k, y, n);
  }

  // ---------- rt_free ----------

  /** Block k is in the hands of a caller. */
  ghost predicate Taken(m: Mem, k: nat) {
    k + 1 < |m.blocks| && m.blocks[k] in m.used
  }

  lemma UnuseKeeps(m: Mem, k: nat)
    requires Inv(m) && Taken(m, k)
    ensures var m' := Unuse(m, k);
            && Tiled(m') && Counted(m') && FreeOrEnd(m') && HolesAt(m'.blocks, m'.used, k) && m'.blocks[k] !in m'.used
            && (Lowest(m) ==> Lowest(m'))
  {
    NoHolesMeans(m.blocks, m.used);
    TiledMeans(m);
    TiledMeans(Unuse(m, k));
    var b, used := m.blocks, m.used - {m.blocks[k]};
    TileFacts(m);
    SumUse(b, used, k);
    assert used + {b[k]} == m.used;
  }

  /** rt_free of a used block keeps the invariant, and keeps lfree the lowest free block. */
  lemma FreeKeeps(m: Mem, k: nat)
    requires Inv(m) && Taken(m, k)
    ensures Inv(FreeBlock(m, k)) && (Lowest(m) ==> Lowest(FreeBlock(m, k)))
  {
    UnuseKeeps(m, k);
    PlugKeeps(Unuse(m, k), k);
  }

  /** It ends the life of that block and of no other. */
  lemma FreeOccupies(m: Mem, k: nat, y: int, n: int)
    requires Inv(m) && Taken(m, k)
    ensures var m' := FreeBlock(m, k);
            Occupies(m'.blocks, m'.used, y, n) <==> y != m.blocks[k] && Occupies(m.blocks, m.used, y, n)
  {
    UnuseKeeps(m, k);
    TileFacts(m);
    OccupiesUse(m.blocks, m.used, k, y, n);
    PlugOccupies(Unuse(m, k), k, y, n);
  }

  // ---------- Cutting a used block in place ----------

  /** rt_realloc cuts in place when the rest is worth it. */
  ghost predicate Cuts(m: Mem, k: nat, size: int) {
    Taken(m, k) && size >= 4 && Word(size) && size + HEADER + MIN_SIZE < SizeOf(m, k)
  }

  /** The heap between the cut and plug_holes. */
  ghost function Carve(m: Mem, k: nat, size: int): Mem
    requires k + 1 < |m.blocks|
  {
    m.(blocks := Insert(m.blocks, k + 1, m.blocks[k] + HEADER + size), usedMem := m.usedMem - (SizeOf(m, k) - size))
  }

  lemma CarveTiles(m: Mem, k: nat, size: int)
    requires Inv(m) && Cuts(m, k, size)
    ensures var m' := Carve(m, k, size);
            && Tiled(m') && FreeOrEnd(m') && k + 2 < |m'.blocks| && m'.blocks[k + 1] !in m'.used
            && m'.blocks[k] == m.blocks[k] && m'.blocks[k + 1] == m.blocks[k] + HEADER + size
            && m'.blocks[k + 2] == m.blocks[k + 1]
            && forall x :: x in m'.blocks <==> x in m.blocks || x == m.blocks[k] + HEADER + size
  {
    var m' := Carve(m, k, size);
    CutTiles(m, k, size, m'.blocks);
    CarveStaysTiled(m, m');
  }

  lemma CarveStaysTiled(m: Mem, m': Mem)
    requires Tiled(m) && m'.size == m.size && m'.used == m.used
    requires Tiling(m'.blocks, 16, m.size + HEADER) && forall x :: x in m.blocks ==> x in m'.blocks
    ensures Tiled(m')
  {
    TiledMeans(m);
    TiledMeans(m');
  }

  lemma CarveCounts(m: Mem, k: nat, size: int)
    requires Inv(m) && Cuts(m, k, size)
    ensures Counted(Carve(m, k, size))
  {
    var r := Carve(m, k, size).blocks;
    CutTiles(m, k, size, r);
    SumInsert(m.blocks, Weight(m.used), k, r[k + 1], r);
  }

  lemma CarveHoles(b: seq<int>, used: set<int>, k: nat, x: int, r: seq<int>)
    requires NoHoles(b, used) && k + 1 < |b| && b[k] in used && IsInsert(b, k + 1, x, r)
    ensures HolesAt(r, used, k + 1)
  {
    NoHolesMeans(b, used);
    forall i, j | 0 <= i && j == i + 1 < |r| && i != k + 1 && j != k + 1 ensures r[i] in used || r[j] in used {
      if i < k {
        assert b[i] in used || b[j] in used;
      } else {
        assert b[i - 1] in used || b[j - 1] in used;
      }
    }
  }

  lemma CarveReady(m: Mem, k: nat, size: int)
    requires Inv(m) && Cuts(m, k, size)
    ensures var m' := Carve(m, k, size);
            && Tiled(m') && Counted(m') && FreeOrEnd(m') && HolesAt(m'.blocks, m'.used, k + 1)
            && k + 2 < |m'.blocks| && m'.blocks[k + 1] !in m'.used
  {
    CarveTiles(m, k, size);
    CarveCounts(m, k, size);
    CarveHoles(m.blocks, m.used, k, m.blocks[k] + HEADER + size, Carve(m, k, size).blocks);
  }

  /** Cutting in place keeps the invariant in every reachable heap. */
  lemma ShrinkKeeps(m: Mem, k: nat, size: int)
    requires Inv(m) && Cuts(m, k, size)
    ensures Inv(Shrink(m, k, size))
  {
    CarveReady(m, k, size);
    PlugKeeps(Carve(m, k, size), k + 1);
  }

  /** Only the size of the block that is cut changes. */
  lemma ShrinkOccupies(m: Mem, k: nat, size: int, y: int, n: int)
    requires Inv(m) && Cuts(m, k, size)
    ensures var m' := Shrink(m, k, size);
            Occupies(m'.blocks, m'.used, y, n) <==>
              if y == m.blocks[k] then n == size else Occupies(m.blocks, m.used, y, n)
  {
    CarveTiles(m, k, size);
    CarveOccupies(m, k, size, y, n);
    PlugOccupies(Carve(m, k, size), k + 1, y, n);
  }

  lemma CarveOccupies(m: Mem, k: nat, size: int, y: int, n: int)
    requires Inv(m) && Cuts(m, k, size)
    ensures var m' := Carve(m, k, size);
            Occupies(m'.blocks, m'.used, y, n) <==>
              if y == m.blocks[k] then n == size else Occupies(m.blocks, m.used, y, n)
  {
    CarveTiles(m, k, size);
    var m1 := Carve(m, k, size);
    if y != m.blocks[k] {
      TileFacts(m);
      CutTiles(m, k, size, m1.blocks);
      OccupiesInsert(m.blocks, m.used, k, m1.blocks[k + 1], m1.blocks, y, n);
    } else {
      TileFacts(m1);
      OccupiesUse(m1.blocks, m1.used, k, y, n);
      assert m1.used + {y} == m1.used;
    }
  }

  /** The end result of the cut for lfree: it is left alone, or moves down from the free block behind. */
  lemma ShrinkLfree(m: Mem, k: nat, size: int)
    requires Inv(m) && Cuts(m, k, size)
    ensures var m', x := Shrink(m, k, size), m.blocks[k] + HEADER + size;
            && m'.lfree == (if m.lfree == m.blocks[k + 1] && m.blocks[k + 1] !in m.used then x else m.lfree)
            && m'.used == m.used
            && forall y :: y in m'.blocks <==> y == x || (y in m.blocks && !(y == m.blocks[k + 1] && y !in m.used))
  {
    CarveTiles(m, k, size);
    var m1 := Carve(m, k, size);
    var m2 := PlugForward(m1, k + 1);
    if m1.blocks[k + 2] !in m.used {
      EndNotFree(m1, k + 2);
      DropTiles(m1, k + 2, m2.blocks);
    }
    assert m2.blocks[k] == m.blocks[k];
  }

  lemma EndNotFree(m: Mem, k: nat)
    requires Tiled(m) && k < |m.blocks| && m.blocks[k] !in m.used
    ensures k + 1 < |m.blocks|
  {
    TiledMeans(m);
  }

  /** Cutting a block in place leaves lfree the lowest free block exactly when the block lies above
      lfree, or right in front of it with lfree a free block. */
  lemma ShrinkLowest(m: Mem, k: nat, size: int)
    requires Inv(m) && Lowest(m) && Cuts(m, k, size)
    ensures Lowest(Shrink(m, k, size)) <==>
              m.lfree < m.blocks[k] || (m.lfree == m.blocks[k + 1] && m.lfree !in m.used)
  {
    ShrinkLfree(m, k, size);
    var m', x := Shrink(m, k, size), m.blocks[k] + HEADER + size;
    CarveTiles(m, k, size);
    assert x in m'.blocks && x !in m'.used;
    LfreeBeside(m, k);
  }

  lemma LfreeBeside(m: Mem, k: nat)
    requires Inv(m) && Lowest(m) && Taken(m, k)
    ensures m.lfree < m.blocks[k] || m.lfree >= m.blocks[k + 1]
    ensures m.lfree > m.blocks[k] && m.blocks[k + 1] !in m.used ==> m.lfree == m.blocks[k + 1]
    ensures m.lfree < m.blocks[k] ==> m.lfree !in m.used
  {
    TiledMeans(m);
    var i := IndexOf(m.blocks, m.lfree);
    assert m.blocks[k + 1] in m.blocks;
    assert i < k ==> m.blocks[i] < m.blocks[k];
    assert i > k ==> m.blocks[k + 1] <= m.blocks[i];
  }

  lemma FirstRequest()
    ensures Init(100).lfree in Init(100).blocks
    ensures Malloc(Init(100), 80) == (Some(HEADER), Mem([0, 112], {0, 112}, 112, 112, 112, 100))
  {
    var m := Init(100);
    assert m.blocks[0] == 0 && IndexOf(m.blocks, 0) == 0;
    assert Search(m, 0, 80) == Some(0);
    assert NextFree([0, 112], {0, 112}, 1) == 112;
    assert Take(m, 0, 80).blocks == [0, 112] && Take(m, 0, 80).used == {0, 112};
  }

  /** A fresh heap of 100 bytes gives its only block away for a request of 80; cutting that to 16 leaves lfree at
      the end block although there is a free block. */
  lemma ShrinkLosesLfree()
    ensures var m := Mem([0, 112], {0, 112}, 112, 112, 112, 100);
            && Init(100).lfree in Init(100).blocks && Malloc(Init(100), 80) == (Some(HEADER), m)
            && Inv(m) && Lowest(m) && Cuts(m, 0, 16) && !Lowest(Shrink(m, 0, 16))
  {
    var m := Mem([0, 112], {0, 112}, 112, 112, 112, 100);
    FirstRequest();
    assert Word(m.blocks[0]) && Word(m.blocks[1]);
    assert Sum(m.blocks, Weight(m.used)) == SumTo(m.blocks, Weight(m.used), 0) + Weight(m.used)(0, 112);
    assert m.blocks[0] in m.blocks && m.blocks[1] in m.blocks;
    ShrinkLowest(m, 0, 16);
  }
}
