/** The first-fit heap with its linked block headers (src/mem.c:108-185, 263-601). */
module SmallMemObject {
  import opened Options
  import opened Memory
  import opened Rings
  import opened Tiles
  import opened SmallMemSpec
  import opened SmallMemProofs
  import opened SmallMemRuns

  predicate NextAt(next: map<int, int>, b: seq<int>, i: int) {
    0 <= i && i + 1 < |b| ==> b[i] in next && next[b[i]] == b[i + 1]
  }

  predicate PrevAt(prev: map<int, int>, b: seq<int>, i: int) {
    0 < i && i + 1 < |b| ==> b[i] in prev && prev[b[i]] == b[i - 1]
  }

  /** The headers spell out the block list.  prev of the end block is not kept up to date. */
  ghost predicate IsLinked(next: map<int, int>, prev: map<int, int>, b: seq<int>) {
    && |b| >= 2 && Grows(b)
    && (forall i {:trigger NextAt(next, b, i)} :: NextAt(next, b, i))
    && (forall i {:trigger PrevAt(prev, b, i)} :: PrevAt(prev, b, i))
    && b[|b| - 1] in next && next[b[|b| - 1]] == b[|b| - 1]
    && b[0] in prev && prev[b[0]] == b[0]
  }

  /** IsLinked, which proofs unfold only where they ask for it. */
  ghost predicate Linked(next: map<int, int>, prev: map<int, int>, b: seq<int>) {
    forall u {:trigger Looked(b, u)} :: Looked(b, u) ==> IsLinked(next, prev, b)
  }

  predicate Looked(b: seq<int>, u: bool) {
    true
  }

  lemma LinkedMeans(next: map<int, int>, prev: map<int, int>, b: seq<int>)
    ensures Linked(next, prev, b) <==> IsLinked(next, prev, b)
  {
    assert Looked(b, true);
  }

  lemma LinkInsert(next: map<int, int>, prev: map<int, int>, b: seq<int>, k: nat, x: int, r: seq<int>,
                   prev': map<int, int>)
    requires Linked(next, prev, b) && k + 1 < |b| && IsInsert(b, k + 1, x, r) && b[k] < x < b[k + 1]
    requires prev' == if k + 2 == |b| then prev[x := b[k]] else prev[x := b[k]][b[k + 1] := x]
    ensures Linked(next[x := b[k + 1]][b[k] := x], prev', r)
  {
    LinkedMeans(next, prev, b);
    InsertGrows(b, k, x, r);
    InsertNexts(next, prev, b, k, x, r);
    InsertPrevs(next, prev, b, k, x, r, prev');
    assert b[0] <= b[k] && r[0] == b[0];
    LinkedMeans(next[x := b[k + 1]][b[k] := x], prev', r);
  }

  lemma InsertGrows(b: seq<int>, k: nat, x: int, r: seq<int>)
    requires Grows(b) && k + 1 < |b| && IsInsert(b, k + 1, x, r) && b[k] < x < b[k + 1]
    ensures Grows(r)
  {
    forall i, j | 0 <= i < j < |r| ensures r[i] < r[j] {
      assert i <= k ==> b[i] <= b[k];
      assert j > k + 1 ==> b[k + 1] <= b[j - 1];
    }
  }

  lemma InsertPrevs(next: map<int, int>, prev: map<int, int>, b: seq<int>, k: nat, x: int, r: seq<int>,
                    prev': map<int, int>)
    requires Linked(next, prev, b) && k + 1 < |b| && IsInsert(b, k + 1, x, r) && b[k] < x < b[k + 1]
    requires prev' == if k + 2 == |b| then prev[x := b[k]] else prev[x := b[k]][b[k + 1] := x]
    ensures forall i {:trigger PrevAt(prev', r, i)} :: PrevAt(prev', r, i)
  {
    LinkedMeans(next, prev, b);
    forall i ensures PrevAt(prev', r, i) {
      if 0 < i <= k {
        assert PrevAt(prev, b, i) && b[i] <= b[k];
        assert r[i] == b[i] && r[i - 1] == b[i - 1];
      } else if k + 2 < i && i + 1 < |r| {
        assert PrevAt(prev, b, i - 1) && b[k + 1] < b[i - 1];
        assert r[i] == b[i - 1] && r[i - 1] == b[i - 2];
      }
    }
  }

  lemma InsertNexts(next: map<int, int>, prev: map<int, int>, b: seq<int>, k: nat, x: int, r: seq<int>)
    requires Linked(next, prev, b) && k + 1 < |b| && IsInsert(b, k + 1, x, r) && b[k] < x < b[k + 1]
    ensures var next' := next[x := b[k + 1]][b[k] := x];
            && (forall i {:trigger NextAt(next', r, i)} :: NextAt(next', r, i))
            && r[|r| - 1] in next' && next'[r[|r| - 1]] == r[|r| - 1]
  {
    LinkedMeans(next, prev, b);
    var next' := next[x := b[k + 1]][b[k] := x];
    forall i ensures NextAt(next', r, i) {
      if 0 <= i < k {
        assert NextAt(next, b, i) && b[i] < b[k];
        assert r[i] == b[i] && r[i + 1] == b[i + 1];
      } else if k + 1 < i && i + 1 < |r| {
        assert NextAt(next, b, i - 1) && b[k] < b[i - 1] && b[k + 1] <= b[i - 1];
        assert r[i] == b[i - 1] && r[i + 1] == b[i];
      }
    }
    assert b[k + 1] <= b[|b| - 1];
  }

  lemma LinkDrop(next: map<int, int>, prev: map<int, int>, b: seq<int>, d: nat, r: seq<int>)
    requires Linked(next, prev, b) && 0 < d < |b| - 1 && IsDrop(b, d, r)
    ensures Linked(next[b[d - 1] := b[d + 1]], prev[b[d + 1] := b[d - 1]], r)
  {
    LinkedMeans(next, prev, b);
    DropGrows(b, d, r);
    DropNexts(next, prev, b, d, r);
    DropPrevs(next, prev, b, d, r);
    assert b[0] < b[d + 1] && r[0] == b[0] && b[d - 1] < b[|b| - 1] && r[|r| - 1] == b[|b| - 1];
    LinkedMeans(next[b[d - 1] := b[d + 1]], prev[b[d + 1] := b[d - 1]], r);
  }

  lemma DropNexts(next: map<int, int>, prev: map<int, int>, b: seq<int>, d: nat, r: seq<int>)
    requires Linked(next, prev, b) && 0 < d < |b| - 1 && IsDrop(b, d, r)
    ensures var next' := next[b[d - 1] := b[d + 1]]; forall i {:trigger NextAt(next', r, i)} :: NextAt(next', r, i)
  {
    LinkedMeans(next, prev, b);
    var next' := next[b[d - 1] := b[d + 1]];
    forall i ensures NextAt(next', r, i) {
      if 0 <= i < d - 1 {
        assert NextAt(next, b, i) && b[i] < b[d - 1];
        assert r[i] == b[i] && r[i + 1] == b[i + 1];
      } else if d <= i && i + 1 < |r| {
        assert NextAt(next, b, i + 1) && b[d - 1] < b[i + 1];
        assert r[i] == b[i + 1] && r[i + 1] == b[i + 2];
      }
    }
  }

  lemma DropPrevs(next: map<int, int>, prev: map<int, int>, b: seq<int>, d: nat, r: seq<int>)
    requires Linked(next, prev, b) && 0 < d < |b| - 1 && IsDrop(b, d, r)
    ensures var prev' := prev[b[d + 1] := b[d - 1]]; forall i {:trigger PrevAt(prev', r, i)} :: PrevAt(prev', r, i)
  {
    LinkedMeans(next, prev, b);
    var prev' := prev[b[d + 1] := b[d - 1]];
    forall i ensures PrevAt(prev', r, i) {
      if 0 < i < d {
        assert PrevAt(prev, b, i) && b[i] < b[d + 1];
        assert r[i] == b[i] && r[i - 1] == b[i - 1];
      } else if d < i && i + 1 < |r| {
        assert PrevAt(prev, b, i + 1) && b[d + 1] < b[i + 1];
        assert r[i] == b[i + 1] && r[i - 1] == b[i];
      }
    }
  }

  lemma DropGrows(b: seq<int>, d: nat, r: seq<int>)
    requires Grows(b) && 0 < d < |b| - 1 && IsDrop(b, d, r)
    ensures Grows(r)
  {
    forall i, j | 0 <= i < j < |r| ensures r[i] < r[j] {
      assert b[if i < d then i else i + 1] < b[if j < d then j else j + 1];
    }
  }

  lemma NextIs(next: map<int, int>, prev: map<int, int>, b: seq<int>, k: nat)
    requires Linked(next, prev, b) && k < |b|
    ensures b[k] in next && next[b[k]] == b[if k + 1 < |b| then k + 1 else k]
    ensures k + 1 < |b| ==> b[k] in prev && prev[b[k]] == b[if k > 0 then k - 1 else 0]
    ensures k + 1 < |b| ==> b[k] < b[k + 1] <= b[|b| - 1] && (b[k + 1] == b[|b| - 1] <==> k + 2 == |b|)
    ensures k > 0 ==> b[k - 1] < b[k]
  {
    LinkedMeans(next, prev, b);
    assert NextAt(next, b, k) && PrevAt(prev, b, k);
  }

  class SmallHeap {
    const size: int
    var next: map<int, int>
    var prev: map<int, int>
    var used: set<int>
    var lfree: int
    var usedMem: int
    var maxMem: int
    var data: Bytes
    ghost var blocks: seq<int>

    ghost function AsMem(): Mem
      reads this
    {
      Mem(blocks, used, lfree, usedMem, maxMem, size)
    }

    ghost predicate Valid()
      reads this
    {
      Linked(next, prev, blocks) && Inv(AsMem())
    }

    /** rt_system_heap_init for a heap of at least 12 bytes between its two headers. */
    constructor (size: int)
      requires size >= MIN_SIZE && Word(size)
      ensures Valid() && AsMem() == Init(size)
    {
      InitHolds(size);
      this.size := size;
      next := map[0 := size + HEADER, size + HEADER := size + HEADER];
      prev := map[0 := 0, size + HEADER := size + HEADER];
      used := {size + HEADER};
      lfree, usedMem, maxMem := 0, 0, 0;
      data := map[];
      blocks := [0, size + HEADER];
      new;
      LinkedMeans(next, prev, blocks);
    }

    /** The forward half of plug_holes. */
    method PlugNext(mem: int, ghost k: nat)
      requires Linked(next, prev, blocks) && k + 1 < |blocks| && blocks[k] == mem
      requires blocks[|blocks| - 1] == size + HEADER
      modifies this`next, this`prev, this`lfree, this`blocks
      ensures Linked(next, prev, blocks) && AsMem() == PlugForward(old(AsMem()), k)
    {
      NextIs(next, prev, blocks, k);
      var nmem := next[mem];
      if mem != nmem && nmem !in used && nmem != size + HEADER {
        NextIs(next, prev, blocks, k + 1);
        if lfree == nmem {
          lfree := mem;
        }
        LinkDrop(next, prev, blocks, k + 1, Drop(blocks, k + 1));
        next := next[mem := next[nmem]];
        prev := prev[next[mem] := mem];
        blocks := Drop(blocks, k + 1);
      }
    }

    /** The backward half. */
    method PlugPrev(mem: int, ghost k: nat)
      requires Linked(next, prev, blocks) && k + 1 < |blocks| && blocks[k] == mem
      modifies this`next, this`prev, this`lfree, this`blocks
      ensures Linked(next, prev, blocks) && AsMem() == PlugBackward(old(AsMem()), k)
    {
      NextIs(next, prev, blocks, k);
      var pmem := prev[mem];
      if pmem != mem && pmem !in used {
        if lfree == mem {
          lfree := pmem;
        }
        LinkDrop(next, prev, blocks, k, Drop(blocks, k));
        next := next[pmem := next[mem]];
        prev := prev[next[pmem] := pmem];
        blocks := Drop(blocks, k);
      }
    }

    /** plug_holes. */
    method PlugHoles(mem: int, ghost k: nat)
      requires Linked(next, prev, blocks) && k + 1 < |blocks| && blocks[k] == mem
      requires blocks[|blocks| - 1] == size + HEADER
      modifies this`next, this`prev, this`lfree, this`blocks
      ensures Linked(next, prev, blocks) && AsMem() == Plug(old(AsMem()), k)
    {
      ForwardShape(AsMem(), k);
      PlugNext(mem, k);
      PlugPrev(mem, k);
    }

    /** Cut block k behind size bytes of data; the rest becomes a free block. */
    method CutBlock(mem: int, bytes: int, ghost k: nat)
      requires Linked(next, prev, blocks) && k + 1 < |blocks| && blocks[k] == mem
      requires blocks[|blocks| - 1] == size + HEADER && 0 <= bytes && mem + HEADER + bytes < blocks[k + 1]
      modifies this`next, this`prev, this`blocks
      ensures Linked(next, prev, blocks) && blocks == Insert(old(blocks), k + 1, mem + HEADER + bytes)
    {
      NextIs(next, prev, blocks, k);
      var mem2 := mem + HEADER + bytes;
      ghost var next0, prev0 := next, prev;
      var behind := next[mem];
      next := next[mem2 := behind];
      prev := prev[mem2 := mem];
      next := next[mem := mem2];
      if next[mem2] != size + HEADER {
        prev := prev[next[mem2] := mem2];
      }
      ghost var r := Insert(blocks, k + 1, mem2);
      LinkInsert(next0, prev0, blocks, k, mem2, r, prev);
      blocks := r;
    }

    /** The search loop of rt_malloc. */
    method FindFit(need: int, ghost k0: nat) returns (ptr: Option<int>, ghost k: nat)
      requires Linked(next, prev, blocks) && k0 < |blocks| && blocks[k0] == lfree && need >= 0
      requires blocks[|blocks| - 1] == size + HEADER
      ensures (ptr == None <==> Search(AsMem(), k0, need) == None)
      ensures ptr.Some? ==> Search(AsMem(), k0, need) == Some(k) && k + 1 < |blocks| && ptr.value == blocks[k]
    {
      var p := lfree;
      k := k0;
      while p < size - need
        invariant k < |blocks| && p == blocks[k] && Search(AsMem(), k0, need) == Search(AsMem(), k, need)
        decreases |blocks| - k
      {
        NextIs(next, prev, blocks, k);
        assert k + 1 < |blocks|;
        if p !in used && next[p] - (p + HEADER) >= need {
          return Some(p), k;
        }
        p := next[p];
        k := k + 1;
      }
      ptr := None;
    }

    /** Find the next free block behind the taken one and update the lowest free pointer. */
    method AdvanceLfree(ghost k: nat)
      requires Linked(next, prev, blocks) && k < |blocks| && blocks[k] == lfree
      requires blocks[|blocks| - 1] == size + HEADER
      modifies this`lfree
      ensures lfree == NextFree(blocks, used, k)
    {
      ghost var i := k;
      while lfree in used && lfree != size + HEADER
        invariant i < |blocks| && lfree == blocks[i] && NextFree(blocks, used, k) == NextFree(blocks, used, i)
        decreases |blocks| - i
      {
        NextIs(next, prev, blocks, i);
        lfree := next[lfree];
        i := i + 1;
      }
      NextIs(next, prev, blocks, i);
    }

    /** The part of rt_malloc behind a successful search. */
    method TakeBlock(mem: int, need: int, ghost k: nat)
      requires Linked(next, prev, blocks) && k + 1 < |blocks| && blocks[k] == mem
      requires blocks[|blocks| - 1] == size + HEADER && need >= 0 && Fits(AsMem(), k, need)
      modifies this
      ensures Linked(next, prev, blocks) && AsMem() == Take(old(AsMem()), k, need) && data == old(data)
    {
      UseBlock(mem, need, k);
      if maxMem < usedMem {
        maxMem := usedMem;
      }
      if mem == lfree {
        AdvanceLfree(k);
      }
    }

    /** Split the block if the rest is large enough, and mark it used. */
    method UseBlock(mem: int, need: int, ghost k: nat)
      requires Linked(next, prev, blocks) && k + 1 < |blocks| && blocks[k] == mem
      requires blocks[|blocks| - 1] == size + HEADER && need >= 0 && Fits(AsMem(), k, need)
      modifies this`next, this`prev, this`blocks, this`used, this`usedMem
      ensures Linked(next, prev, blocks) && k + 1 < |blocks| && blocks[k] == mem &&
                blocks[|blocks| - 1] == size + HEADER
      ensures blocks == Cut(old(AsMem()), k, need) && used == old(used) + {mem}
      ensures usedMem == old(usedMem) + (blocks[k + 1] - mem)
    {
      NextIs(next, prev, blocks, k);
      if next[mem] - (mem + HEADER) >= need + HEADER + MIN_SIZE {
        CutBlock(mem, need, k);
        used := used + {mem};
        usedMem := usedMem + (need + HEADER);
      } else {
        used := used + {mem};
        usedMem := usedMem + (next[mem] - mem);
      }
    }

    /** rt_malloc. */
    method Malloc(n: nat) returns (r: Option<int>)
      requires Valid()
      modifies this
      ensures old(lfree) in old(blocks) && Valid() && (r, AsMem()) == SmallMemSpec.Malloc(old(AsMem()), n) &&
                data == old(data)
    {
      ghost var m := AsMem();
      MallocKeeps(m, n);
      if n == 0 {
        return None;
      }
      var need := Align(n);
      if need > size {
        return None;
      }
      NeedIs(n);
      if need < MIN_SIZE {
        need := MIN_SIZE;
      }
      LastBlock(m);
      r := Fetch(need, IndexOf(blocks, lfree));
    }

    /** Search, and take what was found. */
    method Fetch(need: int, ghost k0: nat) returns (r: Option<int>)
      requires Linked(next, prev, blocks) && Tiled(AsMem()) && k0 < |blocks| && blocks[k0] == lfree
      requires blocks[|blocks| - 1] == size + HEADER && need >= 0
      modifies this
      ensures Linked(next, prev, blocks) && data == old(data)
      ensures var found := Search(old(AsMem()), k0, need);
              if found == None then r == None && AsMem() == old(AsMem())
              else
                && found.value + 1 < |old(blocks)| && r == Some(old(blocks)[found.value] + HEADER)
                && AsMem() == Take(old(AsMem()), found.value, need)
    {
      var ptr; ghost var k: nat;
      ptr, k := FindFit(need, k0);
      if ptr == None {
        return None;
      }
      SearchIs(AsMem(), k0, need);
      TakeBlock(ptr.value, need, k);
      r := Some(ptr.value + HEADER);
    }

    /** rt_free of a block in use. */
    method FreeUsed(mem: int, ghost k: nat)
      requires Linked(next, prev, blocks) && k + 1 < |blocks| && blocks[k] == mem
      requires blocks[|blocks| - 1] == size + HEADER
      modifies this
      ensures Linked(next, prev, blocks) && AsMem() == FreeBlock(old(AsMem()), k) && data == old(data)
    {
      NextIs(next, prev, blocks, k);
      used := used - {mem};
      if mem < lfree {
        lfree := mem;
      }
      usedMem := usedMem - (next[mem] - mem);
      assert AsMem() == Unuse(old(AsMem()), k);
      PlugHoles(mem, k);
    }

    /** rt_free; the null pointer and pointers outside the heap are ignored. */
    method Free(p: Option<int>)
      requires Valid() && Usable(AsMem(), p)
      modifies this
      ensures Valid() && AsMem() == SmallMemRuns.Free(old(AsMem()), p) && data == old(data)
    {
      FreeOfKeeps(AsMem(), p);
      if p == None {
        return;
      }
      if p.value < 0 || p.value >= size + HEADER {
        return;
      }
      ghost var k := BlockOf(AsMem(), p.value);
      BlockIndex(AsMem(), p.value, k);
      FreeUsed(p.value - HEADER, k);
    }

    /** rt_realloc cutting the block in place. */
    method ShrinkInPlace(mem: int, bytes: int, ghost k: nat)
      requires Linked(next, prev, blocks) && k + 1 < |blocks| && blocks[k] == mem
      requires blocks[|blocks| - 1] == size + HEADER
      requires 0 <= bytes && bytes + HEADER + MIN_SIZE < blocks[k + 1] - mem - HEADER
      modifies this
      ensures Linked(next, prev, blocks) && AsMem() == Shrink(old(AsMem()), k, bytes) && data == old(data)
    {
      NextIs(next, prev, blocks, k);
      usedMem := usedMem - (next[mem] - mem - HEADER - bytes);
      CutBlock(mem, bytes, k);
      assert AsMem() == Carve(old(AsMem()), k, bytes);
      PlugHoles(mem + HEADER + bytes, k + 1);
    }

    /** rt_memcpy. */
    method CopyBytes(to: int, from: int, n: int)
      modifies this`data
      ensures data == Copy(old(data), to, from, n)
    {
      var i := 0;
      var source := data;
      while i < n
        invariant 0 <= i && (n <= 0 ==> i == 0) && (0 <= n ==> i <= n) && data == Copy(source, to, from, i)
      {
        if from + i in source {
          data := data[to + i := source[from + i]];
        }
        i := i + 1;
      }
    }

    /** rt_realloc. */
    method Realloc(p: Option<int>, n: nat) returns (r: Option<int>)
      requires Valid() && Usable(AsMem(), p)
      modifies this
      ensures Ready(old(AsMem()), p)
      ensures Valid() && (r, AsMem(), data) == SmallMemRuns.Realloc(old(AsMem()), old(data), p, n)
    {
      ReallocReady(AsMem(), p);
      AlignTwice(n);
      var newsize := Align(n);
      if newsize > size {
        return None;
      }
      if newsize == 0 {
        Free(p);
        return None;
      }
      if p == None {
        r := Malloc(newsize);
        return;
      }
      if p.value < 0 || p.value >= size + HEADER {
        return p;
      }
      r := Resize(p.value, newsize);
    }

    /** The rest of rt_realloc, for a pointer in use. */
    method Resize(p: int, newsize: nat) returns (r: Option<int>)
      requires Valid() && Owned(AsMem(), p) && 0 < newsize <= size && Align(newsize) == newsize
      modifies this
      ensures Ready(old(AsMem()), Some(p)) && Valid()
      ensures (r, AsMem(), data) == SmallMemRuns.Realloc(old(AsMem()), old(data), Some(p), newsize)
    {
      ghost var m, k := AsMem(), BlockOf(AsMem(), p);
      ReallocReady(m, Some(p));
      BlockIndex(m, p, k);
      ReallocIs(m, data, p, newsize, SmallMemRuns.Realloc(m, data, Some(p), newsize));
      NextIs(next, prev, blocks, k);
      var mem := p - HEADER;
      var bytes := next[mem] - mem - HEADER;
      assert bytes == SizeOf(m, k);
      if bytes == newsize {
        return Some(p);
      }
      if newsize + HEADER + MIN_SIZE < bytes {
        ResizeKeeps(m, k, newsize);
        ShrinkInPlace(mem, newsize, k);
        return Some(p);
      }
      r := MoveBlock(p, newsize, bytes);
    }

    method MoveBlock(p: int, newsize: nat, bytes: int) returns (r: Option<int>)
      requires Valid() && Owned(AsMem(), p)
      modifies this
      ensures old(lfree) in old(blocks) && Valid()
      ensures (r, AsMem(), data) == Relocate(old(AsMem()), old(data), p, bytes, newsize)
    {
      ghost var m := AsMem();
      r := Malloc(newsize);
      if r.Some? {
        StillOwned(m, newsize, p);
        CopyBytes(r.value, p, if bytes < newsize then bytes else newsize);
        Free(Some(p));
      }
    }
  }

  lemma AlignTwice(n: nat)
    ensures Align(Align(n)) == Align(n)
  {
    AlignIs(n);
    AlignSelf(Align(n));
  }

  /** What rt_realloc comes to for a pointer in use and an aligned size. */
  lemma ReallocIs(m: Mem, data: Bytes, p: int, size: nat, r: (Option<int>, Mem, Bytes))
    requires Ready(m, Some(p)) && InHeap(m, p) && Align(size) == size && 0 < size <= m.size
    requires r == SmallMemRuns.Realloc(m, data, Some(p), size)
    ensures var k := BlockOf(m, p);
            && (SizeOf(m, k) == size ==> r == (Some(p), m, data))
            && (size + HEADER + MIN_SIZE < SizeOf(m, k) ==> r == (Some(p), Shrink(m, k, size), data))
            && (SizeOf(m, k) != size && size + HEADER + MIN_SIZE >= SizeOf(m, k) ==>
                r == Relocate(m, data, p, SizeOf(m, k), size))
  {
  }

  lemma ResizeKeeps(m: Mem, k: nat, size: nat)
    requires Inv(m) && Taken(m, k) && Align(size) == size && 0 < size && size + HEADER + MIN_SIZE < SizeOf(m, k)
    ensures Inv(Shrink(m, k, size))
  {
    AlignIs(size);
    ShrinkKeeps(m, k, size);
  }

  lemma BlockIndex(m: Mem, p: int, k: nat)
    requires Inv(m) && Owned(m, p) && k == BlockOf(m, p)
    ensures InHeap(m, p) && k + 1 < |m.blocks| && m.blocks[k] == p - HEADER && m.blocks[k] in m.used
    ensures m.blocks[|m.blocks| - 1] == m.size + HEADER
  {
    OwnedTaken(m, p);
    LastBlock(m);
  }

  lemma ForwardShape(m: Mem, k: nat)
    requires k + 1 < |m.blocks|
    ensures k + 1 < |PlugForward(m, k).blocks| && PlugForward(m, k).blocks[k] == m.blocks[k]
  {
  }
}
