/** Regions cut into consecutive blocks.

    A region is described by the increasing sequence b of the offsets at which its blocks start;
    the last offset is where the region ends (both allocators keep a permanent sentinel block
    there).  Block i covers b[i] up to b[i + 1].
  */
module Tiles {
  import opened Seqs
  import opened Rings

  /** Word aligned. */
  ghost predicate Word(x: int) {
    x % 4 == 0
  }

  /** The blocks tile the region from 0 to end, each at least min bytes long and word aligned. */
  ghost predicate Tiling(b: seq<int>, min: int, end: int) {
    && |b| >= 2 && b[0] == 0 && b[|b| - 1] == end
    && (forall i, j :: 0 <= i < j < |b| ==> b[i] + min <= b[j])
    && (forall i {:trigger Word(b[i])} :: 0 <= i < |b| ==> Word(b[i]))
  }

  /** p holds between each offset and the one that follows it. */
  ghost predicate Adjacent(b: seq<int>, p: (int, int) -> bool) {
    forall i, j :: 0 <= i < |b| && j == i + 1 < |b| ==> p(b[i], b[j])
  }

  lemma AdjacentInsert(b: seq<int>, p: (int, int) -> bool, q: (int, int) -> bool, k: nat, x: int, r: seq<int>)
    requires Adjacent(b, p) && k < |b| - 1 && IsInsert(b, k + 1, x, r)
    requires forall i, j :: 0 <= i < |b| && j == i + 1 < |b| && i != k && p(b[i], b[j]) ==> q(b[i], b[j])
    requires q(b[k], x) && q(x, b[k + 1])
    ensures Adjacent(r, q)
  {
    forall i, j | 0 <= i < |r| && j == i + 1 < |r| ensures q(r[i], r[j]) {
      if i < k {
        assert p(b[i], b[j]);
      } else if i > k + 1 {
        assert p(b[i - 1], b[j - 1]);
      }
    }
  }

  lemma AdjacentDrop(b: seq<int>, p: (int, int) -> bool, q: (int, int) -> bool, k: nat, r: seq<int>)
    requires Adjacent(b, p) && 0 < k < |b| - 1 && IsDrop(b, k, r)
    requires forall i, j :: 0 <= i < |b| && j == i + 1 < |b| && i != k && j != k && p(b[i], b[j]) ==> q(b[i], b[j])
    requires q(b[k - 1], b[k + 1])
    ensures Adjacent(r, q)
  {
    forall i, j | 0 <= i < |r| && j == i + 1 < |r| ensures q(r[i], r[j]) {
      if i < k - 1 {
        assert p(b[i], b[j]);
      } else if i > k - 1 {
        assert p(b[i + 1], b[j + 1]);
      }
    }
  }

  lemma TilingInsert(b: seq<int>, min: int, end: int, k: nat, x: int, r: seq<int>)
    requires Tiling(b, min, end) && k < |b| - 1 && min >= 0 && IsInsert(b, k + 1, x, r)
    requires b[k] + min <= x && x + min <= b[k + 1] && Word(x)
    ensures Tiling(r, min, end)
  {
    forall i | 0 <= i < |r| ensures Word(r[i]) {
      assert i <= k ==> Word(b[i]);
      assert i > k + 1 ==> Word(b[i - 1]);
    }
    GapsInsert(b, min, k, x, r);
  }

  lemma GapsInsert(b: seq<int>, min: int, k: nat, x: int, r: seq<int>)
    requires forall i, j :: 0 <= i < j < |b| ==> b[i] + min <= b[j]
    requires k < |b| - 1 && min >= 0 && IsInsert(b, k + 1, x, r) && b[k] + min <= x && x + min <= b[k + 1]
    ensures forall i, j :: 0 <= i < j < |r| ==> r[i] + min <= r[j]
  {
    forall i, j | 0 <= i < j < |r| ensures r[i] + min <= r[j] {
      assert i < k ==> b[i] + min <= b[k];
      assert j > k + 2 ==> b[k + 1] + min <= b[j - 1];
    }
  }

  lemma TilingDrop(b: seq<int>, min: int, end: int, k: nat, r: seq<int>)
    requires Tiling(b, min, end) && 0 < k < |b| - 1 && IsDrop(b, k, r)
    ensures Tiling(r, min, end)
  {
    forall i | 0 <= i < |r| ensures Word(r[i]) {
      assert Word(b[if i < k then i else i + 1]);
    }
  }

  lemma TilingIsDistinct(b: seq<int>, min: int, end: int)
    requires Tiling(b, min, end) && min > 0
    ensures Distinct(b)
  {
  }

  /** The summed weight of the first n blocks. */
  ghost function SumTo(b: seq<int>, w: (int, int) -> int, n: nat): int
    requires n < |b|
  {
    if n == 0 then 0 else SumTo(b, w, n - 1) + w(b[n - 1], b[n])
  }

  /** The summed weight of all blocks. */
  ghost function Sum(b: seq<int>, w: (int, int) -> int): int
    requires |b| > 0
  {
    SumTo(b, w, |b| - 1)
  }

  /** A sum of weights that are not negative is at least each of them. */
  lemma {:induction false} SumAtLeast(b: seq<int>, w: (int, int) -> int, k: nat, n: nat)
    requires k < n < |b| && forall i :: 0 <= i < n ==> w(b[i], b[i + 1]) >= 0
    ensures w(b[k], b[k + 1]) <= SumTo(b, w, n) && SumTo(b, w, n) >= 0
  {
    if k < n - 1 {
      SumAtLeast(b, w, k, n - 1);
    } else {
      SumNotNegative(b, w, n - 1);
    }
  }

  lemma {:induction false} SumNotNegative(b: seq<int>, w: (int, int) -> int, n: nat)
    requires n < |b| && forall i :: 0 <= i < n ==> w(b[i], b[i + 1]) >= 0
    ensures SumTo(b, w, n) >= 0
  {
    if n > 0 {
      SumNotNegative(b, w, n - 1);
    }
  }

  lemma {:induction false} SumPrefix(b: seq<int>, r: seq<int>, w: (int, int) -> int, n: nat)
    requires n < |b| && n < |r| && forall i :: 0 <= i <= n ==> b[i] == r[i]
    ensures SumTo(b, w, n) == SumTo(r, w, n)
  {
    if n > 0 {
      SumPrefix(b, r, w, n - 1);
    }
  }

  /** Cutting block k in two at x. */
  lemma {:induction false} SumInsertTo(b: seq<int>, w: (int, int) -> int, k: nat, x: int, r: seq<int>, n: nat)
    requires IsInsert(b, k + 1, x, r) && k < n < |b|
    ensures SumTo(r, w, n + 1) == SumTo(b, w, n) - w(b[k], b[k + 1]) + w(b[k], x) + w(x, b[k + 1])
  {
    if n == k + 1 {
      SumPrefix(b, r, w, k);
      assert SumTo(r, w, k + 2) == SumTo(r, w, k + 1) + w(r[k + 1], r[k + 2]);
      assert SumTo(r, w, k + 1) == SumTo(r, w, k) + w(r[k], r[k + 1]);
    } else {
      SumInsertTo(b, w, k, x, r, n - 1);
    }
  }

  lemma SumInsert(b: seq<int>, w: (int, int) -> int, k: nat, x: int, r: seq<int>)
    requires IsInsert(b, k + 1, x, r) && k < |b| - 1
    ensures Sum(r, w) == Sum(b, w) - w(b[k], b[k + 1]) + w(b[k], x) + w(x, b[k + 1])
  {
    SumInsertTo(b, w, k, x, r, |b| - 1);
  }

  /** Joining block k with the block in front of it. */
  lemma SumDrop(b: seq<int>, w: (int, int) -> int, k: nat, r: seq<int>)
    requires IsDrop(b, k, r) && 0 < k < |b| - 1
    ensures Sum(r, w) == Sum(b, w) + w(b[k - 1], b[k + 1]) - w(b[k - 1], b[k]) - w(b[k], b[k + 1])
  {
    assert IsInsert(r, k, b[k], b);
    SumInsert(r, w, k - 1, b[k], b);
  }

  /** Changing the weight of block k only. */
  lemma {:induction false} SumChangeTo(b: seq<int>, w: (int, int) -> int, v: (int, int) -> int, k: nat, n: nat)
    requires k < |b| - 1 && n < |b|
    requires forall i, j :: 0 <= i < |b| - 1 && j == i + 1 && i != k ==> w(b[i], b[j]) == v(b[i], b[j])
    ensures SumTo(b, v, n) == SumTo(b, w, n) + (if k < n then v(b[k], b[k + 1]) - w(b[k], b[k + 1]) else 0)
  {
    if n > 0 {
      SumChangeTo(b, w, v, k, n - 1);
    }
  }
}
