/** Doubly linked circular lists, as link maps.

    A structure whose items carry a next and a prev link is modelled by two maps from item to
    item.  IsRing says that the links spell out a given sequence of items; the lemmas say what
    relinking a single item does to that sequence.
  */
module Rings {
  import opened Seqs

  ghost function After(i: int, n: int): int {
    if i + 1 == n then 0 else i + 1
  }

  ghost function Before(i: int, n: int): int {
    if i == 0 then n - 1 else i - 1
  }

  ghost predicate NextLinks<T>(next: map<T, T>, s: seq<T>) {
    && (forall x :: x in s ==> x in next)
    && (forall i {:trigger next[s[i]]} :: 0 <= i < |s| ==> next[s[i]] == s[After(i, |s|)])
  }

  ghost predicate PrevLinks<T>(prev: map<T, T>, s: seq<T>) {
    && (forall x :: x in s ==> x in prev)
    && (forall i {:trigger prev[s[i]]} :: 0 <= i < |s| ==> prev[s[i]] == s[Before(i, |s|)])
  }

  ghost predicate IsRing<T>(next: map<T, T>, prev: map<T, T>, s: seq<T>) {
    |s| > 0 && Distinct(s) && NextLinks(next, s) && PrevLinks(prev, s)
  }

  /** r is s with x inserted in front of index k. */
  ghost predicate IsInsert<T>(s: seq<T>, k: nat, x: T, r: seq<T>) {
    && k <= |s| && |r| == |s| + 1
    && (forall i {:trigger r[i]} :: 0 <= i < k ==> r[i] == s[i])
    && r[k] == x
    && (forall i {:trigger r[i]} :: k < i < |r| ==> r[i] == s[i - 1])
  }

  /** r is s without the item at index k. */
  ghost predicate IsDrop<T>(s: seq<T>, k: nat, r: seq<T>) {
    && k < |s| && |r| == |s| - 1
    && (forall i {:trigger r[i]} :: 0 <= i < k ==> r[i] == s[i])
    && (forall i {:trigger r[i]} :: k <= i < |r| ==> r[i] == s[i + 1])
  }

  ghost function Insert<T>(s: seq<T>, k: nat, x: T): (r: seq<T>)
    requires k <= |s|
    ensures IsInsert(s, k, x, r)
  {
    seq(|s| + 1, i requires 0 <= i <= |s| => if i < k then s[i] else if i == k then x else s[i - 1])
  }

  ghost function Drop<T>(s: seq<T>, k: nat): (r: seq<T>)
    requires k < |s|
    ensures IsDrop(s, k, r)
  {
    seq(|s| - 1, i requires 0 <= i < |s| - 1 => if i < k then s[i] else s[i + 1])
  }

  /** The position of an item that occurs in s. */
  ghost function IndexOf<T>(s: seq<T>, x: T): (k: nat)
    requires x in s
    ensures k < |s| && s[k] == x
  {
    var k :| 0 <= k < |s| && s[k] == x;
    k
  }

  /** s without an occurrence of x. */
  ghost function Without<T>(s: seq<T>, x: T): (r: seq<T>)
    requires x in s
  {
    Drop(s, IndexOf(s, x))
  }

  lemma InsertDistinct<T>(s: seq<T>, k: nat, x: T, r: seq<T>)
    requires Distinct(s) && x !in s && IsInsert(s, k, x, r)
    ensures Distinct(r)
    ensures forall y :: y in s ==> y in r
    ensures forall y :: y in r ==> y == x || y in s
  {
    forall y | y in s ensures y in r {
      var i :| 0 <= i < |s| && s[i] == y;
      assert r[if i < k then i else i + 1] == y;
    }
  }

  lemma DropDistinct<T>(s: seq<T>, k: nat, r: seq<T>)
    requires Distinct(s) && IsDrop(s, k, r)
    ensures Distinct(r)
    ensures forall x :: x in s ==> (x in r <==> x != s[k])
    ensures forall x :: x in r ==> x in s
  {
    forall x | x in s && x != s[k] ensures x in r {
      var i :| 0 <= i < |s| && s[i] == x;
      assert r[if i < k then i else i - 1] == x;
    }
  }

  // The four lemmas below speak of the links after a change: all items but the ones named still
  // have the links of s, and the ones named have been relinked.

  lemma NextIn<T>(next: map<T, T>, s: seq<T>, k: nat, x: T, r: seq<T>)
    requires k < |s| && IsInsert(s, k + 1, x, r)
    requires (forall y :: y in s ==> y in next) && (forall y :: y in r ==> y in next)
    requires forall i {:trigger next[s[i]]} :: 0 <= i < |s| && i != k ==> next[s[i]] == s[After(i, |s|)]
    requires next[s[k]] == x && x in next && next[x] == s[After(k, |s|)]
    ensures NextLinks(next, r)
  {
    forall i | 0 <= i < |r| ensures next[r[i]] == r[After(i, |r|)] {
      if i < k + 1 {
        assert r[i] == s[i];
      } else if i > k + 1 {
        assert r[i] == s[i - 1];
      }
    }
  }

  lemma PrevIn<T>(prev: map<T, T>, s: seq<T>, k: nat, x: T, r: seq<T>)
    requires k < |s| && IsInsert(s, k + 1, x, r)
    requires (forall y :: y in s ==> y in prev) && (forall y :: y in r ==> y in prev)
    requires forall i {:trigger prev[s[i]]} :: 0 <= i < |s| && i != After(k, |s|) ==> prev[s[i]] == s[Before(i, |s|)]
    requires prev[s[After(k, |s|)]] == x && x in prev && prev[x] == s[k]
    ensures PrevLinks(prev, r)
  {
    forall i | 0 <= i < |r| ensures prev[r[i]] == r[Before(i, |r|)] {
      if i < k + 1 {
        assert r[i] == s[i];
      } else if i > k + 1 {
        assert r[i] == s[i - 1];
      }
    }
  }

  lemma NextOut<T>(next: map<T, T>, s: seq<T>, k: nat, r: seq<T>)
    requires |s| > 1 && IsDrop(s, k, r)
    requires (forall y :: y in s ==> y in next) && (forall y :: y in r ==> y in next)
    requires forall i {:trigger next[s[i]]} :: 0 <= i < |s| && i != k && i != Before(k, |s|) ==>
               next[s[i]] == s[After(i, |s|)]
    requires next[s[Before(k, |s|)]] == s[After(k, |s|)]
    ensures NextLinks(next, r)
  {
    forall i | 0 <= i < |r| ensures next[r[i]] == r[After(i, |r|)] {
      if i < k {
        assert r[i] == s[i];
      } else {
        assert r[i] == s[i + 1];
      }
    }
  }

  lemma PrevOut<T>(prev: map<T, T>, s: seq<T>, k: nat, r: seq<T>)
    requires |s| > 1 && IsDrop(s, k, r)
    requires (forall y :: y in s ==> y in prev) && (forall y :: y in r ==> y in prev)
    requires forall i {:trigger prev[s[i]]} :: 0 <= i < |s| && i != k && i != After(k, |s|) ==>
               prev[s[i]] == s[Before(i, |s|)]
    requires prev[s[After(k, |s|)]] == s[Before(k, |s|)]
    ensures PrevLinks(prev, r)
  {
    forall i | 0 <= i < |r| ensures prev[r[i]] == r[Before(i, |r|)] {
      if i < k {
        assert r[i] == s[i];
      } else {
        assert r[i] == s[i + 1];
      }
    }
  }

  /** Linking x in between the k-th item and its successor. */
  lemma InsertLinks<T>(next: map<T, T>, prev: map<T, T>, s: seq<T>, k: nat, x: T, r: seq<T>)
    requires IsRing(next, prev, s) && k < |s| && x !in s && IsInsert(s, k + 1, x, r)
    ensures s[k] in next
    ensures IsRing(next[x := next[s[k]]][s[k] := x], prev[next[s[k]] := x][x := s[k]], r)
  {
    InsertDistinct(s, k + 1, x, r);
    NextIn(next[x := next[s[k]]][s[k] := x], s, k, x, r);
    PrevIn(prev[next[s[k]] := x][x := s[k]], s, k, x, r);
  }

  /** Unlinking the k-th item: its two neighbours are linked to each other. */
  lemma DropLinks<T>(next: map<T, T>, prev: map<T, T>, s: seq<T>, k: nat, r: seq<T>)
    requires IsRing(next, prev, s) && k < |s| && |s| > 1 && IsDrop(s, k, r)
    ensures s[k] in next && s[k] in prev
    ensures IsRing(next[prev[s[k]] := next[s[k]]], prev[next[s[k]] := prev[s[k]]], r)
  {
    DropDistinct(s, k, r);
    NextOut(next[prev[s[k]] := next[s[k]]], s, k, r);
    PrevOut(prev[next[s[k]] := prev[s[k]]], s, k, r);
  }
}
