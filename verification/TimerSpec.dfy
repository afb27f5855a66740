/** Hard timers of src/timer.c against unwrapped time.

    The kernel keeps ticks modulo 2^32.  The specification gives every pending timer an absolute
    deadline and keeps a plain list sorted by deadline, ties in start order.
  */
module TimerSpec {
  import opened Seqs
  import opened IpcList

  const U32 := 0x1_0000_0000
  const HALF := 0x7fff_ffff     // RT_TICK_MAX / 2

  /** a - b on rt_tick_t. */
  function TickDiff(a: int, b: int): int {
    (a - b) % U32
  }

  /** The list with t inserted behind every timer that is not later than it. */
  function InsertTimer(list: seq<Tid>, t: Tid, due: Tid -> int): seq<Tid> {
    Suspend(list, t, Prio, due)
  }

  /** Tick comparison decides the order of two deadlines less than half the tick range apart. */
  lemma TickOrder(x: int, y: int)
    requires -HALF <= x - y < HALF
    ensures TickDiff(x % U32, y % U32) == 0 <==> x == y
    ensures 0 < TickDiff(x % U32, y % U32) < HALF <==> x > y
  {
    TickDiffIs(x, y);
  }

  lemma TickDiffIs(x: int, y: int)
    ensures TickDiff(x % U32, y % U32) == (x - y) % U32
  {
    var k := x / U32 - y / U32;
    assert x % U32 - y % U32 == (x - y) + (-k) * U32;
    ModShift(x - y, -k);
  }

  lemma {:induction false} ModShift(a: int, k: int)
    ensures (a + k * U32) % U32 == a % U32
    decreases if k < 0 then -k else k
  {
    if k > 0 {
      ModShift(a, k - 1);
      assert a + k * U32 == (a + (k - 1) * U32) + U32;
    } else if k < 0 {
      ModShift(a, k + 1);
      assert a + k * U32 == (a + (k + 1) * U32) - U32;
    }
  }

  // ---------- Skip rows ----------

  /** The members of s, in the order of the list. */
  function Restrict(list: seq<Tid>, s: set<Tid>): seq<Tid> {
    if list == [] then []
    else if list[0] in s then [list[0]] + Restrict(list[1..], s)
    else Restrict(list[1..], s)
  }

  ghost function Members(row: seq<Tid>): set<Tid> {
    set x | x in row
  }

  /** The row holds some of the timers of the list, in the order of the list. */
  ghost predicate IsRow(list: seq<Tid>, row: seq<Tid>) {
    row == Restrict(list, Members(row))
  }

  /** Each row is a subsequence of the row below it; the last row is the whole list. */
  ghost predicate SkipRows(rows: seq<seq<Tid>>) {
    && |rows| > 0
    && (forall i {:trigger IsRow(rows[|rows| - 1], rows[i])} :: 0 <= i < |rows| ==> IsRow(rows[|rows| - 1], rows[i]))
    && (forall i, j {:trigger Members(rows[i]), Members(rows[j])} ::
          0 <= i < |rows| && j == i + 1 < |rows| ==> Members(rows[i]) <= Members(rows[j]))
  }

  lemma {:induction false} RestrictMembers(list: seq<Tid>, s: set<Tid>)
    ensures forall x :: x in Restrict(list, s) <==> x in list && x in s
  {
    if list != [] {
      RestrictMembers(list[1..], s);
      assert forall x :: x in list <==> x == list[0] || x in list[1..];
      var r := Restrict(list[1..], s);
      assert forall x :: x in [list[0]] + r <==> x == list[0] || x in r;
    }
  }

  lemma {:induction false} RestrictSorted(list: seq<Tid>, s: set<Tid>, due: Tid -> int)
    requires Sorted(list, due) && Distinct(list)
    ensures Sorted(Restrict(list, s), due) && Distinct(Restrict(list, s))
  {
    if list != [] {
      RestrictSorted(list[1..], s, due);
      RestrictMembers(list[1..], s);
      var r := Restrict(list[1..], s);
      forall x | x in r ensures due(list[0]) <= due(x) && x != list[0] {
        assert x in list[1..];
      }
    }
  }

  lemma InsertCons(list: seq<Tid>, t: Tid, due: Tid -> int)
    ensures list == [] || due(t) < due(list[0]) ==> InsertTimer(list, t, due) == [t] + list
    ensures list != [] && due(list[0]) <= due(t) ==>
              InsertTimer(list, t, due) == [list[0]] + InsertTimer(list[1..], t, due)
  {
  }

  lemma RestrictCons(x: Tid, list: seq<Tid>, s: set<Tid>)
    ensures Restrict([x] + list, s) == if x in s then [x] + Restrict(list, s) else Restrict(list, s)
  {
    assert ([x] + list)[1..] == list;
  }

  /** Inserting into the whole list and into a row agree. */
  lemma {:induction false} RestrictInsert(list: seq<Tid>, t: Tid, due: Tid -> int, s: set<Tid>)
    requires Sorted(list, due) && t !in list
    ensures Restrict(InsertTimer(list, t, due), s + {t}) == InsertTimer(Restrict(list, s), t, due)
    decreases |list|
  {
    if list != [] && due(list[0]) <= due(t) {
      RestrictInsert(list[1..], t, due, s);
      RestrictPast(list[0], list[1..], t, due, s);
      RowPast(list[0], list[1..], t, due, s);
      assert list == [list[0]] + list[1..];
    } else {
      RestrictInsertHere(list, t, due, s);
    }
  }

  lemma RestrictInsertHere(list: seq<Tid>, t: Tid, due: Tid -> int, s: set<Tid>)
    requires Sorted(list, due) && t !in list && (list == [] || due(t) < due(list[0]))
    ensures Restrict(InsertTimer(list, t, due), s + {t}) == InsertTimer(Restrict(list, s), t, due)
  {
    InsertCons(list, t, due);
    RestrictCons(t, list, s + {t});
    RestrictSame(list, s, s + {t}, t);
    LaterThan(list, t, due, s);
  }

  /** An earlier timer in front stays in front, in the whole list and in the row. */
  lemma RestrictPast(x: Tid, rest: seq<Tid>, t: Tid, due: Tid -> int, s: set<Tid>)
    requires x != t && due(x) <= due(t)
    ensures Restrict(InsertTimer([x] + rest, t, due), s + {t}) ==
              (if x in s then [x] else []) + Restrict(InsertTimer(rest, t, due), s + {t})
  {
    InsertPast(x, rest, t, due);
    RestrictCons(x, InsertTimer(rest, t, due), s + {t});
  }

  lemma RowPast(x: Tid, rest: seq<Tid>, t: Tid, due: Tid -> int, s: set<Tid>)
    requires due(x) <= due(t)
    ensures InsertTimer(Restrict([x] + rest, s), t, due) ==
              (if x in s then [x] else []) + InsertTimer(Restrict(rest, s), t, due)
  {
    RestrictCons(x, rest, s);
    if x in s {
      InsertPast(x, Restrict(rest, s), t, due);
    }
  }

  lemma InsertPast(x: Tid, row: seq<Tid>, t: Tid, due: Tid -> int)
    requires due(x) <= due(t)
    ensures InsertTimer([x] + row, t, due) == [x] + InsertTimer(row, t, due)
  {
    InsertCons([x] + row, t, due);
    assert ([x] + row)[1..] == row;
  }

  /** A timer that is not linked into a row leaves the row as it is. */
  lemma {:induction false} RestrictSkip(list: seq<Tid>, t: Tid, due: Tid -> int, s: set<Tid>)
    requires t !in s
    ensures Restrict(InsertTimer(list, t, due), s) == Restrict(list, s)
    decreases |list|
  {
    InsertCons(list, t, due);
    if list != [] && due(list[0]) <= due(t) {
      RestrictSkip(list[1..], t, due, s);
      RestrictCons(list[0], InsertTimer(list[1..], t, due), s);
    } else {
      RestrictCons(t, list, s);
    }
  }

  lemma {:induction false} RestrictSame(list: seq<Tid>, s: set<Tid>, s': set<Tid>, t: Tid)
    requires t !in list && forall x :: x != t ==> (x in s <==> x in s')
    ensures Restrict(list, s) == Restrict(list, s')
  {
    if list != [] {
      RestrictSame(list[1..], s, s', t);
    }
  }

  /** If t is earlier than everything in the list it is earlier than everything in a row. */
  lemma LaterThan(list: seq<Tid>, t: Tid, due: Tid -> int, s: set<Tid>)
    requires Sorted(list, due) && (list == [] || due(t) < due(list[0]))
    ensures InsertTimer(Restrict(list, s), t, due) == [t] + Restrict(list, s)
  {
    RestrictMembers(list, s);
    var r := Restrict(list, s);
    if r != [] {
      assert r[0] in list;
    }
    InsertCons(r, t, due);
  }

  lemma {:induction false} RestrictRemove(list: seq<Tid>, t: Tid, s: set<Tid>)
    requires Distinct(list)
    ensures Restrict(Remove(list, t), s - {t}) == Remove(Restrict(list, s), t)
  {
    if list != [] {
      RestrictRemove(list[1..], t, s);
      if list[0] == t {
        assert t !in list[1..];
        RestrictSame(list[1..], s, s - {t}, t);
        RestrictMembers(list[1..], s);
        RemoveAbsent(Restrict(list[1..], s), t);
      }
    }
  }
}
