/** The skip list of hard timers (src/timer.c) and the clock step that drives it (src/clock.c). */
module Timers {
  import opened Seqs
  import opened IpcList
  import opened TimerSpec

  // ---------- All rows at once ----------

  ghost predicate Ordered(rows: seq<seq<Tid>>, due: Tid -> int) {
    && SkipRows(rows)
    && Distinct(rows[|rows| - 1]) && Sorted(rows[|rows| - 1], due)
  }

  /** t is linked into the rows from lo down to the last one. */
  ghost predicate LinkedFrom(rows: seq<seq<Tid>>, t: Tid, due: Tid -> int, lo: nat, rows': seq<seq<Tid>>) {
    && |rows'| == |rows| && lo < |rows|
    && forall i :: 0 <= i < |rows| ==> rows'[i] == if i < lo then rows[i] else InsertTimer(rows[i], t, due)
  }

  ghost predicate UnlinkedAll(rows: seq<seq<Tid>>, t: Tid, rows': seq<seq<Tid>>) {
    && |rows'| == |rows|
    && forall i :: 0 <= i < |rows| ==> rows'[i] == Remove(rows[i], t)
  }

  lemma RowFacts(rows: seq<seq<Tid>>, due: Tid -> int, i: nat)
    requires Ordered(rows, due) && i < |rows|
    ensures Sorted(rows[i], due) && Distinct(rows[i])
    ensures Members(rows[i]) <= Members(rows[|rows| - 1])
  {
    var bottom := rows[|rows| - 1];
    assert IsRow(bottom, rows[i]);
    RestrictSorted(bottom, Members(rows[i]), due);
    RestrictMembers(bottom, Members(rows[i]));
  }

  lemma InsertMembers(row: seq<Tid>, t: Tid, due: Tid -> int)
    requires Distinct(row) && t !in row
    ensures Members(InsertTimer(row, t, due)) == Members(row) + {t}
  {
    SuspendAdds(row, t, Prio, due);
  }

  lemma RemoveMembers(row: seq<Tid>, t: Tid)
    requires Distinct(row)
    ensures Members(Remove(row, t)) == Members(row) - {t}
  {
    RemoveElements(row, t);
  }

  lemma LinkRow(rows: seq<seq<Tid>>, t: Tid, due: Tid -> int, i: nat, linked: bool, row: seq<Tid>)
    requires Ordered(rows, due) && t !in rows[|rows| - 1] && i < |rows|
    requires row == if linked then InsertTimer(rows[i], t, due) else rows[i]
    ensures Members(row) == if linked then Members(rows[i]) + {t} else Members(rows[i])
    ensures IsRow(InsertTimer(rows[|rows| - 1], t, due), row)
  {
    var n := |rows| - 1;
    RowFacts(rows, due, i);
    assert t !in Members(rows[i]) && IsRow(rows[n], rows[i]);
    if linked {
      InsertMembers(rows[i], t, due);
      RestrictInsert(rows[n], t, due, Members(rows[i]));
    } else {
      RestrictSkip(rows[n], t, due, Members(rows[i]));
    }
  }

  ghost predicate GrownBy(rows: seq<seq<Tid>>, t: Tid, lo: nat, rows': seq<seq<Tid>>) {
    && |rows'| == |rows|
    && forall i {:trigger Members(rows'[i])} ::
         0 <= i < |rows| ==> Members(rows'[i]) == if i < lo then Members(rows[i]) else Members(rows[i]) + {t}
  }

  lemma LinkMembers(rows: seq<seq<Tid>>, t: Tid, due: Tid -> int, lo: nat, rows': seq<seq<Tid>>)
    requires Ordered(rows, due) && t !in rows[|rows| - 1] && LinkedFrom(rows, t, due, lo, rows')
    ensures GrownBy(rows, t, lo, rows')
    ensures forall i {:trigger IsRow(rows'[|rows| - 1], rows'[i])} :: 0 <= i < |rows| ==>
              IsRow(rows'[|rows| - 1], rows'[i])
  {
    forall i | 0 <= i < |rows|
      ensures IsRow(rows'[|rows| - 1], rows'[i])
      ensures Members(rows'[i]) == if i < lo then Members(rows[i]) else Members(rows[i]) + {t}
    {
      LinkRow(rows, t, due, i, i >= lo, rows'[i]);
    }
  }

  lemma LinkSkips(rows: seq<seq<Tid>>, t: Tid, lo: nat, rows': seq<seq<Tid>>)
    requires SkipRows(rows) && GrownBy(rows, t, lo, rows')
    requires forall i {:trigger IsRow(rows'[|rows| - 1], rows'[i])} :: 0 <= i < |rows| ==>
              IsRow(rows'[|rows| - 1], rows'[i])
    ensures SkipRows(rows')
  {
  }

  lemma LinkSorts(list: seq<Tid>, t: Tid, due: Tid -> int)
    requires Distinct(list) && Sorted(list, due) && t !in list
    ensures Distinct(InsertTimer(list, t, due)) && Sorted(InsertTimer(list, t, due), due)
  {
    SuspendAdds(list, t, Prio, due);
    SuspendSorts(list, t, due);
  }

  /** Linking a timer into the lower rows keeps every row a subsequence of the one below, and the
      last row is the sorted list with the timer behind its equals. */
  lemma LinkKeeps(rows: seq<seq<Tid>>, t: Tid, due: Tid -> int, lo: nat, rows': seq<seq<Tid>>)
    requires Ordered(rows, due) && t !in rows[|rows| - 1] && LinkedFrom(rows, t, due, lo, rows')
    ensures Ordered(rows', due)
    ensures rows'[|rows| - 1] == InsertTimer(rows[|rows| - 1], t, due)
  {
    LinkMembers(rows, t, due, lo, rows');
    LinkSkips(rows, t, lo, rows');
    LinkSorts(rows[|rows| - 1], t, due);
  }

  lemma UnlinkRow(rows: seq<seq<Tid>>, t: Tid, due: Tid -> int, i: nat)
    requires Ordered(rows, due) && i < |rows|
    ensures Members(Remove(rows[i], t)) == Members(rows[i]) - {t}
    ensures IsRow(Remove(rows[|rows| - 1], t), Remove(rows[i], t))
  {
    var n := |rows| - 1;
    RowFacts(rows, due, i);
    assert IsRow(rows[n], rows[i]);
    RemoveMembers(rows[i], t);
    RestrictRemove(rows[n], t, Members(rows[i]));
  }

  lemma UnlinkKeeps(rows: seq<seq<Tid>>, t: Tid, due: Tid -> int, rows': seq<seq<Tid>>)
    requires Ordered(rows, due) && UnlinkedAll(rows, t, rows')
    ensures Ordered(rows', due) && t !in rows'[|rows| - 1]
  {
    var n := |rows| - 1;
    RemoveElements(rows[n], t);
    RemoveSorted(rows[n], t, due);
    forall i | 0 <= i < |rows|
      ensures IsRow(rows'[n], rows'[i])
      ensures Members(rows'[i]) == Members(rows[i]) - {t}
    {
      UnlinkRow(rows, t, due, i);
    }
  }

  /** The order among the linked timers does not depend on the deadlines of others. */
  lemma SameDeadlines(rows: seq<seq<Tid>>, due: Tid -> int, due': Tid -> int)
    requires Ordered(rows, due) && forall x :: x in rows[|rows| - 1] ==> due(x) == due'(x)
    ensures Ordered(rows, due')
  {
  }

  // ---------- The timer list ----------

  /** The position in a sorted row is where "not later" turns into "later". */
  lemma PositionIs(row: seq<Tid>, t: Tid, due: Tid -> int, c: nat)
    requires Sorted(row, due) && c <= |row|
    requires c > 0 ==> due(row[c - 1]) <= due(t)
    requires c < |row| ==> due(t) < due(row[c])
    ensures Position(row, t, due) == c
  {
    PositionMeans(row, t, due, Position(row, t, due));
  }

  /** The timeout ticks of these timers are their deadlines modulo 2^32, and tick comparison with
      the deadline d is meaningful. */
  ghost predicate Comparable(row: seq<Tid>, timeoutTick: map<Tid, int>, due: Tid -> int, d: int) {
    forall x {:trigger due(x)} :: x in row ==>
        x in timeoutTick && timeoutTick[x] == due(x) % U32 && -HALF <= due(x) - d < HALF
  }

  ghost predicate FoundAt(row: seq<Tid>, t: Tid, due: Tid -> int, c: nat) {
    c == Position(row, t, due)
  }

  ghost predicate AllFound(rows: seq<seq<Tid>>, heads: seq<nat>, t: Tid, due: Tid -> int) {
    |heads| <= |rows| && forall i {:trigger heads[i]} :: 0 <= i < |heads| ==> FoundAt(rows[i], t, due, heads[i])
  }

  /** The inner search loop of rt_timer_start: from counts the timers of the row already passed. */
  method FindInRow(row: seq<Tid>, from: nat, timeoutTick: map<Tid, int>, timeout: int, ghost t: Tid,
                   ghost due: Tid -> int)
    returns (c: nat)
    requires Sorted(row, due) && Comparable(row, timeoutTick, due, due(t)) && timeout == due(t) % U32
    requires from <= |row| && (from > 0 ==> due(row[from - 1]) <= due(t))
    ensures c <= |row| && (c > 0 ==> due(row[c - 1]) <= due(t)) && FoundAt(row, t, due, c)
  {
    c := from;
    while c < |row|
      invariant from <= c <= |row| && (c > 0 ==> due(row[c - 1]) <= due(t))
    {
      var x := row[c];
      assert due(x) == due(row[c]) && x in row;
      TickOrder(due(x), due(t));
      if TickDiff(timeoutTick[x], timeout) == 0 {
        c := c + 1;
        continue;
      } else if TickDiff(timeoutTick[x], timeout) < HALF {
        break;
      }
      c := c + 1;
    }
    PositionIs(row, t, due, c);
  }

  method IndexIn(row: seq<Tid>, x: Tid) returns (k: nat)
    requires x in row
    ensures k < |row| && row[k] == x
  {
    k := 0;
    while row[k] != x
      invariant k < |row| && x in row[k..]
      decreases |row| - k
    {
      k := k + 1;
    }
  }

  lemma RowReady(rows: seq<seq<Tid>>, timeoutTick: map<Tid, int>, due: Tid -> int, d: int, i: nat)
    requires Ordered(rows, due) && Comparable(rows[|rows| - 1], timeoutTick, due, d) && i < |rows|
    ensures Sorted(rows[i], due) && Comparable(rows[i], timeoutTick, due, d)
  {
    RowFacts(rows, due, i);
    forall x | x in rows[i]
      ensures x in timeoutTick && timeoutTick[x] == due(x) % U32 && -HALF <= due(x) - d < HALF
    {
      assert x in Members(rows[i]);
    }
  }

  lemma RowBelow(rows: seq<seq<Tid>>, i: nat)
    requires SkipRows(rows) && i + 1 < |rows|
    ensures Members(rows[i]) <= Members(rows[i + 1])
  {
  }

  /** From the position in one row to the same node in the row below it. */
  method Descend(row: seq<Tid>, below: seq<Tid>, c: nat, ghost t: Tid, ghost due: Tid -> int) returns (from: nat)
    requires Members(row) <= Members(below) && c <= |row| && (c > 0 ==> due(row[c - 1]) <= due(t))
    ensures from <= |below| && (from > 0 ==> due(below[from - 1]) <= due(t))
  {
    if c == 0 {
      return 0;
    }
    assert row[c - 1] in Members(row);
    var k := IndexIn(below, row[c - 1]);
    from := k + 1;
  }

  /** The outer search loop of rt_timer_start: one position per row, each search starting at the
      node found in the row above. */
  method FindPositions(rows: seq<seq<Tid>>, timeoutTick: map<Tid, int>, timeout: int, ghost t: Tid,
                       ghost due: Tid -> int)
    returns (heads: seq<nat>)
    requires Ordered(rows, due) && Comparable(rows[|rows| - 1], timeoutTick, due, due(t)) && timeout == due(t) % U32
    ensures |heads| == |rows| && AllFound(rows, heads, t, due)
  {
    heads := [];
    var from: nat := 0;
    var lvl := 0;
    while lvl < |rows|
      invariant lvl == |heads| <= |rows|
      invariant AllFound(rows, heads, t, due)
      invariant lvl < |rows| ==> from <= |rows[lvl]| && (from > 0 ==> due(rows[lvl][from - 1]) <= due(t))
    {
      assert Sorted(rows[lvl], due) && Comparable(rows[lvl], timeoutTick, due, due(t)) by {
        RowReady(rows, timeoutTick, due, due(t), lvl);
      }
      var c := FindInRow(rows[lvl], from, timeoutTick, timeout, t, due);
      heads := heads + [c];
      if lvl + 1 < |rows| {
        RowBelow(rows, lvl);
        from := Descend(rows[lvl], rows[lvl + 1], c, t, due);
      }
      lvl := lvl + 1;
    }
  }

  lemma InsertIs(row: seq<Tid>, t: Tid, due: Tid -> int, c: nat)
    requires FoundAt(row, t, due, c)
    ensures c <= |row| && InsertTimer(row, t, due) == InsertAt(row, c, t)
  {
  }

  /** The highest row that the insertion counter reaches, going up one row for every two zero bits
      (RT_TIMER_SKIP_LIST_MASK is 3). */
  function Reach(row: nat, tst: nat): nat {
    if row == 0 || tst % 4 != 0 then row else Reach(row - 1, tst / 4)
  }

  /** The linking part of rt_timer_start: the last row always, and the rows above it that the insertion
      counter reaches. */
  method LinkRows(rows: seq<seq<Tid>>, heads: seq<nat>, t: Tid, random: nat, ghost due: Tid -> int)
    returns (linked: seq<seq<Tid>>)
    requires |rows| > 0 && |heads| == |rows| && AllFound(rows, heads, t, due)
    ensures LinkedFrom(rows, t, due, Reach(|rows| - 1, random), linked)
  {
    var n := |rows| - 1;
    ghost var lo := n;
    InsertIs(rows[n], t, due, heads[n]);
    linked := rows[n := InsertAt(rows[n], heads[n], t)];
    var tst, lvl := random, 2;
    while lvl <= |rows|
      invariant 2 <= lvl <= |rows| + 1 && lo == |rows| - lvl + 1
      invariant LinkedFrom(rows, t, due, lo, linked) && Reach(n, random) == Reach(lo, tst)
    {
      if tst % 4 != 0 {
        break;
      }
      var i := |rows| - lvl;
      InsertIs(rows[i], t, due, heads[i]);
      linked := linked[i := InsertAt(linked[i], heads[i], t)];
      lo := i;
      tst := tst / 4;
      lvl := lvl + 1;
    }
  }

  /** _rt_timer_remove */
  method UnlinkRows(rows: seq<seq<Tid>>, t: Tid) returns (unlinked: seq<seq<Tid>>)
    ensures UnlinkedAll(rows, t, unlinked)
  {
    unlinked := rows;
    var i := 0;
    while i < |rows|
      invariant 0 <= i <= |rows| == |unlinked|
      invariant forall j :: 0 <= j < |rows| ==> unlinked[j] == if j < i then Remove(rows[j], t) else rows[j]
    {
      unlinked := unlinked[i := Remove(unlinked[i], t)];
      i := i + 1;
    }
  }
}
