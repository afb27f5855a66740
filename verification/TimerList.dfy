/** rt_timer_start, rt_timer_stop and rt_timer_check on the skip rows, and the clock tick that calls
    the check, proved against the unwrapped clock of TimerRuns.
  */
module TimerList {
  import opened Seqs
  import opened IpcList
  import opened TimerSpec
  import opened TimerRuns
  import opened Timers

  function Bottom(rows: seq<seq<Tid>>): seq<Tid>
    requires |rows| > 0
  {
    rows[|rows| - 1]
  }

  /** Every linked timer's timeout_tick is its deadline modulo 2^32. */
  ghost predicate Stamped(list: seq<Tid>, timeoutTick: map<Tid, int>, due: Tid -> int) {
    forall x {:trigger due(x)} {:trigger timeoutTick[x]} :: x in list ==>
        x in timeoutTick && timeoutTick[x] == due(x) % U32
  }

  ghost predicate Near(list: seq<Tid>, due: Tid -> int, d: int) {
    forall x {:trigger due(x)} :: x in list ==> -HALF <= due(x) - d < HALF
  }

  lemma TickAdd(tick: int, now: int, d: int)
    requires tick == now % U32
    ensures (tick + d) % U32 == (now + d) % U32
  {
    assert now + d == (tick + d) + (now / U32) * U32;
    ModShift(tick + d, now / U32);
  }

  // ---------- The firing loop ----------

  /** After the first |fired| of the k due timers have fired: the other due ones, then the rest with
      the periodic ones inserted again. */
  ghost predicate Progress(c: Clock, u: Setup, fired: seq<Tid>, list: seq<Tid>) {
    var k := |Firing(c)|;
    && |fired| <= k && fired == c.list[..|fired|]
    && list == c.list[|fired|..k] + Reentered(c, u, fired)
  }

  ghost function Reentered(c: Clock, u: Setup, fired: seq<Tid>): seq<Tid> {
    Rearm(c.list[|Firing(c)|..], fired, Rearmed(c.due, Firing(c), c.now + 1, u), u)
  }

  lemma ProgressStarts(c: Clock, u: Setup)
    ensures Progress(c, u, [], c.list)
  {
    var k := |Firing(c)|;
    assert c.list == c.list[..k] + c.list[k..];
  }

  /** The timers inserted again are in the future, and all of them belong to the original list. */
  lemma ReenteredLater(c: Clock, u: Setup, fired: seq<Tid>)
    requires Inv(c) && Restartable(c, u) && |fired| <= |Firing(c)| && fired == c.list[..|fired|]
    ensures forall x :: x in Reentered(c, u, fired) ==>
              x in c.list && Rearmed(c.due, fired, c.now + 1, u)(x) > c.now + 1
    ensures forall x :: x in Reentered(c, u, fired) ==>
                          Rearmed(c.due, fired, c.now + 1, u)(x) == Rearmed(c.due, Firing(c), c.now + 1, u)(x)
  {
    ReenteredMembers(c, u, fired);
    FiringIs(c);
    assert forall x :: x in fired ==> x in Firing(c);
  }

  lemma ReenteredMembers(c: Clock, u: Setup, fired: seq<Tid>)
    requires Inv(c) && Restartable(c, u) && |fired| <= |Firing(c)| && fired == c.list[..|fired|]
    ensures forall x :: x in Reentered(c, u, fired) <==> x in c.list[|Firing(c)|..] || (x in fired && u.repeats(x))
  {
    FiringIs(c);
    var all := Firing(c);
    assert fired == all[..|fired|];
    RestSorted(c.list[|all|..], all, c.due, c.now + 1, u);
    RearmKeeps(c.list[|all|..], fired, Rearmed(c.due, all, c.now + 1, u), u);
  }

  /** The head of the list is due exactly while some due timer has not fired. */
  lemma ProgressHead(c: Clock, u: Setup, fired: seq<Tid>, list: seq<Tid>)
    requires Inv(c) && Restartable(c, u) && Progress(c, u, fired, list) && list != []
    ensures list[0] in c.list
    ensures |fired| < |Firing(c)| ==> list[0] == c.list[|fired|]
    ensures |fired| < |Firing(c)| <==> Rearmed(c.due, fired, c.now + 1, u)(list[0]) <= c.now + 1
  {
    ReenteredLater(c, u, fired);
    if |fired| < |Firing(c)| {
      InvMeans(c);
      assert list[0] == c.list[|fired|] && list[0] !in fired;
      LeadingMeans(c.list, c.due, c.now + 1, |Firing(c)|);
    } else {
      assert list[0] in Reentered(c, u, fired);
    }
  }

  lemma ProgressMembers(c: Clock, u: Setup, fired: seq<Tid>, list: seq<Tid>)
    requires Inv(c) && Restartable(c, u) && Progress(c, u, fired, list)
    ensures forall x :: x in list ==> x in c.list
  {
    ReenteredLater(c, u, fired);
  }

  lemma {:induction false} PositionBehind(front: seq<Tid>, list: seq<Tid>, t: Tid, due: Tid -> int)
    requires forall x :: x in front ==> due(x) <= due(t)
    ensures Position(front + list, t, due) == |front| + Position(list, t, due)
  {
    if front == [] {
      assert front + list == list;
    } else {
      assert front[0] in front;
      PositionBehind(front[1..], list, t, due);
      assert (front + list)[1..] == front[1..] + list;
    }
  }

  /** Insertion passes every timer that is not later. */
  lemma InsertBehind(front: seq<Tid>, list: seq<Tid>, t: Tid, due: Tid -> int)
    requires forall x :: x in front ==> due(x) <= due(t)
    ensures InsertTimer(front + list, t, due) == front + InsertTimer(list, t, due)
  {
    PositionBehind(front, list, t, due);
    InsertedBehind(front, list, Position(list, t, due), t);
  }

  lemma InsertedBehind(front: seq<Tid>, list: seq<Tid>, k: nat, t: Tid)
    requires k <= |list|
    ensures InsertAt(front + list, |front| + k, t) == front + InsertAt(list, k, t)
  {
    var r, r' := InsertAt(front + list, |front| + k, t), InsertAt(list, k, t);
    InsertedAt(front + list, |front| + k, t, r);
    InsertedAt(list, k, t, r');
    assert forall i :: 0 <= i < |r| ==> r[i] == (front + r')[i];
  }

  lemma {:induction false} InsertSame(list: seq<Tid>, t: Tid, due: Tid -> int, due': Tid -> int)
    requires due(t) == due'(t) && forall x :: x in list ==> due(x) == due'(x)
    ensures InsertTimer(list, t, due) == InsertTimer(list, t, due')
  {
    PositionSame(list, t, due, due');
  }

  lemma {:induction false} PositionSame(list: seq<Tid>, t: Tid, due: Tid -> int, due': Tid -> int)
    requires due(t) == due'(t) && forall x :: x in list ==> due(x) == due'(x)
    ensures Position(list, t, due) == Position(list, t, due')
  {
    if list != [] {
      assert list[0] in list;
      PositionSame(list[1..], t, due, due');
    }
  }

  lemma RearmSnoc(list: seq<Tid>, fired: seq<Tid>, t: Tid, due: Tid -> int, u: Setup)
    ensures Rearm(list, fired + [t], due, u) ==
              if u.repeats(t) then InsertTimer(Rearm(list, fired, due, u), t, due) else Rearm(list, fired, due, u)
  {
    assert (fired + [t])[..|fired|] == fired;
  }

  lemma RemoveHead(list: seq<Tid>)
    requires list != []
    ensures Remove(list, list[0]) == list[1..]
  {
  }

  lemma ProgressOnce(c: Clock, u: Setup, fired: seq<Tid>, list: seq<Tid>)
    requires Inv(c) && Progress(c, u, fired, list) && |fired| < |Firing(c)| && !u.repeats(list[0])
    ensures Progress(c, u, fired + [list[0]], list[1..])
  {
    ProgressTail(c, u, fired, list);
    ReenteredSnoc(c, u, fired, list[0]);
  }

  lemma ProgressAgain(c: Clock, u: Setup, fired: seq<Tid>, list: seq<Tid>, t: Tid, due: Tid -> int, list': seq<Tid>)
    requires Inv(c) && Restartable(c, u) && Progress(c, u, fired, list) && |fired| < |Firing(c)|
    requires t == list[0] && u.repeats(t) && due == Rearmed(c.due, fired + [t], c.now + 1, u)
    requires list' == InsertTimer(list[1..], t, due)
    ensures Progress(c, u, fired + [t], list')
  {
    var front, rest := c.list[|fired| + 1..|Firing(c)|], Reentered(c, u, fired);
    ProgressTail(c, u, fired, list);
    AgainInserts(c, u, fired, t, front, rest);
    ReenteredSnoc(c, u, fired, t);
    assert fired + [t] == c.list[..|fired| + 1];
  }

  lemma ProgressTail(c: Clock, u: Setup, fired: seq<Tid>, list: seq<Tid>)
    requires Progress(c, u, fired, list) && |fired| < |Firing(c)|
    ensures list != [] && list[0] == c.list[|fired|]
    ensures list[1..] == c.list[|fired| + 1..|Firing(c)|] + Reentered(c, u, fired)
  {
  }

  lemma ReenteredSnoc(c: Clock, u: Setup, fired: seq<Tid>, t: Tid)
    ensures Reentered(c, u, fired + [t]) ==
              if u.repeats(t) then InsertTimer(Reentered(c, u, fired), t, Rearmed(c.due, Firing(c), c.now + 1, u))
              else Reentered(c, u, fired)
  {
    RearmSnoc(c.list[|Firing(c)|..], fired, t, Rearmed(c.due, Firing(c), c.now + 1, u), u);
  }

  lemma AgainInserts(c: Clock, u: Setup, fired: seq<Tid>, t: Tid, front: seq<Tid>, rest: seq<Tid>)
    requires Inv(c) && Restartable(c, u) && |fired| < |Firing(c)| && fired == c.list[..|fired|]
    requires t == c.list[|fired|] && u.repeats(t)
    requires front == c.list[|fired| + 1..|Firing(c)|] && rest == Reentered(c, u, fired)
    ensures InsertTimer(front + rest, t, Rearmed(c.due, fired + [t], c.now + 1, u)) ==
              front + InsertTimer(rest, t, Rearmed(c.due, Firing(c), c.now + 1, u))
  {
    var due := Rearmed(c.due, fired + [t], c.now + 1, u);
    forall x | x in front ensures due(x) <= c.now + 1 {
      FrontNotLater(c, u, fired, x);
    }
    RestAgrees(c, u, fired, t);
    AgainLists(front, rest, t, due, Rearmed(c.due, Firing(c), c.now + 1, u));
  }

  lemma AgainLists(front: seq<Tid>, rest: seq<Tid>, t: Tid, due: Tid -> int, all: Tid -> int)
    requires forall x :: x in front ==> due(x) <= due(t)
    requires due(t) == all(t) && forall x :: x in rest ==> due(x) == all(x)
    ensures InsertTimer(front + rest, t, due) == front + InsertTimer(rest, t, all)
  {
    InsertBehind(front, rest, t, due);
    InsertSame(rest, t, due, all);
  }

  lemma FrontNotLater(c: Clock, u: Setup, fired: seq<Tid>, x: Tid)
    requires Inv(c) && |fired| < |Firing(c)| && fired == c.list[..|fired|] && x in c.list[|fired| + 1..|Firing(c)|]
    ensures Rearmed(c.due, fired + [c.list[|fired|]], c.now + 1, u)(x) <= c.now + 1
  {
    FiringIs(c);
    assert x in Firing(c);
  }

  lemma RestAgrees(c: Clock, u: Setup, fired: seq<Tid>, t: Tid)
    requires Inv(c) && Restartable(c, u) && |fired| < |Firing(c)| && fired == c.list[..|fired|] && t == c.list[|fired|]
    ensures var due, all := Rearmed(c.due, fired + [t], c.now + 1, u), Rearmed(c.due, Firing(c), c.now + 1, u);
            due(t) == all(t) && forall x :: x in Reentered(c, u, fired) ==> due(x) == all(x)
  {
    ReenteredLater(c, u, fired);
    FiringIs(c);
    assert t in Firing(c) && c.due(t) <= c.now + 1;
  }

  /** Deadlines met during a check are comparable with that of a timer restarted now. */
  lemma NearWhileFiring(c: Clock, u: Setup, fired: seq<Tid>, list: seq<Tid>, d: int)
    requires Inv(c) && Restartable(c, u) && 1 <= d < HALF && forall x :: x in list ==> x in c.list
    requires forall x :: x in fired ==> x in Firing(c)
    ensures Near(list, Rearmed(c.due, fired, c.now + 1, u), c.now + 1 + d)
  {
    InvMeans(c);
  }

  /** c' is the clock after the linking of t; proofs unfold this only where they ask for it. */
  ghost predicate Started(c: Clock, t: Tid, u: Setup, at: int, c': Clock) {
    forall shown {:trigger Shown(c', shown)} :: Shown(c', shown) ==> c' == LinkTimer(c, t, u, at)
  }

  lemma StartedMeans(c: Clock, t: Tid, u: Setup, at: int, c': Clock)
    requires Started(c, t, u, at, c')
    ensures c' == LinkTimer(c, t, u, at)
  {
    assert Shown(c', true);
  }

  lemma StartPlan(c: Clock, t: Tid, u: Setup, at: int) returns (c': Clock)
    requires Inv(c) && Startable(u, t) && at <= c.now <= at + u.period(t) && t !in c.list
    ensures Inv(c') && Started(c, t, u, at, c') && c'.now == c.now
    ensures c'.list == InsertTimer(c.list, t, c'.due) && Near(c.list, c'.due, c'.due(t))
    ensures c'.due(t) == at + u.period(t) && forall x :: x != t ==> c'.due(x) == c.due(x)
  {
    LinkIff(c, t, u, at);
    c' := LinkIs(c, t, u, at);
    RemoveAbsent(c.list, t);
    NearBetweenTicks(c, t, c'.due);
  }

  /** The two sections of rt_timer_start without a tick in between. */
  lemma StopThenStart(s: Timing, t: Tid, at: int)
    requires Inv(s.clock)
    ensures Next(Next(s, Event.Stop(t)), Event.Start(t, at)) == Next(s, Event.Start(t, at))
  {
    StopKeeps(s.clock, t);
    RemoveAbsent(Remove(s.clock.list, t), t);
  }

  lemma NearBetweenTicks(c: Clock, t: Tid, due: Tid -> int)
    requires Inv(c) && c.now <= due(t) < c.now + HALF && forall x :: x != t ==> due(x) == c.due(x)
    ensures Near(Remove(c.list, t), due, due(t))
  {
    InvMeans(c);
    RemoveElements(c.list, t);
  }

  /** Tick comparison with the current tick sees that the head is due. */
  lemma DueTest(c: Clock, u: Setup, fired: seq<Tid>, t: Tid)
    requires Inv(c) && Restartable(c, u) && t in c.list && forall x :: x in fired ==> x in Firing(c)
    ensures var d := Rearmed(c.due, fired, c.now + 1, u)(t);
            TickDiff((c.now + 1) % U32, d % U32) < HALF <==> d <= c.now + 1
  {
    InvMeans(c);
    TickDiffIs(c.now + 1, Rearmed(c.due, fired, c.now + 1, u)(t));
  }

  lemma HeadTest(c: Clock, u: Setup, fired: seq<Tid>, list: seq<Tid>, timeoutTick: map<Tid, int>, due: Tid -> int)
    requires Inv(c) && Restartable(c, u) && Progress(c, u, fired, list) && list != []
    requires due == Rearmed(c.due, fired, c.now + 1, u) && Stamped(list, timeoutTick, due)
    ensures list[0] in timeoutTick
    ensures TickDiff((c.now + 1) % U32, timeoutTick[list[0]]) < HALF <==> |fired| < |Firing(c)|
  {
    ProgressHead(c, u, fired, list);
    FiredPrefix(c, u, fired, list);
    DueTest(c, u, fired, list[0]);
    assert timeoutTick[list[0]] == due(list[0]) % U32;
  }

  lemma FiredPrefix(c: Clock, u: Setup, fired: seq<Tid>, list: seq<Tid>)
    requires Progress(c, u, fired, list)
    ensures forall x :: x in fired ==> x in Firing(c)
    ensures |fired| < |Firing(c)| ==> c.list[|fired|] in Firing(c)
  {
    assert fired == Firing(c)[..|fired|];
    if |fired| < |Firing(c)| {
      assert Firing(c)[|fired|] == c.list[|fired|];
    }
  }

  lemma NoneLeft(c: Clock, u: Setup, fired: seq<Tid>)
    requires Inv(c) && Progress(c, u, fired, [])
    ensures |fired| == |Firing(c)|
  {
    InvMeans(c);
  }

  /** When every due timer has fired, the list is that of the next clock. */
  lemma ProgressEnds(c: Clock, u: Setup, fired: seq<Tid>, list: seq<Tid>)
    requires Progress(c, u, fired, list) && |fired| == |Firing(c)|
    ensures fired == Firing(c) && list == TickClock(c, u).list
  {
  }

  // ---------- Linking and unlinking ----------

  lemma NearAndStamped(list: seq<Tid>, timeoutTick: map<Tid, int>, due: Tid -> int, d: int)
    requires Stamped(list, timeoutTick, due) && Near(list, due, d)
    ensures Comparable(list, timeoutTick, due, d)
  {
  }

  /** The second half of rt_timer_start: search every row, then link. */
  method Relink(rows: seq<seq<Tid>>, timeoutTick: map<Tid, int>, t: Tid, timeout: int, random: nat,
                ghost due: Tid -> int)
    returns (linked: seq<seq<Tid>>)
    requires Ordered(rows, due) && t !in Bottom(rows) && timeout == due(t) % U32
    requires Stamped(Bottom(rows), timeoutTick, due) && Near(Bottom(rows), due, due(t))
    ensures |linked| == |rows| && Ordered(linked, due)
    ensures Bottom(linked) == InsertTimer(Bottom(rows), t, due)
  {
    var heads := Search(rows, timeoutTick, timeout, t, due);
    linked := LinkRows(rows, heads, t, random, due);
    LinkKeeps(rows, t, due, Reach(|rows| - 1, random), linked);
  }

  method Search(rows: seq<seq<Tid>>, timeoutTick: map<Tid, int>, timeout: int, ghost t: Tid, ghost due: Tid -> int)
    returns (heads: seq<nat>)
    requires Ordered(rows, due) && timeout == due(t) % U32
    requires Stamped(Bottom(rows), timeoutTick, due) && Near(Bottom(rows), due, due(t))
    ensures |heads| == |rows| && AllFound(rows, heads, t, due)
  {
    NearAndStamped(Bottom(rows), timeoutTick, due, due(t));
    heads := FindPositions(rows, timeoutTick, timeout, t, due);
  }

  /** _rt_timer_remove, with the deadlines that hold afterwards. */
  method Unlink(rows: seq<seq<Tid>>, t: Tid, ghost due: Tid -> int, ghost due': Tid -> int)
    returns (unlinked: seq<seq<Tid>>)
    requires Ordered(rows, due) && forall x :: x in Bottom(rows) && x != t ==> due'(x) == due(x)
    ensures |unlinked| == |rows| && Ordered(unlinked, due') && t !in Bottom(unlinked)
    ensures Bottom(unlinked) == Remove(Bottom(rows), t)
  {
    unlinked := UnlinkRows(rows, t);
    UnlinkKeeps(rows, t, due, unlinked);
    RemoveElements(Bottom(rows), t);
    SameDeadlines(unlinked, due, due');
  }

  lemma StampAdds(list: seq<Tid>, t: Tid, timeoutTick: map<Tid, int>, due: Tid -> int)
    requires Distinct(list) && t !in list && Stamped(list, timeoutTick, due)
    ensures Stamped(InsertTimer(list, t, due), timeoutTick[t := due(t) % U32], due)
    ensures Members(InsertTimer(list, t, due)) == Members(list) + {t}
  {
    SuspendAdds(list, t, Prio, due);
  }

  lemma StampDrops(list: seq<Tid>, t: Tid, timeoutTick: map<Tid, int>, due: Tid -> int, due': Tid -> int)
    requires Distinct(list) && Stamped(list, timeoutTick, due) && forall x :: x in list && x != t ==> due'(x) == due(x)
    ensures Stamped(Remove(list, t), timeoutTick, due')
    ensures Members(Remove(list, t)) == Members(list) - {t}
  {
    RemoveElements(list, t);
  }

  /** Rows ordered by deadline, timeouts reduced modulo 2^32, and exactly the linked timers carry
      RT_TIMER_FLAG_ACTIVATED. */
  ghost predicate IsLinked(rows: seq<seq<Tid>>, timeoutTick: map<Tid, int>, activated: set<Tid>, due: Tid -> int) {
    && |rows| > 0 && Ordered(rows, due)
    && Stamped(Bottom(rows), timeoutTick, due) && activated == Members(Bottom(rows))
  }

  predicate Unfolded(rows: seq<seq<Tid>>, u: bool) {
    true
  }

  /** IsLinked, which proofs unfold only where they ask for it. */
  ghost predicate Linked(rows: seq<seq<Tid>>, timeoutTick: map<Tid, int>, activated: set<Tid>, due: Tid -> int) {
    forall u {:trigger Unfolded(rows, u)} :: Unfolded(rows, u) ==> IsLinked(rows, timeoutTick, activated, due)
  }

  lemma LinkedMeans(rows: seq<seq<Tid>>, timeoutTick: map<Tid, int>, activated: set<Tid>, due: Tid -> int)
    ensures Linked(rows, timeoutTick, activated, due) <==> IsLinked(rows, timeoutTick, activated, due)
  {
    assert Unfolded(rows, true);
  }

  lemma UnlinkedState(rows: seq<seq<Tid>>, timeoutTick: map<Tid, int>, activated: set<Tid>, t: Tid,
                      due: Tid -> int, due': Tid -> int, rows': seq<seq<Tid>>)
    requires |rows| > 0 && Linked(rows, timeoutTick, activated, due)
    requires forall x :: x in Bottom(rows) && x != t ==> due'(x) == due(x)
    requires |rows'| == |rows| && Ordered(rows', due') && Bottom(rows') == Remove(Bottom(rows), t)
    ensures Linked(rows', timeoutTick, activated - {t}, due')
  {
    LinkedMeans(rows, timeoutTick, activated, due);
    StampDrops(Bottom(rows), t, timeoutTick, due, due');
    LinkedMeans(rows', timeoutTick, activated - {t}, due');
  }

  lemma StampSame(list: seq<Tid>, timeoutTick: map<Tid, int>, due: Tid -> int, due': Tid -> int)
    requires Stamped(list, timeoutTick, due) && forall x :: x in list ==> due'(x) == due(x)
    ensures Stamped(list, timeoutTick, due')
  {
  }

  /** Only the deadlines of linked timers count. */
  lemma ListedState(rows: seq<seq<Tid>>, timeoutTick: map<Tid, int>, activated: set<Tid>, due: Tid -> int,
                    due': Tid -> int)
    requires |rows| > 0 && Linked(rows, timeoutTick, activated, due)
    requires forall x :: x in Bottom(rows) ==> due'(x) == due(x)
    ensures Linked(rows, timeoutTick, activated, due')
  {
    LinkedMeans(rows, timeoutTick, activated, due);
    SameDeadlines(rows, due, due');
    StampSame(Bottom(rows), timeoutTick, due, due');
    assert IsLinked(rows, timeoutTick, activated, due');
    LinkedMeans(rows, timeoutTick, activated, due');
  }

  lemma LinkedState(rows: seq<seq<Tid>>, timeoutTick: map<Tid, int>, activated: set<Tid>, t: Tid,
                    due: Tid -> int, rows': seq<seq<Tid>>)
    requires |rows| > 0 && Linked(rows, timeoutTick, activated, due) && t !in Bottom(rows)
    requires |rows'| == |rows| && Ordered(rows', due) && Bottom(rows') == InsertTimer(Bottom(rows), t, due)
    ensures Linked(rows', timeoutTick[t := due(t) % U32], activated + {t}, due)
  {
    LinkedMeans(rows, timeoutTick, activated, due);
    StampAdds(Bottom(rows), t, timeoutTick, due);
    LinkedMeans(rows', timeoutTick[t := due(t) % U32], activated + {t}, due);
  }

  method RelinkAll(rows: seq<seq<Tid>>, timeoutTick: map<Tid, int>, ghost activated: set<Tid>, t: Tid, timeout: int,
                   random: nat, ghost due: Tid -> int)
    returns (linked: seq<seq<Tid>>)
    requires |rows| > 0 && Linked(rows, timeoutTick, activated, due) && t !in Bottom(rows)
    requires timeout == due(t) % U32 && Near(Bottom(rows), due, due(t))
    ensures |linked| == |rows| && Linked(linked, timeoutTick[t := timeout], activated + {t}, due)
    ensures Bottom(linked) == InsertTimer(Bottom(rows), t, due)
  {
    LinkedMeans(rows, timeoutTick, activated, due);
    linked := Relink(rows, timeoutTick, t, timeout, random, due);
    LinkedState(rows, timeoutTick, activated, t, due, linked);
  }

  class TimerList {
    var setup: Setup
    var rows: seq<seq<Tid>>
    var tick: int
    var timeoutTick: map<Tid, int>
    var activated: set<Tid>
    var randomNr: nat
    ghost var now: int
    ghost var due: Tid -> int

    /** The stored state stands for the clock. */
    ghost predicate Stands()
      reads this
    {
      tick == now % U32 && |rows| > 0 && Linked(rows, timeoutTick, activated, due)
    }

    ghost function AsClock(): Clock
      requires |rows| > 0
      reads this
    {
      Clock(now, Bottom(rows), due)
    }

    ghost function AsTiming(): Timing
      requires |rows| > 0
      reads this
    {
      Timing(AsClock(), setup)
    }

    ghost predicate Valid()
      reads this
    {
      Stands() && Inv(AsClock())
    }

    /** rt_system_timer_init at any tick. */
    constructor (setup: Setup, levels: nat, start: int)
      requires levels > 0
      ensures Valid() && this.setup == setup && AsClock().list == [] && AsClock().now == start && |rows| == levels
    {
      this.setup := setup;
      rows := seq(levels, i => []);
      tick := start % U32;
      timeoutTick := map[];
      activated := {};
      randomNr := 0;
      now := start;
      due := (x: Tid) => 0;
      new;
      LinkedMeans(rows, timeoutTick, activated, due);
      InvMeans(AsClock());
    }

    /** Unlink from every row and clear the flag. */
    method Disarm(t: Tid, ghost later: Tid -> int)
      requires Stands() && forall x :: x in Bottom(rows) && x != t ==> later(x) == due(x)
      modifies this`rows, this`activated, this`due
      ensures Stands() && due == later && t !in Bottom(rows)
      ensures |rows| == old(|rows|) && Bottom(rows) == Remove(old(Bottom(rows)), t)
      ensures activated == old(activated) - {t}
    {
      LinkedMeans(rows, timeoutTick, activated, due);
      var unlinked := Unlink(rows, t, due, later);
      UnlinkedState(rows, timeoutTick, activated, t, due, later, unlinked);
      rows, activated, due := unlinked, activated - {t}, later;
    }

    /** Set timeout_tick, search, link, set the flag. */
    method Arm(t: Tid, timeout: int)
      requires Stands() && t !in Bottom(rows) && timeout == due(t) % U32 && Near(Bottom(rows), due, due(t))
      modifies this`rows, this`activated, this`timeoutTick, this`randomNr
      ensures Stands() && |rows| == old(|rows|) && Bottom(rows) == InsertTimer(old(Bottom(rows)), t, due)
      ensures activated == old(activated) + {t}
    {
      randomNr := (randomNr + 1) % U32;
      var linked := RelinkAll(rows, timeoutTick, activated, t, timeout, randomNr, due);
      rows, activated, timeoutTick := linked, activated + {t}, timeoutTick[t := timeout];
    }

    /** The start of a fired timer in rt_timer_check. */
    method ArmAgain(t: Tid)
      requires Stands() && t !in Bottom(rows) && due(t) == now + setup.period(t) && Near(Bottom(rows), due, due(t))
      modifies this`rows, this`activated, this`timeoutTick, this`randomNr
      ensures Stands() && |rows| == old(|rows|) && Bottom(rows) == InsertTimer(old(Bottom(rows)), t, due)
      ensures activated == old(activated) + {t}
    {
      TickAdd(tick, now, setup.period(t));
      Arm(t, (tick + setup.period(t)) % U32);
    }

    /** Links a timer that is on no row, with its new deadline. */
    method ArmNew(t: Tid, timeout: int, ghost later: Tid -> int, ghost list: seq<Tid>)
      requires Stands() && t !in Bottom(rows) && timeout == later(t) % U32 && forall x :: x != t ==> later(x) == due(x)
      requires Near(Bottom(rows), later, later(t)) && list == InsertTimer(Bottom(rows), t, later)
      modifies this`rows, this`activated, this`timeoutTick, this`randomNr, this`due
      ensures Stands() && |rows| == old(|rows|) && due == later && Bottom(rows) == list
    {
      ListedState(rows, timeoutTick, activated, due, later);
      due := later;
      Arm(t, timeout);
    }

    /** rt_timer_control with RT_TIMER_CTRL_SET_TIME. */
    method SetTime(t: Tid, ticks: int)
      requires Valid() && 0 <= ticks < U32
      modifies this`setup
      ensures Valid() && AsTiming() == Next(old(AsTiming()), Event.SetTime(t, ticks))
    {
      setup := WithTime(setup, t, ticks);
    }

    /** rt_timer_control with RT_TIMER_CTRL_SET_PERIODIC or RT_TIMER_CTRL_SET_ONESHOT. */
    method SetPeriodic(t: Tid, on: bool)
      requires Valid()
      modifies this`setup
      ensures Valid() && AsTiming() == Next(old(AsTiming()), Event.SetPeriodic(t, on))
    {
      setup := WithPeriodic(setup, t, on);
    }

    /** rt_timer_start: the stop, the reading of the tick, and the linking section. */
    method Start(t: Tid)
      requires Valid() && Startable(setup, t)
      modifies this`rows, this`activated, this`timeoutTick, this`randomNr, this`due
      ensures Valid() && AsTiming() == Next(old(AsTiming()), Event.Start(t, old(now)))
      ensures |rows| == old(|rows|)
    {
      ghost var s := AsTiming();
      StopKeeps(s.clock, t);
      var stopped := Stop(t);
      var timeout := (tick + setup.period(t)) % U32;
      TickAdd(tick, now, setup.period(t));
      Link(t, timeout, now);
      StopThenStart(s, t, s.clock.now);
    }

    /** The linking section of rt_timer_start, with the timeout computed from the tick that was read before. */
    method Link(t: Tid, timeout: int, ghost at: int)
      requires Valid() && Enabled(AsTiming(), Event.Start(t, at)) && t !in AsClock().list
      requires timeout == (at + setup.period(t)) % U32
      modifies this`rows, this`activated, this`timeoutTick, this`randomNr, this`due
      ensures Valid() && AsTiming() == Next(old(AsTiming()), Event.Start(t, at))
      ensures |rows| == old(|rows|)
    {
      ghost var c, u := AsClock(), setup;
      LinkIn(t, timeout, at);
      StartedMeans(c, t, u, at, AsClock());
    }

    method LinkIn(t: Tid, timeout: int, ghost at: int)
      requires Valid() && Enabled(AsTiming(), Event.Start(t, at)) && t !in AsClock().list
      requires timeout == (at + setup.period(t)) % U32
      modifies this`rows, this`activated, this`timeoutTick, this`randomNr, this`due
      ensures Valid() && Started(old(AsClock()), t, old(setup), at, AsClock())
      ensures |rows| == old(|rows|)
    {
      ghost var c, u := AsClock(), setup;
      ghost var c' := StartPlan(c, t, u, at);
      ArmNew(t, timeout, c'.due, c'.list);
      assert AsClock() == c' && Started(c, t, u, at, c');
    }

    /** rt_timer_stop. */
    method Stop(t: Tid) returns (ok: bool)
      requires Valid()
      modifies this`rows, this`activated, this`due
      ensures Valid() && ok == (t in old(AsClock().list)) && AsTiming() == Next(old(AsTiming()), Event.Stop(t))
      ensures |rows| == old(|rows|)
    {
      ghost var c := AsClock();
      ok := t in activated;
      LinkedMeans(rows, timeoutTick, activated, due);
      if !ok {
        RemoveAbsent(c.list, t);
        return;
      }
      StopKeeps(c, t);
      Disarm(t, due);
    }

    /** One round of the loop in rt_timer_check: the head t is due.  The callback leaves timers alone. */
    method Fire(ghost c: Clock, ghost fired: seq<Tid>)
      requires Stands() && Restartable(c, setup) && Inv(c) && Progress(c, setup, fired, Bottom(rows))
      requires now == c.now + 1 && due == Rearmed(c.due, fired, now, setup) && |fired| < |Firing(c)|
      requires Bottom(rows) != []
      modifies this`rows, this`activated, this`timeoutTick, this`randomNr, this`due
      ensures Stands() && |rows| == old(|rows|)
      ensures var t := old(Bottom(rows)[0]);
              due == Rearmed(c.due, fired + [t], now, setup) && Progress(c, setup, fired + [t], Bottom(rows))
      ensures Bottom(rows) == FireHead(old(Bottom(rows)), old(due), now, setup).0
      ensures forall x :: x in Bottom(rows) ==> due(x) == FireHead(old(Bottom(rows)), old(due), now, setup).1(x)
    {
      var t := Bottom(rows)[0];
      ghost var list := Bottom(rows);
      ghost var later := Rearmed(c.due, fired + [t], now, setup);
      FiredPrefix(c, setup, fired, list);
      ProgressTail(c, setup, fired, list);
      FireIs(c, setup, fired, list);
      RemoveHead(list);
      var restart := setup.repeats(t) && t in activated;
      assert t in activated by { LinkedMeans(rows, timeoutTick, activated, due); }
      Disarm(t, later);
      if restart {
        FiredNear(c, setup, fired, list);
        ArmAgain(t);
        ProgressAgain(c, setup, fired, list, t, later, Bottom(rows));
      } else {
        ProgressOnce(c, setup, fired, list);
      }
    }

    /** rt_timer_check, called by rt_tick_increase once the tick has been counted. */
    method Check(ghost c: Clock) returns (fired: seq<Tid>)
      requires Stands() && Restartable(c, setup) && Inv(c)
      requires now == c.now + 1 && Bottom(rows) == c.list && due == Rearmed(c.due, [], now, setup)
      modifies this`rows, this`activated, this`timeoutTick, this`randomNr, this`due
      ensures Stands() && fired == Firing(c) && AsClock() == TickClock(c, setup) && |rows| == old(|rows|)
    {
      fired := [];
      ProgressStarts(c, setup);
      while Bottom(rows) != []
        invariant Stands() && |rows| == old(|rows|)
        invariant due == Rearmed(c.due, fired, now, setup) && Progress(c, setup, fired, Bottom(rows))
        decreases |Firing(c)| - |fired|
      {
        var t := Bottom(rows)[0];
        LinkedMeans(rows, timeoutTick, activated, due);
        HeadTest(c, setup, fired, Bottom(rows), timeoutTick, due);
        if TickDiff(tick, timeoutTick[t]) < HALF {
          Fire(c, fired);
          fired := fired + [t];
        } else {
          break;
        }
      }
      if Bottom(rows) == [] {
        NoneLeft(c, setup, fired);
      }
      ProgressEnds(c, setup, fired, Bottom(rows));
    }

    /** The timer part of rt_tick_increase: fires exactly the due timers, in order. */
    method Tick() returns (fired: seq<Tid>)
      requires Valid() && Restartable(AsClock(), setup)
      modifies this`rows, this`activated, this`timeoutTick, this`randomNr, this`due, this`tick, this`now
      ensures Valid() && fired == Firing(old(AsClock())) && AsTiming() == Next(old(AsTiming()), Event.Tick)
      ensures |rows| == old(|rows|)
    {
      ghost var c := AsClock();
      TickAdd(tick, now, 1);
      tick := (tick + 1) % U32;
      now := now + 1;
      due := Rearmed(due, [], now, setup);
      ListedState(rows, timeoutTick, activated, c.due, due);
      fired := Check(c);
      TickKeeps(c, setup);
    }
  }

  /** The deadline of the head when it is started again, and those of the others. */
  lemma FiredNear(c: Clock, u: Setup, fired: seq<Tid>, list: seq<Tid>)
    requires Inv(c) && Restartable(c, u) && Progress(c, u, fired, list) && |fired| < |Firing(c)|
    requires list != [] && u.repeats(list[0])
    ensures var later := Rearmed(c.due, fired + [list[0]], c.now + 1, u);
            later(list[0]) == c.now + 1 + u.period(list[0]) && Near(list[1..], later, later(list[0]))
  {
    FiredPrefix(c, u, fired, list);
    ProgressTail(c, u, fired, list);
    ProgressMembers(c, u, fired, list);
    NearWhileFiring(c, u, fired + [list[0]], list[1..], u.period(list[0]));
  }

  /** What one round does to the list is what FireHead says. */
  lemma FireIs(c: Clock, u: Setup, fired: seq<Tid>, list: seq<Tid>)
    requires Inv(c) && Restartable(c, u) && Progress(c, u, fired, list) && |fired| < |Firing(c)| && list != []
    ensures var due, later := Rearmed(c.due, fired, c.now + 1, u), Rearmed(c.due, fired + [list[0]], c.now + 1, u);
            var (list', due') := FireHead(list, due, c.now + 1, u);
            && list' == (if u.repeats(list[0]) then InsertTimer(list[1..], list[0], later) else list[1..])
            && forall x :: x in list' ==> later(x) == due'(x)
  {
    var t, due := list[0], Rearmed(c.due, fired, c.now + 1, u);
    FireAgrees(list, due, Rearmed(c.due, fired + [t], c.now + 1, u), c.now + 1, u);
  }

  lemma FireAgrees(list: seq<Tid>, due: Tid -> int, later: Tid -> int, n: int, u: Setup)
    requires list != []
    requires forall x :: later(x) == if x == list[0] && u.repeats(x) then n + u.period(x) else due(x)
    ensures var (list', due') := FireHead(list, due, n, u);
            && list' == (if u.repeats(list[0]) then InsertTimer(list[1..], list[0], later) else list[1..])
            && forall x :: later(x) == due'(x)
  {
    var t := list[0];
    if u.repeats(t) {
      InsertSame(list[1..], t, later, Redue(due, t, n + u.period(t)));
    }
  }
}
