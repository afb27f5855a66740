/** Timers over whole runs, in unwrapped time: starts, stops and changes of init_tick and of the
    periodic flag between clock ticks, and the firing of everything due on each tick.  Callbacks leave
    timers alone.
  */
module TimerRuns {
  import opened Seqs
  import opened IpcList
  import opened TimerSpec

  /** init_tick and the RT_TIMER_FLAG_PERIODIC bit of every timer. */
  datatype Setup = Setup(period: Tid -> int, repeats: Tid -> bool)

  datatype Clock = Clock(now: int, list: seq<Tid>, due: Tid -> int)

  function Redue(due: Tid -> int, t: Tid, d: int): Tid -> int {
    (x: Tid) => if x == t then d else due(x)
  }

  /** The deadlines once these timers have fired at n. */
  function Rearmed(due: Tid -> int, fired: seq<Tid>, n: int, u: Setup): Tid -> int {
    (x: Tid) => if x in fired && u.repeats(x) then n + u.period(x) else due(x)
  }

  /** How many timers at the front are due at n. */
  function Leading(list: seq<Tid>, due: Tid -> int, n: int): (k: nat)
    ensures k <= |list|
  {
    if list == [] || due(list[0]) > n then 0 else 1 + Leading(list[1..], due, n)
  }

  lemma {:induction false} LeadingMeans(list: seq<Tid>, due: Tid -> int, n: int, k: nat)
    requires k == Leading(list, due, n)
    ensures k <= |list|
    ensures forall i :: 0 <= i < k ==> due(list[i]) <= n
    ensures k < |list| ==> due(list[k]) > n
  {
    if k > 0 {
      LeadingMeans(list[1..], due, n, k - 1);
      forall i | 0 <= i < k ensures due(list[i]) <= n {
        assert i > 0 ==> list[i] == list[1..][i - 1];
      }
    }
  }

  /** The periodic ones among the fired timers, inserted again one after the other. */
  function Rearm(list: seq<Tid>, fired: seq<Tid>, due: Tid -> int, u: Setup): seq<Tid> {
    if fired == [] then list
    else
      var t := fired[|fired| - 1];
      var rest := Rearm(list, fired[..|fired| - 1], due, u);
      if u.repeats(t) then InsertTimer(rest, t, due) else rest
  }

  /** The linking section of rt_timer_start for the tick that was read before it. */
  function LinkTimer(c: Clock, t: Tid, u: Setup, tick: int): Clock {
    var due := Redue(c.due, t, tick + u.period(t));
    Clock(c.now, InsertTimer(Remove(c.list, t), t, due), due)
  }

  function StopTimer(c: Clock, t: Tid): Clock {
    c.(list := Remove(c.list, t))
  }

  /** The timers that fire on the next tick, in firing order. */
  function Firing(c: Clock): (fired: seq<Tid>)
    ensures |fired| <= |c.list|
  {
    c.list[..Leading(c.list, c.due, c.now + 1)]
  }

  /** The assertion of rt_timer_start. */
  ghost predicate Startable(u: Setup, t: Tid) {
    0 <= u.period(t) < HALF
  }

  /** The periodic timers that fire on the next tick can be started again and are not due again at once;
      CheckReturns shows what happens otherwise. */
  ghost predicate Restartable(c: Clock, u: Setup) {
    forall t :: t in Firing(c) && u.repeats(t) ==> 1 <= u.period(t) < HALF
  }

  function TickClock(c: Clock, u: Setup): Clock {
    var fired := Firing(c);
    var due := Rearmed(c.due, fired, c.now + 1, u);
    Clock(c.now + 1, Rearm(c.list[|fired|..], fired, due, u), due)
  }

  /** Between ticks every pending deadline lies in [now, now + RT_TICK_MAX / 2). */
  ghost predicate InOrder(c: Clock) {
    && Distinct(c.list) && Sorted(c.list, c.due)
    && forall x :: x in c.list ==> c.now <= c.due(x) < c.now + HALF
  }

  /** InOrder, which proofs unfold only where they ask for it. */
  ghost predicate Inv(c: Clock) {
    forall shown {:trigger Shown(c, shown)} :: Shown(c, shown) ==> InOrder(c)
  }

  ghost predicate Shown(c: Clock, shown: bool) {
    true
  }

  lemma InvMeans(c: Clock)
    ensures Inv(c) <==> InOrder(c)
  {
    assert Shown(c, true);
  }

  // ---------- Each step ----------

  lemma StartList(list: seq<Tid>, t: Tid, due: Tid -> int, due': Tid -> int) returns (list': seq<Tid>)
    requires Distinct(list) && Sorted(list, due) && forall x :: x != t ==> due'(x) == due(x)
    ensures list' == InsertTimer(Remove(list, t), t, due') && Distinct(list') && Sorted(list', due')
    ensures forall x :: x in list' <==> x == t || x in list
  {
    var rest := Remove(list, t);
    RemoveElements(list, t);
    RemoveSorted(list, t, due);
    assert Sorted(rest, due') by { SortedSame(rest, due, due'); }
    SuspendAdds(rest, t, Prio, due');
    SuspendSorts(rest, t, due');
    list' := InsertTimer(rest, t, due');
  }

  lemma SortedSame(list: seq<Tid>, due: Tid -> int, due': Tid -> int)
    requires Sorted(list, due) && forall x :: x in list ==> due'(x) == due(x)
    ensures Sorted(list, due')
  {
  }

  lemma LinkIs(c: Clock, t: Tid, u: Setup, tick: int) returns (c': Clock)
    ensures c' == LinkTimer(c, t, u, tick) && c'.now == c.now && c'.list == InsertTimer(Remove(c.list, t), t, c'.due)
    ensures c'.due(t) == tick + u.period(t) && forall x :: x != t ==> c'.due(x) == c.due(x)
  {
    c' := LinkTimer(c, t, u, tick);
  }

  lemma LinkSorts(c: Clock, t: Tid, u: Setup, tick: int) returns (c': Clock)
    requires InOrder(c)
    ensures c' == LinkTimer(c, t, u, tick) && Distinct(c'.list) && Sorted(c'.list, c'.due)
    ensures forall x :: x in c'.list <==> x == t || x in c.list
    ensures c'.now == c.now && c'.due(t) == tick + u.period(t) && forall x :: x != t ==> c'.due(x) == c.due(x)
  {
    c' := LinkIs(c, t, u, tick);
    var list := StartList(c.list, t, c.due, c'.due);
    assert c'.list == list;
  }

  lemma LinkMembers(c: Clock, t: Tid, u: Setup, tick: int)
    requires Inv(c)
    ensures forall x :: x in LinkTimer(c, t, u, tick).list <==> x == t || x in c.list
  {
    InvMeans(c);
    var c' := LinkSorts(c, t, u, tick);
  }

  lemma LinkTimely(c: Clock, t: Tid, u: Setup, tick: int, c': Clock)
    requires Inv(c) && Startable(u, t) && Distinct(c'.list) && Sorted(c'.list, c'.due)
    requires forall x :: x in c'.list <==> x == t || x in c.list
    requires c'.now == c.now && c'.due(t) == tick + u.period(t) && forall x :: x != t ==> c'.due(x) == c.due(x)
    ensures tick <= c.now <= tick + u.period(t) ==> Inv(c')
    ensures c.now > tick + u.period(t) ==> !Inv(c')
  {
    InvMeans(c);
    InvMeans(c');
    if tick <= c.now <= tick + u.period(t) {
      assert forall x :: x in c'.list ==> c'.now <= c'.due(x) < c'.now + HALF;
    } else if c.now > tick + u.period(t) {
      assert t in c'.list;
    }
  }

  /** Ticks may come between the reading of the tick and the linking in rt_timer_start; the deadline then still lies
      ahead exactly when they are no more than init_tick. */
  lemma LinkIff(c: Clock, t: Tid, u: Setup, tick: int)
    requires Inv(c) && Startable(u, t) && tick <= c.now
    ensures Inv(LinkTimer(c, t, u, tick)) <==> c.now - tick <= u.period(t)
  {
    assert InOrder(c) by { InvMeans(c); }
    var c' := LinkSorts(c, t, u, tick);
    LinkTimely(c, t, u, tick, c');
  }

  lemma StopKeeps(c: Clock, t: Tid)
    requires Inv(c)
    ensures Inv(StopTimer(c, t))
    ensures forall x :: x in StopTimer(c, t).list <==> x != t && x in c.list
  {
    InvMeans(c);
    InvMeans(StopTimer(c, t));
    RemoveElements(c.list, t);
    RemoveSorted(c.list, t, c.due);
  }

  /** What fires on a tick is exactly what is due, each once, by deadline and then in list order. */
  lemma FiringIs(c: Clock)
    requires Inv(c)
    ensures Distinct(Firing(c)) && Sorted(Firing(c), c.due)
    ensures forall x :: x in Firing(c) <==> x in c.list && c.due(x) <= c.now + 1
    ensures forall x :: x in c.list[|Firing(c)|..] <==> x in c.list && c.due(x) > c.now + 1
    ensures Distinct(c.list[|Firing(c)|..]) && Sorted(c.list[|Firing(c)|..], c.due)
  {
    assert Distinct(c.list) && Sorted(c.list, c.due) by { InvMeans(c); }
    var k := Leading(c.list, c.due, c.now + 1);
    assert Firing(c) == c.list[..k];
    LeadingSplits(c.list, c.due, c.now + 1, k);
  }

  lemma LeadingSplits(list: seq<Tid>, due: Tid -> int, n: int, k: nat)
    requires Distinct(list) && Sorted(list, due) && k == Leading(list, due, n)
    ensures Distinct(list[..k]) && Sorted(list[..k], due) && Distinct(list[k..]) && Sorted(list[k..], due)
    ensures forall x :: x in list[..k] <==> x in list && due(x) <= n
    ensures forall x :: x in list[k..] <==> x in list && due(x) > n
  {
    LeadingMeans(list, due, n, k);
    forall i | k <= i < |list| ensures due(list[i]) > n {
      assert k < i ==> due(list[k]) <= due(list[i]);
    }
    SplitMembers(list, due, n, k);
  }

  lemma SplitMembers(list: seq<Tid>, due: Tid -> int, n: int, k: nat)
    requires k <= |list| && forall i :: 0 <= i < |list| ==> (due(list[i]) <= n <==> i < k)
    ensures forall x :: x in list[..k] <==> x in list && due(x) <= n
    ensures forall x :: x in list[k..] <==> x in list && due(x) > n
  {
    assert list == list[..k] + list[k..];
  }

  lemma {:induction false} RearmKeeps(list: seq<Tid>, fired: seq<Tid>, due: Tid -> int, u: Setup)
    requires Distinct(list) && Sorted(list, due) && Distinct(fired) && forall x :: x in fired ==> x !in list
    ensures Distinct(Rearm(list, fired, due, u)) && Sorted(Rearm(list, fired, due, u), due)
    ensures forall x :: x in Rearm(list, fired, due, u) <==> x in list || (x in fired && u.repeats(x))
  {
    if fired != [] {
      var front, t := fired[..|fired| - 1], fired[|fired| - 1];
      assert fired == front + [t];
      RearmKeeps(list, front, due, u);
      var rest := Rearm(list, front, due, u);
      assert t !in rest;
      SuspendAdds(rest, t, Prio, due);
      SuspendSorts(rest, t, due);
    }
  }

  lemma Reinserted(rest: seq<Tid>, fired: seq<Tid>, due: Tid -> int, n: int, u: Setup, list: seq<Tid>)
    requires Distinct(rest) && Sorted(rest, due) && Distinct(fired) && forall x :: x in fired ==> x !in rest
    requires list == Rearm(rest, fired, Rearmed(due, fired, n, u), u)
    ensures Distinct(list) && Sorted(list, Rearmed(due, fired, n, u))
    ensures forall x :: x in list <==> x in rest || (x in fired && u.repeats(x))
  {
    assert Sorted(rest, Rearmed(due, fired, n, u)) by { RestSorted(rest, fired, due, n, u); }
    RearmKeeps(rest, fired, Rearmed(due, fired, n, u), u);
  }

  lemma RestSorted(rest: seq<Tid>, fired: seq<Tid>, due: Tid -> int, n: int, u: Setup)
    requires Sorted(rest, due) && forall x :: x in fired ==> x !in rest
    ensures Sorted(rest, Rearmed(due, fired, n, u))
  {
    forall i, j | 0 <= i < j < |rest| ensures Rearmed(due, fired, n, u)(rest[i]) <= Rearmed(due, fired, n, u)(rest[j]) {
      assert rest[i] !in fired && rest[j] !in fired;
    }
  }

  lemma TickList(c: Clock, u: Setup)
    requires Inv(c)
    ensures Distinct(TickClock(c, u).list) && Sorted(TickClock(c, u).list, TickClock(c, u).due)
    ensures forall x :: x in TickClock(c, u).list <==> x in c.list && (x in Firing(c) ==> u.repeats(x))
  {
    FiringIs(c);
    Reinserted(c.list[|Firing(c)|..], Firing(c), c.due, c.now + 1, u, TickClock(c, u).list);
  }

  /** After a tick none is left due. */
  lemma TickKeeps(c: Clock, u: Setup)
    requires Inv(c) && Restartable(c, u)
    ensures Inv(TickClock(c, u))
    ensures forall x :: x in TickClock(c, u).list ==> TickClock(c, u).due(x) > c.now + 1
    ensures forall x :: x in TickClock(c, u).list <==> x in c.list && (x in Firing(c) ==> u.repeats(x))
  {
    FiringIs(c);
    TickList(c, u);
    InvMeans(c);
    InvMeans(TickClock(c, u));
  }

  // ---------- When rt_timer_check returns ----------

  /** One round of the loop in rt_timer_check at n, for a list whose head is due. */
  function FireHead(list: seq<Tid>, due: Tid -> int, n: int, u: Setup): (seq<Tid>, Tid -> int)
    requires list != []
  {
    var h := list[0];
    if u.repeats(h) then
      var due' := Redue(due, h, n + u.period(h));
      (InsertTimer(list[1..], h, due'), due')
    else (list[1..], due)
  }

  /** The loop ends. */
  predicate Done(list: seq<Tid>, due: Tid -> int, n: int) {
    list == [] || due(list[0]) > n
  }

  /** The loop is done after k rounds at the latest. */
  predicate DoneIn(list: seq<Tid>, due: Tid -> int, n: int, u: Setup, k: nat)
    decreases k
  {
    Done(list, due, n) || (k > 0 && var (list', due') := FireHead(list, due, n, u); DoneIn(list', due', n, u, k - 1))
  }

  /** rt_timer_check returns. */
  ghost predicate Returns(list: seq<Tid>, due: Tid -> int, n: int, u: Setup) {
    exists k: nat :: DoneIn(list, due, n, u, k)
  }

  /** A periodic timer of period 0 is on the list and due. */
  ghost predicate Spinning(list: seq<Tid>, due: Tid -> int, n: int, u: Setup, t: Tid) {
    Distinct(list) && Sorted(list, due) && t in list && due(t) <= n && u.repeats(t) && u.period(t) <= 0
  }

  /** Then the head of the list is due, and so it goes on after every round. */
  lemma ZeroPeriodSpins(list: seq<Tid>, due: Tid -> int, n: int, u: Setup, t: Tid)
    returns (list': seq<Tid>, due': Tid -> int)
    requires Spinning(list, due, n, u, t)
    ensures !Done(list, due, n)
    ensures (list', due') == FireHead(list, due, n, u) && Spinning(list', due', n, u, t)
  {
    HeadFirst(list, due, t);
    var h := list[0];
    if u.repeats(h) {
      due' := Redue(due, h, n + u.period(h));
      list' := SpinsAgain(list, due, due', n, u, t);
    } else {
      SpinsPast(list, due, n, u, t);
      list', due' := list[1..], due;
    }
  }

  lemma SpinsPast(list: seq<Tid>, due: Tid -> int, n: int, u: Setup, t: Tid)
    requires Spinning(list, due, n, u, t) && list[0] != t
    ensures Spinning(list[1..], due, n, u, t)
  {
    PopFirst(list);
  }

  lemma SpinsAgain(list: seq<Tid>, due: Tid -> int, due': Tid -> int, n: int, u: Setup, t: Tid)
    returns (list': seq<Tid>)
    requires Spinning(list, due, n, u, t) && forall x :: x != list[0] ==> due'(x) == due(x)
    requires due'(list[0]) == n + u.period(list[0])
    ensures list' == InsertTimer(list[1..], list[0], due') && Spinning(list', due', n, u, t)
  {
    PopFirst(list);
    list' := Reenters(list[1..], list[0], due, due');
  }

  lemma Reenters(rest: seq<Tid>, h: Tid, due: Tid -> int, due': Tid -> int) returns (list: seq<Tid>)
    requires Distinct(rest) && Sorted(rest, due) && h !in rest && forall x :: x != h ==> due'(x) == due(x)
    ensures list == InsertTimer(rest, h, due') && Distinct(list) && Sorted(list, due')
    ensures forall x :: x in list <==> x in rest || x == h
  {
    assert Sorted(rest, due') by { SortedSame(rest, due, due'); }
    list := Reinsert(rest, h, due');
  }

  lemma Reinsert(rest: seq<Tid>, h: Tid, due: Tid -> int) returns (list: seq<Tid>)
    requires Distinct(rest) && Sorted(rest, due) && h !in rest
    ensures list == InsertTimer(rest, h, due) && Distinct(list) && Sorted(list, due)
    ensures forall x :: x in list <==> x in rest || x == h
  {
    list := InsertTimer(rest, h, due);
    SuspendAdds(rest, h, Prio, due);
    SuspendSorts(rest, h, due);
  }

  lemma HeadFirst(list: seq<Tid>, due: Tid -> int, t: Tid)
    requires Sorted(list, due) && t in list
    ensures list != [] && due(list[0]) <= due(t)
  {
  }

  lemma {:induction false} SpinsOn(list: seq<Tid>, due: Tid -> int, n: int, u: Setup, t: Tid, k: nat)
    requires Spinning(list, due, n, u, t)
    ensures !DoneIn(list, due, n, u, k)
    decreases k
  {
    var list', due' := ZeroPeriodSpins(list, due, n, u, t);
    if k > 0 {
      SpinsOn(list', due', n, u, t, k - 1);
    }
  }

  ghost function DueSet(list: seq<Tid>, due: Tid -> int, n: int): set<Tid> {
    set x | x in list && due(x) <= n
  }

  /** Every round takes one timer off the due ones, if none comes back due. */
  lemma FireShrinks(list: seq<Tid>, due: Tid -> int, n: int, u: Setup)
    returns (list': seq<Tid>, due': Tid -> int)
    requires Distinct(list) && !Done(list, due, n) && (u.repeats(list[0]) ==> u.period(list[0]) >= 1)
    ensures (list', due') == FireHead(list, due, n, u) && Distinct(list')
    ensures DueSet(list', due', n) == DueSet(list, due, n) - {list[0]}
  {
    PopFirst(list);
    var h, rest := list[0], list[1..];
    if u.repeats(h) {
      due' := Redue(due, h, n + u.period(h));
      list' := InsertTimer(rest, h, due');
      SuspendAdds(rest, h, Prio, due');
    } else {
      list', due' := rest, due;
    }
  }

  lemma {:induction false} Finishes(list: seq<Tid>, due: Tid -> int, n: int, u: Setup, k: nat)
    requires Distinct(list) && k == |DueSet(list, due, n)|
    requires forall x :: x in DueSet(list, due, n) && u.repeats(x) ==> u.period(x) >= 1
    ensures DoneIn(list, due, n, u, k)
    decreases k
  {
    if !Done(list, due, n) {
      assert list[0] in DueSet(list, due, n);
      var list', due' := FireShrinks(list, due, n, u);
      Finishes(list', due', n, u, k - 1);
    }
  }

  /** rt_timer_check returns exactly when no timer that is due on the tick is periodic with period 0,
      whatever the other timers are set to.  The requires is the assertion of the rt_timer_start that
      the check calls. */
  lemma CheckReturns(c: Clock, u: Setup)
    requires Inv(c) && forall t :: t in Firing(c) && u.repeats(t) ==> Startable(u, t)
    ensures Returns(c.list, c.due, c.now + 1, u) <==> forall t :: t in Firing(c) && u.repeats(t) ==> u.period(t) >= 1
  {
    FiringIs(c);
    assert Distinct(c.list) && Sorted(c.list, c.due) by { InvMeans(c); }
    if t :| t in Firing(c) && u.repeats(t) && u.period(t) <= 0 {
      NeverReturns(c.list, c.due, c.now + 1, u, t);
    } else {
      forall x | x in DueSet(c.list, c.due, c.now + 1) && u.repeats(x) ensures u.period(x) >= 1 {
        assert x in Firing(c);
      }
      Finishes(c.list, c.due, c.now + 1, u, |DueSet(c.list, c.due, c.now + 1)|);
    }
  }

  lemma NeverReturns(list: seq<Tid>, due: Tid -> int, n: int, u: Setup, t: Tid)
    requires Spinning(list, due, n, u, t)
    ensures !Returns(list, due, n, u)
  {
    forall k: nat ensures !DoneIn(list, due, n, u, k) {
      SpinsOn(list, due, n, u, t, k);
    }
  }

  // ---------- Whole runs ----------

  /** All that the timers' code keeps: the list with its deadlines, and every timer's setting. */
  datatype Timing = Timing(clock: Clock, setup: Setup)

  datatype Event =
    | Start(t: Tid, tick: int) | Stop(t: Tid) | SetTime(t: Tid, ticks: int) | SetPeriodic(t: Tid, on: bool) | Tick

  /** rt_timer_control. */
  function WithTime(u: Setup, t: Tid, ticks: int): Setup {
    u.(period := Redue(u.period, t, ticks))
  }

  function WithPeriodic(u: Setup, t: Tid, on: bool): Setup {
    u.(repeats := (x: Tid) => if x == t then on else u.repeats(x))
  }

  /** What the source asserts: a timer that is started, also by the check, has an init_tick below half the
      tick range; the deadline of a start has not passed before the timer is linked; and the check returns.
      tick is what rt_timer_start has read before its linking section; its first section is a stop. */
  ghost predicate Enabled(s: Timing, e: Event) {
    match e
    case Start(t, tick) => Startable(s.setup, t) && tick <= s.clock.now <= tick + s.setup.period(t)
    case Stop(_) => true
    case SetTime(_, ticks) => 0 <= ticks < U32
    case SetPeriodic(_, _) => true
    case Tick => Restartable(s.clock, s.setup)
  }

  function Next(s: Timing, e: Event): Timing {
    match e
    case Start(t, tick) => s.(clock := LinkTimer(s.clock, t, s.setup, tick))
    case Stop(t) => s.(clock := StopTimer(s.clock, t))
    case SetTime(t, ticks) => s.(setup := WithTime(s.setup, t, ticks))
    case SetPeriodic(t, on) => s.(setup := WithPeriodic(s.setup, t, on))
    case Tick => s.(clock := TickClock(s.clock, s.setup))
  }

  ghost predicate IsRun(run: seq<Timing>, events: seq<Event>) {
    && |run| == |events| + 1
    && forall i, j {:trigger run[i], run[j]} :: 0 <= i < |events| && j == i + 1 ==>
         Enabled(run[i], events[i]) && run[j] == Next(run[i], events[i])
  }

  predicate Touches(e: Event, t: Tid) {
    match e
    case Start(x, _) => x == t
    case Stop(x) => x == t
    case SetTime(x, _) => x == t
    case SetPeriodic(x, _) => x == t
    case Tick => false
  }

  /** Nobody starts, stops or sets t. */
  ghost predicate Untouched(events: seq<Event>, t: Tid) {
    forall i :: 0 <= i < |events| ==> !Touches(events[i], t)
  }

  /** The setting of t has not changed. */
  ghost predicate SameSetting(u: Setup, u': Setup, t: Tid) {
    u'.period(t) == u.period(t) && u'.repeats(t) == u.repeats(t)
  }

  lemma NextKeeps(s: Timing, e: Event)
    requires Inv(s.clock) && Enabled(s, e)
    ensures Inv(Next(s, e).clock)
  {
    match e
    case Start(t, tick) => LinkIff(s.clock, t, s.setup, tick);
    case Stop(t) => StopKeeps(s.clock, t);
    case SetTime(_, _) =>
    case SetPeriodic(_, _) =>
    case Tick => TickKeeps(s.clock, s.setup);
  }

  lemma NextSetting(s: Timing, e: Event, t: Tid)
    requires !Touches(e, t)
    ensures SameSetting(s.setup, Next(s, e).setup, t)
  {
  }

  lemma RunStep(run: seq<Timing>, events: seq<Event>, i: nat)
    requires IsRun(run, events) && i < |events|
    ensures Enabled(run[i], events[i]) && run[i + 1] == Next(run[i], events[i])
  {
    var s, s' := run[i], run[i + 1];
  }

  /** Between ticks every pending deadline of every run lies in [now, now + RT_TICK_MAX / 2). */
  lemma {:induction false} RunKeeps(run: seq<Timing>, events: seq<Event>, i: nat)
    requires IsRun(run, events) && Inv(run[0].clock) && i < |run|
    ensures Inv(run[i].clock)
  {
    if i > 0 {
      RunKeeps(run, events, i - 1);
      RunStep(run, events, i - 1);
      NextKeeps(run[i - 1], events[i - 1]);
    }
  }

  /** A timer that is made periodic, set to 0 ticks and started keeps the next check from returning. */
  lemma EndlessCheck(t: Tid) returns (run: seq<Timing>, events: seq<Event>)
    ensures events == [SetPeriodic(t, true), SetTime(t, 0), Start(t, 0)]
    ensures IsRun(run, events) && run[0].clock.list == []
    ensures Inv(run[3].clock) && run[3].clock.list == [t]
    ensures !Returns(run[3].clock.list, run[3].clock.due, run[3].clock.now + 1, run[3].setup)
  {
    events := [SetPeriodic(t, true), SetTime(t, 0), Start(t, 0)];
    var s := Timing(Clock(0, [], x => 0), Setup(x => 0, x => false));
    var s1 := Next(s, events[0]);
    var s2 := Next(s1, events[1]);
    var s3 := Next(s2, events[2]);
    run := [s, s1, s2, s3];
    assert Enabled(s, events[0]) && Enabled(s1, events[1]) && Enabled(s2, events[2]);
    assert run[0] == s && run[1] == s1 && run[2] == s2 && run[3] == s3;
    var c := s3.clock;
    assert c.list == [t] && c.due(t) == 0;
    InvMeans(c);
    assert t in Firing(c);
    CheckReturns(c, s3.setup);
  }

  // ---------- Periodic timers ----------

  /** A periodic timer's next deadline is the next multiple of its period after its start. */
  ghost predicate OnBeat(c: Clock, t: Tid, s: int, d: int) {
    t in c.list && c.now < c.due(t) <= c.now + d && IsBeat(s, d, c.due(t))
  }

  function Beat(s: int, d: int, k: int): int {
    s + k * d
  }

  ghost predicate IsBeat(s: int, d: int, n: int) {
    exists k :: Beat(s, d, k) == n
  }

  lemma NextBeat(s: int, d: int, n: int)
    requires IsBeat(s, d, n)
    ensures IsBeat(s, d, n + d)
  {
    var k :| Beat(s, d, k) == n;
    assert Beat(s, d, k + 1) == n + d;
  }

  /** What a tick does to one pending timer. */
  lemma TickOne(c: Clock, t: Tid, u: Setup)
    requires Inv(c) && t in c.list
    ensures t in TickClock(c, u).list <==> c.due(t) > c.now + 1 || u.repeats(t)
    ensures TickClock(c, u).due(t) ==
              if c.due(t) <= c.now + 1 && u.repeats(t) then c.now + 1 + u.period(t) else c.due(t)
  {
    TickList(c, u);
    FiringIs(c);
  }

  lemma TickOnBeat(c: Clock, t: Tid, s: int, u: Setup)
    requires Inv(c) && u.repeats(t) && OnBeat(c, t, s, u.period(t))
    ensures OnBeat(TickClock(c, u), t, s, u.period(t))
  {
    TickOne(c, t, u);
    NextBeat(s, u.period(t), c.due(t));
  }

  /** What the events of other timers leave of a timer. */
  lemma OtherOne(s: Timing, e: Event, t: Tid)
    requires Inv(s.clock) && !Touches(e, t) && e != Tick
    ensures var c, c' := s.clock, Next(s, e).clock;
            (t in c'.list <==> t in c.list) && c'.due(t) == c.due(t) && c'.now == c.now
  {
    match e
    case Start(x, tick) =>
      LinkMembers(s.clock, x, s.setup, tick);
      var c' := LinkIs(s.clock, x, s.setup, tick);
    case Stop(x) => StopKeeps(s.clock, x);
    case SetTime(_, _) =>
    case SetPeriodic(_, _) =>
    case Tick =>
  }

  lemma StaysOnBeat(s: Timing, e: Event, t: Tid, s0: int)
    requires Inv(s.clock) && s.setup.repeats(t) && OnBeat(s.clock, t, s0, s.setup.period(t)) && !Touches(e, t)
    ensures OnBeat(Next(s, e).clock, t, s0, s.setup.period(t))
  {
    if e == Tick {
      TickOnBeat(s.clock, t, s0, s.setup);
    } else {
      OtherOne(s, e, t);
    }
  }

  lemma FirstBeat(c: Clock, t: Tid, s: int, d: int)
    requires t in c.list && s <= c.now < s + d && c.due(t) == s + d
    ensures OnBeat(c, t, s, d)
  {
    assert Beat(s, d, 1) == c.due(t);
  }

  lemma StartsOnBeat(c: Clock, t: Tid, u: Setup, tick: int) returns (c': Clock)
    requires Startable(u, t) && tick <= c.now < tick + u.period(t) && Inv(c)
    ensures c' == LinkTimer(c, t, u, tick) && Inv(c') && OnBeat(c', t, tick, u.period(t))
  {
    assert InOrder(c) by { InvMeans(c); }
    c' := LinkSorts(c, t, u, tick);
    LinkTimely(c, t, u, tick, c');
    FirstBeat(c', t, tick, u.period(t));
  }

  /** A run that starts with the start of t and then leaves t alone. */
  ghost predicate StartsRun(run: seq<Timing>, events: seq<Event>, t: Tid) {
    && IsRun(run, events) && Inv(run[0].clock)
    && events != [] && events[0].Start? && events[0].t == t && Untouched(events[1..], t)
  }

  lemma LaterUntouched(run: seq<Timing>, events: seq<Event>, t: Tid, i: nat)
    requires StartsRun(run, events, t) && 1 <= i < |events|
    ensures !Touches(events[i], t)
  {
    assert events[1..][i - 1] == events[i];
  }

  lemma {:induction false} RunSetting(run: seq<Timing>, events: seq<Event>, t: Tid, i: nat)
    requires StartsRun(run, events, t) && i < |run|
    ensures SameSetting(run[0].setup, run[i].setup, t)
  {
    if i > 0 {
      RunSetting(run, events, t, i - 1);
      RunStep(run, events, i - 1);
      if i > 1 {
        LaterUntouched(run, events, t, i - 1);
        NextSetting(run[i - 1], events[i - 1], t);
      }
    }
  }

  lemma {:induction false} RunOnBeat(run: seq<Timing>, events: seq<Event>, t: Tid, i: nat)
    requires StartsRun(run, events, t) && 1 <= i < |run|
    requires run[0].setup.repeats(t) && run[0].clock.now < events[0].tick + run[0].setup.period(t)
    ensures Inv(run[i].clock) && OnBeat(run[i].clock, t, events[0].tick, run[0].setup.period(t))
  {
    RunStep(run, events, i - 1);
    if i == 1 {
      var c' := StartsOnBeat(run[0].clock, t, run[0].setup, events[0].tick);
      assert run[1].clock == c';
    } else {
      RunOnBeat(run, events, t, i - 1);
      LaterUntouched(run, events, t, i - 1);
      RunSetting(run, events, t, i - 1);
      StaysOnBeat(run[i - 1], events[i - 1], t, events[0].tick);
      NextKeeps(run[i - 1], events[i - 1]);
    }
  }

  lemma {:induction false} BeatsApart(s: int, d: int, j: int, k: int)
    requires d >= 1
    ensures j < k ==> Beat(s, d, j) + d <= Beat(s, d, k)
    decreases k - j
  {
    if j < k {
      BeatsApart(s, d, j, k - 1);
      assert Beat(s, d, k) == Beat(s, d, k - 1) + d;
    }
  }

  /** A periodic timer of period d >= 1 started at s, linked before its first deadline and not touched since,
      fires on the tick that makes it n exactly when n is s + k * d for some k >= 1, whatever happens to other
      timers. */
  lemma PeriodicFires(run: seq<Timing>, events: seq<Event>, t: Tid, i: nat)
    requires StartsRun(run, events, t) && 1 <= i < |events| && events[i] == Tick
    requires run[0].setup.repeats(t) && run[0].clock.now < events[0].tick + run[0].setup.period(t)
    ensures t in Firing(run[i].clock) <==>
              exists k :: k >= 1 && Beat(events[0].tick, run[0].setup.period(t), k) == run[i].clock.now + 1
  {
    var s, d, c := events[0].tick, run[0].setup.period(t), run[i].clock;
    RunStep(run, events, 0);
    RunOnBeat(run, events, t, i);
    NowGrows(run, events, i);
    FiringIs(c);
    BeatsFire(c, t, s, d);
  }

  lemma BeatsFire(c: Clock, t: Tid, s: int, d: int)
    requires OnBeat(c, t, s, d) && d >= 1 && s <= c.now
    ensures c.due(t) <= c.now + 1 <==> exists k :: k >= 1 && Beat(s, d, k) == c.now + 1
  {
    var k :| Beat(s, d, k) == c.due(t);
    if k < 1 {
      BeatsApart(s, d, k, 1);
    }
    if c.due(t) <= c.now + 1 {
      assert Beat(s, d, k) == c.now + 1;
    }
    if j :| j >= 1 && Beat(s, d, j) == c.now + 1 {
      BeatsApart(s, d, j, k);
      BeatsApart(s, d, k, j);
    }
  }

  lemma {:induction false} NowGrows(run: seq<Timing>, events: seq<Event>, i: nat)
    requires IsRun(run, events) && i < |run|
    ensures run[i].clock.now >= run[0].clock.now
  {
    if i > 0 {
      NowGrows(run, events, i - 1);
      RunStep(run, events, i - 1);
    }
  }

  // ---------- One-shot timers ----------

  /** Linked at n with deadline d: pending, or fired and gone. */
  ghost predicate Counting(c: Clock, t: Tid, n: int, d: int) {
    && c.due(t) == d && n <= c.now
    && (t in c.list <==> c.now < d || c.now == n)
  }

  lemma TickCounting(c: Clock, t: Tid, n: int, d: int, u: Setup)
    requires Inv(c) && !u.repeats(t) && Counting(c, t, n, d)
    ensures Counting(TickClock(c, u), t, n, d)
  {
    TickList(c, u);
    FiringIs(c);
  }

  lemma KeepsCounting(s: Timing, e: Event, t: Tid, n: int, d: int)
    requires Inv(s.clock) && !s.setup.repeats(t) && Counting(s.clock, t, n, d) && !Touches(e, t)
    ensures Counting(Next(s, e).clock, t, n, d)
  {
    if e == Tick {
      TickCounting(s.clock, t, n, d, s.setup);
    } else {
      OtherOne(s, e, t);
    }
  }

  lemma StartsCounting(c: Clock, t: Tid, u: Setup, tick: int) returns (c': Clock)
    requires Startable(u, t) && tick <= c.now <= tick + u.period(t) && Inv(c)
    ensures c' == LinkTimer(c, t, u, tick) && Inv(c') && Counting(c', t, c.now, tick + u.period(t))
  {
    assert InOrder(c) by { InvMeans(c); }
    c' := LinkSorts(c, t, u, tick);
    LinkTimely(c, t, u, tick, c');
  }

  lemma StepCounting(s: Timing, e: Event, t: Tid, n: int, d: int) returns (s': Timing)
    requires Inv(s.clock) && Enabled(s, e) && !s.setup.repeats(t) && Counting(s.clock, t, n, d) && !Touches(e, t)
    ensures s' == Next(s, e) && Inv(s'.clock) && Counting(s'.clock, t, n, d)
  {
    s' := Next(s, e);
    KeepsCounting(s, e, t, n, d);
    NextKeeps(s, e);
  }

  /** The deadline that the start of the run sets. */
  function Deadline(run: seq<Timing>, events: seq<Event>, t: Tid): int
    requires run != [] && events != [] && events[0].Start?
  {
    events[0].tick + run[0].setup.period(t)
  }

  lemma FirstCounting(run: seq<Timing>, events: seq<Event>, t: Tid)
    requires StartsRun(run, events, t)
    ensures run[0].clock.now <= Deadline(run, events, t)
    ensures Inv(run[1].clock) && Counting(run[1].clock, t, run[0].clock.now, Deadline(run, events, t))
  {
    RunStep(run, events, 0);
    var c' := StartsCounting(run[0].clock, t, run[0].setup, events[0].tick);
    assert run[1].clock == c';
  }

  lemma {:induction false} RunCounting(run: seq<Timing>, events: seq<Event>, t: Tid, i: nat)
    requires StartsRun(run, events, t) && 1 <= i < |run| && !run[0].setup.repeats(t)
    ensures run[0].clock.now <= Deadline(run, events, t)
    ensures Inv(run[i].clock) && Counting(run[i].clock, t, run[0].clock.now, Deadline(run, events, t))
  {
    FirstCounting(run, events, t);
    if i > 1 {
      RunCounting(run, events, t, i - 1);
      LaterUntouched(run, events, t, i - 1);
      RunSetting(run, events, t, i - 1);
      RunStep(run, events, i - 1);
      var s' := StepCounting(run[i - 1], events[i - 1], t, run[0].clock.now, Deadline(run, events, t));
      assert run[i] == s';
    }
  }

  /** A one-shot timer that has been linked, and not touched since, fires once: on the tick of its deadline, or on
      the next tick when the deadline is the tick of the linking itself. */
  lemma OneShotFires(run: seq<Timing>, events: seq<Event>, t: Tid, i: nat)
    requires StartsRun(run, events, t) && 1 <= i < |events| && events[i] == Tick && !run[0].setup.repeats(t)
    ensures var d, n := Deadline(run, events, t), run[0].clock.now;
            t in Firing(run[i].clock) <==> run[i].clock.now + 1 == if d == n then n + 1 else d
  {
    RunCounting(run, events, t, i);
    FiringIs(run[i].clock);
  }

  /** Until then, and no longer, it is pending. */
  lemma OneShotPends(run: seq<Timing>, events: seq<Event>, t: Tid, i: nat)
    requires StartsRun(run, events, t) && 1 <= i < |run| && !run[0].setup.repeats(t)
    ensures t in run[i].clock.list <==>
              run[i].clock.now < Deadline(run, events, t) || run[i].clock.now == run[0].clock.now
  {
    RunCounting(run, events, t, i);
  }
}
