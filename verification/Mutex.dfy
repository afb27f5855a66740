/** The mutex with priority inheritance of src/ipc.c (RT_IPC_FLAG_PRIO), one mutex with no other
    priority changes.  Each section with interrupts disabled is one step.
  */
module MutexSpec {
  import opened Seqs
  import opened Options
  import opened IpcList

  /** hold is an rt_uint8_t.  depth, which the program does not store, counts the takes the owner has
      not given back. */
  datatype Mutex = Mutex(value: int, owner: Option<Tid>, original: int, hold: int, waiters: seq<Tid>,
                         prio: map<Tid, int>, depth: nat)

  datatype Outcome = Taken | TimedOut | Blocked

  function PrioOf(prio: map<Tid, int>): Tid -> int {
    (t: Tid) => if t in prio then prio[t] else 255
  }

  /** rt_mutex_take up to the point where the thread returns or is suspended. */
  function Take(m: Mutex, t: Tid, time: int): (Mutex, Outcome) {
    if m.owner == Some(t) then (m.(hold := (m.hold + 1) % 256, depth := m.depth + 1), Taken)
    else if m.value > 0 then
      (m.(value := m.value - 1, owner := Some(t), original := PrioOf(m.prio)(t),
          hold := (m.hold + 1) % 256, depth := 1), Taken)
    else if time == 0 then (m, TimedOut)
    else
      var p := PrioOf(m.prio)(t);
      var prio := if m.owner.Some? && p < PrioOf(m.prio)(m.owner.value) then m.prio[m.owner.value := p] else m.prio;
      (m.(prio := prio, waiters := Suspend(m.waiters, t, Prio, PrioOf(prio))), Blocked)
  }

  /** The part of rt_mutex_release that ends the ownership of t: its priority comes back, and the first
      waiter becomes the owner. */
  function PassOn(m: Mutex, t: Tid): Mutex {
    var prio := if m.original != PrioOf(m.prio)(t) then m.prio[t := m.original] else m.prio;
    if m.waiters != [] then
      var n := m.waiters[0];
      m.(owner := Some(n), original := PrioOf(prio)(n), hold := 1, waiters := m.waiters[1..], prio := prio, depth := 1)
    else
      m.(value := m.value + 1, owner := None, original := 255, hold := 0, prio := prio, depth := 0)
  }

  /** rt_mutex_release. */
  function Release(m: Mutex, t: Tid): (Mutex, bool) {
    if m.owner != Some(t) then (m, false)
    else if (m.hold - 1) % 256 != 0 then
      (m.(hold := (m.hold - 1) % 256, depth := if m.depth == 0 then 0 else m.depth - 1), true)
    else (PassOn(m, t), true)
  }

  /** rt_thread_timeout of a waiter: it leaves the list without the mutex. */
  function Timeout(m: Mutex, t: Tid): Mutex {
    m.(waiters := Remove(m.waiters, t))
  }

  function Init(prio: map<Tid, int>): Mutex {
    Mutex(1, None, 255, 0, [], prio, 0)
  }

  // ---------- The invariant ----------

  /** value, owner and hold agree. */
  ghost predicate Agree(m: Mutex) {
    && (m.value == 0 || m.value == 1)
    && (m.value == 1 <==> m.owner == None) && (m.value == 1 <==> m.depth == 0)
    && m.hold == m.depth % 256
    && (m.owner == None ==> m.waiters == [] && m.original == 255)
  }

  /** The owner is at least as urgent as every waiter; all other threads have their own priority. */
  ghost predicate Inherits(m: Mutex, base: map<Tid, int>) {
    && Distinct(m.waiters) && Sorted(m.waiters, PrioOf(base))
    && (forall t: Tid :: m.owner != Some(t) ==> PrioOf(m.prio)(t) == PrioOf(base)(t))
    && (m.owner.Some? ==>
          && m.owner.value !in m.waiters && m.original == PrioOf(base)(m.owner.value)
          && PrioOf(m.prio)(m.owner.value) <= m.original
          && forall w :: w in m.waiters ==> PrioOf(m.prio)(m.owner.value) <= PrioOf(base)(w))
  }

  ghost predicate Inv(m: Mutex, base: map<Tid, int>) {
    Agree(m) && Inherits(m, base)
  }

  /** Calls are made by threads that run, so not by waiters; a timeout hits a waiter. */
  datatype Event = EvTake(t: Tid, time: int) | EvRelease(t: Tid) | EvTimeout(t: Tid)

  ghost predicate Possible(m: Mutex, e: Event) {
    match e
    case EvTake(t, _) => t !in m.waiters
    case EvRelease(t) => t !in m.waiters
    case EvTimeout(t) => t in m.waiters
  }

  function Next(m: Mutex, e: Event): Mutex {
    match e
    case EvTake(t, time) => Take(m, t, time).0
    case EvRelease(t) => Release(m, t).0
    case EvTimeout(t) => Timeout(m, t)
  }

  ghost predicate IsRun(run: seq<Mutex>, events: seq<Event>, base: map<Tid, int>) {
    && |run| == |events| + 1 && run[0] == Init(base)
    && forall i, j {:trigger run[i], run[j]} :: 0 <= i < |events| && j == i + 1 ==>
         Possible(run[i], events[i]) && run[j] == Next(run[i], events[i])
  }
}

module MutexProofs {
  import opened Seqs
  import opened Options
  import opened IpcList
  import opened MutexSpec

  lemma TakeKeeps(m: Mutex, t: Tid, time: int, base: map<Tid, int>)
    requires Inv(m, base) && t !in m.waiters
    ensures Inv(Take(m, t, time).0, base)
    ensures Take(m, t, time).1 == Taken <==> m.owner == None || m.owner == Some(t)
    ensures Take(m, t, time).1 == Taken ==> Take(m, t, time).0.owner == Some(t)
    ensures Take(m, t, time).1 == TimedOut ==> time == 0 && Take(m, t, time).0 == m
    ensures Take(m, t, time).1 == Blocked ==> t in Take(m, t, time).0.waiters && Take(m, t, time).0.owner == m.owner
  {
    var (m', o) := Take(m, t, time);
    if o == Blocked {
      BlockKeeps(m, t, time, base);
    }
  }

  lemma SameSuspend(list: seq<Tid>, t: Tid, p: Tid -> int, q: Tid -> int)
    requires p(t) == q(t) && forall x :: x in list ==> p(x) == q(x)
    ensures Suspend(list, t, Prio, p) == Suspend(list, t, Prio, q)
  {
    SamePosition(list, t, p, q);
  }

  lemma {:induction false} SamePosition(list: seq<Tid>, t: Tid, p: Tid -> int, q: Tid -> int)
    requires p(t) == q(t) && forall x :: x in list ==> p(x) == q(x)
    ensures Position(list, t, p) == Position(list, t, q)
  {
    if list != [] {
      assert list[0] in list;
      SamePosition(list[1..], t, p, q);
    }
  }

  /** The priorities while t waits: only the owner's may have been raised. */
  lemma RaisedPrio(m: Mutex, t: Tid, time: int, base: map<Tid, int>)
    requires Inv(m, base) && Take(m, t, time).1 == Blocked
    ensures m.owner.Some? && m.owner.value != t && PrioOf(m.prio)(t) == PrioOf(base)(t)
    ensures var p := PrioOf(Take(m, t, time).0.prio);
            && (forall x: Tid :: x != m.owner.value ==> p(x) == PrioOf(base)(x))
            && p(m.owner.value) <= PrioOf(base)(t) && p(m.owner.value) <= PrioOf(m.prio)(m.owner.value)
  {
  }

  lemma BlockSorts(m: Mutex, t: Tid, time: int, base: map<Tid, int>) returns (list: seq<Tid>)
    requires Inv(m, base) && t !in m.waiters && Take(m, t, time).1 == Blocked
    ensures list == Take(m, t, time).0.waiters && Distinct(list) && Sorted(list, PrioOf(base))
    ensures forall x :: x in list <==> x in m.waiters || x == t
  {
    RaisedPrio(m, t, time, base);
    SameSuspend(m.waiters, t, PrioOf(Take(m, t, time).0.prio), PrioOf(base));
    SuspendAdds(m.waiters, t, Prio, PrioOf(base));
    SuspendSorts(m.waiters, t, PrioOf(base));
    list := Suspend(m.waiters, t, Prio, PrioOf(base));
  }

  lemma BlockKeeps(m: Mutex, t: Tid, time: int, base: map<Tid, int>)
    requires Inv(m, base) && t !in m.waiters && Take(m, t, time).1 == Blocked
    ensures Inv(Take(m, t, time).0, base) && t in Take(m, t, time).0.waiters
  {
    RaisedPrio(m, t, time, base);
    var list := BlockSorts(m, t, time, base);
  }

  lemma ReleaseKeeps(m: Mutex, t: Tid, base: map<Tid, int>)
    requires Inv(m, base)
    ensures Inv(Release(m, t).0, base)
  {
    if m.owner == Some(t) {
      if (m.hold - 1) % 256 != 0 {
        StaysNested(m, t, base);
      } else if m.waiters != [] {
        HandsOver(m, t, base);
      } else {
        LeavesFree(m, t, base);
      }
    }
  }

  lemma StaysNested(m: Mutex, t: Tid, base: map<Tid, int>)
    requires Inv(m, base) && m.owner == Some(t) && (m.hold - 1) % 256 != 0
    ensures Inv(Release(m, t).0, base)
  {
    HoldStep(m.depth);
    var m' := Release(m, t).0;
    assert Agree(m');
    assert m'.waiters == m.waiters && m'.prio == m.prio && m'.owner == m.owner && m'.original == m.original;
    SameInherits(m, m', base);
  }

  lemma SameInherits(m: Mutex, m': Mutex, base: map<Tid, int>)
    requires m'.waiters == m.waiters && m'.prio == m.prio && m'.owner == m.owner && m'.original == m.original
    requires Inherits(m, base)
    ensures Inherits(m', base)
  {
  }

  lemma LeavesFree(m: Mutex, t: Tid, base: map<Tid, int>)
    requires Inv(m, base) && m.owner == Some(t) && m.waiters == []
    ensures Inv(PassOn(m, t), base)
  {
    Restored(m, t, base);
  }

  /** The next owner is the first waiter, as urgent as all those who still wait. */
  lemma HandsOver(m: Mutex, t: Tid, base: map<Tid, int>)
    requires Inv(m, base) && m.owner == Some(t) && m.waiters != []
    ensures Inv(PassOn(m, t), base)
  {
    Restored(m, t, base);
    var m' := PassOn(m, t);
    assert Agree(m');
    HeadUrgent(m.waiters, PrioOf(base));
    NextInherits(m', base);
  }

  lemma HeadUrgent(list: seq<Tid>, prio: Tid -> int)
    requires Distinct(list) && Sorted(list, prio) && list != []
    ensures Distinct(list[1..]) && Sorted(list[1..], prio) && list[0] !in list[1..]
    ensures forall w :: w in list[1..] ==> prio(list[0]) <= prio(w)
  {
  }

  lemma NextInherits(m: Mutex, base: map<Tid, int>)
    requires Distinct(m.waiters) && Sorted(m.waiters, PrioOf(base)) && m.owner.Some? && m.owner.value !in m.waiters
    requires m.original == PrioOf(m.prio)(m.owner.value) && forall x: Tid :: PrioOf(m.prio)(x) == PrioOf(base)(x)
    requires forall w :: w in m.waiters ==> PrioOf(base)(m.owner.value) <= PrioOf(base)(w)
    ensures Inherits(m, base)
  {
  }

  /** After the owner has its priority back, every thread has its own. */
  lemma Restored(m: Mutex, t: Tid, base: map<Tid, int>)
    requires Inherits(m, base) && m.owner == Some(t)
    ensures var prio := if m.original != PrioOf(m.prio)(t) then m.prio[t := m.original] else m.prio;
            forall x: Tid :: PrioOf(prio)(x) == PrioOf(base)(x)
  {
  }

  /** The release that ends the ownership gives the thread back the priority it had when it took the
      mutex, and hands the mutex to the most urgent waiter, the earliest among equals. */
  lemma FinalRelease(m: Mutex, t: Tid, base: map<Tid, int>)
    requires Inv(m, base) && m.owner == Some(t) && Release(m, t).0.owner != Some(t)
    ensures PrioOf(Release(m, t).0.prio)(t) == m.original == PrioOf(base)(t)
    ensures Release(m, t).0.owner == if m.waiters == [] then None else Some(m.waiters[0])
    ensures m.waiters != [] ==> forall w :: w in m.waiters ==> PrioOf(base)(m.waiters[0]) <= PrioOf(base)(w)
  {
    if m.waiters != [] {
      assert m.waiters[0] in m.waiters;
    }
  }

  /** A release ends the ownership exactly when the number of takes not given back is 1 modulo 256: the
      hold counter is 8 bits wide.  LostEarly has a run in which that happens too early. */
  lemma LosesAt(m: Mutex, t: Tid, base: map<Tid, int>)
    requires Inv(m, base) && m.owner == Some(t)
    ensures Release(m, t).0.owner != Some(t) <==> m.depth % 256 == 1
  {
    if m.waiters != [] {
      assert m.waiters[0] in m.waiters;
    }
    HoldStep(m.depth);
  }

  lemma HoldStep(depth: nat)
    ensures (depth % 256 - 1) % 256 == 0 <==> depth % 256 == 1
  {
  }

  /** The mutex after n takes by thread 0. */
  function TakenTimes(n: nat): Mutex {
    if n == 0 then Init(map[]) else Mutex(0, Some(0), 255, n % 256, [], map[], n)
  }

  lemma TakesOnce(n: nat)
    ensures Take(TakenTimes(n), 0, 0).0 == TakenTimes(n + 1)
  {
  }

  lemma TakesAgain(n: nat, run: seq<Mutex>, events: seq<Event>)
    requires |run| == n + 1 && |events| == n
    requires forall i :: 0 <= i <= n ==> run[i] == TakenTimes(i)
    requires forall i :: 0 <= i < n ==> events[i] == EvTake(0, 0)
    ensures IsRun(run, events, map[])
  {
    forall i | 0 <= i < n ensures Possible(run[i], events[i]) && run[i + 1] == Next(run[i], events[i]) {
      TakesOnce(i);
    }
  }

  /** After 257 takes by one thread a single release frees the mutex. */
  lemma LostEarly() returns (run: seq<Mutex>, events: seq<Event>, freed: Mutex)
    ensures IsRun(run, events, map[]) && |run| == 258 && forall i :: 0 <= i < 257 ==> events[i] == EvTake(0, 0)
    ensures run[257].owner == Some(0) && run[257].depth == 257
    ensures freed == Next(run[257], EvRelease(0)) && freed.owner == None
  {
    run := seq(258, i requires 0 <= i < 258 => TakenTimes(i));
    events := seq(257, i => EvTake(0, 0));
    TakesAgain(257, run, events);
    freed := Next(TakenTimes(257), EvRelease(0));
  }

  lemma TimeoutKeeps(m: Mutex, t: Tid, base: map<Tid, int>)
    requires Inv(m, base) && t in m.waiters
    ensures Inv(Timeout(m, t), base)
  {
    RemoveElements(m.waiters, t);
    RemoveSorted(m.waiters, t, PrioOf(base));
  }

  lemma NextKeeps(m: Mutex, e: Event, base: map<Tid, int>)
    requires Inv(m, base) && Possible(m, e)
    ensures Inv(Next(m, e), base)
  {
    match e
    case EvTake(t, time) => TakeKeeps(m, t, time, base);
    case EvRelease(t) => ReleaseKeeps(m, t, base);
    case EvTimeout(t) => TimeoutKeeps(m, t, base);
  }

  /** In every run value, owner and hold agree, and the owner is at least as urgent as every waiter,
      also right after the mutex has been handed on. */
  lemma {:induction false} RunKeeps(run: seq<Mutex>, events: seq<Event>, base: map<Tid, int>, i: nat)
    requires IsRun(run, events, base) && i < |run|
    ensures Inv(run[i], base)
  {
    if i > 0 {
      RunKeeps(run, events, base, i - 1);
      var m, e := run[i - 1], events[i - 1];
      assert run[i] == Next(m, e);
      NextKeeps(m, e, base);
    }
  }

  /** The owner changes only by its own release or, when there is none, by a take. */
  lemma OwnerChanges(m: Mutex, e: Event, base: map<Tid, int>)
    requires Inv(m, base) && Possible(m, e) && Next(m, e).owner != m.owner
    ensures if m.owner.Some? then e == EvRelease(m.owner.value) else e.EvTake? && Next(m, e).owner == Some(e.t)
  {
  }

  /** In every run a thread that owns the mutex and later does not has released it in between: step k is
      a release by t itself, up to which t has been the owner all the time. */
  lemma {:induction false} OwnsUntilReleased(run: seq<Mutex>, events: seq<Event>, base: map<Tid, int>, t: Tid,
                                             i: nat, j: nat)
    returns (k: nat)
    requires IsRun(run, events, base) && i < j < |run| && run[i].owner == Some(t) && run[j].owner != Some(t)
    ensures i <= k < j && events[k] == EvRelease(t) && run[k + 1].owner != Some(t)
    ensures forall n :: i <= n <= k ==> run[n].owner == Some(t)
    decreases j - i
  {
    var m, m' := run[i], run[i + 1];
    if m'.owner == Some(t) {
      k := OwnsUntilReleased(run, events, base, t, i + 1, j);
    } else {
      RunKeeps(run, events, base, i);
      OwnerChanges(m, events[i], base);
      k := i;
    }
  }
}

module MutexObject {
  import opened Options
  import opened IpcList
  import opened MutexSpec
  import opened MutexProofs

  class MutexObject {
    var value: int
    var owner: Option<Tid>
    var original: int
    var hold: int
    var waiters: seq<Tid>
    /** current_priority of every thread. */
    var priority: map<Tid, int>
    ghost var depth: nat
    ghost const base: map<Tid, int>

    ghost function AsMutex(): Mutex
      reads this
    {
      Mutex(value, owner, original, hold, waiters, priority, depth)
    }

    ghost predicate Valid()
      reads this
    {
      Inv(AsMutex(), base)
    }

    /** rt_mutex_init. */
    constructor (priority: map<Tid, int>)
      ensures Valid() && AsMutex() == Init(priority) && base == priority
    {
      this.priority := priority;
      base := priority;
      value, owner, original, hold, waiters, depth := 1, None, 255, 0, [], 0;
    }

    /** rt_mutex_take by a running thread, up to its return or its suspension. */
    method Take(t: Tid, time: int) returns (o: Outcome)
      requires Valid() && t !in waiters
      modifies this
      ensures Valid() && (AsMutex(), o) == MutexSpec.Take(old(AsMutex()), t, time)
    {
      TakeKeeps(AsMutex(), t, time, base);
      if owner == Some(t) {
        hold := (hold + 1) % 256;
        depth := depth + 1;
        return Taken;
      }
      if value > 0 {
        value := value - 1;
        owner := Some(t);
        original := PrioOf(priority)(t);
        hold := (hold + 1) % 256;
        depth := 1;
        return Taken;
      }
      if time == 0 {
        return TimedOut;
      }
      var p := PrioOf(priority)(t);
      if p < PrioOf(priority)(owner.value) {
        priority := priority[owner.value := p];
      }
      waiters := SuspendOn(waiters, t, Prio, PrioOf(priority));
      o := Blocked;
    }

    /** rt_mutex_release. */
    method Release(t: Tid) returns (ok: bool)
      requires Valid()
      modifies this
      ensures Valid() && (AsMutex(), ok) == MutexSpec.Release(old(AsMutex()), t)
    {
      ReleaseKeeps(AsMutex(), t, base);
      if owner != Some(t) {
        return false;
      }
      hold := (hold - 1) % 256;
      if hold != 0 {
        depth := depth - 1;
        return true;
      }
      Transfer(t);
      ok := true;
    }

    /** The rest of rt_mutex_release, once hold is 0. */
    method Transfer(t: Tid)
      requires hold == 0 && value == 0
      modifies this
      ensures AsMutex() == PassOn(old(AsMutex()), t)
    {
      if original != PrioOf(priority)(t) {
        priority := priority[t := original];
      }
      if waiters != [] {
        var thread := waiters[0];
        owner := Some(thread);
        original := PrioOf(priority)(thread);
        hold := (hold + 1) % 256;
        waiters := waiters[1..];
        depth := 1;
      } else {
        value := value + 1;
        owner := None;
        original := 255;
        depth := 0;
      }
    }

    /** rt_thread_timeout of a waiting thread. */
    method Expire(t: Tid)
      requires Valid() && t in waiters
      modifies this`waiters
      ensures Valid() && AsMutex() == Timeout(old(AsMutex()), t)
    {
      TimeoutKeeps(AsMutex(), t, base);
      waiters := Remove(waiters, t);
    }
  }
}
