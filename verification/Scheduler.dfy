/** Thread states, ready queues and the choice of the running thread (src/scheduler.c, src/thread.c) and
    the time slices of src/clock.c.  Every call is one step; the last section of an rt_thread_resume that was
    interrupted is a step of its own.
  */
module SchedulerSpec {
  import opened Seqs
  import opened Options
  import opened IpcList
  import opened ReadyMap

  const U32 := 0x1_0000_0000

  datatype Stat = Init | Ready | Suspended | Closed

  /** prio is current_priority, initPrio init_priority; marks are number, number_mask and high_mask; slice is
      remaining_tick, initTick init_tick. */
  datatype Thread = Thread(stat: Stat, prio: nat, initPrio: nat, marks: Marks, slice: nat, initTick: nat)

  datatype Sched = Sched(queues: Queues, ready: Map, threads: map<Tid, Thread>, current: Option<Tid>, lock: int)

  // ---------- rt_schedule_insert_thread and rt_schedule_remove_thread ----------

  predicate Known(s: Sched, t: Tid) {
    && t in s.threads && s.threads[t].prio < |s.queues| <= 256
    && |s.ready.table| == 32 && s.threads[t].marks.number < 32
  }

  function InsertThread(s: Sched, t: Tid): Sched
    requires Known(s, t)
  {
    var p := s.threads[t].prio;
    s.(threads := s.threads[t := s.threads[t].(stat := Ready)],
       queues := s.queues[p := s.queues[p] + [t]],
       ready := Mark(s.ready, |s.queues|, s.threads[t].marks))
  }

  function RemoveThread(s: Sched, t: Tid): Sched
    requires Known(s, t)
  {
    var p := s.threads[t].prio;
    var q := Remove(s.queues[p], t);
    s.(queues := s.queues[p := q],
       ready := if q == [] then Unmark(s.ready, |s.queues|, s.threads[t].marks) else s.ready)
  }

  function WithStat(s: Sched, t: Tid, stat: Stat): Sched
    requires t in s.threads
  {
    s.(threads := s.threads[t := s.threads[t].(stat := stat)])
  }

  /** current_priority with the attributes calculated from it. */
  function WithPrio(s: Sched, t: Tid, p: nat): Sched
    requires t in s.threads
  {
    s.(threads := s.threads[t := s.threads[t].(prio := p, marks := MarksOf(|s.queues|, p))])
  }

  // ---------- rt_schedule ----------

  predicate Usable(m: Map) {
    m.group < 0x1_0000_0000 && |m.table| == 32 && forall i :: 0 <= i < 32 ==> m.table[i] < 256
  }

  /** Nothing changes while the scheduler is locked.  Some thread, the idle thread, is always ready. */
  function Schedule(s: Sched): Sched
    requires Usable(s.ready)
  {
    var h := Highest(s.ready, |s.queues|);
    if s.lock == 0 && 0 <= h < |s.queues| && s.queues[h] != [] then s.(current := Some(s.queues[h][0])) else s
  }

  // ---------- The calls ----------

  /** rt_thread_resume; false for a thread that is not suspended. */
  function Resume(s: Sched, t: Tid): (Sched, bool)
    requires Known(s, t)
  {
    if s.threads[t].stat != Suspended then (s, false) else (InsertThread(s, t), true)
  }

  /** rt_thread_suspend; false for a thread that is not ready. */
  function SuspendThread(s: Sched, t: Tid): (Sched, bool)
    requires Known(s, t)
  {
    if s.threads[t].stat != Ready then (s, false) else (RemoveThread(WithStat(s, t, Suspended), t), true)
  }

  /** rt_thread_startup. */
  function Startup(s: Sched, t: Tid): Sched
    requires Sound(s) && t in s.threads && s.threads[t].stat == Init
  {
    SoundMeans(s);
    var s1 := WithStat(WithPrio(s, t, s.threads[t].initPrio), t, Suspended);
    var s2 := Resume(s1, t).0;
    if s2.current != None then
      StartKeeps(s, t);
      SoundMeans(s2);
      Schedule(s2)
    else s2
  }

  /** rt_thread_timeout. */
  function Timeout(s: Sched, t: Tid): Sched
    requires Sound(s) && t in s.threads && s.threads[t].stat == Suspended
  {
    SoundMeans(s);
    InsertKeeps(s, t);
    SoundMeans(InsertThread(s, t));
    Schedule(InsertThread(s, t))
  }

  /** rt_thread_control with RT_THREAD_CTRL_CHANGE_PRIORITY. */
  function ChangePriority(s: Sched, t: Tid, p: nat): Sched
    requires Known(s, t) && p < |s.queues|
  {
    if s.threads[t].stat == Ready then InsertThread(WithPrio(RemoveThread(s, t), t, p), t) else WithPrio(s, t, p)
  }

  /** The current thread moves to the end of its queue, unless it is alone there. */
  function Rotate(s: Sched, t: Tid): Sched
    requires Known(s, t)
  {
    var p := s.threads[t].prio;
    s.(queues := s.queues[p := Remove(s.queues[p], t) + [t]])
  }

  /** rt_thread_yield. */
  function Yield(s: Sched): Sched
    requires Sound(s) && s.current.Some?
  {
    SoundMeans(s);
    var t := s.current.value;
    if s.threads[t].stat == Ready && |s.queues[s.threads[t].prio]| > 1 then
      RotateKeeps(s, t);
      SoundMeans(Rotate(s, t));
      Schedule(Rotate(s, t))
    else s
  }

  /** rt_thread_exit. */
  function Exit(s: Sched): Sched
    requires Sound(s) && s.current.Some?
  {
    SoundMeans(s);
    var t := s.current.value;
    var s1 := WithStat(RemoveThread(s, t), t, Closed);
    ExitKeeps(s, t);
    SoundMeans(s1);
    Schedule(s1)
  }

  /** The value of an integer stored in an rt_int16_t. */
  function ToInt16(n: int): int {
    var u := n % 0x1_0000;
    if u >= 0x8000 then u - 0x1_0000 else u
  }

  /** rt_enter_critical and rt_exit_critical. */
  function EnterCritical(s: Sched): Sched {
    s.(lock := ToInt16(s.lock + 1))
  }

  function ExitCritical(s: Sched): Sched
    requires Usable(s.ready)
  {
    if ToInt16(s.lock - 1) <= 0 then Schedule(s.(lock := 0)) else s.(lock := ToInt16(s.lock - 1))
  }

  /** The time slice part of rt_tick_increase. */
  function Tick(s: Sched): Sched
    requires Sound(s) && s.current.Some?
  {
    SoundMeans(s);
    var t := s.current.value;
    var th := s.threads[t];
    if th.slice == 1 then
      SliceKeeps(s, t, th.initTick);
      Yield(WithSlice(s, t, th.initTick))
    else WithSlice(s, t, (th.slice - 1) % U32)
  }

  function WithSlice(s: Sched, t: Tid, n: nat): Sched
    requires t in s.threads
  {
    s.(threads := s.threads[t := s.threads[t].(slice := n)])
  }

  // ---------- The invariant ----------

  /** A thread is in the queue of its current priority exactly when it is ready. */
  ghost predicate Lined(queues: Queues, threads: map<Tid, Thread>) {
    && (forall p {:trigger queues[p]} :: 0 <= p < |queues| ==> Distinct(queues[p]))
    && (forall p, t {:trigger t in queues[p]} ::
          0 <= p < |queues| && t in queues[p] ==> t in threads && threads[t].stat == Ready && threads[t].prio == p)
    && (forall t {:trigger threads[t]} :: t in threads && threads[t].stat == Ready ==>
          threads[t].prio < |queues| && t in queues[threads[t].prio])
  }

  /** Priorities in range, and from its startup on a thread's attributes are those of its priority. */
  ghost predicate ThreadOk(th: Thread, max: nat) {
    && th.prio < max && th.initPrio < max && th.slice < U32 && th.initTick < U32
    && th.marks.number < 32 && (th.stat != Init ==> th.marks == MarksOf(max, th.prio))
  }

  ghost predicate IsSound(s: Sched) {
    && Agrees(s.ready, s.queues)
    && Lined(s.queues, s.threads)
    && (forall t {:trigger s.threads[t]} :: t in s.threads ==> ThreadOk(s.threads[t], |s.queues|))
    && (s.current.Some? ==> s.current.value in s.threads && s.threads[s.current.value].stat != Init)
    && -0x8000 <= s.lock < 0x8000
  }

  /** IsSound, which proofs unfold only where they ask for it. */
  ghost predicate Sound(s: Sched) {
    forall u {:trigger Shown(s, u)} :: Shown(s, u) ==> IsSound(s)
  }

  predicate Shown(s: Sched, u: bool) {
    true
  }

  lemma SoundMeans(s: Sched)
    ensures Sound(s) <==> IsSound(s)
    ensures Sound(s) ==> Usable(s.ready) && forall t :: t in s.threads ==> Known(s, t)
  {
    assert Shown(s, true);
  }

  // ---------- What the steps keep ----------

  /** A thread outside the queues joins the end of one. */
  lemma LineIn(queues: Queues, threads: map<Tid, Thread>, t: Tid, th: Thread)
    requires Lined(queues, threads) && t in threads && threads[t].stat != Ready
    requires th.stat == Ready && th.prio < |queues|
    ensures Lined(queues[th.prio := queues[th.prio] + [t]], threads[t := th])
  {
    var q := queues[th.prio];
    assert t !in q;
  }

  /** A ready thread leaves its queue and is ready no longer. */
  lemma LineOut(queues: Queues, threads: map<Tid, Thread>, t: Tid, th: Thread)
    requires Lined(queues, threads) && t in threads && threads[t].prio < |queues| && th.stat != Ready
    ensures Lined(queues[threads[t].prio := Remove(queues[threads[t].prio], t)], threads[t := th])
  {
    var p := threads[t].prio;
    assert Distinct(queues[p]);
    RemoveElements(queues[p], t);
    forall i, x | 0 <= i < |queues| && x in queues[i] && i != p ensures x != t {
    }
  }

  lemma InsertKeeps(s: Sched, t: Tid)
    requires Sound(s) && t in s.threads && s.threads[t].stat != Ready && s.threads[t].stat != Init
    ensures Known(s, t) && Sound(InsertThread(s, t))
  {
    SoundMeans(s);
    var p := s.threads[t].prio;
    assert ThreadOk(s.threads[t], |s.queues|);
    MarkAgrees(s.ready, s.queues, p, s.queues[p] + [t]);
    LineIn(s.queues, s.threads, t, s.threads[t].(stat := Ready));
    assert IsSound(InsertThread(s, t));
    SoundMeans(InsertThread(s, t));
  }

  /** The bitmap after t has left its queue. */
  lemma RemoveAgrees(s: Sched, t: Tid)
    requires Agrees(s.ready, s.queues) && Known(s, t) && Distinct(s.queues[s.threads[t].prio])
    requires s.threads[t].marks == MarksOf(|s.queues|, s.threads[t].prio)
    ensures Agrees(RemoveThread(s, t).ready, RemoveThread(s, t).queues)
  {
    var p := s.threads[t].prio;
    var q := Remove(s.queues[p], t);
    if q == [] {
      UnmarkAgrees(s.ready, s.queues, p);
    } else {
      RemoveElements(s.queues[p], t);
      assert q[0] in s.queues[p];
      SameAgrees(s.ready, s.queues, p, q);
    }
  }

  /** t leaves its queue and takes on the new state th. */
  lemma OutKeeps(s: Sched, t: Tid, th: Thread)
    requires Sound(s) && t in s.threads && s.threads[t].stat != Init && th.stat != Ready && th.stat != Init
    requires ThreadOk(th, |s.queues|)
    ensures Known(s, t) && Sound(RemoveThread(s, t).(threads := s.threads[t := th]))
  {
    SoundMeans(s);
    assert ThreadOk(s.threads[t], |s.queues|);
    var s' := RemoveThread(s, t).(threads := s.threads[t := th]);
    assert Distinct(s.queues[s.threads[t].prio]);
    RemoveAgrees(s, t);
    LineOut(s.queues, s.threads, t, th);
    assert IsSound(s');
    SoundMeans(s');
  }

  lemma ThreadsOk(s: Sched, t: Tid)
    requires Sound(s) && t in s.threads
    ensures Known(s, t) && ThreadOk(s.threads[t], |s.queues|)
  {
    SoundMeans(s);
  }

  lemma SuspendKeeps(s: Sched, t: Tid)
    requires Sound(s) && t in s.threads
    ensures Known(s, t) && Sound(SuspendThread(s, t).0)
  {
    ThreadsOk(s, t);
    if s.threads[t].stat == Ready {
      OutKeeps(s, t, s.threads[t].(stat := Suspended));
    }
  }

  lemma ResumeKeeps(s: Sched, t: Tid)
    requires Sound(s) && t in s.threads
    ensures Known(s, t) && Sound(Resume(s, t).0)
  {
    ThreadsOk(s, t);
    if s.threads[t].stat == Suspended {
      InsertKeeps(s, t);
    }
  }

  /** Changing a thread that is not in a queue, without making it ready. */
  lemma SideKeeps(s: Sched, t: Tid, th: Thread)
    requires Sound(s) && t in s.threads && s.threads[t].stat != Ready && th.stat != Ready && ThreadOk(th, |s.queues|)
    requires th.stat == Init ==> s.threads[t].stat == Init
    ensures Sound(s.(threads := s.threads[t := th]))
  {
    SoundMeans(s);
    assert IsSound(s.(threads := s.threads[t := th]));
    SoundMeans(s.(threads := s.threads[t := th]));
  }

  lemma StartKeeps(s: Sched, t: Tid)
    requires Sound(s) && t in s.threads && s.threads[t].stat == Init
    ensures Known(s, t) && ThreadOk(s.threads[t], |s.queues|)
    ensures var s1 := WithStat(WithPrio(s, t, s.threads[t].initPrio), t, Suspended);
            Known(s1, t) && Sound(Resume(s1, t).0)
  {
    ThreadsOk(s, t);
    var p := s.threads[t].initPrio;
    var th := s.threads[t].(prio := p, marks := MarksOf(|s.queues|, p), stat := Suspended);
    SideKeeps(s, t, th);
    var s1 := WithStat(WithPrio(s, t, s.threads[t].initPrio), t, Suspended);
    assert s1 == s.(threads := s.threads[t := th]);
    ResumeKeeps(s1, t);
  }

  lemma ChangeKeeps(s: Sched, t: Tid, p: nat)
    requires Sound(s) && t in s.threads && p < |s.queues|
    ensures Known(s, t) && Sound(ChangePriority(s, t, p))
  {
    ThreadsOk(s, t);
    var th := s.threads[t];
    if th.stat == Ready {
      var th' := th.(stat := Suspended, prio := p, marks := MarksOf(|s.queues|, p));
      var s1 := RemoveThread(s, t).(threads := s.threads[t := th']);
      OutKeeps(s, t, th');
      InsertKeeps(s1, t);
      assert InsertThread(s1, t) == ChangePriority(s, t, p);
    } else {
      SideKeeps(s, t, th.(prio := p, marks := MarksOf(|s.queues|, p)));
    }
  }

  lemma RotateKeeps(s: Sched, t: Tid)
    requires Sound(s) && t in s.threads && s.threads[t].stat == Ready
    ensures Known(s, t) && Sound(Rotate(s, t))
  {
    SoundMeans(s);
    ThreadsOk(s, t);
    var p := s.threads[t].prio;
    var q := s.queues[p];
    assert t in q && Distinct(q);
    RemoveElements(q, t);
    SameAgrees(s.ready, s.queues, p, Remove(q, t) + [t]);
    RotateLined(s.queues, s.threads, p, Remove(q, t) + [t]);
    assert IsSound(Rotate(s, t));
    SoundMeans(Rotate(s, t));
  }

  lemma RotateLined(queues: Queues, threads: map<Tid, Thread>, p: nat, q: seq<Tid>)
    requires Lined(queues, threads) && p < |queues| && Distinct(q) && forall x :: x in q <==> x in queues[p]
    ensures Lined(queues[p := q], threads)
  {
  }

  lemma ExitKeeps(s: Sched, t: Tid)
    requires Sound(s) && t in s.threads && s.threads[t].stat != Init
    ensures Known(s, t) && Sound(WithStat(RemoveThread(s, t), t, Closed))
  {
    ThreadsOk(s, t);
    OutKeeps(s, t, s.threads[t].(stat := Closed));
  }

  lemma SliceKeeps(s: Sched, t: Tid, n: nat)
    requires Sound(s) && t in s.threads && n < U32
    ensures Sound(WithSlice(s, t, n))
  {
    SoundMeans(s);
    assert IsSound(WithSlice(s, t, n));
    SoundMeans(WithSlice(s, t, n));
  }

  /** rt_schedule leaves threads and queues alone. */
  lemma ScheduleKeeps(s: Sched)
    requires Sound(s)
    ensures Usable(s.ready) && Sound(Schedule(s))
  {
    SoundMeans(s);
    var h := Highest(s.ready, |s.queues|);
    if 0 <= h < |s.queues| && s.queues[h] != [] {
      assert s.queues[h][0] in s.queues[h];
    }
    assert IsSound(Schedule(s));
    SoundMeans(Schedule(s));
  }
}

/** The choice of the running thread, and whole runs. */
module SchedulerRuns {
  import opened Options
  import opened Bits
  import opened IpcList
  import opened ReadyMap
  import opened SchedulerSpec

  /** t is the first thread of the most urgent non-empty queue. */
  ghost predicate MostUrgent(s: Sched, t: Tid) {
    exists h :: 0 <= h < |s.queues| && s.queues[h] != [] && s.queues[h][0] == t && NoneAbove(s.queues, h)
  }

  ghost predicate NoneAbove(queues: Queues, h: int) {
    forall p :: 0 <= p < h && p < |queues| ==> queues[p] == []
  }

  /** rt_schedule with the scheduler unlocked makes the head of the most urgent non-empty queue
      current. */
  lemma SchedulePicks(s: Sched, t: Tid)
    requires Sound(s) && s.lock == 0 && t in s.threads && s.threads[t].stat == Ready
    ensures Usable(s.ready) && Schedule(s).current.Some? && MostUrgent(s, Schedule(s).current.value)
  {
    SoundMeans(s);
    var p := s.threads[t].prio;
    assert t in s.queues[p];
    assert Nonempty(s.queues, p);
    HighestIs(s.ready, s.queues, p);
    var h := Highest(s.ready, |s.queues|);
    forall i | 0 <= i < h ensures s.queues[i] == [] {
      if s.queues[i] != [] {
        assert Nonempty(s.queues, i);
        HighestIs(s.ready, s.queues, i);
      }
    }
  }

  /** It is ready, and no ready thread is more urgent. */
  lemma UrgentMeans(s: Sched, t: Tid, x: Tid)
    requires Sound(s) && MostUrgent(s, t) && x in s.threads && s.threads[x].stat == Ready
    ensures t in s.threads && s.threads[t].stat == Ready && s.threads[t].prio <= s.threads[x].prio
  {
    SoundMeans(s);
    var h :| 0 <= h < |s.queues| && s.queues[h] != [] && s.queues[h][0] == t && NoneAbove(s.queues, h);
    assert t in s.queues[h];
    assert x in s.queues[s.threads[x].prio];
  }

  // ---------- Steps ----------

  /** DoResume is an rt_thread_resume without interruption.  DoInsert is the last section of one whose test of the
      state ran earlier: InsertIff shows what it needs by then. */
  datatype Step =
    | DoStartup(t: Tid) | DoResume(t: Tid) | DoInsert(t: Tid) | DoSuspend(t: Tid) | DoTimeout(t: Tid)
    | DoChange(t: Tid, p: nat) | DoYield | DoExit | DoEnter | DoLeave | DoTick | DoSchedule

  ghost predicate Enabled(s: Sched, e: Step) {
    match e
    case DoStartup(t) => t in s.threads && s.threads[t].stat == Init
    case DoResume(t) => t in s.threads
    case DoInsert(t) => t in s.threads && s.threads[t].stat != Init && s.threads[t].stat != Ready
    case DoSuspend(t) => t in s.threads
    case DoTimeout(t) => t in s.threads && s.threads[t].stat == Suspended
    case DoChange(t, p) => t in s.threads && p < |s.queues|
    case DoYield => s.current.Some?
    case DoExit => s.current.Some?
    case DoEnter => true
    case DoLeave => true
    case DoTick => s.current.Some?
    case DoSchedule => true
  }

  ghost function Next(s: Sched, e: Step): Sched
    requires Sound(s) && Enabled(s, e)
  {
    SoundMeans(s);
    match e
    case DoStartup(t) => Startup(s, t)
    case DoResume(t) => Resume(s, t).0
    case DoInsert(t) => InsertThread(s, t)
    case DoSuspend(t) => SuspendThread(s, t).0
    case DoTimeout(t) => Timeout(s, t)
    case DoChange(t, p) => ChangePriority(s, t, p)
    case DoYield => Yield(s)
    case DoExit => Exit(s)
    case DoEnter => EnterCritical(s)
    case DoLeave => ExitCritical(s)
    case DoTick => Tick(s)
    case DoSchedule => Schedule(s)
  }

  lemma LockKeeps(s: Sched, n: int)
    requires Sound(s) && -0x8000 <= n < 0x8000
    ensures Sound(s.(lock := n))
  {
    SoundMeans(s);
    assert IsSound(s.(lock := n));
    SoundMeans(s.(lock := n));
  }

  lemma CurrentKnown(s: Sched)
    requires Sound(s) && s.current.Some?
    ensures Known(s, s.current.value) && ThreadOk(s.threads[s.current.value], |s.queues|)
    ensures s.threads[s.current.value].stat != Init
  {
    SoundMeans(s);
  }

  lemma YieldKeeps(s: Sched)
    requires Sound(s) && s.current.Some?
    ensures Sound(Yield(s))
  {
    CurrentKnown(s);
    var t := s.current.value;
    if s.threads[t].stat == Ready && |s.queues[s.threads[t].prio]| > 1 {
      RotateKeeps(s, t);
      ScheduleKeeps(Rotate(s, t));
    }
  }

  lemma TickKeeps(s: Sched)
    requires Sound(s) && s.current.Some?
    ensures Sound(Tick(s))
  {
    CurrentKnown(s);
    var t := s.current.value;
    var th := s.threads[t];
    if th.slice == 1 {
      SliceKeeps(s, t, th.initTick);
      YieldKeeps(WithSlice(s, t, th.initTick));
    } else {
      SliceKeeps(s, t, (th.slice - 1) % U32);
    }
  }

  lemma StartupKeeps(s: Sched, t: Tid)
    requires Sound(s) && t in s.threads && s.threads[t].stat == Init
    ensures Sound(Startup(s, t))
  {
    StartKeeps(s, t);
    var s2 := Resume(WithStat(WithPrio(s, t, s.threads[t].initPrio), t, Suspended), t).0;
    ScheduleKeeps(s2);
  }

  lemma TimeoutKeeps(s: Sched, t: Tid)
    requires Sound(s) && t in s.threads && s.threads[t].stat == Suspended
    ensures Sound(Timeout(s, t))
  {
    InsertKeeps(s, t);
    ScheduleKeeps(InsertThread(s, t));
  }

  lemma ExitingKeeps(s: Sched)
    requires Sound(s) && s.current.Some?
    ensures Sound(Exit(s))
  {
    CurrentKnown(s);
    ExitKeeps(s, s.current.value);
    ScheduleKeeps(WithStat(RemoveThread(s, s.current.value), s.current.value, Closed));
  }

  lemma LeaveKeeps(s: Sched)
    requires Sound(s)
    ensures Usable(s.ready) && Sound(ExitCritical(s))
  {
    SoundMeans(s);
    if ToInt16(s.lock - 1) <= 0 {
      LockKeeps(s, 0);
      ScheduleKeeps(s.(lock := 0));
    } else {
      LockKeeps(s, ToInt16(s.lock - 1));
    }
  }

  lemma EnterKeeps(s: Sched)
    requires Sound(s)
    ensures Sound(EnterCritical(s))
  {
    SoundMeans(s);
    LockKeeps(s, ToInt16(s.lock + 1));
  }

  /** Inserting a thread that has been started keeps the invariant exactly when it is not ready already, as it is
      when two resumes of one thread have both passed their test. */
  lemma InsertIff(s: Sched, t: Tid)
    requires Sound(s) && t in s.threads && s.threads[t].stat != Init
    ensures Known(s, t) && (Sound(InsertThread(s, t)) <==> s.threads[t].stat != Ready)
  {
    ThreadsOk(s, t);
    if s.threads[t].stat != Ready {
      InsertKeeps(s, t);
    } else {
      SoundMeans(s);
      SoundMeans(InsertThread(s, t));
      var q, p := s.queues[s.threads[t].prio], s.threads[t].prio;
      assert t in q;
      var i :| 0 <= i < |q| && q[i] == t;
      var q' := InsertThread(s, t).queues[p];
      assert q'[i] == q'[|q|] == t;
    }
  }

  /** Every step keeps the ready bits in step with the queues, and the queues with the thread states. */
  lemma StepKeeps(s: Sched, e: Step)
    requires Sound(s) && Enabled(s, e)
    ensures Sound(Next(s, e))
  {
    match e
    case DoStartup(t) => StartupKeeps(s, t);
    case DoResume(t) => ResumeKeeps(s, t);
    case DoInsert(t) => InsertKeeps(s, t);
    case DoSuspend(t) => SuspendKeeps(s, t);
    case DoTimeout(t) => TimeoutKeeps(s, t);
    case DoChange(t, p) => ChangeKeeps(s, t, p);
    case DoYield => YieldKeeps(s);
    case DoExit => ExitingKeeps(s);
    case DoEnter => EnterKeeps(s);
    case DoLeave => LeaveKeeps(s);
    case DoTick => TickKeeps(s);
    case DoSchedule => ScheduleKeeps(s);
  }

  /** rt_system_scheduler_init, with threads that have been initialised and not started. */
  function Initial(max: nat, threads: map<Tid, Thread>): Sched {
    Sched(seq(max, i => []), Map(0, seq(32, i => 0)), threads, None, 0)
  }

  lemma InitialSound(max: nat, threads: map<Tid, Thread>)
    requires 0 < max <= 256
    requires forall t :: t in threads ==> threads[t].stat == Init && ThreadOk(threads[t], max)
    ensures Sound(Initial(max, threads))
  {
    var s := Initial(max, threads);
    forall p: nat ensures !Bit(0, p) {
      ZeroHasNoBits(p);
    }
    assert IsSound(s);
    SoundMeans(s);
  }

  ghost predicate IsRun(run: seq<Sched>, steps: seq<Step>) {
    && |run| == |steps| + 1
    && forall i, j {:trigger run[i], run[j]} :: 0 <= i < |steps| && j == i + 1 ==>
         Enabled(run[i], steps[i]) && (Sound(run[i]) ==> run[j] == Next(run[i], steps[i]))
  }

  /** In every run a ready bit is set exactly when its queue is not empty, a thread is in the queue of its
      current priority exactly when it is ready, and its number and masks are those of that priority. */
  lemma {:induction false} RunKeeps(run: seq<Sched>, steps: seq<Step>, max: nat, threads: map<Tid, Thread>, i: nat)
    requires 0 < max <= 256 && IsRun(run, steps) && i < |run| && run[0] == Initial(max, threads)
    requires forall t :: t in threads ==> threads[t].stat == Init && ThreadOk(threads[t], max)
    ensures Sound(run[i]) && Agrees(run[i].ready, run[i].queues) && Lined(run[i].queues, run[i].threads)
    ensures forall t :: t in run[i].threads ==> ThreadOk(run[i].threads[t], |run[i].queues|)
  {
    if i == 0 {
      InitialSound(max, threads);
    } else {
      RunKeeps(run, steps, max, threads, i - 1);
      var s, e, s' := run[i - 1], steps[i - 1], run[i];
      assert s' == Next(s, e);
      StepKeeps(s, e);
    }
    SoundMeans(run[i]);
  }

  // ---------- Critical sections ----------

  /** What a step adds to the nesting depth. */
  function Nests(e: Step): int {
    match e
    case DoEnter => 1
    case DoLeave => -1
    case _ => 0
  }

  /** The enters among steps i to j - 1, less the exits. */
  function Depth(steps: seq<Step>, i: nat, j: nat): int
    requires i <= j <= |steps|
    decreases j
  {
    if i == j then 0 else Depth(steps, i, j - 1) + Nests(steps[j - 1])
  }

  const LIMIT := 0x8000     // the deepest nesting that rt_int16_t can count

  /** With the scheduler locked nothing but an enter or an exit touches the lock, and nothing switches. */
  lemma LockedStays(s: Sched, e: Step)
    requires Sound(s) && Enabled(s, e) && s.lock != 0 && e != DoEnter && e != DoLeave
    ensures Next(s, e).lock == s.lock && Next(s, e).current == s.current
  {
    SoundMeans(s);
    match e
    case DoStartup(t) => StartKeeps(s, t);
    case DoTimeout(t) => InsertKeeps(s, t);
    case DoYield => CurrentKnown(s);
    case DoTick => CurrentKnown(s);
    case DoExit => CurrentKnown(s);
    case _ =>
  }

  lemma Counts(d: int)
    requires 1 <= d <= LIMIT
    ensures ToInt16(d) != 0 && ToInt16(ToInt16(d) + 1) == ToInt16(d + 1)
    ensures ToInt16(ToInt16(d) - 1) == ToInt16(d - 1) == d - 1
  {
  }

  /** One step at nesting depth d: the lock counts, and only the exit that ends the section may switch. */
  lemma LockedStep(s: Sched, e: Step, d: int)
    requires Sound(s) && Enabled(s, e) && 1 <= d <= LIMIT && s.lock == ToInt16(d)
    ensures Next(s, e).lock == ToInt16(d + Nests(e))
    ensures d + Nests(e) > 0 ==> Next(s, e).current == s.current
  {
    Counts(d);
    if e == DoLeave {
      SoundMeans(s);
    } else if e != DoEnter {
      LockedStays(s, e);
    }
  }

  lemma FirstEnter(s: Sched)
    requires Sound(s) && s.lock == 0
    ensures Next(s, DoEnter).lock == 1 && Next(s, DoEnter).current == s.current
  {
  }

  /** From an enter with the scheduler unlocked until the exit that matches it, the lock is the nesting depth
      and no other thread becomes current, whatever is resumed, yields or times out in between; the depth
      must not exceed 32768, which NestingLimit shows to be exact. */
  lemma {:induction false} CriticalSection(run: seq<Sched>, steps: seq<Step>, i: nat, j: nat)
    requires IsRun(run, steps) && i < j < |run| && Sound(run[i]) && run[i].lock == 0 && steps[i] == DoEnter
    requires forall k :: i < k <= j ==> 0 < Depth(steps, i, k) <= LIMIT
    ensures Sound(run[j]) && run[j].lock == ToInt16(Depth(steps, i, j)) && run[j].current == run[i].current
    decreases j
  {
    var s, s' := run[j - 1], run[j];
    if j == i + 1 {
      assert Depth(steps, i, i) == 0;
      FirstEnter(s);
      StepKeeps(s, DoEnter);
    } else {
      CriticalSection(run, steps, i, j - 1);
      LockedStep(s, steps[j - 1], Depth(steps, i, j - 1));
      StepKeeps(s, steps[j - 1]);
    }
  }

  /** s after n enters. */
  function Entered(s: Sched, n: nat): Sched {
    s.(lock := ToInt16(n))
  }

  lemma EnterAgain(s: Sched, n: nat)
    requires Sound(s)
    ensures Sound(Entered(s, n)) && Next(Entered(s, n), DoEnter) == Entered(s, n + 1)
  {
    LockKeeps(s, ToInt16(n));
  }

  /** n enters in a row from an unlocked scheduler. */
  lemma Enters(s: Sched, n: nat) returns (run: seq<Sched>, steps: seq<Step>)
    requires Sound(s) && s.lock == 0
    ensures IsRun(run, steps) && |run| == n + 1 && run[0] == s && run[n] == Entered(s, n) && Sound(run[n])
    ensures forall i :: 0 <= i < n ==> steps[i] == DoEnter
  {
    run := seq(n + 1, i requires 0 <= i <= n => Entered(s, i));
    steps := seq(n, i => DoEnter);
    forall i | 0 <= i < n ensures Enabled(run[i], steps[i]) && Sound(run[i]) && run[i + 1] == Next(run[i], steps[i]) {
      EnterAgain(s, i);
    }
    EnterAgain(s, n);
  }

  /** Among up to 65535 enters in a row the first exit leaves the scheduler locked exactly for 2 to 32768:
      beyond that the 16-bit counter is negative. */
  lemma NestingLimit(s: Sched, n: nat) returns (run: seq<Sched>, steps: seq<Step>)
    requires Sound(s) && s.lock == 0 && 1 <= n < 0x1_0000
    ensures IsRun(run, steps) && |run| == n + 1 && run[0] == s && forall i :: 0 <= i < n ==> steps[i] == DoEnter
    ensures Sound(run[n]) && (Next(run[n], DoLeave).lock != 0 <==> 2 <= n <= LIMIT)
  {
    run, steps := Enters(s, n);
    ExitFrom(run[n], n);
  }

  lemma ExitFrom(s: Sched, n: nat)
    requires Sound(s) && s.lock == ToInt16(n) && 1 <= n < 0x1_0000
    ensures Next(s, DoLeave).lock != 0 <==> 2 <= n <= LIMIT
  {
    SoundMeans(s);
  }

  /** The matching exit unlocks the scheduler, and the most urgent ready thread becomes current. */
  lemma MatchingExit(run: seq<Sched>, steps: seq<Step>, i: nat, j: nat, t: Tid)
    requires IsRun(run, steps) && i < j < |steps| && Sound(run[i]) && run[i].lock == 0 && steps[i] == DoEnter
    requires (forall k :: i < k <= j ==> 0 < Depth(steps, i, k) <= LIMIT) && Depth(steps, i, j + 1) == 0
    requires t in run[j].threads && run[j].threads[t].stat == Ready
    ensures run[j + 1].lock == 0 && run[j + 1].current.Some? && MostUrgent(run[j], run[j + 1].current.value)
  {
    CriticalSection(run, steps, i, j);
    var s, s' := run[j], run[j + 1];
    LastExit(s, t);
  }

  lemma LastExit(s: Sched, t: Tid)
    requires Sound(s) && s.lock == 1 && t in s.threads && s.threads[t].stat == Ready
    ensures var s' := Next(s, DoLeave); s'.lock == 0 && s'.current.Some? && MostUrgent(s, s'.current.value)
  {
    LockKeeps(s, 0);
    SoundMeans(s);
    SchedulePicks(s.(lock := 0), t);
    SameUrgent(s.(lock := 0), s, Schedule(s.(lock := 0)).current.value);
  }

  lemma SameUrgent(s: Sched, s': Sched, t: Tid)
    requires MostUrgent(s, t) && s'.queues == s.queues
    ensures MostUrgent(s', t)
  {
    var h :| 0 <= h < |s.queues| && s.queues[h] != [] && s.queues[h][0] == t && NoneAbove(s.queues, h);
    assert s'.queues[h][0] == t && NoneAbove(s'.queues, h);
  }

  // ---------- Round robin ----------

  lemma RemoveFirst(q: seq<Tid>)
    requires q != []
    ensures Remove(q, q[0]) == q[1..]
  {
  }

  /** When the running thread's slice ends, it goes behind the other ready threads of its priority and the
      next of them runs. */
  lemma RoundRobin(s: Sched, t: Tid)
    requires Sound(s) && s.lock == 0 && s.current == Some(t) && MostUrgent(s, t)
    requires t in s.threads && s.threads[t].slice == 1
    ensures Known(s, t)
    ensures var q := s.queues[s.threads[t].prio];
            && q != [] && Tick(s).threads[t].slice == s.threads[t].initTick
            && (|q| > 1 ==> Tick(s).queues[s.threads[t].prio] == q[1..] + [t] && Tick(s).current == Some(q[1]))
            && (|q| == 1 ==> Tick(s).current == Some(t))
  {
    var n := s.threads[t].initTick;
    CurrentKnown(s);
    var p := UrgentQueue(s, t);
    SliceKeeps(s, t, n);
    var s1 := WithSlice(s, t, n);
    var q := s.queues[p];
    if |q| > 1 {
      RotateKeeps(s1, t);
      var s2 := Rotate(s1, t);
      RemoveFirst(q);
      assert s2.queues[p] == q[1..] + [t];
      SchedulePicks(s2, t);
      FirstIs(s2, p, Schedule(s2).current.value);
    }
  }

  lemma UrgentQueue(s: Sched, t: Tid) returns (p: nat)
    requires Sound(s) && MostUrgent(s, t)
    ensures t in s.threads && s.threads[t].stat == Ready && s.threads[t].prio == p < |s.queues|
    ensures s.queues[p] != [] && s.queues[p][0] == t && NoneAbove(s.queues, p)
  {
    SoundMeans(s);
    p :| 0 <= p < |s.queues| && s.queues[p] != [] && s.queues[p][0] == t && NoneAbove(s.queues, p);
    assert t in s.queues[p];
  }

  lemma FirstIs(s: Sched, p: nat, t: Tid)
    requires p < |s.queues| && s.queues[p] != [] && NoneAbove(s.queues, p) && MostUrgent(s, t)
    ensures t == s.queues[p][0]
  {
    var h :| 0 <= h < |s.queues| && s.queues[h] != [] && s.queues[h][0] == t && NoneAbove(s.queues, h);
  }
}
