/** The scheduler's global state, changed in place (src/scheduler.c:181-362, src/thread.c). */
module SchedulerObject {
  import opened Options
  import opened IpcList
  import opened Bits
  import opened ReadyMap
  import opened SchedulerSpec
  import opened SchedulerRuns

  class Scheduler {
    var queues: Queues
    var group: nat
    var table: seq<nat>
    var threads: map<Tid, Thread>
    var current: Option<Tid>
    var lock: int

    ghost function AsSched(): Sched
      reads this
    {
      Sched(queues, Map(group, table), threads, current, lock)
    }

    ghost predicate Valid()
      reads this
    {
      Sound(AsSched())
    }

    /** rt_system_scheduler_init. */
    constructor (max: nat, threads: map<Tid, Thread>)
      requires 0 < max <= 256
      requires forall t :: t in threads ==> threads[t].stat == Init && ThreadOk(threads[t], max)
      ensures Valid() && AsSched() == Initial(max, threads)
    {
      InitialSound(max, threads);
      queues := seq(max, i => []);
      group, table := 0, seq(32, i => 0);
      this.threads := threads;
      current, lock := None, 0;
    }

    /** rt_schedule_insert_thread. */
    method InsertThread(t: Tid)
      requires Known(AsSched(), t)
      modifies this`queues, this`group, this`table, this`threads
      ensures AsSched() == SchedulerSpec.InsertThread(old(AsSched()), t)
    {
      threads := threads[t := threads[t].(stat := Ready)];
      var p := threads[t].prio;
      queues := queues[p := queues[p] + [t]];
      var marks := threads[t].marks;
      if |queues| > 32 {
        table := table[marks.number := SetBit(table[marks.number], marks.tableBit)];
      }
      group := SetBit(group, marks.groupBit);
    }

    /** rt_schedule_remove_thread. */
    method RemoveThread(t: Tid)
      requires Known(AsSched(), t)
      modifies this`queues, this`group, this`table
      ensures AsSched() == SchedulerSpec.RemoveThread(old(AsSched()), t)
    {
      var p := threads[t].prio;
      queues := queues[p := Remove(queues[p], t)];
      if queues[p] == [] {
        var marks := threads[t].marks;
        if |queues| > 32 {
          table := table[marks.number := ClearBit(table[marks.number], marks.tableBit)];
          if table[marks.number] == 0 {
            group := ClearBit(group, marks.groupBit);
          }
        } else {
          group := ClearBit(group, marks.groupBit);
        }
      }
    }

    /** rt_schedule; some thread is ready. */
    method Schedule(ghost t: Tid)
      requires Valid() && (lock == 0 ==> t in threads && threads[t].stat == Ready)
      modifies this`current
      ensures Valid() && Usable(old(AsSched()).ready) && AsSched() == SchedulerSpec.Schedule(old(AsSched()))
      ensures lock == 0 ==> current.Some? && MostUrgent(AsSched(), current.value)
    {
      ScheduleKeeps(AsSched());
      if lock == 0 {
        SchedulePicks(AsSched(), t);
        var highest := HighestPriority(t);
        var to := queues[highest][0];
        if current != Some(to) {
          current := Some(to);
        }
      }
    }

    /** The two __rt_ffs look-ups of rt_schedule. */
    method HighestPriority(ghost t: Tid) returns (highest: int)
      requires Valid() && t in threads && threads[t].stat == Ready
      ensures Usable(AsSched().ready) && highest == Highest(AsSched().ready, |queues|)
      ensures 0 <= highest < |queues| && queues[highest] != []
    {
      HighestReady(AsSched(), t);
      if |queues| > 32 {
        var number := Ffs(group) - 1;
        highest := number * 8 + Ffs(table[number]) - 1;
      } else {
        highest := Ffs(group) - 1;
      }
    }

    /** Sets current_priority and calculates the attributes from it. */
    method SetPriority(t: Tid, p: nat)
      requires t in threads
      modifies this`threads
      ensures AsSched() == WithPrio(old(AsSched()), t, p)
    {
      var marks := if |queues| > 32 then Marks(p / 8, p / 8, p % 8) else Marks(0, p, 0);
      threads := threads[t := threads[t].(prio := p, marks := marks)];
    }

    /** rt_thread_startup. */
    method Startup(t: Tid)
      requires Valid() && t in threads && threads[t].stat == Init
      modifies this
      ensures Valid() && AsSched() == SchedulerSpec.Startup(old(AsSched()), t)
    {
      StartKeeps(AsSched(), t);
      StartupKeeps(AsSched(), t);
      SetPriority(t, threads[t].initPrio);
      threads := threads[t := threads[t].(stat := Suspended)];
      var ok := Resume(t);
      if current != None {
        Schedule(t);
      }
    }

    /** rt_thread_resume. */
    method Resume(t: Tid) returns (ok: bool)
      requires Known(AsSched(), t)
      modifies this`queues, this`group, this`table, this`threads
      ensures (AsSched(), ok) == SchedulerSpec.Resume(old(AsSched()), t)
    {
      if threads[t].stat != Suspended {
        return false;
      }
      InsertThread(t);
      ok := true;
    }

    /** rt_thread_suspend. */
    method Suspend(t: Tid) returns (ok: bool)
      requires Valid() && t in threads
      modifies this
      ensures Known(old(AsSched()), t) && Valid() && (AsSched(), ok) == SuspendThread(old(AsSched()), t)
    {
      SuspendKeeps(AsSched(), t);
      if threads[t].stat != Ready {
        return false;
      }
      threads := threads[t := threads[t].(stat := Suspended)];
      RemoveThread(t);
      ok := true;
    }

    /** rt_thread_timeout. */
    method Timeout(t: Tid)
      requires Valid() && t in threads && threads[t].stat == Suspended
      modifies this
      ensures Valid() && AsSched() == SchedulerSpec.Timeout(old(AsSched()), t)
    {
      InsertKeeps(AsSched(), t);
      InsertThread(t);
      Schedule(t);
    }

    /** rt_thread_control with RT_THREAD_CTRL_CHANGE_PRIORITY. */
    method ChangePriority(t: Tid, p: nat)
      requires Valid() && t in threads && p < |queues|
      modifies this
      ensures Known(old(AsSched()), t) && Valid() && AsSched() == SchedulerSpec.ChangePriority(old(AsSched()), t, p)
    {
      ChangeKeeps(AsSched(), t, p);
      if threads[t].stat == Ready {
        RemoveThread(t);
        SetPriority(t, p);
        InsertThread(t);
      } else {
        SetPriority(t, p);
      }
    }

    /** rt_thread_yield: the test on the thread's links says that it is not alone in its queue. */
    method Yield()
      requires Valid() && current.Some?
      modifies this
      ensures Valid() && AsSched() == SchedulerSpec.Yield(old(AsSched()))
    {
      var t := current.value;
      CurrentKnown(AsSched());
      var p := threads[t].prio;
      if threads[t].stat == Ready && |queues[p]| > 1 {
        RotateKeeps(AsSched(), t);
        queues := queues[p := Remove(queues[p], t)];
        queues := queues[p := queues[p] + [t]];
        assert queues == old(queues)[p := Remove(old(queues)[p], t) + [t]];
        Schedule(t);
      }
    }

    /** rt_thread_exit; idle is another thread that is ready. */
    method Exit(ghost idle: Tid)
      requires Valid() && current.Some? && Some(idle) != current && idle in threads && threads[idle].stat == Ready
      modifies this
      ensures Valid() && AsSched() == SchedulerSpec.Exit(old(AsSched()))
    {
      var t := current.value;
      CurrentKnown(AsSched());
      ExitKeeps(AsSched(), t);
      RemoveThread(t);
      threads := threads[t := threads[t].(stat := Closed)];
      Schedule(idle);
    }

    /** rt_enter_critical. */
    method EnterCritical()
      requires Valid()
      modifies this`lock
      ensures Valid() && AsSched() == SchedulerSpec.EnterCritical(old(AsSched()))
    {
      EnterKeeps(AsSched());
      lock := ToInt16(lock + 1);
    }

    /** rt_exit_critical; idle is some ready thread. */
    method ExitCritical(ghost idle: Tid)
      requires Valid() && idle in threads && threads[idle].stat == Ready
      modifies this`lock, this`current
      ensures Valid() && Usable(old(AsSched()).ready) && AsSched() == SchedulerSpec.ExitCritical(old(AsSched()))
    {
      LeaveKeeps(AsSched());
      LockKeeps(AsSched(), if ToInt16(lock - 1) <= 0 then 0 else ToInt16(lock - 1));
      lock := ToInt16(lock - 1);
      if lock <= 0 {
        lock := 0;
        Schedule(idle);
      }
    }

    /** The time slice part of rt_tick_increase. */
    method TickIncrease()
      requires Valid() && current.Some?
      modifies this
      ensures Valid() && AsSched() == Tick(old(AsSched()))
    {
      var t := current.value;
      CurrentKnown(AsSched());
      var th := threads[t];
      SliceKeeps(AsSched(), t, if th.slice == 1 then th.initTick else (th.slice - 1) % U32);
      threads := threads[t := th.(slice := (th.slice - 1) % U32)];
      if threads[t].slice == 0 {
        threads := threads[t := th.(slice := th.initTick)];
        assert threads == old(threads)[t := th.(slice := th.initTick)];
        Yield();
      }
    }
  }

  lemma HighestReady(s: Sched, t: Tid)
    requires Sound(s) && t in s.threads && s.threads[t].stat == Ready
    ensures Usable(s.ready)
    ensures var h := Highest(s.ready, |s.queues|); 0 <= h < |s.queues| && s.queues[h] != []
    ensures TwoLevels(|s.queues|) ==> 0 <= Ffs(s.ready.group) - 1 < 32
  {
    SoundMeans(s);
    var p := s.threads[t].prio;
    assert t in s.queues[p] && Nonempty(s.queues, p);
    HighestIs(s.ready, s.queues, p);
  }
}
