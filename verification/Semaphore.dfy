/** The semaphore of src/ipc.c as a step machine: each section with interrupts disabled is one step. */
module SemaphoreSpec {
  import opened Seqs
  import opened IpcList

  const LIMIT := 0x1_0000    // value is an rt_uint16_t

  /** thread->error of a thread that waits or has waited. */
  datatype Error = Eok | Etimeout | Eerror

  /** initial, releases, takes (hand-offs included) and wraps (how often value overflowed) count since
      the last reset; the program does not store them. */
  datatype Sem = Sem(value: nat, list: seq<Tid>, errors: map<Tid, Error>,
                     initial: nat, releases: nat, takes: nat, wraps: nat)

  datatype Step = Take(t: Tid, time: int) | Release | Expire(t: Tid) | Reset(value: nat)

  function Init(value: nat): Sem {
    Sem(value % LIMIT, [], map[], value % LIMIT, 0, 0, 0)
  }

  /** rt_sem_take up to its return or its suspension. */
  function TakeSem(s: Sem, t: Tid, time: int, flag: Flag, prio: Tid -> int): Sem {
    if s.value > 0 then s.(value := s.value - 1, takes := s.takes + 1)
    else if time == 0 then s
    else s.(list := Suspend(s.list, t, flag, prio), errors := s.errors[t := Eok])
  }

  /** rt_sem_release: hand over to the first waiter, or count up. */
  function ReleaseSem(s: Sem): Sem {
    if s.list != [] then s.(list := s.list[1..], releases := s.releases + 1, takes := s.takes + 1)
    else
      s.(value := (s.value + 1) % LIMIT, releases := s.releases + 1,
         wraps := if s.value + 1 == LIMIT then s.wraps + 1 else s.wraps)
  }

  /** rt_thread_timeout of a waiter. */
  function ExpireSem(s: Sem, t: Tid): Sem {
    s.(list := Remove(s.list, t), errors := s.errors[t := Etimeout])
  }

  function Fail(errors: map<Tid, Error>, list: seq<Tid>): map<Tid, Error>
    decreases |list|
  {
    if list == [] then errors else Fail(errors[list[0] := Eerror], list[1..])
  }

  /** rt_sem_control with RT_IPC_CMD_RESET: all waiters fail. */
  function ResetSem(s: Sem, value: nat): Sem {
    Sem(value % LIMIT, [], Fail(s.errors, s.list), value % LIMIT, 0, 0, 0)
  }

  function Next(s: Sem, e: Step, flag: Flag, prio: Tid -> int): Sem {
    match e
    case Take(t, time) => TakeSem(s, t, time, flag, prio)
    case Release => ReleaseSem(s)
    case Expire(t) => ExpireSem(s, t)
    case Reset(value) => ResetSem(s, value)
  }

  /** A thread on the wait list makes no call, and only such a thread times out. */
  predicate Enabled(s: Sem, e: Step) {
    match e
    case Take(t, _) => t !in s.list
    case Expire(t) => t in s.list
    case Release => true
    case Reset(_) => true
  }

  ghost predicate Inv(s: Sem) {
    && s.value < LIMIT && (s.value > 0 ==> s.list == [])
    && Distinct(s.list) && (forall t :: t in s.list ==> t in s.errors && s.errors[t] == Eok)
    && s.initial + s.releases == s.value + s.takes + s.wraps * LIMIT
  }

  ghost predicate IsRun(run: seq<Sem>, steps: seq<Step>, flag: Flag, prios: seq<Tid -> int>) {
    && |run| == |steps| + 1 == |prios| + 1
    && forall i, j {:trigger run[i], run[j]} :: 0 <= i < |steps| && j == i + 1 ==>
         Enabled(run[i], steps[i]) && run[j] == Next(run[i], steps[i], flag, prios[i])
  }
}

module SemaphoreProofs {
  import opened IpcList
  import opened SemaphoreSpec

  lemma TakeKeeps(s: Sem, t: Tid, time: int, flag: Flag, prio: Tid -> int)
    requires Inv(s) && t !in s.list
    ensures Inv(TakeSem(s, t, time, flag, prio))
  {
    if s.value == 0 && time != 0 {
      SuspendAdds(s.list, t, flag, prio);
    }
  }

  lemma ReleaseKeeps(s: Sem)
    requires Inv(s)
    ensures Inv(ReleaseSem(s))
  {
    if s.list != [] {
      PopFirst(s.list);
    }
  }

  lemma ExpireKeeps(s: Sem, t: Tid)
    requires Inv(s) && t in s.list
    ensures Inv(ExpireSem(s, t))
  {
    RemoveElements(s.list, t);
  }

  lemma NextKeeps(s: Sem, e: Step, flag: Flag, prio: Tid -> int)
    requires Inv(s) && Enabled(s, e)
    ensures Inv(Next(s, e, flag, prio))
  {
    match e
    case Take(t, time) => TakeKeeps(s, t, time, flag, prio);
    case Release => ReleaseKeeps(s);
    case Expire(t) => ExpireKeeps(s, t);
    case Reset(value) =>
  }

  /** In every run a positive value excludes waiters, and the initial value and the releases are accounted
      for by the value and the takes, up to overflows of the 16-bit value. */
  lemma {:induction false} RunKeeps(run: seq<Sem>, steps: seq<Step>, flag: Flag, prios: seq<Tid -> int>, value: nat,
                                    i: nat)
    requires IsRun(run, steps, flag, prios) && run[0] == Init(value) && i < |run|
    ensures Inv(run[i])
  {
    if i > 0 {
      RunKeeps(run, steps, flag, prios, value, i - 1);
      var s, s' := run[i - 1], run[i];
      assert s' == Next(s, steps[i - 1], flag, prios[i - 1]);
      NextKeeps(s, steps[i - 1], flag, prios[i - 1]);
    }
  }

  /** A release at 65535 without waiters: the value becomes 0. */
  predicate OverflowsAt(s: Sem, e: Step) {
    e == Release && s.value == LIMIT - 1
  }

  lemma Overflows(s: Sem, e: Step, flag: Flag, prio: Tid -> int)
    requires Inv(s) && Enabled(s, e) && !e.Reset?
    ensures Next(s, e, flag, prio).wraps == s.wraps + if OverflowsAt(s, e) then 1 else 0
  {
  }

  /** In a run without resets the initial value and the releases are exactly the value and the takes if and only
      if no release has met the value 65535. */
  lemma {:induction false} Conserved(run: seq<Sem>, steps: seq<Step>, flag: Flag, prios: seq<Tid -> int>, value: nat,
                                     i: nat)
    requires IsRun(run, steps, flag, prios) && run[0] == Init(value) && i < |run|
    requires forall j :: 0 <= j < i ==> !steps[j].Reset?
    ensures run[i].initial == value % LIMIT
    ensures run[i].initial + run[i].releases == run[i].value + run[i].takes <==>
              forall j :: 0 <= j < i ==> !OverflowsAt(run[j], steps[j])
  {
    WrapsCount(run, steps, flag, prios, value, i);
    RunKeeps(run, steps, flag, prios, value, i);
  }

  lemma {:induction false} WrapsCount(run: seq<Sem>, steps: seq<Step>, flag: Flag, prios: seq<Tid -> int>, value: nat,
                                      i: nat)
    requires IsRun(run, steps, flag, prios) && run[0] == Init(value) && i < |run|
    requires forall j :: 0 <= j < i ==> !steps[j].Reset?
    ensures run[i].initial == value % LIMIT
    ensures run[i].wraps == 0 <==> forall j :: 0 <= j < i ==> !OverflowsAt(run[j], steps[j])
  {
    if i > 0 {
      WrapsCount(run, steps, flag, prios, value, i - 1);
      RunKeeps(run, steps, flag, prios, value, i - 1);
      var s, s' := run[i - 1], run[i];
      assert s' == Next(s, steps[i - 1], flag, prios[i - 1]);
      Overflows(s, steps[i - 1], flag, prios[i - 1]);
    }
  }

  /** A semaphore initialised to 65535 is empty after one release. */
  lemma OverflowCase(flag: Flag, prio: Tid -> int) returns (run: seq<Sem>)
    ensures IsRun(run, [Release], flag, [prio]) && run[0] == Init(65535) && run[1].value == 0
  {
    var s := Init(65535);
    run := [s, ReleaseSem(s)];
    assert run[0] == s && run[1] == Next(s, [Release][0], flag, [prio][0]) && Enabled(s, [Release][0]);
  }

  // ---------- Leaving the wait list ----------

  /** A waiter leaves by being granted the semaphore, by its timeout or by a reset, and the error it
      finds tells which. */
  lemma Leaves(s: Sem, e: Step, flag: Flag, prio: Tid -> int, t: Tid)
    requires Inv(s) && Enabled(s, e) && t in s.list
    ensures var s' := Next(s, e, flag, prio);
            && (t !in s'.list <==> (e == Release && s.list[0] == t) || e == Expire(t) || e.Reset?)
            && (t !in s'.list ==> t in s'.errors)
            && (e == Release && s.list[0] == t ==> s'.errors[t] == Eok && s'.takes == s.takes + 1)
            && (e == Expire(t) ==> s'.errors[t] == Etimeout && s'.takes == s.takes)
            && (e.Reset? ==> s'.errors[t] == Eerror)
  {
    match e
    case Take(x, time) =>
      if s.value == 0 && time != 0 { SuspendAdds(s.list, x, flag, prio); }
    case Release =>
      PopFirst(s.list);
    case Expire(x) =>
      RemoveElements(s.list, x);
    case Reset(value) =>
      FailIs(s.errors, s.list, t);
  }

  lemma {:induction false} FailIs(errors: map<Tid, Error>, list: seq<Tid>, t: Tid)
    ensures t in list ==> t in Fail(errors, list) && Fail(errors, list)[t] == Eerror
    ensures t !in list ==> (t in Fail(errors, list) <==> t in errors)
    ensures t !in list && t in errors ==> Fail(errors, list)[t] == errors[t]
    decreases |list|
  {
    if list != [] {
      FailIs(errors[list[0] := Eerror], list[1..], t);
    }
  }

  lemma StaysOut(s: Sem, e: Step, flag: Flag, prio: Tid -> int, t: Tid)
    requires Inv(s) && Enabled(s, e) && t !in s.list && !(e.Take? && e.t == t)
    ensures t !in Next(s, e, flag, prio).list
    ensures t in s.errors ==> t in Next(s, e, flag, prio).errors && Next(s, e, flag, prio).errors[t] == s.errors[t]
  {
    match e
    case Take(x, time) =>
      if s.value == 0 && time != 0 { SuspendAdds(s.list, x, flag, prio); }
    case Release =>
      if s.list != [] { PopFirst(s.list); }
    case Expire(x) =>
      RemoveElements(s.list, x);
    case Reset(value) =>
      FailIs(s.errors, s.list, t);
  }

  /** Once it has left, by whichever way, a thread stays off the list and keeps the error it got until it
      calls rt_sem_take again: it is never both granted the semaphore and timed out. */
  lemma {:induction false} LeavesOnce(run: seq<Sem>, steps: seq<Step>, flag: Flag, prios: seq<Tid -> int>, value: nat,
                                      t: Tid, j: nat, k: nat)
    requires IsRun(run, steps, flag, prios) && run[0] == Init(value) && j <= k < |run|
    requires t !in run[j].list && t in run[j].errors
    requires forall i :: j <= i < k ==> !(steps[i].Take? && steps[i].t == t)
    ensures t !in run[k].list && t in run[k].errors && run[k].errors[t] == run[j].errors[t]
  {
    if j < k {
      LeavesOnce(run, steps, flag, prios, value, t, j, k - 1);
      RunKeeps(run, steps, flag, prios, value, k - 1);
      var s, s' := run[k - 1], run[k];
      assert s' == Next(s, steps[k - 1], flag, prios[k - 1]);
      StaysOut(s, steps[k - 1], flag, prios[k - 1], t);
    }
  }
}

module SemaphoreObject {
  import opened IpcList
  import opened SemaphoreSpec
  import opened SemaphoreProofs

  class Semaphore {
    const flag: Flag
    var value: nat
    var waiters: seq<Tid>
    var errors: map<Tid, Error>
    ghost var initial: nat
    ghost var releases: nat
    ghost var takes: nat
    ghost var wraps: nat

    ghost function AsSem(): Sem
      reads this
    {
      Sem(value, waiters, errors, initial, releases, takes, wraps)
    }

    ghost predicate Valid()
      reads this
    {
      Inv(AsSem())
    }

    /** rt_sem_init. */
    constructor (value: nat, flag: Flag)
      ensures Valid() && AsSem() == Init(value) && this.flag == flag
    {
      this.flag := flag;
      this.value := value % LIMIT;
      waiters, errors := [], map[];
      initial, releases, takes, wraps := value % LIMIT, 0, 0, 0;
    }

    /** rt_sem_take up to its return or its suspension. */
    method Take(t: Tid, time: int, prio: Tid -> int) returns (blocked: bool, e: Error)
      requires Valid() && t !in waiters
      modifies this
      ensures Valid() && AsSem() == TakeSem(old(AsSem()), t, time, flag, prio)
      ensures blocked == (old(value) == 0 && time != 0)
      ensures !blocked ==> e == if old(value) > 0 then Eok else Etimeout
    {
      TakeKeeps(AsSem(), t, time, flag, prio);
      if value > 0 {
        value := value - 1;
        takes := takes + 1;
        return false, Eok;
      }
      if time == 0 {
        return false, Etimeout;
      }
      errors := errors[t := Eok];
      waiters := SuspendOn(waiters, t, flag, prio);
      blocked, e := true, Eok;
    }

    /** rt_sem_release. */
    method Release() returns (resumed: bool)
      requires Valid()
      modifies this
      ensures Valid() && AsSem() == ReleaseSem(old(AsSem())) && resumed == (old(waiters) != [])
    {
      ReleaseKeeps(AsSem());
      resumed := waiters != [];
      if resumed {
        waiters := waiters[1..];
        takes := takes + 1;
      } else {
        wraps := if value + 1 == LIMIT then wraps + 1 else wraps;
        value := (value + 1) % LIMIT;
      }
      releases := releases + 1;
    }

    /** rt_thread_timeout of a waiting thread. */
    method Expire(t: Tid)
      requires Valid() && t in waiters
      modifies this`waiters, this`errors
      ensures Valid() && AsSem() == ExpireSem(old(AsSem()), t)
    {
      ExpireKeeps(AsSem(), t);
      waiters := Remove(waiters, t);
      errors := errors[t := Etimeout];
    }

    /** rt_sem_control with RT_IPC_CMD_RESET, resuming all waiters one by one. */
    method Reset(newValue: nat)
      requires Valid()
      modifies this
      ensures Valid() && AsSem() == ResetSem(old(AsSem()), newValue)
    {
      while waiters != []
        invariant Fail(errors, waiters) == old(Fail(errors, waiters))
        decreases |waiters|
      {
        errors := errors[waiters[0] := Eerror];
        waiters := waiters[1..];
      }
      value := newValue % LIMIT;
      initial, releases, takes, wraps := newValue % LIMIT, 0, 0, 0;
    }
  }
}
