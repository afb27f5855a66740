/** The event set of src/ipc.c: threads wait for all or any of some bits, and may clear what they get. */
module EventSpec {
  import opened Seqs
  import opened IpcList

  /** An rt_uint32_t mask, as the set of the numbers of its one bits: & is intersection, | is union, and
      & ~ is difference. */
  type Bits = set<nat>

  /** thread->event_set and thread->event_info: all for RT_EVENT_FLAG_AND, clear for
      RT_EVENT_FLAG_CLEAR.  Without AND the flag OR is set. */
  datatype Want = Want(bits: Bits, all: bool, clear: bool)

  /** recorded is thread->event_set of threads that have been resumed. */
  datatype Event = Event(events: Bits, list: seq<Tid>, want: map<Tid, Want>, recorded: map<Tid, Bits>)

  datatype Outcome = Received(bits: Bits) | TimedOut | Refused | Blocked

  predicate Satisfied(w: Want, events: Bits) {
    if w.all then w.bits * events == w.bits else w.bits * events != {}
  }

  /** What a resumed thread finds in event_set. */
  function Got(w: Want, events: Bits): Bits {
    if w.all then w.bits else w.bits * events
  }

  function Cleared(w: Want, events: Bits): Bits {
    if w.clear then events - Got(w, events) else events
  }

  /** The loop of rt_event_send over the wait list: what is left of the set and of the list, and what the
      resumed threads have recorded. */
  function Sweep(list: seq<Tid>, want: map<Tid, Want>, events: Bits, recorded: map<Tid, Bits>)
    : (Bits, seq<Tid>, map<Tid, Bits>)
    decreases |list|
  {
    if list == [] then (events, [], recorded)
    else
      var t := list[0];
      if t in want && Satisfied(want[t], events) then
        Sweep(list[1..], want, Cleared(want[t], events), recorded[t := Got(want[t], events)])
      else
        var (events', left, recorded') := Sweep(list[1..], want, events, recorded);
        (events', [t] + left, recorded')
  }

  /** rt_event_send; false for an empty set. */
  function Send(e: Event, bits: Bits): (Event, bool) {
    if bits == {} then (e, false)
    else
      var (events, left, recorded) := Sweep(e.list, e.want, e.events + bits, e.recorded);
      (e.(events := events, list := left, recorded := recorded), true)
  }

  /** rt_event_recv up to its return or its suspension. */
  function Recv(e: Event, t: Tid, w: Want, timeout: int, flag: Flag, prio: Tid -> int): (Event, Outcome) {
    if w.bits == {} then (e, Refused)
    else if Satisfied(w, e.events) then
      (if w.clear then e.(events := e.events - w.bits) else e, Received(e.events * w.bits))
    else if timeout == 0 then (e, TimedOut)
    else (e.(list := Suspend(e.list, t, flag, prio), want := e.want[t := w]), Blocked)
  }

  /** rt_thread_timeout of a waiter. */
  function Expire(e: Event, t: Tid): Event {
    e.(list := Remove(e.list, t))
  }

  /** rt_event_control with RT_IPC_CMD_RESET. */
  function Reset(e: Event): Event {
    e.(events := {}, list := [])
  }

  datatype Step = DoSend(bits: Bits) | DoRecv(t: Tid, w: Want, timeout: int) | DoExpire(t: Tid) | DoReset

  predicate Enabled(e: Event, s: Step) {
    match s
    case DoSend(_) => true
    case DoRecv(t, _, _) => t !in e.list
    case DoExpire(t) => t in e.list
    case DoReset => true
  }

  function Next(e: Event, s: Step, flag: Flag, prio: Tid -> int): Event {
    match s
    case DoSend(bits) => Send(e, bits).0
    case DoRecv(t, w, timeout) => Recv(e, t, w, timeout, flag, prio).0
    case DoExpire(t) => Expire(e, t)
    case DoReset => Reset(e)
  }

  /** No waiting thread's condition is satisfied. */
  ghost predicate NoneSatisfied(list: seq<Tid>, want: map<Tid, Want>, events: Bits) {
    forall t :: t in list ==> t in want && want[t].bits != {} && !Satisfied(want[t], events)
  }

  ghost predicate Inv(e: Event) {
    Distinct(e.list) && NoneSatisfied(e.list, e.want, e.events)
  }

  ghost predicate IsRun(run: seq<Event>, steps: seq<Step>, flag: Flag, prios: seq<Tid -> int>) {
    && |run| == |steps| + 1 == |prios| + 1 && run[0] == Event({}, [], map[], map[])
    && forall i, j {:trigger run[i], run[j]} :: 0 <= i < |steps| && j == i + 1 ==>
         Enabled(run[i], steps[i]) && run[j] == Next(run[i], steps[i], flag, prios[i])
  }
}

module EventProofs {
  import opened Seqs
  import opened IpcList
  import opened EventSpec

  /** A condition that a set does not satisfy is not satisfied by a smaller one. */
  lemma ShrinkKeeps(w: Want, events: Bits, smaller: Bits)
    requires !Satisfied(w, events) && smaller <= events
    ensures !Satisfied(w, smaller)
  {
    if w.all {
      assert w.bits <= smaller ==> w.bits <= events;
    } else {
      assert w.bits * smaller <= w.bits * events;
    }
  }

  /** The set only shrinks during the loop, the threads left over were waiters before, and none
      of them is satisfied by what is left, although the ones resumed after they were passed over may
      have cleared bits. */
  lemma {:induction false} SweepLeaves(list: seq<Tid>, want: map<Tid, Want>, events: Bits, recorded: map<Tid, Bits>)
    requires forall t :: t in list ==> t in want && want[t].bits != {}
    requires Distinct(list)
    ensures var (events', left, recorded') := Sweep(list, want, events, recorded);
            && events' <= events && Distinct(left) && (forall t :: t in left ==> t in list)
            && NoneSatisfied(left, want, events')
    decreases |list|
  {
    if list != [] {
      var t, rest := list[0], list[1..];
      assert list == [t] + rest;
      PopFirst(list);
      if Satisfied(want[t], events) {
        SweepLeaves(rest, want, Cleared(want[t], events), recorded[t := Got(want[t], events)]);
      } else {
        SweepLeaves(rest, want, events, recorded);
        var (events', left, recorded') := Sweep(rest, want, events, recorded);
        ShrinkKeeps(want[t], events, events');
        assert t !in left;
        DistinctCons(t, left);
      }
    }
  }

  lemma DistinctCons(t: Tid, list: seq<Tid>)
    requires Distinct(list) && t !in list
    ensures Distinct([t] + list)
  {
  }

  /** The set when the loop comes to the waiter t. */
  ghost function SetAt(list: seq<Tid>, want: map<Tid, Want>, events: Bits, t: Tid): Bits
    decreases |list|
  {
    if list == [] || list[0] == t then events
    else if list[0] in want && Satisfied(want[list[0]], events) then
      SetAt(list[1..], want, Cleared(want[list[0]], events), t)
    else SetAt(list[1..], want, events, t)
  }

  /** A waiter is resumed exactly when the set satisfies it when the loop comes to it; what it records was
      in the set at that moment, is what it asked for, and is all of it for an AND. */
  lemma {:induction false} SweepResumes(list: seq<Tid>, want: map<Tid, Want>, events: Bits, recorded: map<Tid, Bits>,
                                        t: Tid)
    requires forall x :: x in list ==> x in want && want[x].bits != {}
    requires Distinct(list) && t in list
    ensures var (events', left, recorded') := Sweep(list, want, events, recorded);
            var at := SetAt(list, want, events, t);
            && (t !in left <==> Satisfied(want[t], at))
            && (t !in left ==> && t in recorded' && recorded'[t] == Got(want[t], at)
                               && recorded'[t] <= at && recorded'[t] <= want[t].bits && recorded'[t] != {}
                               && (want[t].all ==> recorded'[t] == want[t].bits))
    decreases |list|
  {
    var h, rest := list[0], list[1..];
    assert list == [h] + rest;
    PopFirst(list);
    if h == t {
      if Satisfied(want[t], events) {
        var set1, recorded1 := Cleared(want[t], events), recorded[t := Got(want[t], events)];
        SweepLeaves(rest, want, set1, recorded1);
        SweepOthers(rest, want, set1, recorded1, t);
      }
    } else if Satisfied(want[h], events) {
      SweepResumes(rest, want, Cleared(want[h], events), recorded[h := Got(want[h], events)], t);
    } else {
      SweepResumes(rest, want, events, recorded, t);
    }
  }

  lemma {:induction false} SweepOthers(list: seq<Tid>, want: map<Tid, Want>, events: Bits, recorded: map<Tid, Bits>,
                                       t: Tid)
    requires t !in list
    ensures var recorded' := Sweep(list, want, events, recorded).2;
            (t in recorded' <==> t in recorded) && (t in recorded ==> recorded'[t] == recorded[t])
    decreases |list|
  {
    if list != [] {
      var h := list[0];
      if h in want && Satisfied(want[h], events) {
        SweepOthers(list[1..], want, Cleared(want[h], events), recorded[h := Got(want[h], events)], t);
      } else {
        SweepOthers(list[1..], want, events, recorded, t);
      }
    }
  }

  // ---------- Steps and runs ----------

  lemma SendKeeps(e: Event, bits: Bits)
    requires Inv(e)
    ensures Inv(Send(e, bits).0)
  {
    if bits != {} {
      SweepLeaves(e.list, e.want, e.events + bits, e.recorded);
    }
  }

  lemma NoneShrinks(list: seq<Tid>, want: map<Tid, Want>, events: Bits, smaller: Bits)
    requires NoneSatisfied(list, want, events) && smaller <= events
    ensures NoneSatisfied(list, want, smaller)
  {
    forall t | t in list ensures t in want && want[t].bits != {} && !Satisfied(want[t], smaller) {
      ShrinkKeeps(want[t], events, smaller);
    }
  }

  lemma RecvKeeps(e: Event, t: Tid, w: Want, timeout: int, flag: Flag, prio: Tid -> int)
    requires Inv(e) && t !in e.list
    ensures Inv(Recv(e, t, w, timeout, flag, prio).0)
    ensures Recv(e, t, w, timeout, flag, prio).1.Received? ==> Recv(e, t, w, timeout, flag, prio).1.bits <= e.events
  {
    if w.bits != {} {
      if Satisfied(w, e.events) {
        NoneShrinks(e.list, e.want, e.events, e.events - w.bits);
      } else if timeout != 0 {
        SuspendAdds(e.list, t, flag, prio);
      }
    }
  }

  lemma ExpireKeeps(e: Event, t: Tid)
    requires Inv(e)
    ensures Inv(Expire(e, t))
  {
    RemoveElements(e.list, t);
  }

  lemma NextKeeps(e: Event, s: Step, flag: Flag, prio: Tid -> int)
    requires Inv(e) && Enabled(e, s)
    ensures Inv(Next(e, s, flag, prio))
  {
    match s
    case DoSend(bits) => SendKeeps(e, bits);
    case DoRecv(t, w, timeout) => RecvKeeps(e, t, w, timeout, flag, prio);
    case DoExpire(t) => ExpireKeeps(e, t);
    case DoReset =>
  }

  /** In every reachable state no waiting thread's condition is satisfied by the event set. */
  lemma {:induction false} RunKeeps(run: seq<Event>, steps: seq<Step>, flag: Flag, prios: seq<Tid -> int>, i: nat)
    requires IsRun(run, steps, flag, prios) && i < |run|
    ensures Inv(run[i])
  {
    if i > 0 {
      RunKeeps(run, steps, flag, prios, i - 1);
      var e, e' := run[i - 1], run[i];
      assert e' == Next(e, steps[i - 1], flag, prios[i - 1]);
      NextKeeps(e, steps[i - 1], flag, prios[i - 1]);
    }
  }
}

module EventObject {
  import opened IpcList
  import opened EventSpec
  import opened EventProofs

  class EventSet {
    const flag: Flag
    var events: Bits
    var waiters: seq<Tid>
    var want: map<Tid, Want>
    var recorded: map<Tid, Bits>

    ghost function AsEvent(): Event
      reads this
    {
      Event(events, waiters, want, recorded)
    }

    ghost predicate Valid()
      reads this
    {
      Inv(AsEvent())
    }

    /** rt_event_init. */
    constructor (flag: Flag)
      ensures Valid() && AsEvent() == Event({}, [], map[], map[]) && this.flag == flag
    {
      this.flag := flag;
      events, waiters, want, recorded := {}, [], map[], map[];
    }

    /** rt_event_send: walks the wait list, resuming and clearing as it goes. */
    method Send(bits: Bits) returns (ok: bool)
      requires Valid()
      modifies this
      ensures Valid() && (AsEvent(), ok) == EventSpec.Send(old(AsEvent()), bits)
    {
      SendKeeps(AsEvent(), bits);
      if bits == {} {
        return false;
      }
      events := events + bits;
      var n := 0;
      ghost var result := Sweep(waiters, want, events, recorded);
      SweepStarts(waiters, want, events, recorded);
      while n < |waiters|
        invariant Sweeping(waiters, want, events, recorded, n, result) && want == old(want)
        decreases |waiters| - n
      {
        var t := waiters[n];
        SweepHead(waiters, want, events, recorded, n, result);
        if t in want && Satisfied(want[t], events) {
          var w := want[t];
          recorded := recorded[t := Got(w, events)];
          if w.clear {
            events := events - recorded[t];
          }
          waiters := waiters[..n] + waiters[n + 1..];
        } else {
          n := n + 1;
        }
      }
      SweepEnds(waiters, want, events, recorded, n, result);
      ok := true;
    }

    /** rt_event_recv up to its return or its suspension. */
    method Recv(t: Tid, w: Want, timeout: int, prio: Tid -> int) returns (o: Outcome)
      requires Valid() && t !in waiters
      modifies this
      ensures Valid() && (AsEvent(), o) == EventSpec.Recv(old(AsEvent()), t, w, timeout, flag, prio)
    {
      RecvKeeps(AsEvent(), t, w, timeout, flag, prio);
      if w.bits == {} {
        return Refused;
      }
      if Satisfied(w, events) {
        o := Received(events * w.bits);
        if w.clear {
          events := events - w.bits;
        }
        return;
      }
      if timeout == 0 {
        return TimedOut;
      }
      want := want[t := w];
      waiters := SuspendOn(waiters, t, flag, prio);
      o := Blocked;
    }

    /** rt_thread_timeout of a waiting thread. */
    method Expire(t: Tid, ghost prio: Tid -> int)
      requires Valid() && t in waiters
      modifies this`waiters
      ensures Valid() && AsEvent() == Next(old(AsEvent()), DoExpire(t), flag, prio)
    {
      NextKeeps(AsEvent(), DoExpire(t), flag, prio);
      waiters := Remove(waiters, t);
    }

    /** rt_event_control with RT_IPC_CMD_RESET: every waiter is resumed with an error. */
    method Reset(ghost prio: Tid -> int)
      requires Valid()
      modifies this`waiters, this`events
      ensures Valid() && AsEvent() == Next(old(AsEvent()), DoReset, flag, prio)
    {
      NextKeeps(AsEvent(), DoReset, flag, prio);
      waiters := [];
      events := {};
    }
  }

  /** The loop has passed over the first n waiters of what is left of the list. */
  ghost predicate Sweeping(list: seq<Tid>, want: map<Tid, Want>, events: Bits, recorded: map<Tid, Bits>, n: nat,
                           result: (Bits, seq<Tid>, map<Tid, Bits>)) {
    n <= |list| && result == var (s, left, r) := Sweep(list[n..], want, events, recorded); (s, list[..n] + left, r)
  }

  lemma SweepStarts(list: seq<Tid>, want: map<Tid, Want>, events: Bits, recorded: map<Tid, Bits>)
    ensures Sweeping(list, want, events, recorded, 0, Sweep(list, want, events, recorded))
  {
    var (s, left, r) := Sweep(list, want, events, recorded);
    assert list[0..] == list && list[..0] + left == left;
  }

  lemma SweepEnds(list: seq<Tid>, want: map<Tid, Want>, events: Bits, recorded: map<Tid, Bits>, n: nat,
                  result: (Bits, seq<Tid>, map<Tid, Bits>))
    requires Sweeping(list, want, events, recorded, n, result) && n == |list|
    ensures result == (events, list, recorded)
  {
    assert list[n..] == [] && list[..n] + [] == list;
  }

  /** One round of the loop in rt_event_send. */
  lemma SweepHead(list: seq<Tid>, want: map<Tid, Want>, events: Bits, recorded: map<Tid, Bits>, n: nat,
                  result: (Bits, seq<Tid>, map<Tid, Bits>))
    requires Sweeping(list, want, events, recorded, n, result) && n < |list|
    ensures var t := list[n];
            if t in want && Satisfied(want[t], events) then
              Sweeping(list[..n] + list[n + 1..], want, Cleared(want[t], events),
                       recorded[t := Got(want[t], events)], n, result)
            else
              Sweeping(list, want, events, recorded, n + 1, result)
  {
    var t, shorter := list[n], list[..n] + list[n + 1..];
    assert list[n..][1..] == list[n + 1..];
    if t in want && Satisfied(want[t], events) {
      assert shorter[n..] == list[n + 1..] && shorter[..n] == list[..n];
    } else {
      var (s, left, r) := Sweep(list[n + 1..], want, events, recorded);
      assert list[..n] + ([t] + left) == list[..n + 1] + left;
    }
  }
}
