/** The remaining timeout of a mailbox or queue receiver that is woken and blocks again
    (src/ipc.c:1619-1681, 2173-2236).
  */
module TimedWait {
  import opened IpcList
  import opened TimerSpec
  import opened TimerRuns

  const I31 := 0x8000_0000

  /** The value of an unsigned 32-bit result stored in an rt_int32_t. */
  function ToInt32(n: int): int {
    var u := n % U32;
    if u >= I31 then u - U32 else u
  }

  /** timeout -= tick_delta, with tick_delta taken between two readings of the wrapping tick counter. */
  function Remaining(timeout: int, start: int, now: int): int {
    var left := ToInt32(timeout - TickDiff(now, start));
    if left < 0 then 0 else left
  }

  /** The recalculation takes the elapsed time off exactly when the elapsed time is at most
      timeout + 2^31; beyond that the signed result wraps and the timeout grows. */
  lemma RemainingIs(timeout: int, s: int, e: int)
    requires 0 < timeout < I31 && 0 <= e < U32
    ensures e <= timeout + I31 ==>
              Remaining(timeout, s % U32, (s + e) % U32) == if e < timeout then timeout - e else 0
    ensures Remaining(timeout, s % U32, (s + e) % U32) <= timeout <==> e <= timeout + I31
  {
    TickDiffIs(s + e, s);
  }

  // ---------- One stay on the wait list ----------

  /** What happens to the timers from the start of the thread timer to the end of the stay, and how many
      ticks pass then until the resumed thread runs and finds that it must wait again. */
  datatype Stay = Stay(run: seq<Timing>, events: seq<Event>, delay: nat)

  ghost predicate Formed(stay: Stay) {
    |stay.events| >= 2 && |stay.run| == |stay.events| + 1
  }

  function Begins(stay: Stay): int
    requires Formed(stay)
  {
    stay.run[0].clock.now
  }

  function Ends(stay: Stay): int
    requires Formed(stay)
  {
    stay.run[|stay.events|].clock.now
  }

  /** The timer of thread t fired: rt_thread_timeout has taken the thread off the wait list. */
  ghost predicate TimedOut(stay: Stay)
    requires Formed(stay)
  {
    stay.events[|stay.events| - 1] == Tick
  }

  /** With interrupts disabled the thread sets its one-shot timer to the timeout and starts it, so no tick comes
      between, and nobody else touches the timer while it is pending.  The stay ends when it fires, or when the
      thread is resumed, which stops it. */
  ghost predicate IsStay(stay: Stay, t: Tid, timeout: int) {
    && Formed(stay)
    && var n := |stay.events| - 1;
       && IsRun(stay.run, stay.events)
       && StartsRun(stay.run[..n + 1], stay.events[..n], t) && stay.events[0] == Start(t, Begins(stay))
       && !stay.run[0].setup.repeats(t) && stay.run[0].setup.period(t) == timeout
       && t in stay.run[n].clock.list
       && (stay.events[n] == Stop(t) || (stay.events[n] == Tick && t in Firing(stay.run[n].clock)))
  }

  /** A stay ends after the timeout at the latest, and after exactly that time when the timer ends it. */
  lemma StayEnds(stay: Stay, t: Tid, timeout: int)
    requires IsStay(stay, t, timeout) && timeout > 0
    ensures Begins(stay) <= Ends(stay) <= Begins(stay) + timeout
    ensures TimedOut(stay) <==> Ends(stay) == Begins(stay) + timeout
  {
    var n := |stay.events| - 1;
    var run, events := stay.run[..n + 1], stay.events[..n];
    NowGrows(stay.run, stay.events, n + 1);
    RunStep(stay.run, stay.events, n);
    OneShotPends(run, events, t, n);
    if stay.events[n] == Tick {
      RunCounting(run, events, t, n);
      FiringIs(stay.run[n].clock);
    }
  }

  // ---------- All stays of one call ----------

  function After(timeout: int, elapsed: int): int {
    if elapsed < timeout then timeout - elapsed else 0
  }

  /** The thread starts its timer anew with what is left of the timeout; a stay that the timer ends is the
      last.  No more than timeout + 2^31 ticks pass from the start of a stay to the re-check: RemainingIs
      shows that the timeout would grow otherwise. */
  ghost predicate Possible(t: Tid, timeout: int, stays: seq<Stay>)
    decreases |stays|
  {
    stays != [] ==>
      && 0 < timeout && IsStay(stays[0], t, timeout)
      && (|stays| > 1 ==>
            var elapsed := Ends(stays[0]) + stays[0].delay - Begins(stays[0]);
            && !TimedOut(stays[0]) && elapsed <= timeout + I31
            && Formed(stays[1]) && Begins(stays[1]) == Ends(stays[0]) + stays[0].delay
            && Possible(t, After(timeout, elapsed), stays[1..]))
  }

  ghost predicate AllFormed(stays: seq<Stay>) {
    forall i :: 0 <= i < |stays| ==> Formed(stays[i])
  }

  /** The ticks spent on the wait list. */
  function Total(stays: seq<Stay>): int
    requires AllFormed(stays)
  {
    if stays == [] then 0 else Ends(stays[0]) - Begins(stays[0]) + Total(stays[1..])
  }

  lemma {:induction false} StaysFormed(t: Tid, timeout: int, stays: seq<Stay>)
    requires Possible(t, timeout, stays)
    ensures AllFormed(stays)
    decreases |stays|
  {
    if |stays| > 1 {
      StaysFormed(t, After(timeout, Ends(stays[0]) + stays[0].delay - Begins(stays[0])), stays[1..]);
      forall i | 0 <= i < |stays| ensures Formed(stays[i]) {
        assert i > 0 ==> stays[i] == stays[1..][i - 1];
      }
    }
  }

  /** However often the receiver is woken and blocks again, it is on the wait list for no more ticks in all
      than the timeout it passed; and when its timer ends the last stay, exactly the timeout has passed
      since it first blocked. */
  lemma {:induction false} TotalWait(t: Tid, timeout: int, stays: seq<Stay>)
    requires 0 <= timeout && Possible(t, timeout, stays)
    ensures AllFormed(stays) && Total(stays) <= timeout
    ensures stays != [] ==>
              var last := stays[|stays| - 1];
              TimedOut(last) ==> Ends(last) == Begins(stays[0]) + timeout
    decreases |stays|
  {
    StaysFormed(t, timeout, stays);
    if stays != [] {
      StayEnds(stays[0], t, timeout);
      if |stays| > 1 {
        TotalWait(t, After(timeout, Ends(stays[0]) + stays[0].delay - Begins(stays[0])), stays[1..]);
      }
    }
  }

  /** The waiting loop of rt_mb_recv and rt_mq_recv for a positive timeout, with the times at which the
      thread re-checks: it finds nothing, stays on the list, and recalculates its timeout.  At the last stay
      what is left is the timeout less all the time since the thread first blocked. */
  method ReceiveLoop(timeout: int, tick: int, rechecks: seq<int>, ghost t: Tid, ghost stays: seq<Stay>)
    returns (left: int)
    requires 0 < timeout < I31 && Possible(t, timeout, stays) && |stays| == |rechecks| + 1
    requires Formed(stays[0]) && tick == Begins(stays[0])
    requires forall i :: 0 <= i < |rechecks| ==> Formed(stays[i]) && rechecks[i] == Ends(stays[i]) + stays[i].delay
    ensures left > 0 && IsStay(stays[|rechecks|], t, left)
    ensures left == if rechecks == [] then timeout else timeout - (rechecks[|rechecks| - 1] - tick)
  {
    left := timeout;
    var now, i := tick, 0;
    assert stays[0..] == stays;
    while i < |rechecks|
      invariant i <= |rechecks| && 0 < left < I31 && Possible(t, left, stays[i..])
      invariant Formed(stays[i]) && now == Begins(stays[i]) && left == timeout - (now - tick)
      invariant now == if i == 0 then tick else rechecks[i - 1]
    {
      assert stays[i..][0] == stays[i] && stays[i..][1] == stays[i + 1] && stays[i..][1..] == stays[i + 1..];
      var start := now % U32;
      StayEnds(stays[i], t, left);
      RemainingIs(left, now, rechecks[i] - now);
      left := Remaining(left, start, rechecks[i] % U32);
      now := rechecks[i];
      i := i + 1;
    }
    assert stays[i..][0] == stays[i];
  }
}
