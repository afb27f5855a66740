/** The message queue of src/ipc.c as a step machine.

    Messages are copied with interrupts enabled, so a send and a receive each consist of two
    sections with a copy in between, and any other call may run there.  The thread that copies
    holds the slot privately; the model names an unfinished call by the slot it holds.
  */
module MessageQueueSpec {
  import opened Seqs
  import opened IpcList

  type Slot = nat
  type Msg = seq<bv8>

  /** free and queue: the two slot lists, first slot first; sending: slots being filled;
      receiving: slots being read, with the message each held when it was taken out; data: the
      bytes in each slot; receivers and woken: the wait list, and the waiters resumed by a send
      that have not run yet. */
  datatype Mq = Mq(
    slots: nat, free: seq<Slot>, queue: seq<Slot>, sending: set<Slot>, receiving: map<Slot, Msg>,
    data: seq<Msg>, receivers: seq<Tid>, woken: set<Tid>)

  datatype Step =
    | Begin                                   // rt_mq_send or rt_mq_urgent takes a free slot
    | CopyIn(slot: Slot, msg: Msg)            // ... fills it ...
    | Commit(slot: Slot, urgent: bool)        // ... and links it in
    | RecvCall(t: Tid, wait: bool)            // rt_mq_recv tests for a message
    | RecvAgain(t: Tid, wait: bool)           // ... or re-tests after it was resumed
    | Finish(slot: Slot)                      // ... and gives the slot back after copying it out
    | Expire(t: Tid)
    | Reset

  ghost function AllSlots(n: nat): (all: set<Slot>)
    ensures forall x: nat :: x in all <==> x < n
  {
    if n == 0 then {} else AllSlots(n - 1) + {n - 1}
  }

  /** The slots of the pool by address. */
  function Slots(n: nat): seq<Slot> {
    if n == 0 then [] else Slots(n - 1) + [n - 1]
  }

  predicate Enabled(s: Mq, e: Step) {
    match e
    case Begin => true
    case CopyIn(slot, _) => slot in s.sending
    case Commit(slot, _) => slot in s.sending
    case RecvCall(t, _) => t !in s.receivers && t !in s.woken
    case RecvAgain(t, _) => t in s.woken
    case Finish(slot) => slot in s.receiving
    case Expire(t) => t in s.receivers
    case Reset => true
  }

  /** Linking a filled slot in at either end resumes the first waiting receiver. */
  function LinkIn(s: Mq, slot: Slot, urgent: bool): Mq {
    var s' := s.(sending := s.sending - {slot}, queue := if urgent then [slot] + s.queue else s.queue + [slot]);
    if s.receivers == [] then s'
    else s'.(receivers := s.receivers[1..], woken := s.woken + {s.receivers[0]})
  }

  /** rt_mq_recv from the empty test on: the first message is unlinked. */
  function Recv(s: Mq, t: Tid, wait: bool, flag: Flag, prio: Tid -> int): Mq {
    if s.queue == [] then
      if wait then s.(receivers := Suspend(s.receivers, t, flag, prio)) else s
    else if s.queue[0] < |s.data| then
      s.(queue := s.queue[1..], receiving := s.receiving[s.queue[0] := s.data[s.queue[0]]])
    else s
  }

  function Reverse(q: seq<Slot>): seq<Slot> {
    if q == [] then [] else Reverse(q[1..]) + [q[0]]
  }

  function Next(s: Mq, e: Step, flag: Flag, prio: Tid -> int): Mq
    requires Enabled(s, e)
  {
    match e
    case Begin => if s.free == [] then s else s.(free := s.free[1..], sending := s.sending + {s.free[0]})
    case CopyIn(slot, msg) => if slot < |s.data| then s.(data := s.data[slot := msg]) else s
    case Commit(slot, urgent) => LinkIn(s, slot, urgent)
    case RecvCall(t, wait) => Recv(s, t, wait, flag, prio)
    case RecvAgain(t, wait) => Recv(s.(woken := s.woken - {t}), t, wait, flag, prio)
    case Finish(slot) => s.(receiving := s.receiving - {slot}, free := [slot] + s.free)
    case Expire(t) => s.(receivers := Remove(s.receivers, t))
    case Reset => s.(queue := [], free := Reverse(s.queue) + s.free, receivers := [])
  }

  /** The slots in the hands of somebody, with multiplicity. */
  ghost function Holdings(s: Mq): multiset<Slot> {
    multiset(s.free) + multiset(s.queue) + multiset(s.sending) + multiset(s.receiving.Keys)
  }

  /** Every slot is in exactly one place: free, queued, being filled or being read. */
  ghost predicate Partition(s: Mq) {
    Holdings(s) == multiset(AllSlots(s.slots)) && |s.data| == s.slots
  }

  /** A slot being read still holds the message that was taken out. */
  ghost predicate Intact(s: Mq) {
    forall x :: x in s.receiving && x < |s.data| ==> s.data[x] == s.receiving[x]
  }

  ghost predicate NoLostWakeup(s: Mq) {
    && Distinct(s.receivers) && (forall t :: t in s.receivers ==> t !in s.woken)
    && (s.receivers != [] ==> |s.woken| >= |s.queue|)
  }

  /** All three together; unfolded only where Unfolded(s, _) is mentioned (see InvMeans). */
  ghost predicate Inv(s: Mq) {
    forall u {:trigger Unfolded(s, u)} :: Unfolded(s, u) ==> Partition(s) && Intact(s) && NoLostWakeup(s)
  }

  ghost predicate Unfolded(s: Mq, u: bool) {
    true
  }

  /** The queued messages, in the order in which they will be received. */
  ghost function Messages(s: Mq): seq<Msg> {
    seq(|s.queue|, i requires 0 <= i < |s.queue| => if s.queue[i] < |s.data| then s.data[s.queue[i]] else [])
  }

  /** rt_mq_init: the free list is built by pushing slot after slot. */
  ghost predicate Initial(s: Mq) {
    && s.free == Reverse(Slots(s.slots)) && s.queue == [] && s.sending == {} && s.receiving == map[]
    && |s.data| == s.slots && s.receivers == [] && s.woken == {}
  }

  ghost predicate IsRun(run: seq<Mq>, steps: seq<Step>, flag: Flag, prios: seq<Tid -> int>) {
    && |run| == |steps| + 1 && |prios| == |steps|
    && Initial(run[0])
    && forall i :: 0 <= i < |steps| ==>
        Enabled(run[i], steps[i]) && run[i + 1] == Next(run[i], steps[i], flag, prios[i])
  }
}

module MessageQueueProofs {
  import opened Seqs
  import opened IpcList
  import opened MessageQueueSpec

  /** A slot that somebody holds is a slot of the pool, and nobody else holds it. */
  lemma HeldOnce(s: Mq, x: Slot)
    requires Partition(s)
    ensures Holdings(s)[x] == if x < s.slots then 1 else 0
    ensures x in s.queue || x in s.free || x in s.sending || x in s.receiving ==> x < |s.data|
    ensures x in s.sending ==> x !in s.queue && x !in s.free && x !in s.receiving
    ensures x in s.receiving ==> x !in s.queue && x !in s.free && x !in s.sending
    ensures x in s.queue ==> x !in s.free && multiset(s.queue)[x] == 1
  {
    assert multiset(AllSlots(s.slots))[x] == if x < s.slots then 1 else 0;
  }

  lemma {:induction false} ReverseHolds(q: seq<Slot>)
    ensures multiset(Reverse(q)) == multiset(q)
  {
    if q != [] {
      ReverseHolds(q[1..]);
      assert q == [q[0]] + q[1..];
    }
  }

  lemma FirstOf(q: seq<Slot>)
    requires q != []
    ensures multiset(q) == multiset{q[0]} + multiset(q[1..])
  {
    assert q == [q[0]] + q[1..];
  }

  lemma BeginKeeps(s: Mq)
    requires Partition(s) && s.free != []
    ensures Partition(s.(free := s.free[1..], sending := s.sending + {s.free[0]}))
  {
    HeldOnce(s, s.free[0]);
    FirstOf(s.free);
    assert multiset(s.sending + {s.free[0]}) == multiset(s.sending) + multiset{s.free[0]};
  }

  lemma LinkInKeeps(s: Mq, slot: Slot, urgent: bool)
    requires Partition(s) && slot in s.sending
    ensures Partition(LinkIn(s, slot, urgent))
  {
    assert multiset(s.sending - {slot}) == multiset(s.sending) - multiset{slot};
    assert multiset([slot] + s.queue) == multiset(s.queue) + multiset{slot};
    assert multiset(s.queue + [slot]) == multiset(s.queue) + multiset{slot};
  }

  lemma TakeOutKeeps(s: Mq, msg: Msg)
    requires Partition(s) && s.queue != []
    ensures Partition(s.(queue := s.queue[1..], receiving := s.receiving[s.queue[0] := msg]))
  {
    HeldOnce(s, s.queue[0]);
    FirstOf(s.queue);
    assert s.receiving[s.queue[0] := msg].Keys == s.receiving.Keys + {s.queue[0]};
    assert multiset(s.receiving.Keys + {s.queue[0]}) == multiset(s.receiving.Keys) + multiset{s.queue[0]};
  }

  lemma FinishKeeps(s: Mq, slot: Slot)
    requires Partition(s) && slot in s.receiving
    ensures Partition(s.(receiving := s.receiving - {slot}, free := [slot] + s.free))
  {
    assert (s.receiving - {slot}).Keys == s.receiving.Keys - {slot};
    assert multiset(s.receiving.Keys - {slot}) == multiset(s.receiving.Keys) - multiset{slot};
    assert multiset([slot] + s.free) == multiset(s.free) + multiset{slot};
  }

  lemma ResetKeeps(s: Mq)
    requires Partition(s)
    ensures Partition(s.(queue := [], free := Reverse(s.queue) + s.free, receivers := []))
  {
    ReverseHolds(s.queue);
  }

  lemma OneMoreSlot(all: set<Slot>, last: Slot)
    requires last !in all
    ensures multiset(all + {last}) == multiset(all) + multiset{last}
  {
  }

  lemma {:induction false} PoolSlots(n: nat)
    ensures multiset(Slots(n)) == multiset(AllSlots(n))
  {
    if n > 0 {
      PoolSlots(n - 1);
      OneMoreSlot(AllSlots(n - 1), n - 1);
      assert Slots(n) == Slots(n - 1) + [n - 1];
    }
  }

  lemma InvMeans(s: Mq)
    requires Inv(s)
    ensures Partition(s) && Intact(s) && NoLostWakeup(s)
  {
    assert Unfolded(s, true);
  }

  lemma InitialInv(s: Mq)
    requires Initial(s)
    ensures Inv(s)
  {
    ReverseHolds(Slots(s.slots));
    PoolSlots(s.slots);
  }

  lemma BeginStep(s: Mq)
    requires Inv(s) && s.free != []
    ensures Inv(s.(free := s.free[1..], sending := s.sending + {s.free[0]}))
  {
    InvMeans(s);
    BeginKeeps(s);
  }

  lemma CopyInStep(s: Mq, slot: Slot, msg: Msg)
    requires Inv(s) && slot in s.sending && slot < |s.data|
    ensures Inv(s.(data := s.data[slot := msg]))
  {
    InvMeans(s);
    HeldOnce(s, slot);
    assert Holdings(s.(data := s.data[slot := msg])) == Holdings(s);
  }

  lemma CommitStep(s: Mq, slot: Slot, urgent: bool)
    requires Inv(s) && slot in s.sending
    ensures Inv(LinkIn(s, slot, urgent))
  {
    InvMeans(s);
    LinkInKeeps(s, slot, urgent);
    if s.receivers != [] {
      PopFirst(s.receivers);
      assert s.receivers[0] in s.receivers;
    }
  }

  /** A receiver about to test the queue; it may itself have been the one coming for a message. */
  ghost predicate Testing(s: Mq, t: Tid) {
    && Partition(s) && Intact(s) && Distinct(s.receivers) && t !in s.receivers && t !in s.woken
    && (forall x :: x in s.receivers ==> x !in s.woken)
    && (s.receivers != [] && s.queue != [] ==> |s.woken| + 1 >= |s.queue|)
  }

  lemma BlockStep(s: Mq, t: Tid, flag: Flag, prio: Tid -> int)
    requires Testing(s, t) && s.queue == []
    ensures Inv(s.(receivers := Suspend(s.receivers, t, flag, prio)))
  {
    SuspendAdds(s.receivers, t, flag, prio);
    assert Holdings(s.(receivers := Suspend(s.receivers, t, flag, prio))) == Holdings(s);
  }

  lemma TakeOutStep(s: Mq, t: Tid, s': Mq)
    requires Testing(s, t) && s.queue != [] && s.queue[0] < |s.data|
    requires s' == s.(queue := s.queue[1..], receiving := s.receiving[s.queue[0] := s.data[s.queue[0]]])
    ensures Inv(s')
  {
    TakeOutKeeps(s, s.data[s.queue[0]]);
  }

  lemma RecvStep(s: Mq, t: Tid, wait: bool, flag: Flag, prio: Tid -> int)
    requires Testing(s, t)
    ensures Inv(Recv(s, t, wait, flag, prio))
  {
    if s.queue != [] {
      HeldOnce(s, s.queue[0]);
      TakeOutStep(s, t, Recv(s, t, wait, flag, prio));
    } else if wait {
      BlockStep(s, t, flag, prio);
    }
  }

  lemma AboutToTest(s: Mq, t: Tid)
    requires Inv(s) && t !in s.receivers
    ensures Testing(s.(woken := s.woken - {t}), t)
  {
    InvMeans(s);
    assert Holdings(s.(woken := s.woken - {t})) == Holdings(s);
  }

  lemma FinishStep(s: Mq, slot: Slot)
    requires Inv(s) && slot in s.receiving
    ensures Inv(s.(receiving := s.receiving - {slot}, free := [slot] + s.free))
  {
    InvMeans(s);
    FinishKeeps(s, slot);
  }

  lemma ExpireStep(s: Mq, t: Tid)
    requires Inv(s)
    ensures Inv(s.(receivers := Remove(s.receivers, t)))
  {
    InvMeans(s);
    RemoveElements(s.receivers, t);
    assert Holdings(s.(receivers := Remove(s.receivers, t))) == Holdings(s);
  }

  lemma ResetStep(s: Mq)
    requires Inv(s)
    ensures Inv(s.(queue := [], free := Reverse(s.queue) + s.free, receivers := []))
  {
    InvMeans(s);
    ResetKeeps(s);
  }

  lemma WokenIsNotWaiting(s: Mq, t: Tid)
    requires Inv(s) && t in s.woken
    ensures t !in s.receivers
  {
    InvMeans(s);
  }

  lemma StepKeeps(s: Mq, e: Step, flag: Flag, prio: Tid -> int)
    requires Inv(s) && Enabled(s, e)
    ensures Inv(Next(s, e, flag, prio))
  {
    match e
    case Begin =>
      if s.free != [] {
        BeginStep(s);
      }
    case CopyIn(slot, msg) =>
      if slot < |s.data| {
        CopyInStep(s, slot, msg);
      }
    case Commit(slot, urgent) => CommitStep(s, slot, urgent);
    case RecvCall(t, wait) =>
      AboutToTest(s, t);
      assert s.(woken := s.woken - {t}) == s;
      RecvStep(s, t, wait, flag, prio);
    case RecvAgain(t, wait) =>
      WokenIsNotWaiting(s, t);
      AboutToTest(s, t);
      RecvStep(s.(woken := s.woken - {t}), t, wait, flag, prio);
    case Finish(slot) => FinishStep(s, slot);
    case Expire(t) => ExpireStep(s, t);
    case Reset => ResetStep(s);
  }

  /** In every interleaving of sends, urgent sends, receives, expiries and resets. */
  lemma {:induction false} RunKeeps(run: seq<Mq>, steps: seq<Step>, flag: Flag, prios: seq<Tid -> int>, n: nat)
    requires IsRun(run, steps, flag, prios) && n < |run|
    ensures Partition(run[n]) && Intact(run[n]) && NoLostWakeup(run[n])
  {
    RunInv(run, steps, flag, prios, n);
    InvMeans(run[n]);
  }

  lemma {:induction false} RunInv(run: seq<Mq>, steps: seq<Step>, flag: Flag, prios: seq<Tid -> int>, n: nat)
    requires IsRun(run, steps, flag, prios) && n < |run|
    ensures Inv(run[n])
  {
    if n == 0 {
      InitialInv(run[0]);
    } else {
      RunInv(run, steps, flag, prios, n - 1);
      StepKeeps(run[n - 1], steps[n - 1], flag, prios[n - 1]);
    }
  }

  // ---------- The order of messages ----------

  /** The message a receive step took out, if any: it is recorded with the slot being read. */
  ghost function Received(s: Mq, s': Mq): seq<Msg> {
    if s.queue != [] && s.queue[0] in s'.receiving then [s'.receiving[s.queue[0]]] else []
  }

  lemma CommitOrder(s: Mq, slot: Slot, urgent: bool)
    requires slot < |s.data|
    ensures Messages(LinkIn(s, slot, urgent)) ==
            if urgent then [s.data[slot]] + Messages(s) else Messages(s) + [s.data[slot]]
  {
  }

  lemma RecvOrder(s: Mq, t: Tid, wait: bool, flag: Flag, prio: Tid -> int, s': Mq)
    requires s' == Recv(s, t, wait, flag, prio) && (s.queue != [] ==> s.queue[0] < |s.data|)
    ensures Messages(s) == Received(s, s') + Messages(s')
  {
    if s.queue != [] {
      assert Messages(s)[1..] == Messages(s');
    }
  }

  lemma CopyInOrder(s: Mq, slot: Slot, msg: Msg)
    requires slot < |s.data| && slot !in s.queue
    ensures Messages(s.(data := s.data[slot := msg])) == Messages(s)
  {
  }

  lemma SlotsInUse(s: Mq)
    requires Inv(s)
    ensures s.queue != [] ==> s.queue[0] < |s.data|
    ensures forall x :: x in s.sending ==> x < |s.data| && x !in s.queue
  {
    InvMeans(s);
    if s.queue != [] {
      HeldOnce(s, s.queue[0]);
    }
    forall x | x in s.sending ensures x < |s.data| && x !in s.queue {
      HeldOnce(s, x);
    }
  }

  /** The message queue is a deque of messages: a send links its message in at the back, an urgent
      send at the front, a receive takes the front message, a reset drops them all, and nothing
      else, copying included, changes the messages or their order. */
  lemma StepIsDeque(s: Mq, e: Step, flag: Flag, prio: Tid -> int, s': Mq)
    requires Inv(s) && Enabled(s, e) && s' == Next(s, e, flag, prio)
    ensures match e
            case Commit(slot, urgent) =>
              && slot < |s.data|
              && Messages(s') == if urgent then [s.data[slot]] + Messages(s) else Messages(s) + [s.data[slot]]
            case RecvCall(_, _) => Messages(s) == Received(s, s') + Messages(s')
            case RecvAgain(_, _) => Messages(s) == Received(s, s') + Messages(s')
            case Reset => Messages(s') == []
            case _ => Messages(s') == Messages(s)
  {
    SlotsInUse(s);
    match e
    case CopyIn(slot, msg) => CopyInOrder(s, slot, msg);
    case Commit(slot, urgent) => CommitOrder(s, slot, urgent);
    case RecvCall(t, wait) => RecvOrder(s, t, wait, flag, prio, s');
    case RecvAgain(t, wait) =>
      assert Messages(s.(woken := s.woken - {t})) == Messages(s);
      RecvOrder(s.(woken := s.woken - {t}), t, wait, flag, prio, s');
    case _ =>
  }

  /** What a receiver copies out is the message it took, whatever ran in between. */
  lemma CopyOut(s: Mq, slot: Slot)
    requires Inv(s) && slot in s.receiving
    ensures slot < |s.data| && s.data[slot] == s.receiving[slot]
  {
    InvMeans(s);
    HeldOnce(s, slot);
  }
}
