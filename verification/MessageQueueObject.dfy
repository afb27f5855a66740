/** The message queue object: slots chained through their next pointers.

    A slot is named by its number in the pool and NULL ends a chain.  The methods that relink slots are
    proved to do to the two chains what their names say, and the sections of src/ipc.c made of them to be
    the steps of MessageQueueSpec.
  */
module MessageQueueObject {
  import opened IpcList
  import opened MessageQueueSpec
  import opened MessageQueueProofs

  const NULL := -1

  /** From head, the next pointers spell out s and end with NULL. */
  ghost predicate Chain(next: seq<int>, head: int, s: seq<Slot>) {
    && head == (if s == [] then NULL else s[0])
    && (forall i, j :: 0 <= i < j < |s| ==> s[i] != s[j])
    && (forall i :: 0 <= i < |s| ==> s[i] < |next|)
    && (forall i {:trigger next[s[i]]} :: 0 <= i < |s| ==> next[s[i]] == if i + 1 < |s| then s[i + 1] else NULL)
  }

  predicate Shown(queue: seq<Slot>, u: bool) {
    true
  }

  lemma ChainFrame(next: seq<int>, head: int, s: seq<Slot>, x: nat, v: int)
    requires Chain(next, head, s) && x !in s && x < |next|
    ensures Chain(next[x := v], head, s)
  {
  }

  lemma ChainPush(next: seq<int>, head: int, s: seq<Slot>, x: nat)
    requires Chain(next, head, s) && x !in s && x < |next|
    ensures Chain(next[x := head], x, [x] + s)
  {
    var r := [x] + s;
    forall i | 0 <= i < |r| ensures next[x := head][r[i]] == if i + 1 < |r| then r[i + 1] else NULL {
      if i > 0 {
        assert next[s[i - 1]] == if i < |s| then s[i] else NULL;
      }
    }
  }

  lemma ChainPop(next: seq<int>, head: int, s: seq<Slot>)
    requires Chain(next, head, s) && s != []
    ensures head == s[0] < |next| && Chain(next, next[head], s[1..])
  {
    var r := s[1..];
    assert next[s[0]] == if 1 < |s| then s[1] else NULL;
    forall i | 0 <= i < |r| ensures next[r[i]] == if i + 1 < |r| then r[i + 1] else NULL {
      assert next[s[i + 1]] == if i + 2 < |s| then s[i + 2] else NULL;
    }
  }

  lemma ChainAppend(next: seq<int>, head: int, s: seq<Slot>, last: nat, x: nat)
    requires Chain(next, head, s) && s != [] && last == s[|s| - 1] && x !in s && x < |next| && next[x] == NULL
    ensures last < |next| && Chain(next[last := x], head, s + [x])
  {
    var r := s + [x];
    forall i | 0 <= i < |r| ensures next[last := x][r[i]] == if i + 1 < |r| then r[i + 1] else NULL {
      if i < |s| {
        assert next[s[i]] == if i + 1 < |s| then s[i + 1] else NULL;
      }
    }
  }

  class MessageQueue {
    const maxMsgs: nat
    const flag: Flag
    var entry: nat
    var head: int
    var tail: int
    var free: int
    const next: array<int>
    /** The message behind each slot's header. */
    const data: array<Msg>
    var receivers: seq<Tid>
    ghost var queue: seq<Slot>
    ghost var freeList: seq<Slot>
    ghost var sending: set<Slot>
    ghost var receiving: map<Slot, Msg>
    ghost var woken: set<Tid>
    /** The private slots that rt_mq_send has made tails. */
    ghost var tails: set<Slot>

    /** The two chains do not meet. */
    ghost predicate Linked()
      reads this, next
    {
      && Chain(next[..], head, queue) && Chain(next[..], free, freeList)
      && tail == (if queue == [] then NULL else queue[|queue| - 1])
      && (forall x :: x in queue ==> x !in freeList)
    }

    /** Linked, which proofs unfold only where they ask for it. */
    ghost predicate Chained()
      reads this, next
    {
      && next.Length == maxMsgs && entry == |queue|
      && forall u {:trigger Shown(queue, u)} :: Shown(queue, u) ==> Linked()
    }

    lemma ChainedMeans()
      ensures Chained() <==> next.Length == maxMsgs && entry == |queue| && Linked()
    {
      assert Shown(queue, true);
    }

    ghost function State(): Mq
      reads this, data
    {
      Mq(maxMsgs, freeList, queue, sending, receiving, data[..], receivers, woken)
    }

    /** A tail stays one while its sender is interrupted. */
    ghost predicate Tails()
      reads this, next
    {
      tails <= sending && forall x :: x in tails ==> x < next.Length && next[x] == NULL
    }

    ghost predicate Valid()
      reads this, next, data
    {
      Chained() && data.Length == maxMsgs && Inv(State()) && Tails()
    }

    /** rt_mq_init: pushes every slot onto the free list. */
    constructor (slots: nat, flag: Flag)
      ensures Valid() && fresh(next) && fresh(data) && maxMsgs == slots && this.flag == flag
      ensures Initial(State()) && tails == {}
    {
      maxMsgs, this.flag := slots, flag;
      entry, head, tail, free := 0, NULL, NULL, NULL;
      next := new int[slots];
      data := new Msg[slots](i => []);
      receivers, queue, freeList, sending, receiving, woken, tails := [], [], [], {}, map[], {}, {};
      new;
      PushAll();
      InitialInv(State());
    }

    method PushAll()
      requires next.Length == maxMsgs && free == NULL && freeList == []
      requires queue == [] && head == NULL && tail == NULL && entry == 0
      modifies this`free, this`freeList, next
      ensures Chained() && freeList == Reverse(Slots(maxMsgs))
    {
      ChainedMeans();
      var i := 0;
      while i < maxMsgs
        invariant 0 <= i <= maxMsgs == next.Length
        invariant Chain(next[..], free, freeList) && freeList == Reverse(Slots(i))
        invariant forall x :: x in freeList ==> x < i
      {
        ChainPush(next[..], free, freeList, i);
        next[i] := free;
        free := i;
        ReverseAppend(Slots(i), i);
        freeList := [i] + freeList;
        i := i + 1;
      }
      ChainedMeans();
    }

    // ---------- Relinking ----------

    /** Takes a slot off the free list. */
    method PopFree() returns (msg: int)
      requires Chained()
      modifies this`free, this`freeList
      ensures Chained()
      ensures if old(freeList) == [] then msg == NULL && freeList == []
              else msg == old(freeList)[0] && freeList == old(freeList)[1..]
    {
      ChainedMeans();
      msg := free;
      if msg == NULL {
        return;
      }
      ChainPop(next[..], free, freeList);
      free := next[msg];
      freeList := freeList[1..];
      ChainedMeans();
    }

    /** Links a private slot in at the end of the queue. */
    method Append(msg: nat)
      requires Chained() && msg < maxMsgs && msg !in queue && msg !in freeList && next[msg] == NULL
      modifies this`tail, this`head, this`entry, this`queue, next
      ensures Chained() && queue == old(queue) + [msg]
      ensures forall x :: 0 <= x < maxMsgs && x !in old(queue) ==> next[x] == old(next[x])
    {
      ChainedMeans();
      if tail != NULL {
        ChainAppend(next[..], head, queue, tail, msg);
        ChainFrame(next[..], free, freeList, tail, msg);
        next[tail] := msg;
      }
      tail := msg;
      if head == NULL {
        head := msg;
      }
      entry := entry + 1;
      queue := queue + [msg];
      ChainedMeans();
    }

    /** Links a private slot in at the front of the queue. */
    method Prepend(msg: nat)
      requires Chained() && msg < maxMsgs && msg !in queue && msg !in freeList
      modifies this`tail, this`head, this`entry, this`queue, next
      ensures Chained() && queue == [msg] + old(queue)
      ensures forall x :: 0 <= x < maxMsgs && x != msg ==> next[x] == old(next[x])
    {
      ChainedMeans();
      ChainPush(next[..], head, queue, msg);
      ChainFrame(next[..], free, freeList, msg, head);
      next[msg] := head;
      head := msg;
      if tail == NULL {
        tail := msg;
      }
      entry := entry + 1;
      queue := [msg] + queue;
      ChainedMeans();
    }

    /** Takes the first slot off the queue. */
    method TakeHead() returns (msg: int)
      requires Chained() && entry > 0
      modifies this`head, this`tail, this`entry, this`queue
      ensures Chained() && msg == old(queue)[0] && queue == old(queue)[1..]
    {
      ChainedMeans();
      ChainPop(next[..], head, queue);
      msg := head;
      head := next[msg];
      if tail == msg {
        tail := NULL;
      }
      entry := entry - 1;
      queue := queue[1..];
      ChainedMeans();
    }

    /** Puts a private slot onto the free list. */
    method PushFree(msg: nat)
      requires Chained() && msg < maxMsgs && msg !in queue && msg !in freeList
      modifies this`free, this`freeList, next
      ensures Chained() && freeList == [msg] + old(freeList)
      ensures forall x :: 0 <= x < maxMsgs && x != msg ==> next[x] == old(next[x])
    {
      ChainedMeans();
      ChainPush(next[..], free, freeList, msg);
      ChainFrame(next[..], head, queue, msg, free);
      next[msg] := free;
      free := msg;
      freeList := [msg] + freeList;
      ChainedMeans();
    }

    /** Moves the first queued slot to the free list. */
    method Discard()
      requires Chained() && entry > 0
      modifies this`free, this`freeList, this`head, this`tail, this`entry, this`queue, next
      ensures Chained() && queue == old(queue)[1..] && freeList == [old(queue)[0]] + old(freeList)
      ensures forall x :: 0 <= x < maxMsgs && x != old(queue)[0] ==> next[x] == old(next[x])
    {
      ChainedMeans();
      assert queue[0] in queue && queue[0] !in queue[1..];
      var msg := TakeHead();
      PushFree(msg);
    }

    // ---------- The sections of a send ----------

    /** The first section of rt_mq_send and rt_mq_urgent: NULL when the queue is full. */
    method TakeFree(ghost prio: Tid -> int) returns (msg: int)
      requires Valid()
      modifies this`free, this`freeList, this`sending
      ensures Valid() && State() == Next(old(State()), Begin, flag, prio)
      ensures msg == if old(freeList) == [] then NULL else old(freeList)[0]
      ensures msg != NULL ==> msg !in old(sending) && msg in sending
    {
      StepKeeps(State(), Begin, flag, prio);
      FirstFree(State());
      msg := PopFree();
      if msg != NULL {
        sending := sending + {msg};
      }
    }

    /** Between the sections the sender fills its private slot; rt_mq_send also makes it a tail. */
    method Fill(msg: nat, bytes: Msg, urgent: bool, ghost prio: Tid -> int)
      requires Valid() && msg in sending
      modifies this`tails, next, data
      ensures Valid() && State() == Next(old(State()), CopyIn(msg, bytes), flag, prio)
      ensures tails == if urgent then old(tails) else old(tails) + {msg}
    {
      StepKeeps(State(), CopyIn(msg, bytes), flag, prio);
      SlotHeld(State(), msg);
      if !urgent {
        Detach(msg);
        tails := tails + {msg};
      }
      data[msg] := bytes;
    }

    /** The private slot becomes a tail. */
    method Detach(msg: nat)
      requires Chained() && msg < maxMsgs && msg !in queue && msg !in freeList
      modifies next
      ensures Chained() && next[msg] == NULL
      ensures forall x :: 0 <= x < maxMsgs && x != msg ==> next[x] == old(next[x])
    {
      ChainedMeans();
      ChainFrame(next[..], head, queue, msg, NULL);
      ChainFrame(next[..], free, freeList, msg, NULL);
      next[msg] := NULL;
      ChainedMeans();
    }

    /** The first waiting receiver is resumed. */
    method WakeFirst()
      modifies this`receivers, this`woken
      ensures receivers == if old(receivers) == [] then [] else old(receivers)[1..]
      ensures woken == if old(receivers) == [] then old(woken) else old(woken) + {old(receivers)[0]}
    {
      if receivers != [] {
        woken := woken + {receivers[0]};
        receivers := receivers[1..];
      }
    }

    /** The second section of rt_mq_send. */
    method LinkTail(msg: nat, ghost prio: Tid -> int)
      requires Valid() && msg in tails
      modifies this`tail, this`head, this`entry, this`queue, this`sending, this`receivers, this`woken, this`tails, next
      ensures Valid() && State() == Next(old(State()), Commit(msg, false), flag, prio)
      ensures tails == old(tails) - {msg}
    {
      StepKeeps(State(), Commit(msg, false), flag, prio);
      SlotHeld(State(), msg);
      TailsHeld(State(), tails);
      JoinTail(msg);
      tails := tails - {msg};
    }

    method JoinTail(msg: nat)
      requires Chained() && msg < maxMsgs && msg !in queue && msg !in freeList && next[msg] == NULL
      modifies this`tail, this`head, this`entry, this`queue, this`sending, this`receivers, this`woken, next
      ensures Chained() && State() == LinkIn(old(State()), msg, false)
      ensures forall x :: 0 <= x < maxMsgs && x !in old(queue) ==> next[x] == old(next[x])
    {
      Append(msg);
      sending := sending - {msg};
      WakeFirst();
    }

    /** The second section of rt_mq_urgent. */
    method LinkHead(msg: nat, ghost prio: Tid -> int)
      requires Valid() && msg in sending
      modifies this`tail, this`head, this`entry, this`queue, this`sending, this`receivers, this`woken, this`tails, next
      ensures Valid() && State() == Next(old(State()), Commit(msg, true), flag, prio)
      ensures tails == old(tails) - {msg}
    {
      StepKeeps(State(), Commit(msg, true), flag, prio);
      SlotHeld(State(), msg);
      TailsHeld(State(), tails);
      JoinHead(msg);
      tails := tails - {msg};
    }

    method JoinHead(msg: nat)
      requires Chained() && msg < maxMsgs && msg !in queue && msg !in freeList
      modifies this`tail, this`head, this`entry, this`queue, this`sending, this`receivers, this`woken, next
      ensures Chained() && State() == LinkIn(old(State()), msg, true)
      ensures forall x :: 0 <= x < maxMsgs && x != msg ==> next[x] == old(next[x])
    {
      Prepend(msg);
      sending := sending - {msg};
      WakeFirst();
    }

    // ---------- The sections of a receive ----------

    /** rt_mq_recv from the empty test on, by a thread that is running: at the call, or again after it was
        resumed.  NULL when the queue is empty. */
    method Receive(t: Tid, wait: bool, again: bool, prio: Tid -> int) returns (msg: int)
      requires Valid() && Enabled(State(), if again then RecvAgain(t, wait) else RecvCall(t, wait))
      modifies this`tail, this`head, this`entry, this`queue, this`receiving, this`receivers, this`woken
      ensures Valid()
      ensures State() == Next(old(State()), if again then RecvAgain(t, wait) else RecvCall(t, wait), flag, prio)
      ensures msg == if old(queue) == [] then NULL else old(queue)[0]
      ensures msg != NULL ==> msg in receiving
    {
      StepKeeps(State(), if again then RecvAgain(t, wait) else RecvCall(t, wait), flag, prio);
      SlotsInUse(State());
      if again {
        woken := woken - {t};
      }
      msg := Test(t, wait, prio);
    }

    method Test(t: Tid, wait: bool, prio: Tid -> int) returns (msg: int)
      requires Chained() && (queue != [] ==> queue[0] < data.Length)
      modifies this`tail, this`head, this`entry, this`queue, this`receiving, this`receivers
      ensures Chained() && State() == Recv(old(State()), t, wait, flag, prio)
      ensures msg == if old(queue) == [] then NULL else old(queue)[0]
      ensures msg != NULL ==> msg in receiving
    {
      if entry == 0 {
        if wait {
          receivers := SuspendOn(receivers, t, flag, prio);
        }
        return NULL;
      }
      msg := TakeHead();
      receiving := receiving[msg := data[msg]];
    }

    /** The receiver copies its message out between the sections: it is the one it took. */
    method CopyFrom(msg: nat) returns (bytes: Msg)
      requires Valid() && msg in receiving
      ensures bytes == receiving[msg]
    {
      CopyOut(State(), msg);
      bytes := data[msg];
    }

    /** The second section of rt_mq_recv: puts the slot back onto the free list. */
    method GiveBack(msg: nat, ghost prio: Tid -> int)
      requires Valid() && msg in receiving
      modifies this`free, this`freeList, this`receiving, next
      ensures Valid() && State() == Next(old(State()), Finish(msg), flag, prio)
    {
      StepKeeps(State(), Finish(msg), flag, prio);
      SlotHeld(State(), msg);
      TailsHeld(State(), tails);
      receiving := receiving - {msg};
      PushFree(msg);
    }

    /** rt_thread_timeout of a waiting receiver. */
    method Expire(t: Tid, ghost prio: Tid -> int)
      requires Valid() && t in receivers
      modifies this`receivers
      ensures Valid() && State() == Next(old(State()), MessageQueueSpec.Step.Expire(t), flag, prio)
    {
      StepKeeps(State(), MessageQueueSpec.Step.Expire(t), flag, prio);
      receivers := Remove(receivers, t);
    }

    /** rt_mq_control with RT_IPC_CMD_RESET: resumes every waiting receiver with an error and moves every
        queued slot to the free list. */
    method Reset(ghost prio: Tid -> int)
      requires Valid()
      modifies this`free, this`freeList, this`head, this`tail, this`entry, this`queue, this`receivers, next
      ensures Valid() && State() == Next(old(State()), MessageQueueSpec.Step.Reset, flag, prio)
    {
      StepKeeps(State(), MessageQueueSpec.Step.Reset, flag, prio);
      TailsHeld(State(), tails);
      Clear();
    }

    method Clear()
      requires Chained()
      modifies this`free, this`freeList, this`head, this`tail, this`entry, this`queue, this`receivers, next
      ensures Chained()
      ensures State() == old(State().(queue := [], free := Reverse(queue) + freeList, receivers := []))
      ensures forall x :: 0 <= x < maxMsgs && x !in old(queue) ==> next[x] == old(next[x])
    {
      receivers := [];
      DiscardAll();
    }

    method DiscardAll()
      requires Chained()
      modifies this`free, this`freeList, this`head, this`tail, this`entry, this`queue, next
      ensures Chained() && queue == [] && freeList == Reverse(old(queue)) + old(freeList)
      ensures forall x :: 0 <= x < maxMsgs && x !in old(queue) ==> next[x] == old(next[x])
    {
      ChainedMeans();
      while head != NULL
        invariant Chained() && (head == NULL <==> queue == [])
        invariant Reverse(queue) + freeList == Reverse(old(queue)) + old(freeList)
        invariant forall x :: x in queue ==> x in old(queue)
        invariant forall x :: 0 <= x < maxMsgs && x !in old(queue) ==> next[x] == old(next[x])
        decreases |queue|
      {
        assert Reverse(queue) + freeList == Reverse(queue[1..]) + ([queue[0]] + freeList);
        Discard();
        ChainedMeans();
      }
    }
  }

  /** A slot in private hands is on neither chain. */
  lemma SlotHeld(s: Mq, x: Slot)
    requires Inv(s) && (x in s.sending || x in s.receiving)
    ensures x < s.slots == |s.data| && x !in s.queue && x !in s.free
  {
    InvMeans(s);
    HeldOnce(s, x);
  }

  lemma FirstFree(s: Mq)
    requires Inv(s)
    ensures s.free != [] ==> s.free[0] !in s.sending
  {
    InvMeans(s);
    if s.free != [] {
      HeldOnce(s, s.free[0]);
    }
  }

  lemma TailsHeld(s: Mq, tails: set<Slot>)
    requires Inv(s) && tails <= s.sending
    ensures forall x :: x in tails ==> x < s.slots && x !in s.queue && x !in s.free && x !in s.receiving
  {
    InvMeans(s);
    forall x | x in tails ensures x < s.slots && x !in s.queue && x !in s.free && x !in s.receiving {
      HeldOnce(s, x);
    }
  }

  lemma {:induction false} ReverseAppend(q: seq<Slot>, x: Slot)
    ensures Reverse(q + [x]) == [x] + Reverse(q)
  {
    if q != [] {
      ReverseAppend(q[1..], x);
      assert (q + [x])[1..] == q[1..] + [x];
    }
  }
}
