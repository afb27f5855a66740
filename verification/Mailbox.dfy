/** The mailbox of src/ipc.c as a step machine.

    One step is one section with interrupts disabled: the entry of a call, the re-check of a
    waiter that has been resumed, the expiry of a waiter's timer, or a reset.  A resumed waiter
    runs only later, so mails can be taken, and slots filled, in front of it.
  */
module MailboxSpec {
  import opened Seqs
  import opened IpcList

  type Mail = nat

  /** mails: the stored mails, oldest first; receivers and senders: the two wait lists; wokenR and
      wokenS: waiters that were resumed by a send or a receive and have not run yet; deposited and
      taken: what went in and out since the last reset. */
  datatype Box = Box(
    size: nat, mails: seq<Mail>,
    receivers: seq<Tid>, senders: seq<Tid>,
    wokenR: set<Tid>, wokenS: set<Tid>,
    deposited: seq<Mail>, taken: seq<Mail>)

  datatype Step =
    | SendCall(t: Tid, mail: Mail, wait: bool)
    | SendAgain(t: Tid, mail: Mail, wait: bool)
    | RecvCall(t: Tid, wait: bool)
    | RecvAgain(t: Tid, wait: bool)
    | Expire(t: Tid)
    | Reset

  function Initial(size: nat): Box {
    Box(size, [], [], [], {}, {}, [], [])
  }

  /** Threads that are inside a call on this mailbox. */
  function Busy(s: Box): set<Tid> {
    (set t | t in s.receivers) + (set t | t in s.senders) + s.wokenR + s.wokenS
  }

  predicate Enabled(s: Box, e: Step) {
    match e
    case SendCall(t, _, _) => t !in Busy(s)
    case RecvCall(t, _) => t !in Busy(s)
    case SendAgain(t, _, _) => t in s.wokenS
    case RecvAgain(t, _) => t in s.wokenR
    case Expire(t) => t in s.receivers || t in s.senders
    case Reset => true
  }

  /** rt_mb_send_wait from the full test on: wait says whether the call may still block. */
  function Send(s: Box, t: Tid, mail: Mail, wait: bool, flag: Flag, prio: Tid -> int): Box {
    if |s.mails| == s.size then
      if wait then s.(senders := Suspend(s.senders, t, flag, prio)) else s
    else
      var s' := s.(mails := s.mails + [mail], deposited := s.deposited + [mail]);
      if s.receivers == [] then s'
      else s'.(receivers := s.receivers[1..], wokenR := s.wokenR + {s.receivers[0]})
  }

  /** rt_mb_recv from the empty test on. */
  function Recv(s: Box, t: Tid, wait: bool, flag: Flag, prio: Tid -> int): Box {
    if s.mails == [] then
      if wait then s.(receivers := Suspend(s.receivers, t, flag, prio)) else s
    else
      var s' := s.(mails := s.mails[1..], taken := s.taken + [s.mails[0]]);
      if s.senders == [] then s'
      else s'.(senders := s.senders[1..], wokenS := s.wokenS + {s.senders[0]})
  }

  function Next(s: Box, e: Step, flag: Flag, prio: Tid -> int): Box
    requires Enabled(s, e)
  {
    match e
    case SendCall(t, mail, wait) => Send(s, t, mail, wait, flag, prio)
    case SendAgain(t, mail, wait) => Send(s.(wokenS := s.wokenS - {t}), t, mail, wait, flag, prio)
    case RecvCall(t, wait) => Recv(s, t, wait, flag, prio)
    case RecvAgain(t, wait) => Recv(s.(wokenR := s.wokenR - {t}), t, wait, flag, prio)
    case Expire(t) => s.(receivers := Remove(s.receivers, t), senders := Remove(s.senders, t))
    case Reset => Box(s.size, [], [], [], s.wokenR, s.wokenS, [], [])
  }

  /** Each thread is in one place only. */
  ghost predicate OnePlace(s: Box) {
    && Distinct(s.receivers) && Distinct(s.senders)
    && (forall t :: t in s.receivers ==> t !in s.senders && t !in s.wokenR && t !in s.wokenS)
    && (forall t :: t in s.senders ==> t !in s.wokenR && t !in s.wokenS)
    && s.wokenR !! s.wokenS
  }

  /** While a receiver waits, every stored mail has a resumed receiver coming for it; while a sender
      waits, every free slot has a resumed sender coming for it. */
  ghost predicate NoLostWakeup(s: Box) {
    && (s.receivers != [] ==> |s.wokenR| >= |s.mails|)
    && (s.senders != [] ==> |s.wokenS| >= s.size - |s.mails|)
  }

  /** Mails come out in the order they went in, each exactly once. */
  ghost predicate InOrder(s: Box) {
    s.deposited == s.taken + s.mails
  }

  ghost predicate Inv(s: Box) {
    |s.mails| <= s.size && OnePlace(s) && NoLostWakeup(s) && InOrder(s)
  }

  ghost predicate IsRun(run: seq<Box>, steps: seq<Step>, flag: Flag, prios: seq<Tid -> int>) {
    && |run| == |steps| + 1 && |prios| == |steps|
    && run[0] == Initial(run[0].size)
    && forall i :: 0 <= i < |steps| ==>
        Enabled(run[i], steps[i]) && run[i + 1] == Next(run[i], steps[i], flag, prios[i])
  }
}

module MailboxProofs {
  import opened IpcList
  import opened MailboxSpec

  /** Blocking at a full mailbox. */
  lemma SenderBlocks(s: Box, t: Tid, flag: Flag, prio: Tid -> int)
    requires |s.mails| == s.size && OnePlace(s) && InOrder(s) && t !in Busy(s)
    requires s.receivers != [] ==> |s.wokenR| >= |s.mails|
    ensures Inv(s.(senders := Suspend(s.senders, t, flag, prio)))
  {
    SuspendAdds(s.senders, t, flag, prio);
  }

  /** Depositing a mail resumes the first receiver. */
  lemma Deposits(s: Box, mail: Mail, s': Box)
    requires |s.mails| < s.size && OnePlace(s) && InOrder(s)
    requires s.receivers != [] ==> |s.wokenR| >= |s.mails|
    requires s.senders != [] ==> |s.wokenS| + 1 >= s.size - |s.mails|
    requires s' == s.(mails := s.mails + [mail], deposited := s.deposited + [mail],
                      receivers := s'.receivers, wokenR := s'.wokenR)
    requires if s.receivers == [] then s'.receivers == [] && s'.wokenR == s.wokenR
             else s'.receivers == s.receivers[1..] && s'.wokenR == s.wokenR + {s.receivers[0]}
    ensures Inv(s')
  {
    if s.receivers != [] {
      PopFirst(s.receivers);
      assert s.receivers[0] in s.receivers;
    }
  }

  lemma SendKeeps(s: Box, t: Tid, mail: Mail, wait: bool, flag: Flag, prio: Tid -> int)
    requires |s.mails| <= s.size && OnePlace(s) && InOrder(s) && t !in Busy(s)
    requires s.receivers != [] ==> |s.wokenR| >= |s.mails|
    requires s.senders != [] && |s.mails| < s.size ==> |s.wokenS| + 1 >= s.size - |s.mails|
    ensures Inv(Send(s, t, mail, wait, flag, prio))
  {
    if |s.mails| < s.size {
      Deposits(s, mail, Send(s, t, mail, wait, flag, prio));
    } else if wait {
      SenderBlocks(s, t, flag, prio);
    }
  }

  /** Blocking at an empty mailbox. */
  lemma ReceiverBlocks(s: Box, t: Tid, flag: Flag, prio: Tid -> int)
    requires s.mails == [] && OnePlace(s) && InOrder(s) && t !in Busy(s)
    requires s.senders != [] ==> |s.wokenS| >= s.size - |s.mails|
    ensures Inv(s.(receivers := Suspend(s.receivers, t, flag, prio)))
  {
    SuspendAdds(s.receivers, t, flag, prio);
  }

  /** Taking a mail resumes the first sender. */
  lemma Takes(s: Box, s': Box)
    requires 0 < |s.mails| <= s.size && OnePlace(s) && InOrder(s)
    requires s.senders != [] ==> |s.wokenS| >= s.size - |s.mails|
    requires s.receivers != [] ==> |s.wokenR| + 1 >= |s.mails|
    requires s' == s.(mails := s.mails[1..], taken := s.taken + [s.mails[0]],
                      senders := s'.senders, wokenS := s'.wokenS)
    requires if s.senders == [] then s'.senders == [] && s'.wokenS == s.wokenS
             else s'.senders == s.senders[1..] && s'.wokenS == s.wokenS + {s.senders[0]}
    ensures Inv(s')
  {
    assert s.mails == [s.mails[0]] + s.mails[1..];
    if s.senders != [] {
      PopFirst(s.senders);
      assert s.senders[0] in s.senders;
    }
  }

  lemma RecvKeeps(s: Box, t: Tid, wait: bool, flag: Flag, prio: Tid -> int)
    requires |s.mails| <= s.size && OnePlace(s) && InOrder(s) && t !in Busy(s)
    requires s.senders != [] ==> |s.wokenS| >= s.size - |s.mails|
    requires s.receivers != [] && s.mails != [] ==> |s.wokenR| + 1 >= |s.mails|
    ensures Inv(Recv(s, t, wait, flag, prio))
  {
    if s.mails != [] {
      Takes(s, Recv(s, t, wait, flag, prio));
    } else if wait {
      ReceiverBlocks(s, t, flag, prio);
    }
  }

  lemma StepKeeps(s: Box, e: Step, flag: Flag, prio: Tid -> int)
    requires Inv(s) && Enabled(s, e)
    ensures Inv(Next(s, e, flag, prio))
  {
    match e
    case SendCall(t, mail, wait) => SendKeeps(s, t, mail, wait, flag, prio);
    case SendAgain(t, mail, wait) => SendAgainKeeps(s, t, mail, wait, flag, prio);
    case RecvCall(t, wait) => RecvKeeps(s, t, wait, flag, prio);
    case RecvAgain(t, wait) => RecvAgainKeeps(s, t, wait, flag, prio);
    case Expire(t) => ExpireKeeps(s, t);
    case Reset =>
  }

  lemma SendAgainKeeps(s: Box, t: Tid, mail: Mail, wait: bool, flag: Flag, prio: Tid -> int)
    requires Inv(s) && t in s.wokenS
    ensures Inv(Send(s.(wokenS := s.wokenS - {t}), t, mail, wait, flag, prio))
  {
    var s' := s.(wokenS := s.wokenS - {t});
    assert OnePlace(s') && t !in Busy(s');
    SendKeeps(s', t, mail, wait, flag, prio);
  }

  lemma RecvAgainKeeps(s: Box, t: Tid, wait: bool, flag: Flag, prio: Tid -> int)
    requires Inv(s) && t in s.wokenR
    ensures Inv(Recv(s.(wokenR := s.wokenR - {t}), t, wait, flag, prio))
  {
    var s' := s.(wokenR := s.wokenR - {t});
    assert OnePlace(s') && t !in Busy(s');
    RecvKeeps(s', t, wait, flag, prio);
  }

  lemma ExpireKeeps(s: Box, t: Tid)
    requires Inv(s)
    ensures Inv(s.(receivers := Remove(s.receivers, t), senders := Remove(s.senders, t)))
  {
    RemoveElements(s.receivers, t);
    RemoveElements(s.senders, t);
  }

  /** In every interleaving of senders, receivers, expiries and resets. */
  lemma {:induction false} RunKeeps(run: seq<Box>, steps: seq<Step>, flag: Flag, prios: seq<Tid -> int>, n: nat)
    requires IsRun(run, steps, flag, prios) && n < |run|
    ensures Inv(run[n])
  {
    if n > 0 {
      RunKeeps(run, steps, flag, prios, n - 1);
      StepKeeps(run[n - 1], steps[n - 1], flag, prios[n - 1]);
    }
  }

  /** Once every resumed waiter has run, a receiver waits only at an empty mailbox, a sender only at
      a full one, and never both. */
  lemma Quiescent(s: Box)
    requires Inv(s) && s.wokenR == {} && s.wokenS == {}
    ensures s.receivers != [] ==> s.mails == []
    ensures s.senders != [] ==> |s.mails| == s.size
    ensures s.size > 0 ==> s.receivers == [] || s.senders == []
  {
  }
}

/** The mailbox object itself: a ring of mail slots with an input and an output offset. */
module MailboxObject {
  import opened IpcList
  import opened MailboxSpec
  import opened MailboxProofs

  /** RT_EOK, -RT_EFULL, -RT_ETIMEOUT, or the caller was put on a wait list. */
  datatype Outcome = Ok | Full | TimedOut | Blocked

  class Mailbox {
    const flag: Flag
    const msgPool: array<Mail>
    var entry: nat
    var inOffset: nat
    var outOffset: nat
    var receivers: seq<Tid>
    var senders: seq<Tid>
    ghost var mails: seq<Mail>
    ghost var wokenR: set<Tid>
    ghost var wokenS: set<Tid>
    ghost var deposited: seq<Mail>
    ghost var taken: seq<Mail>

    /** The slot n places behind the output offset. */
    ghost function Slot(n: int): int
      reads this
    {
      if outOffset + n < msgPool.Length then outOffset + n else outOffset + n - msgPool.Length
    }

    /** The ring holds the stored mails from the output offset on. */
    ghost predicate Ring()
      reads this, msgPool
    {
      && entry == |mails| <= msgPool.Length
      && (msgPool.Length > 0 ==> outOffset < msgPool.Length && inOffset < msgPool.Length && inOffset == Slot(entry))
      && (forall i {:trigger mails[i]} :: 0 <= i < entry ==> mails[i] == msgPool[Slot(i)])
    }

    ghost function State(): Box
      reads this
    {
      Box(msgPool.Length, mails, receivers, senders, wokenR, wokenS, deposited, taken)
    }

    ghost predicate Valid()
      reads this, msgPool
    {
      Ring() && Inv(State())
    }

    /** rt_mb_init */
    constructor (pool: array<Mail>, flag: Flag)
      ensures Valid() && msgPool == pool && this.flag == flag && State() == Initial(pool.Length)
    {
      this.flag, msgPool := flag, pool;
      entry, inOffset, outOffset := 0, 0, 0;
      receivers, senders := [], [];
      mails, wokenR, wokenS, deposited, taken := [], {}, {}, [], [];
    }

    /** Stores a mail at the input offset. */
    method Put(mail: Mail)
      requires Ring() && entry < msgPool.Length
      modifies this`entry, this`inOffset, this`mails, msgPool
      ensures Ring() && mails == old(mails) + [mail]
    {
      msgPool[inOffset] := mail;
      inOffset := inOffset + 1;
      if inOffset >= msgPool.Length {
        inOffset := 0;
      }
      entry := entry + 1;
      mails := mails + [mail];
    }

    /** Takes the mail at the output offset. */
    method Get() returns (mail: Mail)
      requires Ring() && entry > 0
      modifies this`entry, this`outOffset, this`mails
      ensures Ring() && old(mails) == [mail] + mails
    {
      mail := msgPool[outOffset];
      assert mails[0] == mail;
      outOffset := outOffset + 1;
      if outOffset >= msgPool.Length {
        outOffset := 0;
      }
      entry := entry - 1;
      mails := mails[1..];
    }

    /** rt_mb_send_wait from the full test on, in one section with interrupts disabled: at the call, or again
        after the sender was resumed. */
    method Send(t: Tid, mail: Mail, wait: bool, again: bool, prio: Tid -> int) returns (outcome: Outcome)
      requires Valid() && Enabled(State(), if again then SendAgain(t, mail, wait) else SendCall(t, mail, wait))
      modifies this`entry, this`inOffset, this`mails, this`deposited, this`senders, this`receivers
      modifies this`wokenR, this`wokenS, msgPool
      ensures Valid()
      ensures State() ==
                Next(old(State()), if again then SendAgain(t, mail, wait) else SendCall(t, mail, wait), flag, prio)
      ensures outcome == if old(entry) < msgPool.Length then Ok else if wait then Blocked else Full
    {
      StepKeeps(State(), if again then SendAgain(t, mail, wait) else SendCall(t, mail, wait), flag, prio);
      if again {
        wokenS := wokenS - {t};
      }
      outcome := Deposit(t, mail, wait, prio);
    }

    method Deposit(t: Tid, mail: Mail, wait: bool, prio: Tid -> int) returns (outcome: Outcome)
      requires Ring()
      modifies this`entry, this`inOffset, this`mails, this`deposited, this`senders, this`receivers, this`wokenR, msgPool
      ensures Ring() && State() == MailboxSpec.Send(old(State()), t, mail, wait, flag, prio)
      ensures outcome == if old(entry) < msgPool.Length then Ok else if wait then Blocked else Full
    {
      if entry == msgPool.Length {
        if !wait {
          return Full;
        }
        senders := SuspendOn(senders, t, flag, prio);
        return Blocked;
      }
      Put(mail);
      deposited := deposited + [mail];
      if receivers != [] {
        wokenR := wokenR + {receivers[0]};
        receivers := receivers[1..];
      }
      return Ok;
    }

    /** rt_mb_recv from the empty test on: at the call, or again after the receiver was resumed. */
    method Recv(t: Tid, wait: bool, again: bool, prio: Tid -> int) returns (outcome: Outcome, mail: Mail)
      requires Valid() && Enabled(State(), if again then RecvAgain(t, wait) else RecvCall(t, wait))
      modifies this`entry, this`outOffset, this`mails, this`taken, this`senders, this`receivers
      modifies this`wokenR, this`wokenS
      ensures Valid()
      ensures State() == Next(old(State()), if again then RecvAgain(t, wait) else RecvCall(t, wait), flag, prio)
      ensures outcome == if old(entry) > 0 then Ok else if wait then Blocked else TimedOut
      ensures outcome == Ok ==> mail == old(mails)[0]
    {
      StepKeeps(State(), if again then RecvAgain(t, wait) else RecvCall(t, wait), flag, prio);
      if again {
        wokenR := wokenR - {t};
      }
      outcome, mail := Withdraw(t, wait, prio);
    }

    method Withdraw(t: Tid, wait: bool, prio: Tid -> int) returns (outcome: Outcome, mail: Mail)
      requires Ring()
      modifies this`entry, this`outOffset, this`mails, this`taken, this`senders, this`receivers, this`wokenS
      ensures Ring() && State() == MailboxSpec.Recv(old(State()), t, wait, flag, prio)
      ensures outcome == if old(entry) > 0 then Ok else if wait then Blocked else TimedOut
      ensures outcome == Ok ==> mail == old(mails)[0]
    {
      mail := 0;
      if entry == 0 {
        if !wait {
          return TimedOut, mail;
        }
        receivers := SuspendOn(receivers, t, flag, prio);
        return Blocked, mail;
      }
      mail := Get();
      taken := taken + [mail];
      if senders != [] {
        wokenS := wokenS + {senders[0]};
        senders := senders[1..];
      }
      outcome := Ok;
    }

    /** rt_thread_timeout of a waiter: it is unlinked from the list it waits on. */
    method Expire(t: Tid, ghost prio: Tid -> int)
      requires Valid() && (t in receivers || t in senders)
      modifies this`receivers, this`senders
      ensures Valid() && State() == Next(old(State()), MailboxSpec.Step.Expire(t), flag, prio)
    {
      StepKeeps(State(), MailboxSpec.Step.Expire(t), flag, prio);
      WaitsOnce(State(), t);
      if t in receivers {
        receivers := Remove(receivers, t);
      } else {
        senders := Remove(senders, t);
      }
    }

    /** rt_mb_control with RT_IPC_CMD_RESET: every waiter is resumed with an error. */
    method Reset(ghost prio: Tid -> int)
      requires Valid()
      modifies this
      ensures Valid() && State() == Next(old(State()), MailboxSpec.Step.Reset, flag, prio)
    {
      StepKeeps(State(), MailboxSpec.Step.Reset, flag, prio);
      receivers, senders := [], [];
      entry, inOffset, outOffset := 0, 0, 0;
      mails, deposited, taken := [], [], [];
    }
  }

  /** A thread waits on one of the two lists only. */
  lemma WaitsOnce(s: Box, t: Tid)
    requires Inv(s)
    ensures t !in s.receivers ==> Remove(s.receivers, t) == s.receivers
    ensures t !in s.senders ==> Remove(s.senders, t) == s.senders
    ensures t in s.receivers ==> t !in s.senders
  {
    if t !in s.receivers {
      RemoveAbsent(s.receivers, t);
    }
    if t !in s.senders {
      RemoveAbsent(s.senders, t);
    }
  }
}
