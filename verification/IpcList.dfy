/** The wait lists of src/ipc.c: threads suspended on an IPC object, in FIFO or priority order. */
module IpcList {
  import opened Seqs

  type Tid = nat

  /** RT_IPC_FLAG_FIFO and RT_IPC_FLAG_PRIO; a smaller number is a more urgent priority. */
  datatype Flag = Fifo | Prio

  /** The position rt_ipc_list_suspend looks for: the first waiter less urgent than t. */
  function Position(list: seq<Tid>, t: Tid, prio: Tid -> int): (k: nat)
    ensures k <= |list|
  {
    if list == [] || prio(t) < prio(list[0]) then 0 else 1 + Position(list[1..], t, prio)
  }

  lemma {:induction false} PositionMeans(list: seq<Tid>, t: Tid, prio: Tid -> int, k: nat)
    requires k == Position(list, t, prio)
    ensures k <= |list|
    ensures forall i :: 0 <= i < k ==> prio(list[i]) <= prio(t)
    ensures k < |list| ==> prio(t) < prio(list[k])
  {
    if k > 0 {
      PositionMeans(list[1..], t, prio, k - 1);
      forall i | 0 <= i < k ensures prio(list[i]) <= prio(t) {
        assert i > 0 ==> list[i] == list[1..][i - 1];
      }
    }
  }

  /** t linked in front of the k-th element. */
  function InsertAt(list: seq<Tid>, k: nat, t: Tid): (r: seq<Tid>)
    requires k <= |list|
    ensures |r| == |list| + 1
  {
    if k == 0 then [t] + list else list[..k] + [t] + list[k..]
  }

  lemma InsertedAt(list: seq<Tid>, k: nat, t: Tid, r: seq<Tid>)
    requires k <= |list| && r == InsertAt(list, k, t)
    ensures forall i :: 0 <= i <= |list| ==> r[i] == if i < k then list[i] else if i == k then t else list[i - 1]
  {
  }

  /** The wait list after rt_ipc_list_suspend. */
  function Suspend(list: seq<Tid>, t: Tid, flag: Flag, prio: Tid -> int): (r: seq<Tid>)
    ensures |r| == |list| + 1
  {
    InsertAt(list, if flag == Fifo then |list| else Position(list, t, prio), t)
  }

  /** The wait list without t: rt_thread_resume and rt_thread_timeout unlink the thread. */
  function Remove(list: seq<Tid>, t: Tid): (r: seq<Tid>) {
    if list == [] then []
    else if list[0] == t then list[1..]
    else [list[0]] + Remove(list[1..], t)
  }

  ghost predicate Sorted(list: seq<Tid>, prio: Tid -> int) {
    forall i, j :: 0 <= i < j < |list| ==> prio(list[i]) <= prio(list[j])
  }

  lemma InsertAdds(list: seq<Tid>, k: nat, t: Tid, r: seq<Tid>)
    requires k <= |list| && r == InsertAt(list, k, t)
    ensures forall x :: x in r <==> x in list || x == t
  {
    InsertedAt(list, k, t, r);
    forall x | x in list || x == t ensures x in r {
      assert r[k] == t;
      if x in list {
        var i :| 0 <= i < |list| && list[i] == x;
        assert r[if i < k then i else i + 1] == x;
      }
    }
  }

  lemma InsertDistinct(list: seq<Tid>, k: nat, t: Tid, r: seq<Tid>)
    requires k <= |list| && r == InsertAt(list, k, t) && Distinct(list) && t !in list
    ensures Distinct(r)
  {
    InsertedAt(list, k, t, r);
  }

  lemma SuspendAdds(list: seq<Tid>, t: Tid, flag: Flag, prio: Tid -> int)
    requires Distinct(list) && t !in list
    ensures Distinct(Suspend(list, t, flag, prio))
    ensures forall x :: x in Suspend(list, t, flag, prio) <==> x in list || x == t
  {
    var k := if flag == Fifo then |list| else Position(list, t, prio);
    InsertAdds(list, k, t, Suspend(list, t, flag, prio));
    InsertDistinct(list, k, t, Suspend(list, t, flag, prio));
  }

  /** rt_ipc_list_resume takes the first waiter. */
  lemma PopFirst(list: seq<Tid>)
    requires Distinct(list) && list != []
    ensures Distinct(list[1..])
    ensures forall x :: x in list[1..] <==> x in list && x != list[0]
  {
    assert list == [list[0]] + list[1..];
  }

  /** Suspending by priority keeps the list sorted; among equally urgent waiters the earlier one
      stays in front. */
  lemma SuspendSorts(list: seq<Tid>, t: Tid, prio: Tid -> int)
    requires Sorted(list, prio)
    ensures Sorted(Suspend(list, t, Prio, prio), prio)
    ensures var k := Position(list, t, prio);
            && Suspend(list, t, Prio, prio) == InsertAt(list, k, t)
            && forall i :: k <= i < |list| ==> prio(t) < prio(list[i])
  {
    var k := Position(list, t, prio);
    PositionMeans(list, t, prio, k);
    forall i | k <= i < |list| ensures prio(t) < prio(list[i]) {
      assert k < i ==> prio(list[k]) <= prio(list[i]);
    }
    SortedBetween(list, t, prio, k, Suspend(list, t, Prio, prio));
  }

  lemma SortedBetween(list: seq<Tid>, t: Tid, prio: Tid -> int, k: nat, r: seq<Tid>)
    requires Sorted(list, prio) && k <= |list| && r == InsertAt(list, k, t)
    requires forall i :: 0 <= i < k ==> prio(list[i]) <= prio(t)
    requires forall i :: k <= i < |list| ==> prio(t) <= prio(list[i])
    ensures Sorted(r, prio)
  {
    InsertedAt(list, k, t, r);
  }

  lemma {:induction false} RemoveElements(list: seq<Tid>, t: Tid)
    requires Distinct(list)
    ensures Distinct(Remove(list, t))
    ensures forall x :: x in Remove(list, t) <==> x in list && x != t
  {
    if list != [] {
      RemoveElements(list[1..], t);
      assert forall x :: x in list <==> x == list[0] || x in list[1..];
      assert list[0] !in list[1..];
      if list[0] != t {
        var r := Remove(list[1..], t);
        assert forall x :: x in [list[0]] + r <==> x == list[0] || x in r;
      }
    }
  }

  lemma {:induction false} RemoveAbsent(list: seq<Tid>, t: Tid)
    requires t !in list
    ensures Remove(list, t) == list
  {
    if list != [] {
      RemoveAbsent(list[1..], t);
    }
  }

  lemma {:induction false} RemoveSorted(list: seq<Tid>, t: Tid, prio: Tid -> int)
    requires Distinct(list) && Sorted(list, prio)
    ensures Sorted(Remove(list, t), prio)
  {
    if list != [] {
      RemoveSorted(list[1..], t, prio);
      RemoveElements(list[1..], t);
      var r := Remove(list[1..], t);
      forall x | x in r ensures prio(list[0]) <= prio(x) {
        assert x in list[1..];
      }
    }
  }

  /** The search loop of rt_ipc_list_suspend, on a list whose nodes are walked one by one. */
  method SuspendOn(list: seq<Tid>, t: Tid, flag: Flag, prio: Tid -> int) returns (r: seq<Tid>)
    ensures r == Suspend(list, t, flag, prio)
  {
    if flag == Fifo {
      r := list + [t];
      return;
    }
    var n := 0;
    while n < |list|
      invariant n <= |list| && Position(list, t, prio) == n + Position(list[n..], t, prio)
    {
      if prio(t) < prio(list[n]) {
        break;
      }
      assert list[n..][1..] == list[n + 1..];
      n := n + 1;
    }
    r := InsertAt(list, n, t);
  }
}
