/** The ready bitmap of src/scheduler.c: one 32-bit word for up to 32 priorities, otherwise a group word
    over 32 bytes for up to 256.
  */
module ReadyMap {
  import opened Bits
  import opened IpcList

  type Queues = seq<seq<Tid>>

  /** rt_thread_ready_priority_group and rt_thread_ready_table. */
  datatype Map = Map(group: nat, table: seq<nat>)

  predicate TwoLevels(max: nat) {
    max > 32
  }

  /** A thread's number, and the bits that its number_mask and its high_mask hold. */
  datatype Marks = Marks(number: nat, groupBit: nat, tableBit: nat)

  /** The attributes computed from a priority; with one level there is only number_mask. */
  function MarksOf(max: nat, p: nat): (k: Marks)
    ensures p < 256 ==> k.number < 32
  {
    if TwoLevels(max) then Marks(p / 8, p / 8, p % 8) else Marks(0, p, 0)
  }

  /** The bits set when a thread with these attributes becomes ready. */
  function Mark(m: Map, max: nat, k: Marks): Map
    requires |m.table| == 32 && k.number < 32
  {
    if TwoLevels(max) then
      Map(SetBit(m.group, k.groupBit), m.table[k.number := SetBit(m.table[k.number], k.tableBit)])
    else m.(group := SetBit(m.group, k.groupBit))
  }

  /** The bits cleared when the queue of a thread with these attributes has become empty. */
  function Unmark(m: Map, max: nat, k: Marks): Map
    requires |m.table| == 32 && k.number < 32
  {
    if TwoLevels(max) then
      var table := m.table[k.number := ClearBit(m.table[k.number], k.tableBit)];
      Map(if table[k.number] == 0 then ClearBit(m.group, k.groupBit) else m.group, table)
    else m.(group := ClearBit(m.group, k.groupBit))
  }

  /** The priority that rt_schedule computes. */
  function Highest(m: Map, max: nat): int
    requires m.group < 0x1_0000_0000 && |m.table| == 32 && forall i :: 0 <= i < 32 ==> m.table[i] < 256
  {
    var number := Ffs(m.group) - 1;
    if TwoLevels(max) then
      if 0 <= number < 32 then number * 8 + Ffs(m.table[number]) - 1 else -1
    else number
  }

  // ---------- Agreement with the queues ----------

  ghost predicate Nonempty(queues: Queues, p: nat) {
    p < |queues| && queues[p] != []
  }

  ghost predicate OneLevel(m: Map, queues: Queues) {
    forall p: nat {:trigger Bit(m.group, p)} {:trigger Nonempty(queues, p)} :: Bit(m.group, p) <==> Nonempty(queues, p)
  }

  ghost predicate GroupAgrees(m: Map)
    requires |m.table| == 32
  {
    forall n: nat {:trigger Bit(m.group, n)} :: Bit(m.group, n) <==> n < 32 && m.table[n] != 0
  }

  ghost predicate TableAgrees(m: Map, queues: Queues)
    requires |m.table| == 32
  {
    forall n: nat, h: nat {:trigger Bit(m.table[n], h)} :: n < 32 && h < 8 ==>
        (Bit(m.table[n], h) <==> Nonempty(queues, n * 8 + h))
  }

  /** A ready bit is set exactly when its queue is not empty. */
  ghost predicate Agrees(m: Map, queues: Queues) {
    && 0 < |queues| <= 256 && |m.table| == 32 && m.group < 0x1_0000_0000
    && (forall i :: 0 <= i < 32 ==> m.table[i] < 256)
    && if TwoLevels(|queues|) then GroupAgrees(m) && TableAgrees(m, queues) else OneLevel(m, queues)
  }

  lemma Pow2Is()
    ensures Pow2(8) == 256 && Pow2(32) == 0x1_0000_0000
  {
    assert Pow2(4) == 16 && Pow2(8) == 256;
    assert Pow2(12) == 0x1000 && Pow2(16) == 0x1_0000 && Pow2(20) == 0x10_0000 && Pow2(24) == 0x100_0000 &&
        Pow2(28) == 0x1000_0000;
  }

  lemma GroupFits(group: nat, i: nat)
    requires group < 0x1_0000_0000 && i < 32
    ensures SetBit(group, i) < 0x1_0000_0000 && ClearBit(group, i) < 0x1_0000_0000
  {
    Pow2Is();
    BitsFit(group, i, 32);
  }

  lemma ByteFits(byte: nat, i: nat)
    requires byte < 256 && i < 8
    ensures SetBit(byte, i) < 256 && ClearBit(byte, i) < 256
  {
    Pow2Is();
    BitsFit(byte, i, 8);
  }

  lemma NonzeroIff(v: nat, i: nat)
    ensures Bit(v, i) ==> v != 0
  {
    ZeroHasNoBits(i);
  }

  /** The queue of p has a thread: its bit is set.  The attributes must be those of p. */
  lemma MarkAgrees(m: Map, queues: Queues, p: nat, q: seq<Tid>)
    requires Agrees(m, queues) && p < |queues| && q != []
    ensures Agrees(Mark(m, |queues|, MarksOf(|queues|, p)), queues[p := q])
  {
    var queues', m' := queues[p := q], Mark(m, |queues|, MarksOf(|queues|, p));
    if TwoLevels(|queues|) {
      GroupFits(m.group, p / 8);
      ByteFits(m.table[p / 8], p % 8);
      SetBitIs(m.table[p / 8], p % 8, p % 8);
      NonzeroIff(m'.table[p / 8], p % 8);
      forall n: nat ensures Bit(m'.group, n) <==> n < 32 && m'.table[n] != 0 {
        SetBitIs(m.group, p / 8, n);
        assert Bit(m.group, n) <==> n < 32 && m.table[n] != 0;
      }
      forall n: nat, h: nat | n < 32 && h < 8 ensures Bit(m'.table[n], h) <==> Nonempty(queues', n * 8 + h) {
        SetBitIs(m.table[n], p % 8, h);
        assert Bit(m.table[n], h) <==> Nonempty(queues, n * 8 + h);
      }
    } else {
      GroupFits(m.group, p);
      forall i: nat ensures Bit(m'.group, i) <==> Nonempty(queues', i) {
        SetBitIs(m.group, p, i);
        assert Bit(m.group, i) <==> Nonempty(queues, i);
      }
    }
  }

  /** The queue of p has become empty: its bit is cleared, and with the last bit of a byte the group bit. */
  lemma UnmarkAgrees(m: Map, queues: Queues, p: nat)
    requires Agrees(m, queues) && p < |queues|
    ensures Agrees(Unmark(m, |queues|, MarksOf(|queues|, p)), queues[p := []])
  {
    var queues', m' := queues[p := []], Unmark(m, |queues|, MarksOf(|queues|, p));
    if TwoLevels(|queues|) {
      GroupFits(m.group, p / 8);
      ByteFits(m.table[p / 8], p % 8);
      forall n: nat ensures Bit(m'.group, n) <==> n < 32 && m'.table[n] != 0 {
        ClearBitIs(m.group, p / 8, n);
        assert Bit(m.group, n) <==> n < 32 && m.table[n] != 0;
        ClearedZero(m.table[p / 8], p % 8);
      }
      forall n: nat, h: nat | n < 32 && h < 8 ensures Bit(m'.table[n], h) <==> Nonempty(queues', n * 8 + h) {
        ClearBitIs(m.table[n], p % 8, h);
        assert Bit(m.table[n], h) <==> Nonempty(queues, n * 8 + h);
      }
    } else {
      GroupFits(m.group, p);
      forall i: nat ensures Bit(m'.group, i) <==> Nonempty(queues', i) {
        ClearBitIs(m.group, p, i);
        assert Bit(m.group, i) <==> Nonempty(queues, i);
      }
    }
  }

  lemma {:induction false} ClearedZero(v: nat, i: nat)
    ensures v == 0 ==> ClearBit(v, i) == 0
  {
    if i > 0 {
      ClearedZero(v / 2, i - 1);
    }
  }

  /** A queue that stays non-empty needs no change. */
  lemma SameAgrees(m: Map, queues: Queues, p: nat, q: seq<Tid>)
    requires Agrees(m, queues) && p < |queues| && q != [] && queues[p] != []
    ensures Agrees(m, queues[p := q])
  {
    var queues' := queues[p := q];
    if TwoLevels(|queues|) {
      forall n: nat, h: nat | n < 32 && h < 8 ensures Bit(m.table[n], h) <==> Nonempty(queues', n * 8 + h) {
        assert Bit(m.table[n], h) <==> Nonempty(queues, n * 8 + h);
      }
    } else {
      forall i: nat ensures Bit(m.group, i) <==> Nonempty(queues', i) {
        assert Bit(m.group, i) <==> Nonempty(queues, i);
      }
    }
  }

  // ---------- The most urgent queue ----------

  lemma ByteLow(v: nat)
    requires 0 < v < 256
    ensures Low(v) < 8
  {
    Pow2Is();
    LowIs(v, 0);
    HighBitsClear(v, Low(v), 8);
  }

  lemma HighestOneLevel(m: Map, queues: Queues, p: nat)
    requires Agrees(m, queues) && !TwoLevels(|queues|) && Nonempty(queues, p)
    ensures var h := Highest(m, |queues|); 0 <= h <= p && Nonempty(queues, h)
  {
    assert Bit(m.group, p);
    NonzeroIff(m.group, p);
    FfsIs(m.group);
    LowIs(m.group, p);
    assert Bit(m.group, Low(m.group));
  }

  /** The first group with a bit. */
  lemma FirstGroup(m: Map, queues: Queues, n: nat, h: nat) returns (number: nat)
    requires Agrees(m, queues) && TwoLevels(|queues|) && Nonempty(queues, n * 8 + h) && n < 32 && h < 8
    ensures Ffs(m.group) == number + 1 && number <= n && m.table[number] != 0
    ensures Bit(m.table[n], h)
  {
    assert Bit(m.table[n], h);
    NonzeroIff(m.table[n], h);
    assert Bit(m.group, n);
    NonzeroIff(m.group, n);
    FfsIs(m.group);
    LowIs(m.group, n);
    number := Low(m.group);
    assert Bit(m.group, number);
  }

  /** The first bit of a group. */
  lemma FirstBit(m: Map, queues: Queues, number: nat) returns (low: nat)
    requires Agrees(m, queues) && TwoLevels(|queues|) && number < 32 && m.table[number] != 0
    ensures Ffs(m.table[number]) == low + 1 && low < 8 && Nonempty(queues, number * 8 + low)
    ensures forall h: nat :: Bit(m.table[number], h) ==> low <= h
  {
    low := Low(m.table[number]);
    FfsIs(m.table[number]);
    ByteLow(m.table[number]);
    LowIs(m.table[number], 0);
    assert Bit(m.table[number], low);
    forall h: nat | Bit(m.table[number], h) ensures low <= h {
      LowIs(m.table[number], h);
    }
  }

  lemma HighestInGroup(m: Map, queues: Queues, n: nat, h: nat)
    requires Agrees(m, queues) && TwoLevels(|queues|) && Nonempty(queues, n * 8 + h) && n < 32 && h < 8
    ensures 0 <= Highest(m, |queues|) <= n * 8 + h && Nonempty(queues, Highest(m, |queues|))
  {
    var number := FirstGroup(m, queues, n, h);
    var low := FirstBit(m, queues, number);
    assert Highest(m, |queues|) == number * 8 + low;
  }

  lemma HighestTwoLevels(m: Map, queues: Queues, p: nat)
    requires Agrees(m, queues) && TwoLevels(|queues|) && Nonempty(queues, p)
    ensures var h := Highest(m, |queues|); 0 <= h <= p && Nonempty(queues, h)
  {
    assert p == p / 8 * 8 + p % 8;
    HighestInGroup(m, queues, p / 8, p % 8);
  }

  /** rt_schedule finds the most urgent non-empty queue in both layouts. */
  lemma HighestIs(m: Map, queues: Queues, p: nat)
    requires Agrees(m, queues) && Nonempty(queues, p)
    ensures var h := Highest(m, |queues|); 0 <= h <= p && Nonempty(queues, h)
  {
    if TwoLevels(|queues|) {
      HighestTwoLevels(m, queues, p);
    } else {
      HighestOneLevel(m, queues, p);
    }
  }
}
