/** The contents of allocated memory, and rt_memcpy on them. */
module Memory {

  /** The bytes of a heap, by offset.  Headers are kept apart from them. */
  type Bytes = map<int, int>

  /** rt_memcpy of n bytes. */
  function Copy(data: Bytes, to: int, from: int, n: int): Bytes
    decreases n
  {
    if n <= 0 then data
    else
      var d := Copy(data, to, from, n - 1);
      if from + n - 1 in data then d[to + n - 1 := data[from + n - 1]] else d
  }

  lemma {:induction false} CopyIs(data: Bytes, to: int, from: int, n: int, r: Bytes)
    requires r == Copy(data, to, from, n)
    ensures forall x {:trigger r[x]} {:trigger x in r} :: to <= x < to + n && x - to + from in data ==>
              x in r && r[x] == data[x - to + from]
    ensures forall x {:trigger r[x]} {:trigger x in r} :: !(to <= x < to + n) && x in data ==>
              x in r && r[x] == data[x]
    decreases n
  {
    if n > 0 {
      var d := Copy(data, to, from, n - 1);
      CopyIs(data, to, from, n - 1, d);
      forall x | x != to + n - 1 ensures x in d ==> x in r && r[x] == d[x] {
      }
      forall x | x in data && !(to <= x < to + n) ensures x in r && r[x] == data[x] {
        assert x in d && d[x] == data[x];
      }
      forall x | to <= x < to + n && x - to + from in data ensures x in r && r[x] == data[x - to + from] {
        assert x < to + n - 1 ==> x in d && d[x] == data[x - to + from];
      }
    }
  }

  function Least(a: int, b: int): int {
    if a < b then a else b
  }

  /** The n bytes at p have come to q. */
  ghost predicate SameContents(data: Bytes, p: int, data': Bytes, q: int, n: int) {
    forall x {:trigger data'[x]} {:trigger x in data'} :: q <= x < q + n && x - q + p in data ==>
      x in data' && data'[x] == data[x - q + p]
  }

  /** The n bytes at p have not changed. */
  ghost predicate SameBytes(data: Bytes, data': Bytes, p: int, n: int) {
    forall x :: p <= x < p + n && x in data ==> x in data' && data'[x] == data[x]
  }

  lemma CopyContents(data: Bytes, q: int, p: int, n: int)
    ensures SameContents(data, p, Copy(data, q, p, n), q, n)
  {
    CopyIs(data, q, p, n, Copy(data, q, p, n));
  }

  /** Copying does not disturb what lies beside the target. */
  lemma CopyBeside(data: Bytes, q: int, from: int, n: int, p: int, d: int)
    requires p + d <= q || q + n <= p
    ensures SameBytes(data, Copy(data, q, from, n), p, d)
  {
    CopyIs(data, q, from, n, Copy(data, q, from, n));
  }
}
