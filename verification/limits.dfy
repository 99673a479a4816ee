/** How much the two load clients write: the limit arithmetic of their write loops. */
module WriteLimits {
  import opened Wrappers

  const WORD := 0x1_0000_0000_0000_0000

  type size_t = n: int | 0 <= n < WORD

  // The corosio client

  datatype Stop = LimitReached | DeadlinePassed | WriteFailed

  /** What happens in one round of the loop: the deadline has passed, the write fails, or it
      puts some of the chunk through. */
  datatype Round = Late | Error | Wrote(n: nat)

  /** How many of the `n` bytes offered a write takes that could take `w`: at least one, and no
      more than it is offered. */
  function Taken(w: nat, n: nat): nat {
    if 0 < w <= n then w else n
  }

  /** The total after `k` rounds that all write. */
  function AfterRounds(limit: nat, buffer: nat, round: nat -> Round, k: nat): (total: nat)
    ensures total <= limit
  {
    if k == 0 then 0
    else
      var total, r := AfterRounds(limit, buffer, round, k - 1), round(k - 1);
      total + Taken(if r.Wrote? then r.n else 0, Min(limit - total, buffer))
  }

  /** The write loop of the corosio client. However the rounds go, the total never exceeds the
      limit, so it never overflows. The loop ends in the first round that finds the limit reached,
      the deadline passed or the write failing, in this order, and the total is what the rounds
      before it have written; so it ends on the limit unless the deadline or an error stops it. */
  method WriteUpTo(limit: size_t, buffer: size_t, round: nat -> Round)
    returns (total: size_t, stop: Stop, ghost rounds: nat)
    requires buffer > 0
    ensures total <= limit && total == AfterRounds(limit, buffer, round, rounds)
    ensures forall k :: 0 <= k < rounds ==> round(k).Wrote?
    ensures stop == LimitReached <==> total == limit
    ensures stop == DeadlinePassed <==> total < limit && round(rounds) == Late
    ensures stop == WriteFailed <==> total < limit && round(rounds) == Error
  {
    total := 0;
    var k := 0;
    rounds := 0;
    while total < limit
      invariant total == AfterRounds(limit, buffer, round, k) && rounds == k
      invariant forall i :: 0 <= i < k ==> round(i).Wrote?
      decreases limit - total
    {
      var r := round(k);
      if r == Late {
        return total, DeadlinePassed, k;
      }
      var chunk := Min(limit - total, buffer);
      if r == Error {
        return total, WriteFailed, k;
      }
      total := total + Taken(r.n, chunk);
      k := k + 1;
      rounds := k;
    }
    stop := LimitReached;
  }

  /** When every write takes all it is offered, the loop writes whole buffers, and the rest of the
      limit last. */
  lemma {:induction false} FullRounds(limit: nat, buffer: nat, round: nat -> Round, k: nat)
    requires buffer > 0 && forall i :: 0 <= i < k ==> round(i).Wrote? && buffer <= round(i).n
    ensures AfterRounds(limit, buffer, round, k) == Min(limit, k * buffer)
  {
    if k > 0 {
      FullRounds(limit, buffer, round, k - 1);
      assert k * buffer == (k - 1) * buffer + buffer;
    }
  }

  // The Asio client

  /** `total - size` in 64-bit arithmetic. */
  function Difference(total: size_t, size: size_t): size_t {
    if total < size then WORD - (size - total) else total - size
  }

  /** Addition in 64-bit arithmetic. */
  function Sum(a: size_t, b: size_t): size_t {
    if a + b < WORD then a + b else a + b - WORD
  }

  /** The number of bytes the next write offers. */
  function Chunk(total: size_t, size: size_t, buffer: size_t): size_t {
    Min(Difference(total, size), buffer)
  }

  /** The subtraction is the wrong way round, but inside the loop it still gives a chunk of at
      least one byte and at most one buffer, and a whole buffer unless the size is within one
      buffer of 2^64. */
  lemma ChunkIsUsable(total: size_t, size: size_t, buffer: size_t)
    requires total < size && buffer > 0
    ensures 0 < Chunk(total, size, buffer) <= buffer
    ensures Chunk(total, size, buffer) == buffer <==> size - total + buffer <= WORD
  {
  }

  /** The total when every write takes all it is offered and nothing wraps around. */
  function Overshoot(total: nat, size: size_t, buffer: size_t): nat
    requires buffer > 0 && size + buffer <= WORD && total < size + buffer
    decreases size + buffer - total
  {
    if size <= total then total else Overshoot(total + Chunk(total, size, buffer), size, buffer)
  }

  /** The total after the writes of a loop that is cancelled when `writes` are used up. */
  function Total(total: size_t, size: size_t, buffer: size_t, writes: seq<nat>): size_t
    requires buffer > 0
    decreases |writes|
  {
    if size <= total || writes == [] then total
    else Total(Sum(total, Taken(writes[0], Chunk(total, size, buffer))), size, buffer, writes[1..])
  }

  /** The write loop of the Asio client. `writes` are the numbers of bytes that each
      `async_write_some` takes before the loop is cancelled. Barring wraparound the total
      exceeds the size by less than one buffer, and reaches it unless cancelled; if every
      write takes all it is offered, the overshoot is the one computed by `Overshoot`. */
  method WriteSomeUpTo(size: size_t, buffer: size_t, writes: seq<nat>) returns (total: size_t, cancelled: bool)
    requires buffer > 0
    ensures total == Total(0, size, buffer, writes) && (cancelled <==> total < size)
    ensures size + buffer <= WORD ==> total < size + buffer
    ensures size + buffer <= WORD && !cancelled && (forall k :: 0 <= k < |writes| ==> buffer <= writes[k]) ==>
              total == Overshoot(0, size, buffer)
  {
    total := 0;
    for k := 0 to |writes|
      invariant Total(total, size, buffer, writes[k..]) == Total(0, size, buffer, writes)
      invariant size + buffer <= WORD ==> total < size + buffer
      invariant size + buffer <= WORD && (forall k :: 0 <= k < |writes| ==> buffer <= writes[k]) ==>
                  Overshoot(total, size, buffer) == Overshoot(0, size, buffer)
    {
      if size <= total {
        return total, false;
      }
      var n := Chunk(total, size, buffer);
      ChunkIsUsable(total, size, buffer);
      assert writes[k..][1..] == writes[k + 1..];
      total := Sum(total, Taken(writes[k], n));
    }
    cancelled := total < size;
  }

  // Short writes

  function Sums(writes: seq<nat>): nat {
    if writes == [] then 0 else writes[0] + Sums(writes[1..])
  }

  /** A loop that is cancelled below the limit has counted every byte its writes took. */
  lemma {:induction false} CancelledTotal(total: size_t, size: size_t, buffer: size_t, writes: seq<nat>)
    requires buffer > 0 && size + buffer <= WORD
    requires (forall k :: 0 <= k < |writes| ==> 0 < writes[k] <= buffer) && total + Sums(writes) < size
    ensures Total(total, size, buffer, writes) == total + Sums(writes)
    decreases |writes|
  {
    if writes != [] {
      ChunkIsUsable(total, size, buffer);
      assert forall k :: 0 <= k < |writes[1..]| ==> writes[1..][k] == writes[k + 1];
      CancelledTotal(total + writes[0], size, buffer, writes[1..]);
    }
  }

  lemma {:induction false} TotalInRange(total: size_t, size: size_t, buffer: size_t, writes: seq<nat>)
    requires buffer > 0 && size + buffer <= WORD
    requires total < size + buffer && (size == 0 ==> total == 0)
    ensures Total(total, size, buffer, writes) < size + buffer
    ensures size == 0 ==> Total(total, size, buffer, writes) == 0
    decreases |writes|
  {
    if total < size && writes != [] {
      ChunkIsUsable(total, size, buffer);
      TotalInRange(Sum(total, Taken(writes[0], Chunk(total, size, buffer))), size, buffer, writes[1..]);
    }
  }

  /** `k` writes of a single byte, then one of `last` bytes. */
  function Approach(k: nat, last: nat): seq<nat> {
    if k == 0 then [last] else [1] + Approach(k - 1, last)
  }

  lemma {:induction false} ApproachTotal(total: size_t, size: size_t, buffer: size_t, last: nat)
    requires buffer > 0 && size + buffer <= WORD
    requires total < size && 0 < last <= buffer
    ensures Total(total, size, buffer, Approach(size - 1 - total, last)) == size - 1 + last
    decreases size - total
  {
    ChunkIsUsable(total, size, buffer);
    var writes := Approach(size - 1 - total, last);
    if total < size - 1 {
      assert writes[0] == 1 && writes[1..] == Approach(size - 2 - total, last);
      ApproachTotal(total + 1, size, buffer, last);
    } else {
      assert writes == [last];
      assert Total(size - 1 + last, size, buffer, writes[1..]) == size - 1 + last;
    }
  }

  /** A loop that is not cancelled may end on exactly these totals, depending on how much each
      write takes: on every one from the size up to one byte less than a buffer beyond it. */
  lemma TotalsWithShortWrites(size: size_t, buffer: size_t, total: size_t)
    requires buffer > 0 && size + buffer <= WORD
    ensures (exists writes :: size <= total && Total(0, size, buffer, writes) == total) <==>
              if size == 0 then total == 0 else size <= total < size + buffer
  {
    if size == 0 {
      assert Total(0, size, buffer, []) == 0;
    } else if size <= total < size + buffer {
      ApproachTotal(0, size, buffer, total - size + 1);
      assert Total(0, size, buffer, Approach(size - 1, total - size + 1)) == total;
    }
    if writes: seq<nat> :| size <= total && Total(0, size, buffer, writes) == total {
      TotalInRange(0, size, buffer, writes);
    }
  }

  /** So the limit is met exactly, however much each write takes, if and only if there is nothing
      to write or the buffer is a single byte. */
  lemma AlwaysExactExactlyWhen(size: size_t, buffer: size_t)
    requires buffer > 0 && size + buffer <= WORD
    ensures (forall writes: seq<nat> ::
               size <= Total(0, size, buffer, writes) ==> Total(0, size, buffer, writes) == size) <==>
              size == 0 || buffer == 1
  {
    if size == 0 || buffer == 1 {
      forall writes: seq<nat>
        ensures size <= Total(0, size, buffer, writes) ==> Total(0, size, buffer, writes) == size
      {
        TotalInRange(0, size, buffer, writes);
      }
    } else {
      ApproachTotal(0, size, buffer, 2);
      assert Total(0, size, buffer, Approach(size - 1, 2)) == size + 1;
    }
  }

  // Full writes

  ghost predicate Multiple(n: nat, buffer: nat) {
    exists q: nat :: q * buffer == n
  }

  /** When every write takes all it is offered, the limit is met exactly if and only if it is a
      multiple of the buffer size; otherwise the last chunk goes past it, up to the next multiple. */
  lemma {:induction false} ExactOnlyOnMultiples(size: size_t, buffer: size_t, rounds: nat)
    requires buffer > 0 && size + buffer <= WORD
    requires rounds * buffer < size + buffer
    ensures var end := Overshoot(rounds * buffer, size, buffer);
            && Multiple(end, buffer)
            && size <= end < size + buffer
            && (end == size <==> Multiple(size, buffer))
    decreases size + buffer - rounds * buffer
  {
    var total := rounds * buffer;
    if total < size {
      assert (rounds + 1) * buffer == total + buffer;
      ChunkIsUsable(total, size, buffer);
      ExactOnlyOnMultiples(size, buffer, rounds + 1);
    } else {
      assert Multiple(total, buffer);
      if Multiple(size, buffer) {
        var q: nat :| q * buffer == size;
        SameMultiple(q, rounds, buffer);
      }
    }
  }

  lemma {:induction false} GapIsABuffer(q: nat, k: nat, buffer: nat)
    requires q < k
    ensures q * buffer + buffer <= k * buffer
    decreases k
  {
    assert k * buffer == (k - 1) * buffer + buffer;
    if q + 1 < k {
      GapIsABuffer(q, k - 1, buffer);
    }
  }

  lemma SameMultiple(q: nat, k: nat, buffer: nat)
    requires q * buffer <= k * buffer < q * buffer + buffer
    ensures k == q
  {
    if q < k {
      GapIsABuffer(q, k, buffer);
    } else if k < q {
      GapIsABuffer(k, q, buffer);
    }
  }

  function Pow2(k: nat): nat {
    if k == 0 then 1 else 2 * Pow2(k - 1)
  }

  /** The total after `k` full writes without a configured size, that is, with the largest
      64-bit number as the limit. */
  function UnlimitedTotal(k: nat, buffer: size_t): size_t {
    if k == 0 then 0
    else
      var total := UnlimitedTotal(k - 1, buffer);
      Sum(total, Chunk(total, WORD - 1, buffer))
  }

  /** Without a limit the same subtraction makes the client start with a single byte and double
      the chunk with every write until it fills the buffer. */
  lemma {:induction false} UnlimitedDoubles(k: nat, buffer: size_t)
    requires Pow2(k) <= buffer
    ensures UnlimitedTotal(k, buffer) == Pow2(k) - 1
    ensures Chunk(UnlimitedTotal(k, buffer), WORD - 1, buffer) == Pow2(k)
  {
    if k > 0 {
      UnlimitedDoubles(k - 1, buffer);
    }
  }
}
