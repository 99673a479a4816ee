/** Writing a range to a stream, whole or in chunks, and copying one stream to another. */
module Streams {
  import opened Wrappers

  newtype uint8 = x: int | 0 <= x < 256

  type Bytes = seq<uint8>

  const BUFFER := 64 * 1024

  datatype Result = Returns(count: nat) | Throws

  /** How one `async_write` ends: how many bytes got through if it did not write all, and
      whether a cancellation is recorded when it completes. A write that was cut short
      carries an error; a cancellation may also be recorded although all was written. */
  datatype Outcome = Full(cancelled: bool) | Short(n: nat, cancelled: bool)

  predicate Fails(o: Outcome, length: nat) {
    o.Short? && o.n < length
  }

  function Through(o: Outcome, length: nat): nat {
    if Fails(o, length) then o.n else length
  }

  /** A stream: the bytes that reached it, and how its writes end, by number of the call. */
  class Sink {
    var bytes: Bytes
    var calls: nat
    var closed: bool
    const outcomes: nat -> Outcome

    constructor (outcomes: nat -> Outcome)
      ensures bytes == [] && calls == 0 && !closed && this.outcomes == outcomes
    {
      this.outcomes := outcomes;
      bytes, calls, closed := [], 0, false;
    }

    method AsyncWrite(data: Bytes) returns (failed: bool, n: nat)
      modifies this`bytes, this`calls
      ensures calls == old(calls) + 1
      ensures n == Through(outcomes(old(calls)), |data|) && failed == Fails(outcomes(old(calls)), |data|)
      ensures bytes == old(bytes) + data[..n]
    {
      var o := outcomes(calls);
      failed, n := Fails(o, |data|), Through(o, |data|);
      bytes := bytes + data[..n];
      calls := calls + 1;
    }
  }

  // Chunked write

  /** The number of chunks of a range, and the length of chunk `i`. */
  function Chunks(length: nat): nat {
    (length + 65535) / 65536
  }

  function ChunkLength(length: nat, i: nat): nat
    requires i < Chunks(length)
  {
    if (i + 1) * 65536 <= length then 65536 else length - i * 65536
  }

  /** A write ends the loop if a cancellation is recorded, even if all was written, or if it
      was cut short. */
  predicate Stops(o: Outcome, length: nat) {
    o.cancelled || Fails(o, length)
  }

  /** The loop made `calls` writes, the first being number `first` of the stream: it went on
      until a write stopped it, or to the end of the range. All chunks but the last one
      written got through, `through` bytes in all, and an error was raised if and only if the last
      write failed without a cancellation. */
  ghost predicate StoppedAt(
    outcomes: nat -> Outcome, first: nat, length: nat, calls: nat, through: nat, result: Result)
  {
    && calls <= Chunks(length)
    && (forall i :: 0 <= i < calls - 1 ==> !Stops(outcomes(first + i), ChunkLength(length, i)))
    && (if calls == 0 then
          length == 0 && through == 0 && result == Returns(0)
        else
          var last, chunk := outcomes(first + calls - 1), ChunkLength(length, calls - 1);
          && (calls < Chunks(length) ==> Stops(last, chunk))
          && through == (calls - 1) * 65536 + Through(last, chunk)
          && result == if Fails(last, chunk) && !last.cancelled then Throws else Returns(through))
  }

  /** The bytes of a range that get through in all, the writes made and the result of the
      coroutine, when `done` bytes are through and the next chunk is call number `k`. */
  datatype Transferred = Transferred(through: nat, calls: nat, result: Result)

  function Transfer(outcomes: nat -> Outcome, k: nat, done: nat, length: nat): (r: Transferred)
    requires done <= length
    ensures done <= r.through <= length
    ensures r.result.Returns? ==> r.result.count == r.through
    decreases length - done
  {
    if done == length then
      Transferred(done, 0, Returns(done))
    else
      var chunk := Min(length - done, BUFFER);
      var through := done + Through(outcomes(k), chunk);
      if outcomes(k).cancelled then Transferred(through, 1, Returns(through))
      else if Fails(outcomes(k), chunk) then Transferred(through, 1, Throws)
      else
        var rest := Transfer(outcomes, k + 1, through, length);
        rest.(calls := rest.calls + 1)
  }

  /** One write, with `c` before it that did not stop the loop. */
  lemma TransferStep(outcomes: nat -> Outcome, first: nat, c: nat, length: nat)
    requires c < Chunks(length)
    ensures c * 65536 < length && Min(c * 65536, length) == c * 65536
    ensures var o, chunk := outcomes(first + c), ChunkLength(length, c);
            var r := Transfer(outcomes, first + c, c * 65536, length);
            if Stops(o, chunk) then
              r == Transferred(c * 65536 + Through(o, chunk), 1,
                     if Fails(o, chunk) && !o.cancelled then Throws else Returns(c * 65536 + Through(o, chunk)))
            else
              var rest := Transfer(outcomes, first + c + 1, Min((c + 1) * 65536, length), length);
              r == rest.(calls := rest.calls + 1)
  {
    assert Min(length - c * 65536, BUFFER) == ChunkLength(length, c);
  }

  /** After `c` writes that did not stop the loop. */
  lemma {:induction false} TransferStops(outcomes: nat -> Outcome, first: nat, c: nat, length: nat)
    requires c <= Chunks(length) && (c == Chunks(length) ==> Min(c * 65536, length) == length)
    requires forall i :: 0 <= i < c ==> !Stops(outcomes(first + i), ChunkLength(length, i))
    ensures var r := Transfer(outcomes, first + c, Min(c * 65536, length), length);
            StoppedAt(outcomes, first, length, c + r.calls, r.through, r.result)
    decreases Chunks(length) - c
  {
    if c < Chunks(length) {
      TransferStep(outcomes, first, c, length);
      if !Stops(outcomes(first + c), ChunkLength(length, c)) {
        TransferStops(outcomes, first, c + 1, length);
      }
    }
  }

  /** For every stream and every range: the loop makes no write after the first that stops it, and
      none is left out before; and the bytes through and the result are those of these writes. */
  lemma ChunkedWriteStops(outcomes: nat -> Outcome, first: nat, length: nat)
    ensures var r := Transfer(outcomes, first, 0, length);
            StoppedAt(outcomes, first, length, r.calls, r.through, r.result)
  {
    TransferStops(outcomes, first, 0, length);
  }

  method Copy(chunk: Bytes, data: array<uint8>)
    requires |chunk| <= data.Length
    modifies data
    ensures data[..|chunk|] == chunk
  {
    for i := 0 to |chunk|
      invariant data[..i] == chunk[..i]
    {
      data[i] := chunk[i];
    }
  }

  lemma Extend(base: Bytes, s: Bytes, total: nat, copied: nat, n: nat)
    requires n <= copied && total + copied <= |s|
    ensures base + s[..total] + s[total..total + copied][..n] == base + s[..total + n]
  {
  }

  /** `write` for a range that is not contiguous: copies chunk after chunk to a buffer. For
      every stream and every cancellation point the bytes that reach the stream are exactly
      the first `through` elements, without gap or repetition between chunks, and the number
      reported is theirs. */
  method WriteChunked(sink: Sink, range: Bytes) returns (result: Result, ghost through: nat)
    modifies sink`bytes, sink`calls
    ensures through <= |range|
    ensures sink.bytes == old(sink.bytes) + range[..through]
    ensures old(sink.calls) <= sink.calls
    ensures Transfer(sink.outcomes, old(sink.calls), 0, |range|)
         == Transferred(through, sink.calls - old(sink.calls), result)
  {
    ghost var whole, base, first := Transfer(sink.outcomes, sink.calls, 0, |range|), sink.bytes, sink.calls;
    var data := new uint8[BUFFER];
    var total := 0;
    while total < |range|
      invariant total <= |range| && sink.bytes == base + range[..total]
      invariant first <= sink.calls
      invariant var rest := Transfer(sink.outcomes, sink.calls, total, |range|);
                rest.(calls := rest.calls + (sink.calls - first)) == whole
    {
      var call := sink.calls;
      var failed, n := WriteChunk(sink, range, total, data, base);
      total := total + n;
      if sink.outcomes(call).cancelled {
        return Returns(total), total;
      }
      if failed {
        return Throws, total;
      }
    }
    return Returns(total), total;
  }

  /** Copies the next chunk to the buffer and writes it. */
  method WriteChunk(sink: Sink, range: Bytes, total: nat, data: array<uint8>, ghost base: Bytes)
    returns (failed: bool, n: nat)
    requires total < |range| && data.Length == BUFFER && sink.bytes == base + range[..total]
    modifies sink`bytes, sink`calls, data
    ensures var chunk, outcome := Min(|range| - total, BUFFER), sink.outcomes(old(sink.calls));
            failed == Fails(outcome, chunk) && n == Through(outcome, chunk)
    ensures total + n <= |range| && (!failed ==> n > 0)
    ensures sink.calls == old(sink.calls) + 1 && sink.bytes == base + range[..total + n]
  {
    var copied := Min(|range| - total, BUFFER);
    Copy(range[total..total + copied], data);
    failed, n := sink.AsyncWrite(data[..copied]);
    Extend(base, range, total, copied, n);
  }

  /** `write` for a contiguous range: one `async_write` of all of it. */
  method WriteContiguous(sink: Sink, range: array<uint8>) returns (result: Result, ghost through: nat)
    modifies sink`bytes, sink`calls
    ensures through == Through(sink.outcomes(old(sink.calls)), range.Length)
    ensures sink.bytes == old(sink.bytes) + range[..through]
    ensures result == if Fails(sink.outcomes(old(sink.calls)), range.Length) && !sink.outcomes(old(sink.calls)).cancelled then Throws
                      else Returns(through)
  {
    var cancelled := sink.outcomes(sink.calls).cancelled;
    var failed, n := sink.AsyncWrite(range[..]);
    through := n;
    if cancelled {
      return Returns(n), through;
    }
    if failed {
      return Throws, through;
    }
    result := Returns(n);
  }

  /** On a stream that nobody interrupts the chunked write puts the same bytes through and
      returns the same count as the contiguous one: all of them. */
  lemma {:induction false} ChunkedEqualsContiguous(outcomes: nat -> Outcome, k: nat, done: nat, length: nat)
    requires done <= length && forall i: nat :: outcomes(i) == Full(false)
    ensures var r := Transfer(outcomes, k, done, length);
            r.through == length && r.result == Returns(length)
    ensures Through(outcomes(k), length) == length && !Fails(outcomes(k), length)
    decreases length - done
  {
    if done < length {
      ChunkedEqualsContiguous(outcomes, k + 1, done + Min(length - done, BUFFER), length);
    }
  }

  /** A stream that takes `limit` bytes in all and then stops, by an error or by a
      cancellation, as writes in chunks of one buffer see it. */
  function StopsAt(limit: nat, byCancellation: bool): nat -> Outcome {
    (k: nat) =>
      if (k + 1) * BUFFER <= limit then Full(false)
      else Short(if k * BUFFER <= limit then limit - k * BUFFER else 0, byCancellation)
  }

  /** On a stream that stops after `limit` bytes, inside the range, the chunked write lets
      exactly these bytes through and reports them if it was cancelled, as the contiguous
      write does. */
  lemma {:induction false} ChunkedStopsLikeContiguous(limit: nat, byCancellation: bool, k: nat, length: nat)
    requires k * BUFFER <= limit < length
    ensures var r := Transfer(StopsAt(limit, byCancellation), k, k * BUFFER, length);
            r.through == limit && r.result == if byCancellation then Returns(limit) else Throws
    ensures Through(Short(limit, byCancellation), length) == limit && Fails(Short(limit, byCancellation), length)
    decreases length - k * BUFFER
  {
    if (k + 1) * BUFFER <= limit {
      ChunkedStopsLikeContiguous(limit, byCancellation, k + 1, length);
    }
  }

  // Copying

  datatype ReadEnd = Eof | Error

  /** A stream to read from: it delivers `pending`, cut into reads as `cuts` says, and then
      ends. */
  class Source {
    var pending: Bytes
    var calls: nat
    const cuts: nat -> nat
    const end: ReadEnd

    constructor (pending: Bytes, cuts: nat -> nat, end: ReadEnd)
      ensures this.pending == pending && calls == 0 && this.cuts == cuts && this.end == end
    {
      this.pending, calls, this.cuts, this.end := pending, 0, cuts, end;
    }

    /** Reads at least one byte unless the stream has ended. */
    method ReadSome(data: array<uint8>) returns (ended: bool, n: nat)
      requires data.Length > 0
      modifies this`pending, this`calls, data
      ensures ended <==> old(pending) == []
      ensures ended ==> n == 0 && pending == []
      ensures !ended ==> 0 < n <= data.Length && n <= |old(pending)|
      ensures !ended ==> data[..n] == old(pending)[..n] && pending == old(pending)[n..]
    {
      if pending == [] {
        return true, 0;
      }
      var most := if |pending| < data.Length then |pending| else data.Length;
      n := if 0 < cuts(calls) <= most then cuts(calls) else most;
      Copy(pending[..n], data);
      pending := pending[n..];
      calls := calls + 1;
      ended := false;
    }
  }

  /** `cat`: for every cutting of the input and every output stream, what was written is a
      prefix of the input; if no write fails and nothing is cancelled all of the input was
      written, and at end of file its length is returned and the output closed. */
  method Cat(input: Source, output: Sink) returns (result: Result, ghost through: nat)
    modifies input`pending, input`calls, output
    ensures through <= |old(input.pending)|
    ensures output.bytes == old(output.bytes) + old(input.pending)[..through]
    ensures old(output.calls) <= output.calls
    ensures forall k :: old(output.calls) <= k < output.calls - 1 ==> !output.outcomes(k).cancelled
    ensures result.Returns? <==>
              && input.end == Eof && input.pending == [] && through == |old(input.pending)|
              && (forall k :: old(output.calls) <= k < output.calls ==> !output.outcomes(k).cancelled)
    ensures result.Returns? ==> result.count == |old(input.pending)| && output.closed
    ensures result.Throws? ==> output.closed == old(output.closed)
    ensures (forall k: nat :: output.outcomes(k) == Full(false)) ==> through == |old(input.pending)|
  {
    ghost var stream, base := input.pending, output.bytes;
    var total := 0;
    var data := new uint8[BUFFER];
    var ended := false;
    while !ended
      invariant total <= |stream| && input.pending == stream[total..]
      invariant output.bytes == base + stream[..total] && output.closed == old(output.closed)
      invariant ended ==> total == |stream|
      invariant old(output.calls) <= output.calls
      invariant forall k :: old(output.calls) <= k < output.calls ==> !output.outcomes(k).cancelled
      decreases |input.pending|, !ended
    {
      var n;
      ended, n := input.ReadSome(data);
      if !ended {
        var call := output.calls;
        var failed, m := output.AsyncWrite(data[..n]);
        Advance(base, stream, total, n, m);
        if failed {
          return Throws, total + m;
        }
        total := total + n;
        // The next await throws if a cancellation is recorded.
        if output.outcomes(call).cancelled {
          return Throws, total;
        }
      }
    }
    if input.end == Error {
      return Throws, total;
    }
    output.closed := true;
    return Returns(total), total;
  }

  lemma Advance(base: Bytes, stream: Bytes, total: nat, n: nat, m: nat)
    requires m <= n && total + n <= |stream|
    ensures stream[total..][n..] == stream[total + n..]
    ensures base + stream[..total] + stream[total..][..n][..m] == base + stream[..total + m]
  {
  }
}
