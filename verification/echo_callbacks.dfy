/** The echo session twice: as a pair of callbacks that start each other's operations, and as
    the coroutine loop that is meant to do the same. Both are driven by the results of their
    operations, one result after the other, until the results run out. */
module EchoCallbacks {
  import opened Wrappers

  type Bytes = seq<char>

  const BUFFER := 64 * 1024

  datatype Op = Read | Write(bytes: Bytes)

  /** How an operation completes: with an error or without, and what a read delivered. */
  datatype Result = Result(ok: bool, bytes: Bytes)

  /** What a read puts into the buffer. */
  function Delivered(r: Result): Bytes {
    if |r.bytes| <= BUFFER then r.bytes else r.bytes[..BUFFER]
  }

  /** The operations issued from `pending` on, given the results to come. */
  function Issued(pending: Op, results: seq<Result>): seq<Op>
    decreases |results|
  {
    [pending] +
    if results == [] || !results[0].ok then []
    else Issued(After(pending, results[0]), results[1..])
  }

  function After(pending: Op, result: Result): Op {
    if pending.Read? then Write(Delivered(result)) else Read
  }

  /** One operation further on. */
  lemma IssuedStep(before: seq<Op>, pending: Op, results: seq<Result>, k: nat)
    requires k <= |results|
    ensures k == |results| || !results[k].ok ==>
              before + Issued(pending, results[k..]) == before + [pending]
    ensures k < |results| && results[k].ok ==>
              before + Issued(pending, results[k..])
              == (before + [pending]) + Issued(After(pending, results[k]), results[k + 1..])
  {
    var rest := results[k..];
    if k < |results| && results[k].ok {
      var tail := Issued(After(pending, results[k]), results[k + 1..]);
      assert rest[1..] == results[k + 1..];
      assert Issued(pending, rest) == [pending] + tail;
      assert before + ([pending] + tail) == (before + [pending]) + tail;
    } else {
      assert Issued(pending, rest) == [pending] + [];
    }
  }

  /** All bytes handed to writes, in order. */
  function Written(ops: seq<Op>): Bytes {
    if ops == [] then []
    else (if ops[0].Write? then ops[0].bytes else []) + Written(ops[1..])
  }

  /** All bytes that successful reads delivered, in order, when reads and writes alternate. */
  function Received(reading: bool, results: seq<Result>): Bytes
    decreases |results|
  {
    if results == [] || !results[0].ok then []
    else (if reading then Delivered(results[0]) else []) + Received(!reading, results[1..])
  }

  /** The session writes what it reads: every byte once and in order. */
  lemma {:induction false} WritesWhatItReads(pending: Op, results: seq<Result>)
    ensures Written(Issued(pending, results))
         == (if pending.Write? then pending.bytes else []) + Received(pending.Read?, results)
    decreases |results|
  {
    var ops := Issued(pending, results);
    if results == [] || !results[0].ok {
      assert ops[1..] == [];
    } else {
      var next := After(pending, results[0]);
      WritesWhatItReads(next, results[1..]);
      assert ops[1..] == Issued(next, results[1..]);
    }
  }

  /** How many operations succeed before the first one that fails. */
  function Successes(results: seq<Result>): nat {
    if results == [] || !results[0].ok then 0 else 1 + Successes(results[1..])
  }

  lemma {:induction false} IssuedLength(pending: Op, results: seq<Result>)
    ensures |Issued(pending, results)| == 1 + Successes(results) && Successes(results) <= |results|
    decreases |results|
  {
    if results != [] && results[0].ok {
      IssuedLength(After(pending, results[0]), results[1..]);
    }
  }

  lemma IssuedTail(pending: Op, results: seq<Result>)
    requires results != [] && results[0].ok
    ensures Issued(pending, results)[1..] == Issued(After(pending, results[0]), results[1..])
  {
  }

  /** The operations one by one: a read, then in turn a write of just what the read before it has
      delivered, at most 64 KiB, and a read, until an operation fails. */
  lemma {:induction false} IssuedOneByOne(pending: Op, results: seq<Result>, k: nat)
    requires k <= Successes(results)
    ensures |Issued(pending, results)| == 1 + Successes(results) && Successes(results) <= |results|
    ensures var op := Issued(pending, results)[k];
            && (k == 0 ==> op == pending)
            && (op.Read? <==> (k % 2 == 0 <==> pending.Read?))
            && (k > 0 && op.Write? ==> op.bytes == Delivered(results[k - 1]) && |op.bytes| <= 65536)
    decreases |results|
  {
    IssuedLength(pending, results);
    if k > 0 {
      var next := After(pending, results[0]);
      IssuedTail(pending, results);
      IssuedOneByOne(next, results[1..], k - 1);
      assert Issued(pending, results)[k] == Issued(next, results[1..])[k - 1];
    }
  }

  // The callbacks

  class Session {
    const data: array<char>
    var pending: Option<Op>
    var ops: seq<Op>

    /** At most one operation is outstanding, and the bytes of a pending write are in the
        buffer. */
    ghost predicate Valid()
      reads this, data
    {
      && data.Length == BUFFER
      && (pending.Some? && pending.value.Write? ==>
            |pending.value.bytes| <= BUFFER && data[..|pending.value.bytes|] == pending.value.bytes)
    }

    /** `start` issues the first read. */
    constructor ()
      ensures Valid() && fresh(data)
      ensures pending == Some(Read) && ops == [Read]
    {
      data := new char[BUFFER];
      pending, ops := Some(Read), [Read];
    }

    method DoRead()
      requires pending == None
      modifies this`pending, this`ops
      ensures pending == Some(Read) && ops == old(ops) + [Read]
    {
      pending, ops := Some(Read), ops + [Read];
    }

    method DoWrite(length: nat)
      requires pending == None && length <= data.Length
      modifies this`pending, this`ops
      ensures pending == Some(Write(data[..length])) && ops == old(ops) + [Write(data[..length])]
    {
      pending, ops := Some(Write(data[..length])), ops + [Write(data[..length])];
    }

    /** The outstanding operation completes and its callback runs. Only the completion of a
        read fills the buffer, so a pending write's bytes are never overwritten. */
    method Complete(result: Result)
      requires Valid() && pending.Some?
      modifies this, data
      ensures Valid()
      ensures !result.ok ==> pending == None && ops == old(ops)
      ensures result.ok ==>
                && pending == Some(After(old(pending).value, result))
                && ops == old(ops) + [pending.value]
      ensures old(pending).value.Write? ==> data[..] == old(data[..])
    {
      var op := pending.value;
      pending := None;
      if result.ok {
        if op.Read? {
          var bytes := Delivered(result);
          for i := 0 to |bytes|
            invariant data[..i] == bytes[..i]
            invariant pending == None && ops == old(ops)
          {
            data[i] := bytes[i];
          }
          assert data[..|bytes|] == bytes;
          DoWrite(|bytes|);
        } else {
          DoRead();
        }
      }
    }
  }

  /** The event loop delivers the results to the callbacks. */
  method RunCallbacks(results: seq<Result>) returns (ops: seq<Op>)
    ensures ops == Issued(Read, results)
  {
    var session := new Session();
    ghost var whole := Issued(Read, results);
    ghost var before: seq<Op> := [];
    var k := 0;
    assert results[0..] == results && before + whole == whole;
    while k < |results| && session.pending.Some?
      invariant 0 <= k <= |results|
      invariant session.Valid() && fresh(session) && fresh(session.data)
      invariant session.pending.Some? ==>
                  && session.ops == before + [session.pending.value]
                  && before + Issued(session.pending.value, results[k..]) == whole
      invariant session.pending.None? ==> session.ops == whole
      decreases |results| - k
    {
      IssuedStep(before, session.pending.value, results, k);
      before := session.ops;
      session.Complete(results[k]);
      k := k + 1;
    }
    if session.pending.Some? {
      IssuedStep(before, session.pending.value, results, k);
    }
    ops := session.ops;
  }

  // The coroutine

  /** The loop of the coroutine: read, stop on error, write, stop on error. */
  method RunCoroutine(results: seq<Result>) returns (ops: seq<Op>)
    ensures ops == Issued(Read, results)
  {
    ghost var whole := Issued(Read, results);
    ops := [];
    var k := 0;
    assert results[0..] == results && ops + whole == whole;
    while true
      invariant 0 <= k <= |results|
      invariant ops + Issued(Read, results[k..]) == whole
      decreases |results| - k
    {
      IssuedStep(ops, Read, results, k);
      ops := ops + [Read];
      if k == |results| || !results[k].ok {
        break;
      }
      var data := Delivered(results[k]);
      k := k + 1;
      IssuedStep(ops, Write(data), results, k);
      ops := ops + [Write(data)];
      if k == |results| || !results[k].ok {
        break;
      }
      k := k + 1;
    }
  }

  /** For every sequence of results both issue the same operations, and what they write is what
      they have read. */
  method CallbacksRefineCoroutine(results: seq<Result>) returns (callbacks: seq<Op>, coroutine: seq<Op>)
    ensures callbacks == coroutine
    ensures Written(callbacks) == Received(true, results)
  {
    callbacks := RunCallbacks(results);
    coroutine := RunCoroutine(results);
    WritesWhatItReads(Read, results);
  }
}
