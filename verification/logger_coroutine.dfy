/** The logger coroutine over its mutable buffer. Its loop body, its cancellation handler and
    its tail flush move the state as the transition system of the logger says. */
module LoggerCoroutine {
  import opened Cancellation
  import opened Lines
  import opened Logger

  class LineLogger {
    const policy: Policy
    var stage: Stage
    var op: Op
    var buffer: string
    var lines: seq<string>
    var cancel: CancelState
    var stream: string

    ghost function View(): Log
      reads this
    {
      Log(stage, op, buffer, lines, cancel, stream)
    }

    constructor (policy: Policy)
      ensures View() == INIT && this.policy == policy
    {
      this.policy := policy;
      stage, op, buffer, lines, cancel, stream := Running, Waiting, "", [], Reset(FILTER), "";
    }

    /** Hands out the pieces of the buffer, cutting off one piece after the other. */
    method HandleRemaining()
      modifies this`lines
      ensures lines == old(lines) + Split(buffer)
    {
      if buffer != "" {
        var rest := buffer;
        while HasLF(rest)
          invariant lines + Pieces(rest) == old(lines) + Pieces(buffer)
          decreases |rest|
        {
          var i := FirstLF(rest);
          ghost var before, tail := lines, Pieces(rest[i + 1..]);
          assert Pieces(rest) == [rest[..i]] + tail;
          assert before + ([rest[..i]] + tail) == before + [rest[..i]] + tail;
          lines := lines + [rest[..i]];
          rest := rest[i + 1..];
        }
        lines := lines + [rest];
      }
    }

    /** The handler assigned to the cancellation slot; it runs inside the emit. */
    method OnCancellation(kinds: Kinds)
      requires stage == Running && Consistent(View())
      modifies this`cancel, this`lines, this`op
      ensures View() == Step(policy, old(View()), Emit(kinds))
    {
      var accepted := kinds.And(cancel.filter);
      cancel := cancel.Emit(policy, kinds);
      if accepted.Any() {
        HandleRemaining();
        if op == Waiting {
          op := Broken(false);
        }
      }
    }

    /** A read of the pipe completes and its bytes are committed. */
    method OnRead(chunk: string)
      requires stage == Running && op == Waiting && chunk != "" && Consistent(View())
      modifies this`stream, this`buffer, this`op
      ensures View() == Step(policy, Step(policy, old(View()), Fetch(chunk)), Commit)
    {
      stream := stream + chunk;
      buffer := buffer + chunk;
      op := if HasLF(buffer) then LineFound else if cancel.recorded.Any() then Broken(false) else Waiting;
    }

    /** From the completion of `async_read_until` to the next suspension, or to the end. */
    method ResumeAfterRead()
      requires stage == Running && Consistent(View()) && (op == LineFound || op.Broken?)
      modifies this
      ensures View() == Step(policy, old(View()), Resume)
    {
      if cancel.recorded.Any() {
        stage := Done(Cancelled);
        return;
      }
      if op == LineFound {
        var n := FirstLF(buffer) + 1;
        lines := lines + [buffer[..n]];
        buffer := buffer[n..];
        op := if HasLF(buffer) then LineFound else Waiting;
        return;
      }
      HandleRemaining();
      stage := Done(if op == Broken(true) then Closed else Threw);
    }
  }

  /** The loop as a whole, for a pipe that delivers `chunks` and then ends, with nobody
      cancelling: whatever the cuts, the lines of the whole stream are handed out. */
  method LogUntilEof(policy: Policy, chunks: seq<string>) returns (lines: seq<string>)
    requires forall i :: 0 <= i < |chunks| ==> chunks[i] != ""
    ensures Stripped(lines) == SplitLines(Concat(chunks)) <==> Concat(chunks) != [LF]
  {
    var log := new LineLogger(policy);
    for k := 0 to |chunks|
      invariant log.policy == policy && log.stage == Running && log.op == Waiting
      invariant Clean(log.View()) && log.stream == Concat(chunks[..k])
    {
      StepKeepsInv(policy, log.View(), Fetch(chunks[k]));
      StepKeepsInv(policy, Step(policy, log.View(), Fetch(chunks[k])), Commit);
      ConcatSnoc(chunks[..k], chunks[k]);
      assert chunks[..k] + [chunks[k]] == chunks[..k + 1];
      log.OnRead(chunks[k]);
      HandleLines(log);
    }
    assert chunks[..|chunks|] == chunks;
    log.op := Broken(true);
    StepKeepsInv(policy, log.View(), Resume);
    log.ResumeAfterRead();
    lines := log.lines;
  }

  /** Resumes the logger until it needs to read again. */
  method HandleLines(log: LineLogger)
    requires log.stage == Running && (log.op == LineFound || log.op == Waiting) && Clean(log.View())
    modifies log
    ensures log.stage == Running && log.op == Waiting && Clean(log.View())
    ensures log.stream == old(log.stream)
  {
    while log.op == LineFound
      invariant log.stage == Running && (log.op == LineFound || log.op == Waiting) && Clean(log.View())
      invariant log.stream == old(log.stream)
      decreases |log.buffer|
    {
      LineHandedOut(log.View());
      log.ResumeAfterRead();
    }
  }
}
