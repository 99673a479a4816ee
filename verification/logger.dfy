/** The line logger: reads a pipe into a buffer, hands out line after line, and flushes the
    buffer from its cancellation handler.

    `async_read_until` is a composed operation: it reads some bytes, commits them to the
    buffer, and goes on until the buffer holds an LF. A read that has completed but whose
    bytes are not committed yet is the state `Fetched`. */
module Logger {
  import opened Cancellation
  import opened Lines

  datatype Op =
    | Waiting                  // a read of the pipe is pending
    | Fetched(chunk: string)   // the read has completed, its bytes are not yet committed
    | LineFound                // completed: the buffer holds a line
    | Broken(eof: bool)        // completed with an error: end of file, or anything else

  datatype End = Closed | Threw | Cancelled

  datatype Stage = Running | Done(end: End)

  /** `lines` is what was handed to the line handler, `stream` what came out of the pipe. */
  datatype Log = Log(stage: Stage, op: Op, buffer: string, lines: seq<string>, cancel: CancelState, stream: string)

  /** Terminal and partial, but not total. */
  const FILTER := Kinds(true, true, false)

  const INIT := Log(Running, Waiting, "", [], Reset(FILTER), "")

  datatype Event =
    | Fetch(chunk: string)
    | Commit
    | PipeEnds(eof: bool)
    | Emit(kinds: Kinds)
    | Resume

  predicate Enabled(s: Log, e: Event) {
    && s.stage.Running?
    && match e
       case Fetch(chunk) => s.op.Waiting? && chunk != ""
       case Commit => s.op.Fetched?
       case PipeEnds(_) => s.op.Waiting?
       case Emit(_) => true
       case Resume => s.op.LineFound? || s.op.Broken?
  }

  /** `async_read_until` looks at the buffer before it reads. */
  function ReadUntil(buffer: string): Op {
    if HasLF(buffer) then LineFound else Waiting
  }

  /** The cancellation handler hands out what is buffered, then cancels a pending read. */
  function OnCancel(policy: Policy, s: Log, kinds: Kinds): Log {
    var t := s.(cancel := s.cancel.Emit(policy, kinds));
    if kinds.And(s.cancel.filter).Any() then
      t.(lines := s.lines + Split(s.buffer), op := if s.op.Waiting? then Broken(false) else s.op)
    else
      t
  }

  function OnCommit(s: Log): Log
    requires s.op.Fetched?
  {
    var buffer := s.buffer + s.op.chunk;
    var next := if !HasLF(buffer) && s.cancel.recorded.Any() then Broken(false) else ReadUntil(buffer);
    s.(buffer := buffer, op := next)
  }

  function OnResume(s: Log): Log
    requires s.op.LineFound? ==> HasLF(s.buffer)
  {
    if s.cancel.recorded.Any() then
      s.(stage := Done(Cancelled))
    else if s.op.LineFound? then
      var n := FirstLF(s.buffer) + 1;
      s.(lines := s.lines + [s.buffer[..n]], buffer := s.buffer[n..], op := ReadUntil(s.buffer[n..]))
    else
      s.(lines := s.lines + Split(s.buffer), stage := Done(if s.op == Broken(true) then Closed else Threw))
  }

  /** The operation says whether the buffer holds a line. */
  predicate Consistent(s: Log) {
    s.op.LineFound? <==> HasLF(s.buffer)
  }

  function Step(policy: Policy, s: Log, e: Event): (t: Log)
    requires Enabled(s, e) && Consistent(s)
    ensures Consistent(t) || t.stage.Done?
  {
    match e
    case Fetch(chunk) => s.(op := Fetched(chunk), stream := s.stream + chunk)
    case Commit => OnCommit(s)
    case PipeEnds(eof) => s.(op := Broken(eof))
    case Emit(kinds) => OnCancel(policy, s, kinds)
    case Resume => OnResume(s)
  }

  ghost predicate CanRun(policy: Policy, s: Log, es: seq<Event>)
    decreases |es|
  {
    es != [] ==>
      && Consistent(s) && Enabled(s, es[0])
      && CanRun(policy, Step(policy, s, es[0]), es[1..])
  }

  ghost function Run(policy: Policy, s: Log, es: seq<Event>): Log
    requires CanRun(policy, s, es)
    decreases |es|
  {
    if es == [] then s else Run(policy, Step(policy, s, es[0]), es[1..])
  }

  // Without cancellation

  function InFlight(op: Op): string {
    if op.Fetched? then op.chunk else ""
  }

  /** The requests the logger reacts to. */
  predicate Heard(kinds: Kinds) {
    kinds.terminal || kinds.partial
  }

  /** The logger reacts to none of the emits in `es`: there is none, or it is total only. */
  ghost predicate Unheard(es: seq<Event>) {
    forall i :: 0 <= i < |es| && es[i].Emit? ==> !Heard(es[i].kinds)
  }

  /** Complete lines were handed out; they and the buffer are the committed stream. */
  ghost predicate Clean(s: Log) {
    && AllLines(s.lines)
    && s.stream == Concat(s.lines) + s.buffer + InFlight(s.op)
    && Consistent(s)
    && (s.op.Fetched? ==> s.op.chunk != "")
    && s.cancel.filter == FILTER
    && !s.cancel.recorded.Any()
  }

  ghost predicate Inv(s: Log) {
    match s.stage
    case Running => Clean(s)
    case Done(end) =>
      && end == (if s.op == Broken(true) then Closed else Threw)
      && (Stripped(s.lines) == SplitLines(s.stream) <==> s.stream != [LF])
  }

  lemma LineHandedOut(s: Log)
    requires Clean(s) && s.op.LineFound?
    ensures Clean(OnResume(s))
  {
    var n := FirstLF(s.buffer) + 1;
    var l := s.buffer[..n];
    assert l[..|l| - 1] == s.buffer[..n - 1];
    assert IsLine(l);
    ConcatSnoc(s.lines, l);
    assert Concat(s.lines) + s.buffer == Concat(s.lines) + l + s.buffer[n..];
  }

  lemma TailHandedOut(s: Log)
    requires Clean(s) && s.op.Broken?
    ensures Inv(OnResume(s))
  {
    assert s.stream == Concat(s.lines) + s.buffer;
    SplitLinesOf(s.lines, s.buffer);
  }

  lemma StepKeepsInv(policy: Policy, s: Log, e: Event)
    requires Clean(s) && s.stage.Running? && Enabled(s, e) && Unheard([e])
    ensures Inv(Step(policy, s, e))
  {
    match e
    case Fetch(chunk) =>
    case Commit =>
      assert Concat(s.lines) + s.buffer + s.op.chunk == Concat(s.lines) + (s.buffer + s.op.chunk);
    case PipeEnds(_) =>
    case Emit(kinds) =>
      assert [e][0] == e;
    case Resume =>
      if s.op.LineFound? { LineHandedOut(s); } else { TailHandedOut(s); }
  }

  lemma {:induction false} RunKeepsInv(policy: Policy, s: Log, es: seq<Event>)
    requires Inv(s) && CanRun(policy, s, es) && Unheard(es)
    ensures Inv(Run(policy, s, es))
    decreases |es|
  {
    if es != [] {
      StepKeepsInv(policy, s, es[0]);
      RunKeepsInv(policy, Step(policy, s, es[0]), es[1..]);
    }
  }

  /** What was read from the pipe in `es`. */
  ghost function BytesRead(es: seq<Event>): string {
    if es == [] then "" else (if es[0].Fetch? then es[0].chunk else "") + BytesRead(es[1..])
  }

  lemma StreamStep(policy: Policy, s: Log, e: Event, es: seq<Event>)
    requires Enabled(s, e) && Consistent(s)
    ensures Step(policy, s, e).stream + BytesRead(es) == s.stream + BytesRead([e] + es)
  {
    assert ([e] + es)[1..] == es;
    if e.Fetch? {
      assert s.stream + e.chunk + BytesRead(es) == s.stream + (e.chunk + BytesRead(es));
    }
  }

  /** In every run, cancelled or not, the stream is what was read. */
  lemma {:induction false} StreamOfRun(policy: Policy, s: Log, es: seq<Event>)
    requires CanRun(policy, s, es)
    ensures Run(policy, s, es).stream == s.stream + BytesRead(es)
    decreases |es|
  {
    if es != [] {
      assert es == [es[0]] + es[1..];
      StreamStep(policy, s, es[0], es[1..]);
      StreamOfRun(policy, Step(policy, s, es[0]), es[1..]);
    }
  }

  /** Without cancellation the read is broken by the end of the pipe and by nothing else. */
  lemma {:induction false} BrokenByPipe(policy: Policy, s: Log, es: seq<Event>, eof: bool)
    requires Inv(s) && CanRun(policy, s, es) && Unheard(es)
    ensures Run(policy, s, es).op == Broken(eof) <==> s.op == Broken(eof) || PipeEnds(eof) in es
    decreases |es|
  {
    if es != [] {
      StepKeepsInv(policy, s, es[0]);
      assert es == [es[0]] + es[1..];
      BrokenByPipe(policy, Step(policy, s, es[0]), es[1..], eof);
    }
  }

  /** For every stream, every way of cutting it into reads and every schedule, a run that is
      not cancelled hands out exactly the lines of all that was read, unless that is a single
      LF: then the logger hands out one empty line and the splitter yields none. It closes its
      end of the pipe if the pipe ended by end of file and throws if it ended by an error. */
  lemma LoggerRefinesSplitter(policy: Policy, es: seq<Event>)
    requires CanRun(policy, INIT, es) && Unheard(es)
    requires Run(policy, INIT, es).stage.Done?
    ensures var t := Run(policy, INIT, es);
            && t.stage.end == (if PipeEnds(true) in es then Closed else Threw)
            && t.stream == BytesRead(es)
            && (Stripped(t.lines) == SplitLines(BytesRead(es)) <==> BytesRead(es) != [LF])
  {
    RunKeepsInv(policy, INIT, es);
    StreamOfRun(policy, INIT, es);
    BrokenByPipe(policy, INIT, es, true);
  }

  lemma {:induction false} FilterStays(policy: Policy, s: Log, es: seq<Event>)
    requires CanRun(policy, s, es)
    ensures Run(policy, s, es).cancel.filter == s.cancel.filter
    decreases |es|
  {
    if es != [] {
      FilterStays(policy, Step(policy, s, es[0]), es[1..]);
    }
  }

  /** In every run, an emit hands out what is buffered and ends a pending read if and only if it
      carries terminal or partial; with total alone, or nothing, it changes neither the lines
      nor the buffer nor the operation. */
  lemma EmitFlushesExactlyWhen(policy: Policy, es: seq<Event>, kinds: Kinds)
    requires CanRun(policy, INIT, es) && Run(policy, INIT, es).stage.Running? && Consistent(Run(policy, INIT, es))
    ensures var s := Run(policy, INIT, es);
            var t := Step(policy, s, Emit(kinds));
            && t.buffer == s.buffer
            && (if kinds.terminal || kinds.partial then
                  && t.lines == s.lines + Split(s.buffer)
                  && t.op == (if s.op.Waiting? then Broken(false) else s.op)
                else
                  t.lines == s.lines && t.op == s.op)
  {
    FilterStays(policy, INIT, es);
  }

  // With cancellation

  /** Nothing that could undo a recorded request: under accumulation only filtered emits, and
      no emits at all under last-wins. */
  ghost predicate Quiet(policy: Policy, es: seq<Event>) {
    Unheard(es) && (policy.LastWins? ==> forall i :: 0 <= i < |es| ==> !es[i].Emit?)
  }

  /** After the flush: the request is recorded and no further read is started. `t` hands out
      nothing that `s` had not handed out. */
  ghost predicate Flushed(s: Log, t: Log) {
    && t.cancel.filter == FILTER && t.cancel.recorded.Any()
    && Consistent(t)
    && !t.op.Waiting?
    && t.lines == s.lines
    && t.stream == s.stream
    && t.buffer + InFlight(t.op) == s.buffer + InFlight(s.op)
    && t.stage in {Running, Done(Cancelled)}
    && (t.stage.Done? ==> !t.op.Fetched?)
  }

  lemma {:induction false} FlushIsFinal(policy: Policy, s: Log, t: Log, es: seq<Event>)
    requires Flushed(s, t) && CanRun(policy, t, es) && Quiet(policy, es)
    ensures Flushed(s, Run(policy, t, es))
    decreases |es|
  {
    if es != [] {
      var u := Step(policy, t, es[0]);
      assert es[0].Commit? ==> t.buffer + t.op.chunk == s.buffer + InFlight(s.op);
      assert Flushed(s, u);
      assert forall i :: 0 <= i < |es[1..]| ==> es[1..][i] == es[i + 1];
      FlushIsFinal(policy, s, u, es[1..]);
    }
  }

  /** The bytes committed to the buffer so far. */
  ghost function Committed(s: Log): string
    requires |InFlight(s.op)| <= |s.stream|
  {
    s.stream[..|s.stream| - |InFlight(s.op)|]
  }

  /** What the handler hands out, rejoined with what was handed out before. */
  lemma FlushHandsOutCommitted(policy: Policy, s: Log, kinds: Kinds)
    requires Clean(s) && s.stage.Running? && Heard(kinds)
    ensures var t := OnCancel(policy, s, kinds);
            && Flushed(t, t)
            && |InFlight(s.op)| <= |s.stream|
            && (s.buffer != "" ==> Join(Stripped(t.lines)) == Committed(s))
            && (s.buffer == "" && s.lines != [] ==> Join(Stripped(t.lines)) + [LF] == Committed(s))
            && (s.buffer == "" && s.lines == [] ==> t.lines == [] && Committed(s) == "")
  {
    assert Committed(s) == Concat(s.lines) + s.buffer;
    JoinOf(s.lines, s.buffer);
  }

  /** A run in which nothing is cancelled before `s`, a request is accepted in `s` at any
      suspension and in any race, and nothing undoes it until `t`. */
  ghost predicate CancelledOnce(policy: Policy, before: seq<Event>, s: Log, kinds: Kinds, after: seq<Event>, t: Log) {
    && CanRun(policy, INIT, before) && Unheard(before) && s == Run(policy, INIT, before)
    && s.stage.Running? && Consistent(s) && Heard(kinds)
    && CanRun(policy, OnCancel(policy, s, kinds), after) && Quiet(policy, after)
    && t == Run(policy, OnCancel(policy, s, kinds), after)
  }

  lemma CancelledRun(policy: Policy, before: seq<Event>, s: Log, kinds: Kinds, after: seq<Event>, t: Log)
    requires CancelledOnce(policy, before, s, kinds, after, t)
    ensures Clean(s) && Flushed(OnCancel(policy, s, kinds), t)
  {
    RunKeepsInv(policy, INIT, before);
    FlushHandsOutCommitted(policy, s, kinds);
    FlushIsFinal(policy, OnCancel(policy, s, kinds), OnCancel(policy, s, kinds), after);
  }

  /** In every such run what was handed out in all, rejoined with LF, is exactly what was
      committed when the request was made, less a trailing LF if the flush found the buffer
      empty. Nothing is handed out after the flush, and the logger ends by reporting the
      cancellation. */
  lemma CancellationFlushesExactly(policy: Policy, before: seq<Event>, s: Log, kinds: Kinds, after: seq<Event>, t: Log)
    requires CancelledOnce(policy, before, s, kinds, after, t)
    ensures |InFlight(s.op)| <= |s.stream|
    ensures s.buffer != "" ==> Join(Stripped(t.lines)) == Committed(s)
    ensures s.buffer == "" && s.lines != [] ==> Join(Stripped(t.lines)) + [LF] == Committed(s)
    ensures s.buffer == "" && s.lines == [] ==> t.lines == [] && Committed(s) == ""
    ensures t.stage in {Running, Done(Cancelled)}
  {
    CancelledRun(policy, before, s, kinds, after, t);
    FlushHandsOutCommitted(policy, s, kinds);
  }

  /** What was handed out in all, rejoined. A flush that finds the buffer empty after a line adds
      no empty piece, so the LF that ended the line is put back. */
  ghost function HandedOut(s: Log, t: Log): string {
    if s.buffer == "" && s.lines != [] then Join(Stripped(t.lines)) + [LF] else Join(Stripped(t.lines))
  }

  /** In the same runs, everything that left the pipe has been handed out if and only if no read
      had completed without being committed at the time of the request; otherwise exactly the
      bytes of that read are missing, at the end. */
  lemma NothingIsLostExactlyWhen(policy: Policy, before: seq<Event>, s: Log, kinds: Kinds, after: seq<Event>, t: Log)
    requires CancelledOnce(policy, before, s, kinds, after, t) && t.stage.Done?
    ensures HandedOut(s, t) + InFlight(s.op) == t.stream
    ensures HandedOut(s, t) == t.stream <==> !s.op.Fetched?
  {
    CancelledRun(policy, before, s, kinds, after, t);
    CancellationFlushesExactly(policy, before, s, kinds, after, t);
    assert HandedOut(s, t) == Committed(s);
    assert s.stream == Committed(s) + InFlight(s.op);
  }

  /** A read that had completed but was not committed when the request came is lost: its bytes
      leave the pipe and are never handed out. */
  lemma FetchedBytesAreLost(policy: Policy)
    ensures var es := [Fetch("a"), Emit(TERMINAL), Commit, Resume];
            && CanRun(policy, INIT, es)
            && Run(policy, INIT, es).stage == Done(Cancelled)
            && Run(policy, INIT, es).stream == "a"
            && Run(policy, INIT, es).lines == []
  {
    var es := [Fetch("a"), Emit(TERMINAL), Commit, Resume];
    assert es[1..] == [Emit(TERMINAL), Commit, Resume];
    assert es[1..][1..] == [Commit, Resume] && [Commit, Resume][1..] == [Resume] && [Resume][1..] == [];
    var s1 := Step(policy, INIT, es[0]);
    var s2 := Step(policy, s1, es[1]);
    var s3 := Step(policy, s2, es[2]);
    var s4 := Step(policy, s3, es[3]);
    assert s3.buffer == "a" && !HasLF("a");
    assert CanRun(policy, s4, []) && CanRun(policy, s3, [Resume]) && CanRun(policy, s2, [Commit, Resume]);
    assert CanRun(policy, s1, es[1..]);
    assert Run(policy, s3, [Resume]) == s4 && Run(policy, s2, [Commit, Resume]) == s4;
  }

  // Several requests

  /** `es` stays within one suspension of the logger. */
  ghost predicate OneSuspension(es: seq<Event>) {
    forall i :: 0 <= i < |es| ==> !es[i].Resume?
  }

  /** Nothing but the first `flushed` lines was handed out, and the request is remembered. */
  predicate HandedOutOnce(t: Log, flushed: seq<string>) {
    t.lines == flushed && t.cancel.recorded.Any()
  }

  /** A logger that has handed out at least `flushed`, with bytes in its buffer. */
  ghost predicate AfterFlush(t: Log, flushed: seq<string>) {
    && t.stage.Running? && Consistent(t)
    && t.cancel.filter == FILTER
    && t.buffer != ""
    && flushed <= t.lines
  }

  lemma StepAfterFlush(policy: Policy, t: Log, e: Event, flushed: seq<string>)
    requires AfterFlush(t, flushed) && Enabled(t, e) && !e.Resume?
    ensures AfterFlush(Step(policy, t, e), flushed)
    ensures HandedOutOnce(Step(policy, t, e), flushed) <==> HandedOutOnce(t, flushed) && Quiet(policy, [e])
  {
    assert [e][0] == e;
    assert |Split(t.buffer)| > 0;
  }

  lemma {:induction false} RestOfSuspension(policy: Policy, t: Log, es: seq<Event>, flushed: seq<string>)
    requires AfterFlush(t, flushed) && CanRun(policy, t, es) && OneSuspension(es)
    ensures AfterFlush(Run(policy, t, es), flushed)
    ensures HandedOutOnce(Run(policy, t, es), flushed) <==> HandedOutOnce(t, flushed) && Quiet(policy, es)
    decreases |es|
  {
    if es != [] {
      assert !es[0].Resume?;
      StepAfterFlush(policy, t, es[0], flushed);
      assert forall i :: 0 <= i < |es[1..]| ==> es[1..][i] == es[i + 1];
      RestOfSuspension(policy, Step(policy, t, es[0]), es[1..], flushed);
      assert [es[0]][0] == es[0] && es == [es[0]] + es[1..];
    }
  }

  lemma ResumeAfterFlush(policy: Policy, t: Log, flushed: seq<string>)
    requires AfterFlush(t, flushed) && Enabled(t, Resume)
    ensures var u := Step(policy, t, Resume);
            && flushed <= u.lines
            && (HandedOutOnce(t, flushed) ==> u.lines == flushed && u.stage == Done(Cancelled))
            && (!HandedOutOnce(t, flushed) ==> u.lines != flushed)
  {
    assert |Split(t.buffer)| > 0;
  }

  /** Nothing that was handed out is taken back. */
  lemma {:induction false} LinesGrow(policy: Policy, s: Log, es: seq<Event>)
    requires CanRun(policy, s, es)
    ensures s.lines <= Run(policy, s, es).lines
    decreases |es|
  {
    if es != [] {
      LinesGrow(policy, Step(policy, s, es[0]), es[1..]);
    }
  }

  /** A run with an accepted request in `s`, while `s` has something buffered, then the other
      events of the suspension, the resume that ends it, and any continuation up to `t`. */
  ghost predicate Flushes(
    policy: Policy, before: seq<Event>, s: Log, kinds: Kinds, same: seq<Event>, rest: seq<Event>, t: Log)
  {
    && CanRun(policy, INIT, before) && Unheard(before) && s == Run(policy, INIT, before)
    && s.stage.Running? && Consistent(s) && s.buffer != "" && Heard(kinds)
    && var u := OnCancel(policy, s, kinds);
       && CanRun(policy, u, same) && OneSuspension(same)
       && var v := Run(policy, u, same);
          && Consistent(v) && Enabled(v, Resume)
          && CanRun(policy, Step(policy, v, Resume), rest)
          && t == Run(policy, Step(policy, v, Resume), rest)
  }

  /** In all such runs what is buffered at the request is handed out once, and nothing else ever
      again, if and only if the rest of the suspension is quiet: no other request is accepted in
      it, and under last-wins nothing is emitted at all. Another accepted request flushes the
      buffer again at once. Under last-wins an emit that is not accepted makes the logger forget
      the request, so that after the resume it hands the buffer out again as if it had not been
      cancelled. */
  lemma HandedOutOnceExactlyWhen(
    policy: Policy, before: seq<Event>, s: Log, kinds: Kinds, same: seq<Event>, rest: seq<Event>, t: Log)
    requires Flushes(policy, before, s, kinds, same, rest, t)
    ensures s.lines + Split(s.buffer) <= t.lines
    ensures t.lines == s.lines + Split(s.buffer) <==> Quiet(policy, same)
  {
    RunKeepsInv(policy, INIT, before);
    var flushed := s.lines + Split(s.buffer);
    var u := OnCancel(policy, s, kinds);
    RestOfSuspension(policy, u, same, flushed);
    var v := Run(policy, u, same);
    ResumeAfterFlush(policy, v, flushed);
    LinesGrow(policy, Step(policy, v, Resume), rest);
    assert HandedOutOnce(v, flushed) ==> rest == [];
  }

  lemma Prepend(policy: Policy, s: Log, e: Event, es: seq<Event>)
    requires Consistent(s) && Enabled(s, e) && CanRun(policy, Step(policy, s, e), es)
    ensures CanRun(policy, s, [e] + es) && Run(policy, s, [e] + es) == Run(policy, Step(policy, s, e), es)
  {
    assert ([e] + es)[1..] == es;
  }

  /** A run in which the second request is not even accepted: the logger forgets the first one,
      hands the buffer out again and ends with a read error. */
  lemma LastWinsFlushesTwice()
    ensures var es := [Fetch("a")] + ([Commit] + ([Emit(TERMINAL)] + ([Emit(TOTAL)] + ([Resume] + []))));
            && CanRun(LastWins, INIT, es)
            && Run(LastWins, INIT, es).stream == "a"
            && Run(LastWins, INIT, es).lines == ["a", "a"]
            && Run(LastWins, INIT, es).stage == Done(Threw)
  {
    assert !HasLF("") && !HasLF("a") && Split("a") == ["a"];
    var s1 := Step(LastWins, INIT, Fetch("a"));
    var s2 := Step(LastWins, s1, Commit);
    assert s2 == Log(Running, Waiting, "a", [], Reset(FILTER), "a");
    var s3 := Step(LastWins, s2, Emit(TERMINAL));
    var s4 := Step(LastWins, s3, Emit(TOTAL));
    assert s4.lines == ["a"] && s4.op == Broken(false) && !s4.cancel.recorded.Any();
    Prepend(LastWins, s4, Resume, []);
    Prepend(LastWins, s3, Emit(TOTAL), [Resume] + []);
    Prepend(LastWins, s2, Emit(TERMINAL), [Emit(TOTAL)] + ([Resume] + []));
    Prepend(LastWins, s1, Commit, [Emit(TERMINAL)] + ([Emit(TOTAL)] + ([Resume] + [])));
    Prepend(LastWins, INIT, Fetch("a"), [Commit] + ([Emit(TERMINAL)] + ([Emit(TOTAL)] + ([Resume] + []))));
  }
}
