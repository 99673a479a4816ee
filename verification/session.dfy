/** One echo session: the echo loop, the decision taken when it ends, and the goodbye.

    A session is a value that moves from suspension point to suspension point. An event is
    the completion of the operation the session is suspended in, with any result the
    operation may have, or an emit on the session's cancellation signal. A completion may
    succeed although a cancellation was recorded before: that is the cancellation race. */
module EchoSession {
  import opened Cancellation

  type Bytes = seq<char>

  const GOODBYE: Bytes := "goodbye\n"

  /** The error the echo loop ended with; the loop has no other way to end. */
  datatype Ending = Eof | Aborted | Failed

  datatype Stage =
    | Reading                    // echo is suspended in async_read_some
    | Writing(rest: Bytes)       // echo is suspended in async_write, `rest` not yet written
    | Ended(ending: Ending)      // echo has thrown, the session is about to be resumed
    | Farewell(rest: Bytes)      // shutdown is suspended in async_write of the goodbye
    | Sleeping                   // shutdown is suspended in sleep
    | Finished(graceful: bool)   // the completion handler of the session is posted

  datatype Event =
    | ReadSome(bytes: Bytes)
    | ReadFails(ending: Ending)
    | WriteSome(n: nat)
    | WriteFails(ending: Ending)
    | ResumeAfterEcho
    | SleepEnds(completed: bool)
    | EmitToSession(kinds: Kinds)

  /** `input` is everything read from the client, `output` everything sent to it; `echoed`
      counts the bytes the echo loop wrote. `stopped` says that the cancellation state of the
      echo coroutine, which is spawned and has one of its own, has recorded a request. */
  datatype Session = Session(
    stage: Stage, cancel: CancelState, stopped: bool, input: Bytes, output: Bytes, echoed: nat)
  {
    /** The echo loop has not been left behind: no decision about the goodbye was taken. */
    predicate Echoing() {
      stage.Reading? || stage.Writing? || stage.Ended?
    }
  }

  /** `co_spawn` runs the session up to its first suspension, inside `async_read_some`. */
  const FRESH := Session(Reading, Reset(ENABLE_TOTAL), false, [], [], 0)

  predicate Enabled(s: Session, e: Event) {
    match e
    case ReadSome(bytes) => s.stage.Reading? && bytes != []
    case ReadFails(_) => s.stage.Reading?
    case WriteSome(n) => (s.stage.Writing? || s.stage.Farewell?) && 0 < n <= |s.stage.rest|
    case WriteFails(ending) => (s.stage.Writing? || s.stage.Farewell?) && ending != Eof
    case ResumeAfterEcho => s.stage.Ended?
    case SleepEnds(_) => s.stage.Sleeping?
    case EmitToSession(_) => true
  }

  /** The echo coroutine throws on its next operation once it has recorded a cancellation. */
  function NextInEcho(s: Session, next: Stage): Session {
    if s.stopped then s.(stage := Ended(Aborted)) else s.(stage := next)
  }

  /** The emit is recorded unless the coroutine is gone. What the session's filter lets pass is
      passed on to the echo coroutine, if anything is left of it, and accepted there. */
  function Notify(policy: Policy, s: Session, kinds: Kinds): Session {
    if s.stage.Finished? then s
    else
      s.(cancel := s.cancel.Emit(policy, kinds),
         stopped := s.stopped || (s.Echoing() && kinds.And(s.cancel.filter).Any()))
  }

  /** What `session` does once the echo loop has thrown. */
  function Decide(s: Session): Session
    requires s.stage.Ended?
  {
    if s.stage.ending != Eof && !s.cancel.recorded.Any() then
      s.(stage := Finished(false))
    else if s.cancel.recorded.terminal then
      s.(stage := Finished(false))
    else
      s.(stage := Farewell(GOODBYE), cancel := Reset(ENABLE_TERMINAL))
  }

  function Step(policy: Policy, s: Session, e: Event): Session
    requires Enabled(s, e)
  {
    match e
    case ReadSome(bytes) => NextInEcho(s.(input := s.input + bytes), Writing(bytes))
    case ReadFails(ending) => s.(stage := Ended(ending))
    case WriteSome(n) =>
      var sent, rest := s.stage.rest[..n], s.stage.rest[n..];
      var t := s.(output := s.output + sent);
      if s.stage.Writing? then
        var u := t.(echoed := s.echoed + n);
        if rest == [] then NextInEcho(u, Reading) else u.(stage := Writing(rest))
      else if rest == [] then
        // `sleep` is awaited by the same coroutine, so its reset acts on the same state.
        t.(stage := Sleeping, cancel := Reset(ENABLE_TOTAL))
      else
        t.(stage := Farewell(rest))
    case WriteFails(ending) =>
      if s.stage.Writing? then s.(stage := Ended(ending)) else s.(stage := Finished(false))
    case ResumeAfterEcho => Decide(s)
    case SleepEnds(completed) => s.(stage := Finished(completed))
    case EmitToSession(kinds) => Notify(policy, s, kinds)
  }

  // Runs

  ghost predicate CanRun(policy: Policy, s: Session, es: seq<Event>)
    decreases |es|
  {
    es != [] ==> Enabled(s, es[0]) && CanRun(policy, Step(policy, s, es[0]), es[1..])
  }

  ghost function Run(policy: Policy, s: Session, es: seq<Event>): Session
    requires CanRun(policy, s, es)
    decreases |es|
  {
    if es == [] then s else Run(policy, Step(policy, s, es[0]), es[1..])
  }

  // Output

  /** The client was sent the first `echoed` bytes it sent, then the first `g` bytes of the
      goodbye. */
  ghost predicate Sent(s: Session, g: int) {
    && 0 <= g <= |GOODBYE|
    && s.echoed <= |s.input|
    && s.output == s.input[..s.echoed] + GOODBYE[..g]
  }

  /** How many bytes of the goodbye were sent. */
  ghost function Said(s: Session): int {
    |s.output| - s.echoed
  }

  ghost predicate Inv(policy: Policy, s: Session) {
    && (!s.stage.Finished? ==> s.cancel.Faithful(policy))
    && (s.Echoing() ==> s.cancel.filter == ENABLE_TOTAL && (s.cancel.recorded.Any() ==> s.stopped))
    && (s.Echoing() && policy.Accumulate? ==> (s.stopped <==> s.cancel.recorded.Any()))
    && (s.stage.Farewell? ==> s.cancel.filter == ENABLE_TERMINAL)
    && (s.stage.Sleeping? ==> s.cancel.filter == ENABLE_TOTAL)
    && Sent(s, Said(s))
    && match s.stage
       case Reading => Said(s) == 0 && s.output == s.input
       case Writing(rest) => Said(s) == 0 && rest != [] && s.output + rest == s.input
       case Ended(_) => Said(s) == 0
       case Farewell(rest) => rest != [] && GOODBYE[..Said(s)] + rest == GOODBYE
       case Sleeping => Said(s) == |GOODBYE|
       case Finished(graceful) => graceful ==> Said(s) == |GOODBYE|
  }

  /** Sending `n` more bytes of a text of which `said` was sent and `rest` is left. */
  lemma SendMore(text: Bytes, said: Bytes, rest: Bytes, n: nat)
    requires n <= |rest| && said + rest == text
    ensures said + rest[..n] == text[..|said| + n]
    ensures text[..|said| + n] + rest[n..] == text
    ensures n == |rest| ==> text[..|said| + n] == text
  {
    assert rest[..n] + rest[n..] == rest;
  }

  lemma EchoWriteKeepsInv(policy: Policy, s: Session, n: nat)
    requires Inv(policy, s) && Enabled(s, WriteSome(n)) && s.stage.Writing?
    ensures Inv(policy, Step(policy, s, WriteSome(n)))
  {
    SendMore(s.input, s.output, s.stage.rest, n);
  }

  lemma SayMore(echo: Bytes, text: Bytes, g: nat, rest: Bytes, n: nat)
    requires g <= |text| && n <= |rest| && text[..g] + rest == text
    ensures g + |rest| == |text|
    ensures echo + text[..g] + rest[..n] == echo + text[..g + n]
    ensures text[..g + n] + rest[n..] == text
    ensures |echo + text[..g + n]| == |echo| + g + n
  {
    assert |text[..g] + rest| == g + |rest|;
    SendMore(text, text[..g], rest, n);
    assert echo + text[..g] + rest[..n] == echo + (text[..g] + rest[..n]);
  }

  lemma FarewellWriteKeepsInv(policy: Policy, s: Session, n: nat)
    requires Inv(policy, s) && Enabled(s, WriteSome(n)) && s.stage.Farewell?
    ensures Inv(policy, Step(policy, s, WriteSome(n)))
  {
    var text := GOODBYE;
    SayMore(s.input[..s.echoed], text, Said(s), s.stage.rest, n);
  }

  lemma StepKeepsInv(policy: Policy, s: Session, e: Event)
    requires Inv(policy, s) && Enabled(s, e)
    ensures Inv(policy, Step(policy, s, e))
  {
    match e
    case EmitToSession(kinds) =>
      if !s.stage.Finished? { EmitIsFaithful(policy, s.cancel, kinds); }
    case WriteSome(n) =>
      if s.stage.Writing? { EchoWriteKeepsInv(policy, s, n); } else { FarewellWriteKeepsInv(policy, s, n); }
    case _ =>
  }

  lemma {:induction false} RunKeepsInv(policy: Policy, s: Session, es: seq<Event>)
    requires Inv(policy, s) && CanRun(policy, s, es)
    ensures Inv(policy, Run(policy, s, es))
    decreases |es|
  {
    if es != [] {
      StepKeepsInv(policy, s, es[0]);
      RunKeepsInv(policy, Step(policy, s, es[0]), es[1..]);
    }
  }

  /** In every run the client receives a prefix of what it sent, followed by a prefix of the
      goodbye; a session that shuts down gracefully has sent all of the goodbye. */
  lemma OutputShape(policy: Policy, es: seq<Event>)
    requires CanRun(policy, FRESH, es)
    ensures var s := Run(policy, FRESH, es);
            && s.input == BytesRead(es) && |s.output| == BytesWritten(es)
            && s.echoed <= |s.input| && s.echoed <= |s.output|
            && s.output[..s.echoed] == s.input[..s.echoed]
            && s.output[s.echoed..] <= "goodbye\n"
            && (s.stage == Finished(true) ==> s.output[s.echoed..] == "goodbye\n")
  {
    RunKeepsInv(policy, FRESH, es);
    BytesOfRun(policy, FRESH, es);
  }

  // A request ends the echo loop

  /** At most `bound` bytes are ever echoed. */
  ghost predicate Stopping(s: Session, bound: nat) {
    && s.echoed <= bound
    && (s.stage.Reading? || s.stage.Writing? ==> s.stopped && |s.input| <= bound)
  }

  /** Once the echo loop knows of a request it ends with the operation it is suspended in:
      nothing that is read after the request is ever echoed, also if the read had completed
      already, while a chunk that is being written may still be finished. */
  lemma {:induction false} RequestStopsEcho(policy: Policy, s: Session, bound: nat, es: seq<Event>)
    requires Inv(policy, s) && Stopping(s, bound) && CanRun(policy, s, es)
    ensures Stopping(Run(policy, s, es), bound)
    decreases |es|
  {
    if es != [] {
      StepKeepsInv(policy, s, es[0]);
      RequestStopsEcho(policy, Step(policy, s, es[0]), bound, es[1..]);
    }
  }

  /** In particular from the moment of the request on. */
  lemma NothingReadLaterIsEchoed(policy: Policy, s: Session, kinds: Kinds, es: seq<Event>)
    requires Inv(policy, s) && s.Echoing() && kinds.Any()
    requires CanRun(policy, Notify(policy, s, kinds), es)
    ensures Run(policy, Notify(policy, s, kinds), es).echoed <= |s.input|
  {
    StepKeepsInv(policy, s, EmitToSession(kinds));
    RequestStopsEcho(policy, Notify(policy, s, kinds), |s.input|, es);
  }

  // Goodbye

  /** Whether the goodbye starts is decided by the emits since the session began: under
      accumulation it starts exactly when the loop ended by EOF or some cancellation was
      requested, and no request was terminal. */
  lemma GoodbyeStartsExactlyWhen(s: Session, e: Event)
    requires Inv(Accumulate, s) && Enabled(s, e) && !s.stage.Farewell?
    ensures Step(Accumulate, s, e).stage.Farewell? <==>
              && e.ResumeAfterEcho?
              && (s.stage.ending == Eof || exists i :: 0 <= i < |s.cancel.emits| && s.cancel.emits[i].Any())
              && (forall i :: 0 <= i < |s.cancel.emits| ==> !s.cancel.emits[i].terminal)
  {
    if e.ResumeAfterEcho? {
      AccumulateRecordsTheUnion(s.cancel.filter, s.cancel.emits);
    }
  }

  /** Under last-wins the last emit alone decides. */
  lemma GoodbyeUnderLastWins(s: Session)
    requires Inv(LastWins, s) && s.stage.Ended?
    ensures var last := if s.cancel.emits == [] then NONE else s.cancel.emits[|s.cancel.emits| - 1];
            Step(LastWins, s, ResumeAfterEcho).stage.Farewell? <==>
              (s.stage.ending == Eof || last.Any()) && !last.terminal
  {
  }

  // The whole life of a session, in terms of what happens to it

  /** The types emitted to the session in `es`. */
  ghost function Emits(es: seq<Event>): seq<Kinds> {
    if es == [] then [] else (if es[0].EmitToSession? then [es[0].kinds] else []) + Emits(es[1..])
  }

  predicate IsRequest(e: Event) {
    e.EmitToSession? && e.kinds.Any()
  }

  predicate IsTerminal(e: Event) {
    e.EmitToSession? && e.kinds.terminal
  }

  predicate IsFailure(e: Event) {
    e.ReadFails? || e.WriteFails?
  }

  /** Some event of `es` is a request, a terminal one, or a failing operation. */
  ghost predicate Some(p: Event -> bool, es: seq<Event>) {
    es != [] && (p(es[0]) || Some(p, es[1..]))
  }

  lemma EchoStep(policy: Policy, s: Session, e: Event)
    requires Inv(policy, s) && s.Echoing() && Enabled(s, e) && !e.ResumeAfterEcho?
    ensures var t := Step(policy, s, e);
            && t.Echoing()
            && t.cancel.emits == s.cancel.emits + Emits([e])
            && (t.stopped <==> s.stopped || IsRequest(e))
            && (t.stage == Ended(Eof) <==> s.stage == Ended(Eof) || e == ReadFails(Eof))
            && (s.stage.Ended? || IsFailure(e) ==> t.stage.Ended?)
            && (!s.stage.Ended? && !IsFailure(e) && !t.stopped ==> !t.stage.Ended?)
  {
    assert [e][1..] == [];
  }

  lemma EmitsCons(e: Event, es: seq<Event>)
    ensures Emits([e] + es) == Emits([e]) + Emits(es)
  {
    assert ([e] + es)[1..] == es && [e][1..] == [];
  }

  lemma Associate(a: seq<Kinds>, b: seq<Kinds>, c: seq<Kinds>)
    ensures (a + b) + c == a + (b + c)
  {
  }

  lemma {:induction false} EmitsOfEcho(policy: Policy, s: Session, es: seq<Event>)
    requires Inv(policy, s) && s.Echoing() && CanRun(policy, s, es) && ResumeAfterEcho !in es
    ensures Run(policy, s, es).cancel.emits == s.cancel.emits + Emits(es)
    decreases |es|
  {
    if es != [] {
      var t := Step(policy, s, es[0]);
      StepKeepsInv(policy, s, es[0]);
      EchoStep(policy, s, es[0]);
      assert es == [es[0]] + es[1..];
      EmitsOfEcho(policy, t, es[1..]);
      EmitsCons(es[0], es[1..]);
      Associate(s.cancel.emits, Emits([es[0]]), Emits(es[1..]));
    }
  }

  /** The echo loop, until the session decides: whatever fails, the session itself goes on to its
      decision. The loop has ended if an operation failed, and it goes on if none failed and no
      request was made. */
  lemma {:induction false} EchoHistory(policy: Policy, s: Session, es: seq<Event>)
    requires Inv(policy, s) && s.Echoing() && CanRun(policy, s, es) && ResumeAfterEcho !in es
    ensures var t := Run(policy, s, es);
            && Inv(policy, t) && t.Echoing()
            && (t.stopped <==> s.stopped || Some(IsRequest, es))
            && (t.stage == Ended(Eof) <==> s.stage == Ended(Eof) || ReadFails(Eof) in es)
            && (s.stage.Ended? || Some(IsFailure, es) ==> t.stage.Ended?)
            && (!s.stage.Ended? && !Some(IsFailure, es) && !t.stopped ==> !t.stage.Ended?)
    decreases |es|
  {
    if es != [] {
      StepKeepsInv(policy, s, es[0]);
      EchoStep(policy, s, es[0]);
      assert es == [es[0]] + es[1..];
      EchoHistory(policy, Step(policy, s, es[0]), es[1..]);
    }
  }

  /** Is the goodbye said, if the session decides after `es`? */
  ghost predicate SaysGoodbye(policy: Policy, es: seq<Event>) {
    var recorded := Recorded(policy, Kinds(true, true, true), Emits(es));
    (ReadFails(Eof) in es || recorded.Any()) && !recorded.terminal
  }

  lemma DecisionOfState(policy: Policy, s: Session, es: seq<Event>)
    requires Inv(policy, s) && s.stage.Ended? && s.cancel.emits == Emits(es)
    requires s.stage.ending == Eof <==> ReadFails(Eof) in es
    ensures Decide(s).stage == if SaysGoodbye(policy, es) then Farewell("goodbye\n") else Finished(false)
  {
  }

  lemma HistoryOfFresh(policy: Policy, s: Session, es: seq<Event>)
    requires Inv(policy, s) && s.stage.Reading? && s.cancel.emits == []
    requires CanRun(policy, s, es) && ResumeAfterEcho !in es
    ensures var t := Run(policy, s, es);
            Inv(policy, t) && t.cancel.emits == Emits(es) && (t.stage == Ended(Eof) <==> ReadFails(Eof) in es)
  {
    EchoHistory(policy, s, es);
    EmitsOfEcho(policy, s, es);
    assert [] + Emits(es) == Emits(es);
  }

  /** Every run that reaches the decision: the goodbye starts if and only if the client had shut
      down or a request is recorded, and terminal is not. Otherwise the session ends. */
  lemma DecisionOfRun(policy: Policy, es: seq<Event>)
    requires CanRun(policy, FRESH, es) && ResumeAfterEcho !in es
    requires Run(policy, FRESH, es).stage.Ended?
    ensures Step(policy, Run(policy, FRESH, es), ResumeAfterEcho).stage
         == if SaysGoodbye(policy, es) then Farewell("goodbye\n") else Finished(false)
  {
    HistoryOfFresh(policy, FRESH, es);
    DecisionOfState(policy, Run(policy, FRESH, es), es);
  }

  lemma AnyCons(k: Kinds, rest: seq<Kinds>)
    ensures var all := [k] + rest;
            && ((exists i :: 0 <= i < |all| && all[i].Any()) <==> k.Any() || exists i :: 0 <= i < |rest| && rest[i].Any())
            && ((exists i :: 0 <= i < |all| && all[i].terminal) <==>
                  k.terminal || exists i :: 0 <= i < |rest| && rest[i].terminal)
  {
    var all := [k] + rest;
    assert all[0] == k && forall i :: 0 <= i < |rest| ==> all[i + 1] == rest[i];
    assert forall i :: 0 < i < |all| ==> all[i] == rest[i - 1];
  }

  lemma {:induction false} EmitsAre(es: seq<Event>)
    ensures (exists i :: 0 <= i < |Emits(es)| && Emits(es)[i].Any()) <==> Some(IsRequest, es)
    ensures (exists i :: 0 <= i < |Emits(es)| && Emits(es)[i].terminal) <==> Some(IsTerminal, es)
  {
    if es != [] {
      EmitsAre(es[1..]);
      if es[0].EmitToSession? {
        AnyCons(es[0].kinds, Emits(es[1..]));
        assert Emits(es) == [es[0].kinds] + Emits(es[1..]);
      } else {
        assert Emits(es) == Emits(es[1..]);
      }
    }
  }

  /** Under accumulation: without the goodbye ends exactly the session that was sent a terminal
      request while it was echoing, or that had neither end of file nor any request. */
  lemma SaysGoodbyeExactlyWhen(es: seq<Event>)
    ensures SaysGoodbye(Accumulate, es) <==> (ReadFails(Eof) in es || Some(IsRequest, es)) && !Some(IsTerminal, es)
  {
    AccumulateRecordsTheUnion(Kinds(true, true, true), Emits(es));
    EmitsAre(es);
  }

  /** After the decision: a session that says goodbye ends by the end of its sleep, gracefully
      if the sleep was not aborted, or by a failing write. */
  lemma {:induction false} FarewellHistory(policy: Policy, s: Session, es: seq<Event>)
    requires CanRun(policy, s, es) && (s.stage.Farewell? || s.stage.Sleeping?)
    ensures var t := Run(policy, s, es);
            && !t.Echoing()
            && (t.stage == Finished(true) <==> SleepEnds(true) in es)
            && (t.stage == Finished(false) <==> SleepEnds(false) in es || Some(IsFailure, es))
    decreases |es|
  {
    if es != [] {
      var t := Step(policy, s, es[0]);
      assert es == [es[0]] + es[1..];
      if t.stage.Finished? {
        FinishedStays(policy, t, es[1..]);
      } else {
        FarewellHistory(policy, t, es[1..]);
      }
    }
  }

  lemma {:induction false} FinishedStays(policy: Policy, s: Session, es: seq<Event>)
    requires CanRun(policy, s, es) && s.stage.Finished?
    ensures Run(policy, s, es) == s
    ensures SleepEnds(true) !in es && SleepEnds(false) !in es && !Some(IsFailure, es)
    decreases |es|
  {
    if es != [] {
      assert es == [es[0]] + es[1..];
      FinishedStays(policy, Step(policy, s, es[0]), es[1..]);
    }
  }

  lemma {:induction false} RunOfConcat(policy: Policy, s: Session, a: seq<Event>, b: seq<Event>)
    requires CanRun(policy, s, a + b)
    ensures CanRun(policy, s, a) && CanRun(policy, Run(policy, s, a), b)
    ensures Run(policy, s, a + b) == Run(policy, Run(policy, s, a), b)
    decreases |a|
  {
    if a == [] {
      assert a + b == b;
    } else {
      assert (a + b)[1..] == a[1..] + b;
      RunOfConcat(policy, Step(policy, s, a[0]), a[1..], b);
    }
  }

  /** How a session ends, from the events alone. Before its decision it is echoing, whatever
      failed. It decides once. Without a goodbye it has ended then. With one it ends gracefully
      if and only if its sleep ends by itself. */
  lemma HowSessionsEnd(policy: Policy, before: seq<Event>, after: seq<Event>)
    requires CanRun(policy, FRESH, before + [ResumeAfterEcho] + after) && ResumeAfterEcho !in before
    ensures CanRun(policy, FRESH, before) && Run(policy, FRESH, before).stage.Ended?
    ensures var t := Run(policy, FRESH, before + [ResumeAfterEcho] + after);
            && (!SaysGoodbye(policy, before) ==> t.stage == Finished(false))
            && (SaysGoodbye(policy, before) ==>
                  && !t.Echoing()
                  && (t.stage == Finished(true) <==> SleepEnds(true) in after)
                  && (t.stage == Finished(false) <==> SleepEnds(false) in after || Some(IsFailure, after)))
  {
    RunOfConcat(policy, FRESH, before + [ResumeAfterEcho], after);
    RunOfConcat(policy, FRESH, before, [ResumeAfterEcho]);
    var s := Run(policy, FRESH, before);
    EchoHistory(policy, FRESH, before);
    DecisionOfRun(policy, before);
    var d := Step(policy, s, ResumeAfterEcho);
    assert [ResumeAfterEcho][1..] == [] && Run(policy, s, [ResumeAfterEcho]) == d;
    if SaysGoodbye(policy, before) {
      FarewellHistory(policy, d, after);
    } else {
      FinishedStays(policy, d, after);
    }
  }

  /** Neither end of file nor a request: no reason to say goodbye. */
  predicate NoReason(e: Event) {
    !e.EmitToSession? && e != ReadFails(Eof)
  }

  /** A session that nobody cancels and whose client does not shut down ends without a goodbye,
      whatever goes wrong. */
  lemma {:induction false} NoGoodbyeWithoutReason(policy: Policy, s: Session, es: seq<Event>)
    requires Inv(policy, s) && CanRun(policy, s, es)
    requires forall i :: 0 <= i < |es| ==> NoReason(es[i])
    requires !s.cancel.recorded.Any() && s.output <= s.input
    requires s.stage.Reading? || s.stage.Writing? || s.stage == Finished(false) || (s.stage.Ended? && s.stage.ending != Eof)
    ensures var t := Run(policy, s, es);
            t.output <= t.input && (t.Echoing() || t.stage == Finished(false))
    decreases |es|
  {
    if es != [] {
      assert NoReason(es[0]);
      StepKeepsInv(policy, s, es[0]);
      NoGoodbyeWithoutReason(policy, Step(policy, s, es[0]), es[1..]);
    }
  }

  /** A session that will never start the goodbye. */
  ghost predicate Silenced(s: Session) {
    && s.output <= s.input
    && (s.stage.Finished? || (s.Echoing() && s.cancel.recorded.terminal))
  }

  ghost predicate KeepsTerminal(policy: Policy, es: seq<Event>) {
    policy.LastWins? ==> forall i :: 0 <= i < |es| && es[i].EmitToSession? ==> es[i].kinds.terminal
  }

  /** Once a terminal request is recorded while the session is echoing, no continuation of
      the run starts the goodbye: in every later state the output is a prefix of the input.
      Under last-wins this needs that no weaker emit follows. */
  lemma {:induction false} SilencedForever(policy: Policy, s: Session, es: seq<Event>)
    requires Inv(policy, s) && Silenced(s) && CanRun(policy, s, es)
    requires KeepsTerminal(policy, es)
    ensures Silenced(Run(policy, s, es))
    decreases |es|
  {
    if es != [] {
      StepKeepsInv(policy, s, es[0]);
      assert Silenced(Step(policy, s, es[0]));
      assert forall i :: 0 <= i < |es[1..]| ==> es[1..][i] == es[i + 1];
      SilencedForever(policy, Step(policy, s, es[0]), es[1..]);
    }
  }

  /** A terminal emit silences a session that is still echoing. */
  lemma TerminalEmitSilences(policy: Policy, s: Session, kinds: Kinds)
    requires Inv(policy, s) && s.Echoing() && kinds.terminal
    ensures Silenced(Notify(policy, s, kinds))
  {
  }

  // The graceful shutdown

  /** The documentation says that the graceful shutdown reacts to terminal cancellation only.
      The sleep re-enables the weaker types: in every run, a request made during the shutdown
      is accepted if and only if it is terminal, or the session sleeps already and it is not
      empty. So the documentation is right about every request if and only if the goodbye is
      still being written. */
  lemma ShutdownAcceptsExactlyWhen(policy: Policy, es: seq<Event>, kinds: Kinds)
    requires CanRun(policy, FRESH, es)
    ensures var s := Run(policy, FRESH, es);
            s.stage.Farewell? || s.stage.Sleeping? ==>
              && (kinds.And(s.cancel.filter).Any() <==> kinds.terminal || (s.stage.Sleeping? && kinds.Any()))
              && ((forall k: Kinds :: k.And(s.cancel.filter).Any() <==> k.terminal) <==> s.stage.Farewell?)
  {
    RunKeepsInv(policy, FRESH, es);
    assert TOTAL.And(ENABLE_TOTAL).Any() && !TOTAL.terminal;
  }

  lemma Prepend(policy: Policy, s: Session, e: Event, es: seq<Event>)
    requires Enabled(s, e) && CanRun(policy, Step(policy, s, e), es)
    ensures CanRun(policy, s, [e] + es) && Run(policy, s, [e] + es) == Run(policy, Step(policy, s, e), es)
  {
    assert ([e] + es)[1..] == es;
  }

  /** Such a run: the client shuts down, the goodbye is written, and a total request is accepted
      during the sleep. */
  lemma TotalDuringSleepExample(policy: Policy)
    ensures var es := [ReadFails(Eof)] + ([ResumeAfterEcho] + ([WriteSome(|GOODBYE|)] + ([EmitToSession(TOTAL)] + [])));
            && CanRun(policy, FRESH, es)
            && Run(policy, FRESH, es).stage.Sleeping?
            && Run(policy, FRESH, es).cancel.recorded == TOTAL
  {
    var eof, decide, write, total := ReadFails(Eof), ResumeAfterEcho, WriteSome(|GOODBYE|), EmitToSession(TOTAL);
    var s1 := Step(policy, FRESH, eof);
    var s2 := Step(policy, s1, decide);
    assert GOODBYE[|GOODBYE|..] == [];
    var s3 := Step(policy, s2, write);
    Prepend(policy, s3, total, []);
    Prepend(policy, s2, write, [total] + []);
    Prepend(policy, s1, decide, [write] + ([total] + []));
    Prepend(policy, FRESH, eof, [decide] + ([write] + ([total] + [])));
  }

  /** A session in its shutdown, with a terminal request made while the goodbye was written:
      the request is remembered exactly as long as the goodbye is not complete. */
  ghost predicate RacesGoodbye(s: Session) {
    && !s.Echoing()
    && (s.cancel.recorded.terminal <==> Said(s) < |GOODBYE|)
    && (!s.cancel.recorded.terminal ==> s.cancel.recorded == NONE)
    && (Said(s) == |GOODBYE| <==> s.stage.Sleeping? || (s.stage.Finished? && s.cancel.recorded == NONE))
  }

  lemma {:induction false} RaceGoesOn(policy: Policy, s: Session, es: seq<Event>)
    requires Inv(policy, s) && RacesGoodbye(s) && CanRun(policy, s, es)
    requires forall i :: 0 <= i < |es| ==> !es[i].EmitToSession?
    ensures Inv(policy, Run(policy, s, es)) && RacesGoodbye(Run(policy, s, es))
    decreases |es|
  {
    if es != [] {
      StepKeepsInv(policy, s, es[0]);
      RaceGoesOn(policy, Step(policy, s, es[0]), es[1..]);
    }
  }

  /** The documentation says that a terminal request during the graceful shutdown closes the
      socket immediately. Take one that is made while the goodbye is being written, and any
      continuation without further emits. The session gets past the goodbye if and only if all
      of it was sent, and exactly then the request is lost: the reset in `sleep` has discarded
      it, the session sleeps, and it may even end gracefully. Until then it is remembered. */
  lemma TerminalIsLostExactlyWhen(policy: Policy, s: Session, kinds: Kinds, es: seq<Event>)
    requires Inv(policy, s) && s.stage.Farewell? && kinds.terminal
    requires CanRun(policy, Notify(policy, s, kinds), es)
    requires forall i :: 0 <= i < |es| ==> !es[i].EmitToSession?
    ensures var t := Run(policy, Notify(policy, s, kinds), es);
            && (t.cancel.recorded.terminal <==> Said(t) < |GOODBYE|)
            && (t.cancel.recorded == NONE <==> Said(t) == |GOODBYE|)
            && (t.stage.Sleeping? || t.stage == Finished(true) ==> Said(t) == |GOODBYE|)
            && (Said(t) < |GOODBYE| ==> t.stage.Farewell? || t.stage == Finished(false))
  {
    StepKeepsInv(policy, s, EmitToSession(kinds));
    RaceGoesOn(policy, Notify(policy, s, kinds), es);
  }

  /** A run in which it is lost: the request comes when the goodbye is written already, and the
      session sleeps to the end. */
  lemma TerminalLostExample(policy: Policy)
    ensures var es := [ReadFails(Eof)] + ([ResumeAfterEcho] + ([EmitToSession(TERMINAL)] +
              ([WriteSome(|GOODBYE|)] + ([SleepEnds(true)] + []))));
            && CanRun(policy, FRESH, es)
            && Run(policy, FRESH, es).stage == Finished(true)
  {
    var eof, decide, terminal, write, slept :=
      ReadFails(Eof), ResumeAfterEcho, EmitToSession(TERMINAL), WriteSome(|GOODBYE|), SleepEnds(true);
    var s1 := Step(policy, FRESH, eof);
    var s2 := Step(policy, s1, decide);
    var s3 := Step(policy, s2, terminal);
    assert GOODBYE[|GOODBYE|..] == [];
    var s4 := Step(policy, s3, write);
    Prepend(policy, s4, slept, []);
    Prepend(policy, s3, write, [slept] + []);
    Prepend(policy, s2, terminal, [write] + ([slept] + []));
    Prepend(policy, s1, decide, [terminal] + ([write] + ([slept] + [])));
    Prepend(policy, FRESH, eof, [decide] + ([terminal] + ([write] + ([slept] + []))));
  }

  // Bytes

  /** What was read from the client in `es`, and how many bytes were written to it. */
  ghost function BytesRead(es: seq<Event>): Bytes {
    if es == [] then [] else (if es[0].ReadSome? then es[0].bytes else []) + BytesRead(es[1..])
  }

  ghost function BytesWritten(es: seq<Event>): nat {
    if es == [] then 0 else (if es[0].WriteSome? then es[0].n else 0) + BytesWritten(es[1..])
  }

  lemma BytesStep(policy: Policy, s: Session, e: Event, rest: Bytes)
    requires Enabled(s, e)
    ensures Step(policy, s, e).input + rest == s.input + ((if e.ReadSome? then e.bytes else []) + rest)
    ensures |Step(policy, s, e).output| == |s.output| + if e.WriteSome? then e.n else 0
  {
    if e.ReadSome? {
      assert Step(policy, s, e).input == s.input + e.bytes;
    } else {
      assert [] + rest == rest;
    }
  }

  /** In every run `input` is what was read, and `output` is as long as what was written. */
  lemma {:induction false} BytesOfRun(policy: Policy, s: Session, es: seq<Event>)
    requires CanRun(policy, s, es)
    ensures Run(policy, s, es).input == s.input + BytesRead(es)
    ensures |Run(policy, s, es).output| == |s.output| + BytesWritten(es)
    decreases |es|
  {
    if es != [] {
      BytesStep(policy, s, es[0], BytesRead(es[1..]));
      BytesOfRun(policy, Step(policy, s, es[0]), es[1..]);
    }
  }

  /** Any result is possible: as long as a session has not ended, the operation it is suspended in
      may succeed, in full or for a single byte, or fail. */
  lemma AnyResultIsPossible(s: Session, bytes: Bytes, ending: Ending)
    requires bytes != []
    ensures s.stage.Reading? ==> Enabled(s, ReadSome(bytes)) && Enabled(s, ReadFails(ending))
    ensures (s.stage.Writing? || s.stage.Farewell?) && s.stage.rest != [] ==>
              && Enabled(s, WriteSome(1)) && Enabled(s, WriteSome(|s.stage.rest|))
              && (ending != Eof ==> Enabled(s, WriteFails(ending)))
    ensures s.stage.Sleeping? ==> Enabled(s, SleepEnds(true)) && Enabled(s, SleepEnds(false))
    ensures s.stage.Ended? ==> Enabled(s, ResumeAfterEcho)
  {
  }

  // The graceful end

  /** A session on its way to a graceful end, that has `owed` to echo before the goodbye. */
  ghost predicate EndsGracefully(s: Session, owed: Bytes) {
    && s.stage != Finished(false)
    && (s.Echoing() ==> s.stopped && s.cancel.recorded.Any() && !s.cancel.recorded.terminal)
    && (if s.stage.Reading? || s.stage.Writing? then s.input == owed
        else |owed| == s.echoed && owed <= s.input)
  }

  /** What a session whose echo loop is being stopped will have echoed: everything it has read,
      unless the loop has ended already. */
  function Owed(s: Session): Bytes {
    if s.stage.Reading? || s.stage.Writing? then s.input else s.output
  }

  /** Nothing that ends a session before its time: no failing write, no aborted sleep. */
  predicate Uneventful(e: Event) {
    !e.WriteFails? && e != SleepEnds(false)
  }

  lemma GracefulStep(policy: Policy, s: Session, owed: Bytes, e: Event)
    requires Inv(policy, s) && EndsGracefully(s, owed) && Enabled(s, e)
    requires Uneventful(e) && !e.EmitToSession?
    ensures EndsGracefully(Step(policy, s, e), owed)
  {
    if e.WriteSome? && s.stage.Writing? {
      SendMore(s.input, s.output, s.stage.rest, e.n);
      StepKeepsInv(policy, s, e);
    }
  }

  /** A session that has ended gracefully has sent all it owed, and then the goodbye. */
  lemma GracefulOutput(policy: Policy, s: Session, owed: Bytes)
    requires Inv(policy, s) && EndsGracefully(s, owed) && s.stage.Finished?
    ensures s.output == owed + GOODBYE
  {
    assert s.input[..s.echoed] == owed;
    assert GOODBYE[..|GOODBYE|] == GOODBYE;
  }
}
