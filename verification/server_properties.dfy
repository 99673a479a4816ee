/** What holds in every run of the echo server: structured concurrency, no lost wakeup in
    the drain, and no lost cancellation. */
module EchoServerProperties {
  import opened Cancellation
  import opened EchoServer
  import S = EchoSession

  // Structured concurrency

  /** The sessions whose completion handlers run in `es`. */
  ghost function CompletedIds(es: seq<Event>): set<nat> {
    if es == [] then {} else (if es[0].Completed? then {es[0].id} else {}) + CompletedIds(es[1..])
  }

  /** How many completion handlers run in `es`. */
  ghost function Completions(es: seq<Event>): nat {
    if es == [] then 0 else (if es[0].Completed? then 1 else 0) + Completions(es[1..])
  }

  lemma SessionsOfStep(policy: Policy, s: State, e: Event, id: nat)
    requires Inv(policy, s) && Enabled(s, e)
    ensures s.nextId <= Step(policy, s, e).nextId
    ensures id in Step(policy, s, e).sessions <==>
              && (id in s.sessions || s.nextId <= id < Step(policy, s, e).nextId)
              && e != Completed(id)
    ensures e == Completed(id) ==> id in s.sessions
  {
    if e.Resume? {
      ResumeOnSessions(policy, s);
    }
  }

  lemma ResumeOnSessions(policy: Policy, s: State)
    requires Enabled(s, Resume)
    ensures var t := Step(policy, s, Resume);
            || (t.sessions == s.sessions && t.nextId == s.nextId)
            || (t.sessions == s.sessions + {s.nextId} && t.nextId == s.nextId + 1)
  {
  }

  /** A session is in the map exactly when it was, or was accepted since, and its handler has
      not run; and only such sessions' handlers run. */
  lemma {:induction false} SessionsOfRun(policy: Policy, s: State, es: seq<Event>, id: nat)
    requires Inv(policy, s) && CanRun(policy, s, es)
    ensures s.nextId <= Run(policy, s, es).nextId
    ensures id in Run(policy, s, es).sessions <==>
              && (id in s.sessions || s.nextId <= id < Run(policy, s, es).nextId)
              && id !in CompletedIds(es)
    ensures id in CompletedIds(es) ==> id in s.sessions || s.nextId <= id < Run(policy, s, es).nextId
    decreases |es|
  {
    if es != [] {
      StepKeepsInv(policy, s, es[0]);
      SessionsOfStep(policy, s, es[0], id);
      SessionsOfRun(policy, Step(policy, s, es[0]), es[1..], id);
    }
  }

  /** No completion handler runs twice. */
  lemma {:induction false} HandlersRunOnce(policy: Policy, s: State, es: seq<Event>)
    requires Inv(policy, s) && CanRun(policy, s, es)
    ensures Completions(es) == |CompletedIds(es)|
    decreases |es|
  {
    if es != [] {
      var t := Step(policy, s, es[0]);
      StepKeepsInv(policy, s, es[0]);
      HandlersRunOnce(policy, t, es[1..]);
      if es[0].Completed? {
        SessionsOfStep(policy, s, es[0], es[0].id);
        SessionsOfRun(policy, t, es[1..], es[0].id);
      }
    }
  }

  /** In every reachable state the keys of the map are exactly the ids handed out so far whose
      completion handler has not run, and no handler ran twice or after the server returned. */
  lemma StructuredConcurrency(policy: Policy, es: seq<Event>)
    requires CanRun(policy, INIT, es)
    ensures var t := Run(policy, INIT, es);
            && (forall id: nat :: id in t.sessions <==> id < t.nextId && id !in CompletedIds(es))
            && Completions(es) == |CompletedIds(es)|
            && !t.faulted
  {
    HandlersRunOnce(policy, INIT, es);
    RunKeepsInv(policy, INIT, es);
    forall id: nat
      ensures id in Run(policy, INIT, es).sessions <==> id < Run(policy, INIT, es).nextId && id !in CompletedIds(es)
    {
      SessionsOfRun(policy, INIT, es, id);
    }
  }

  /** Once the server has returned every handler has run, nothing is left that could touch
      its frame, and further requests change nothing. */
  lemma NothingRunsAfterReturn(policy: Policy, es: seq<Event>, id: nat, e: Event)
    requires CanRun(policy, INIT, es) && Run(policy, INIT, es).phase.Returned?
    ensures id < Run(policy, INIT, es).nextId ==> id in CompletedIds(es)
    ensures Enabled(Run(policy, INIT, es), e) ==>
              e.Request? && Step(policy, Run(policy, INIT, es), e) == Run(policy, INIT, es)
  {
    RunKeepsInv(policy, INIT, es);
    SessionsOfRun(policy, INIT, es, id);
  }

  /** How many connections `async_accept` delivers in `es`. */
  ghost function Connections(es: seq<Event>): nat {
    if es == [] then 0 else (if es[0] == Connect(true) then 1 else 0) + Connections(es[1..])
  }

  /** An accepted connection that the loop has not been resumed for. */
  function InHand(s: State): nat {
    if s.phase.Accepting? && s.op == Ready(true) then 1 else 0
  }

  lemma ConnectionOfStep(policy: Policy, s: State, e: Event)
    requires Enabled(s, e)
    ensures var t := Step(policy, s, e);
            t.nextId + InHand(t) == s.nextId + InHand(s) + (if e == Connect(true) then 1 else 0)
  {
  }

  /** Every accepted connection gets a session and no session is made up, whatever is requested
      meanwhile: a connection that was accepted despite a cancellation is stored too. */
  lemma {:induction false} EveryConnectionGetsASession(policy: Policy, s: State, es: seq<Event>)
    requires CanRun(policy, s, es)
    ensures var t := Run(policy, s, es);
            t.nextId + InHand(t) == s.nextId + InHand(s) + Connections(es)
    decreases |es|
  {
    if es != [] {
      ConnectionOfStep(policy, s, es[0]);
      EveryConnectionGetsASession(policy, Step(policy, s, es[0]), es[1..]);
    }
  }

  // The drain

  /** The number of sessions left is the measure of the drain: it falls by one with every
      completion handler and nothing else changes it. */
  lemma {:induction false} DrainMeasure(policy: Policy, s: State, es: seq<Event>)
    requires Inv(policy, s) && !s.phase.Accepting? && CanRun(policy, s, es)
    ensures var t := Run(policy, s, es);
            && !t.phase.Accepting?
            && t.nextId == s.nextId
            && |t.sessions| + Completions(es) == |s.sessions|
    decreases |es|
  {
    if es != [] {
      StepKeepsInv(policy, s, es[0]);
      DrainMeasure(policy, Step(policy, s, es[0]), es[1..]);
    }
  }

  /** Although a notification is dropped when no receive waits for it, none is missed: a
      server that waits with nothing pending still has a session to wait for, and after as
      many completions as sessions were left it has returned or returns at its next resume. */
  lemma DrainFinishes(policy: Policy, s: State, es: seq<Event>)
    requires Inv(policy, s) && s.phase.Draining? && CanRun(policy, s, es)
    ensures Completions(es) <= |s.sessions|
    ensures var t := Run(policy, s, es);
            && (t.phase.Draining? && t.op.Waiting? ==> t.sessions != {})
            && (Completions(es) == |s.sessions| <==> t.sessions == {})
            && (t.sessions == {} ==>
                  || t.phase.Returned?
                  || (Enabled(t, Resume) && Step(policy, t, Resume).phase.Returned?))
  {
    DrainMeasure(policy, s, es);
    RunKeepsInv(policy, s, es);
  }

  /** The server is never stuck: while it drains, it can be resumed itself, or a completion
      handler is posted, or some session can move on. */
  lemma DrainNeverStuck(policy: Policy, s: State) returns (e: Event)
    requires Inv(policy, s) && s.phase.Draining?
    ensures Enabled(s, e) && !e.Request?
  {
    if s.op.Ready? {
      e := Resume;
    } else {
      var id :| id in s.sessions;
      var session := s.tasks[id];
      match session.stage
      case Reading => e := SessionMoves(id, S.ReadFails(S.Eof));
      case Writing(rest) => e := SessionMoves(id, S.WriteSome(|rest|));
      case Ended(_) => e := SessionMoves(id, S.ResumeAfterEcho);
      case Farewell(rest) => e := SessionMoves(id, S.WriteSome(|rest|));
      case Sleeping => e := SessionMoves(id, S.SleepEnds(true));
      case Finished(_) => e := Completed(id);
    }
  }

  // Forwarding

  /** The last type emitted to a session, if its coroutine is still there to receive it. */
  ghost predicate Received(session: S.Session, kinds: Kinds) {
    session.stage.Finished? || (session.cancel.emits != [] && session.cancel.emits[|session.cancel.emits| - 1] == kinds)
  }

  lemma ForwardDelivers(policy: Policy, s: State, kinds: Kinds)
    requires Tracked(policy, s)
    ensures forall id :: id in s.tasks ==> Received(Forward(policy, s, kinds).tasks[id], kinds)
    ensures kinds.terminal ==> forall id :: id in s.tasks && s.tasks[id].Echoing() ==>
              S.Silenced(Forward(policy, s, kinds).tasks[id])
  {
    if kinds.terminal {
      forall id | id in s.tasks && s.tasks[id].Echoing()
        ensures S.Silenced(S.Notify(policy, s.tasks[id], kinds))
      {
        S.TerminalEmitSilences(policy, s.tasks[id], kinds);
      }
    }
  }

  /** The sessions a resume finds, including the one it has just accepted. */
  function Present(s: State): State {
    if s.phase.Accepting? && s.op.Ready? && s.op.ok then Spawn(s) else s
  }

  /** What a resume with a recorded request does to the sessions: it forwards to all. */
  lemma ResumeForwards(policy: Policy, s: State)
    requires Inv(policy, s) && Enabled(s, Resume) && s.cancel.recorded.Any()
    ensures Tracked(policy, Present(s))
    ensures Step(policy, s, Resume).sessions == Present(s).sessions
    ensures Step(policy, s, Resume).tasks == Forward(policy, Present(s), s.cancel.recorded).tasks
    ensures Step(policy, s, Resume).phase.Accepting? ==> s.cancel.recorded == TOTAL
  {
    SpawnKeepsTracked(policy, s);
  }

  /** What the policy needs for no request to displace an earlier one. */
  ghost predicate Unspoiled(policy: Policy, emits: seq<Kinds>) {
    policy.LastWins? ==> NeverWeaker(emits)
  }

  lemma RecordedIsUnion(policy: Policy, cs: CancelState)
    requires cs.Faithful(policy) && Unspoiled(policy, cs.emits)
    ensures cs.recorded == Recorded(Accumulate, cs.filter, cs.emits)
  {
    if policy.LastWins? {
      PoliciesAgree(cs.filter, cs.emits);
    }
  }

  /** At the next resume everything requested since the last one reaches every session,
      including one accepted in that same resume: each receives one emit that contains every
      request that passed the filter. So no reset discards a request that was not forwarded. */
  lemma NoRequestIsLost(policy: Policy, s: State)
    requires Inv(policy, s) && Enabled(s, Resume)
    requires s.cancel.recorded.Any() && Unspoiled(policy, s.cancel.emits)
    ensures var t := Step(policy, s, Resume);
            && (forall id :: id in s.sessions ==> id in t.sessions)
            && (s.phase.Accepting? && s.op.ok ==> s.nextId in t.sessions)
            && (forall id :: id in t.sessions ==> Received(t.tasks[id], s.cancel.recorded))
    ensures forall i :: 0 <= i < |s.cancel.emits| ==> s.cancel.emits[i].And(s.cancel.filter).Within(s.cancel.recorded)
  {
    ResumeForwards(policy, s);
    ForwardDelivers(policy, Present(s), s.cancel.recorded);
    RecordedIsUnion(policy, s.cancel);
    AccumulateRecordsTheUnion(s.cancel.filter, s.cancel.emits);
  }

  /** A resume leaves the accept loop exactly when a request stronger than total was made, or
      the accept failed and nothing was requested. */
  lemma LeavesLoopExactlyWhen(policy: Policy, s: State)
    requires Inv(policy, s) && s.phase.Accepting? && Enabled(s, Resume) && Unspoiled(policy, s.cancel.emits)
    ensures !Step(policy, s, Resume).phase.Accepting? <==>
              || (exists i :: 0 <= i < |s.cancel.emits| && (s.cancel.emits[i].terminal || s.cancel.emits[i].partial))
              || (!s.op.ok && forall i :: 0 <= i < |s.cancel.emits| ==> !s.cancel.emits[i].Any())
  {
    RecordedIsUnion(policy, s.cancel);
    AccumulateRecordsTheUnion(s.cancel.filter, s.cancel.emits);
  }

  /** Neither a request stronger than total nor a failed accept. */
  predicate Harmless(e: Event) {
    (e.Request? ==> e.signal == SIGTSTP) && (e.Connect? ==> e.ok)
  }

  /** At most total is recorded, and the accept has not failed by itself. */
  ghost predicate AtMostTotal(s: State) {
    && s.phase.Accepting?
    && (s.cancel.recorded == TOTAL || (s.cancel.recorded == NONE && s.op != Ready(false)))
  }

  lemma HarmlessStep(policy: Policy, s: State, e: Event)
    requires AtMostTotal(s) && (s.cancel.filter == ENABLE_TOTAL) && Enabled(s, e) && Harmless(e)
    ensures AtMostTotal(Step(policy, s, e)) && Step(policy, s, e).cancel.filter == ENABLE_TOTAL
  {
  }

  /** Total requests alone never stop the server: it keeps accepting. */
  lemma {:induction false} TotalKeepsAccepting(policy: Policy, s: State, es: seq<Event>)
    requires AtMostTotal(s) && s.cancel.filter == ENABLE_TOTAL && CanRun(policy, s, es)
    requires forall i :: 0 <= i < |es| ==> Harmless(es[i])
    ensures Run(policy, s, es).phase.Accepting?
    decreases |es|
  {
    if es != [] {
      HarmlessStep(policy, s, es[0]);
      TotalKeepsAccepting(policy, Step(policy, s, es[0]), es[1..]);
    }
  }

  // Terminal requests, end to end

  /** `es` stays within one suspension of the server. */
  ghost predicate OneSuspension(es: seq<Event>) {
    forall i :: 0 <= i < |es| ==> !es[i].Resume?
  }

  /** Only `signal` is requested, where that matters: under last-wins another request would
      displace it. */
  ghost predicate NothingElse(policy: Policy, signal: Signal, es: seq<Event>) {
    policy.LastWins? ==> forall i :: 0 <= i < |es| && es[i].Request? ==> es[i].signal == signal
  }

  /** A request that passed the filter stays recorded to the end of the suspension, and the
      resume that ends it is due. */
  lemma {:induction false} RequestStaysRecorded(policy: Policy, s: State, signal: Signal, es: seq<Event>)
    requires Inv(policy, s) && CanRun(policy, s, es) && OneSuspension(es) && NothingElse(policy, signal, es)
    requires !s.phase.Returned? && KindsOf(signal).Within(s.cancel.recorded) && KindsOf(signal).Within(s.cancel.filter)
    ensures var t := Run(policy, s, es);
            && Inv(policy, t)
            && KindsOf(signal).Within(t.cancel.recorded)
            && Enabled(t, Resume)
    decreases |es|
  {
    if es != [] {
      assert !es[0].Resume?;
      StepKeepsInv(policy, s, es[0]);
      assert forall i :: 0 <= i < |es[1..]| ==> es[1..][i] == es[i + 1];
      RequestStaysRecorded(policy, Step(policy, s, es[0]), signal, es[1..]);
    }
  }

  /** The requests that the server's filter lets pass: all of them in the accept loop, and
      terminal ones in the drain. */
  predicate Accepts(s: State, signal: Signal) {
    s.phase.Accepting? || (s.phase.Draining? && signal == SIGTERM)
  }

  /** A resume with a recorded request hands what is recorded to every session in the map. */
  lemma ResumeHandsOut(policy: Policy, s: State)
    requires Inv(policy, s) && Enabled(s, Resume) && s.cancel.recorded.Any()
    ensures var t := Step(policy, s, Resume);
            forall id :: id in t.sessions ==> id in t.tasks && Received(t.tasks[id], s.cancel.recorded)
  {
    ResumeForwards(policy, s);
    ForwardDelivers(policy, Present(s), s.cancel.recorded);
  }

  /** A request, end to end. Take any run, a request that the server accepts, and any further
      events of the same suspension. Then a resume is due, and it hands every session in the
      map, even one accepted in that very resume, a type that contains the request. Under
      last-wins no other request may follow within the suspension. */
  lemma AcceptedRequestIsForwarded(policy: Policy, before: seq<Event>, signal: Signal, same: seq<Event>)
    requires CanRun(policy, INIT, before) && Accepts(Run(policy, INIT, before), signal)
    requires var r := Step(policy, Run(policy, INIT, before), Request(signal));
             CanRun(policy, r, same) && OneSuspension(same) && NothingElse(policy, signal, same)
    ensures var q := Run(policy, Step(policy, Run(policy, INIT, before), Request(signal)), same);
            && Enabled(q, Resume)
            && KindsOf(signal).Within(q.cancel.recorded)
            && var t := Step(policy, q, Resume);
               forall id :: id in t.sessions ==> id in t.tasks && Received(t.tasks[id], q.cancel.recorded)
  {
    RunKeepsInv(policy, INIT, before);
    var s := Run(policy, INIT, before);
    StepKeepsInv(policy, s, Request(signal));
    var r := Step(policy, s, Request(signal));
    RequestStaysRecorded(policy, r, signal, same);
    ResumeHandsOut(policy, Run(policy, r, same));
  }

  /** Forwarding a terminal type leaves the accept loop and silences every session that has
      not begun its goodbye. */
  lemma TerminalResumeSilences(policy: Policy, s: State)
    requires Inv(policy, s) && Enabled(s, Resume) && s.cancel.recorded.terminal
    ensures var t := Step(policy, s, Resume);
            && !t.phase.Accepting?
            && forall id :: id in t.tasks && t.tasks[id].Echoing() ==> S.Silenced(t.tasks[id])
  {
    ResumeForwards(policy, s);
    ForwardDelivers(policy, Present(s), s.cancel.recorded);
  }

  /** A resume of the drain forwards nothing but terminal. */
  lemma StepKeepsSilence(policy: Policy, s: State, e: Event, id: nat)
    requires Inv(policy, s) && Enabled(s, e) && !s.phase.Accepting?
    requires id in s.tasks && S.Silenced(s.tasks[id])
    ensures var t := Step(policy, s, e);
            !t.phase.Accepting? && (id in t.tasks ==> S.Silenced(t.tasks[id]))
  {
    var session := s.tasks[id];
    match e
    case SessionMoves(moved, event) =>
      if moved == id {
        assert [event][1..] == [] && S.CanRun(policy, S.Step(policy, session, event), []);
        S.SilencedForever(policy, session, [event]);
      }
    case Resume =>
      if s.cancel.recorded.Any() {
        assert s.cancel.recorded.terminal by { DrainRecordsTerminal(policy, s); }
      }
    case _ =>
  }

  lemma DrainRecordsTerminal(policy: Policy, s: State)
    requires Inv(policy, s) && s.phase.Draining?
    ensures s.cancel.recorded.Any() ==> s.cancel.recorded == TERMINAL
  {
    FilterBounds(policy, s.cancel.filter, s.cancel.emits);
  }

  lemma {:induction false} FilterBounds(policy: Policy, filter: Kinds, emits: seq<Kinds>)
    ensures Recorded(policy, filter, emits).Within(filter)
  {
    if emits != [] {
      FilterBounds(policy, filter, emits[..|emits| - 1]);
    }
  }

  lemma {:induction false} SilenceLasts(policy: Policy, s: State, es: seq<Event>, id: nat)
    requires Inv(policy, s) && CanRun(policy, s, es) && !s.phase.Accepting?
    requires id < s.nextId && (id in s.tasks ==> S.Silenced(s.tasks[id]))
    ensures id in Run(policy, s, es).tasks ==> S.Silenced(Run(policy, s, es).tasks[id])
    decreases |es|
  {
    if es != [] {
      var t := Step(policy, s, es[0]);
      StepKeepsInv(policy, s, es[0]);
      if id in s.tasks {
        StepKeepsSilence(policy, s, es[0], id);
      }
      SilenceLasts(policy, t, es[1..], id);
    }
  }

  /** SIGTERM, end to end. Take any reachable state in which the server has not returned, a
      terminal request in it, any further events of the same suspension, the resume that ends
      it, and any continuation. Every session that was still echoing when the request was
      forwarded, even one accepted in that very resume, never starts its goodbye. Under
      last-wins no weaker request may follow within the suspension. */
  lemma TerminalRequestSilencesAll(policy: Policy, s: State, same: seq<Event>, rest: seq<Event>)
    requires Inv(policy, s) && !s.phase.Returned?
    requires var r := Step(policy, s, Request(SIGTERM));
             && CanRun(policy, r, same) && OneSuspension(same) && NothingElse(policy, SIGTERM, same)
             && Enabled(Run(policy, r, same), Resume)
             && CanRun(policy, Step(policy, Run(policy, r, same), Resume), rest)
    ensures var t := Step(policy, Run(policy, Step(policy, s, Request(SIGTERM)), same), Resume);
            var u := Run(policy, t, rest);
            && !t.phase.Accepting?
            && forall id :: id in t.tasks && t.tasks[id].Echoing() && id in u.tasks ==>
                 S.Silenced(u.tasks[id]) && u.tasks[id].output <= u.tasks[id].input
  {
    var r := Step(policy, s, Request(SIGTERM));
    StepKeepsInv(policy, s, Request(SIGTERM));
    RequestStaysRecorded(policy, r, SIGTERM, same);
    var q := Run(policy, r, same);
    TerminalResumeSilences(policy, q);
    StepKeepsInv(policy, q, Resume);
    var t := Step(policy, q, Resume);
    forall id | id in t.tasks && t.tasks[id].Echoing() && id in Run(policy, t, rest).tasks
      ensures S.Silenced(Run(policy, t, rest).tasks[id])
    {
      SilenceLasts(policy, t, rest, id);
    }
  }

  /** Last-wins really needs the hypothesis: a terminal request followed by a total one within
      the same suspension is lost, and the server keeps accepting. */
  lemma LastWinsLosesTerminal()
    ensures var es := [Request(SIGTERM), Request(SIGTSTP), Resume];
            && CanRun(LastWins, INIT, es)
            && Run(LastWins, INIT, es).phase.Accepting?
  {
    var s1 := Step(LastWins, INIT, Request(SIGTERM));
    var s2 := Step(LastWins, s1, Request(SIGTSTP));
    var s3 := Step(LastWins, s2, Resume);
    var es := [Request(SIGTERM), Request(SIGTSTP), Resume];
    assert es[1..] == [Request(SIGTSTP), Resume] && es[1..][1..] == [Resume] && [Resume][1..] == [];
    assert CanRun(LastWins, s3, []);
    assert CanRun(LastWins, s2, [Resume]);
    assert CanRun(LastWins, s1, es[1..]);
  }

  /** The resume that leads from `s` to `t` emits a type with terminal to session `id`. */
  ghost predicate SentTerminal(s: State, t: State, id: nat)
    requires id in s.tasks && id in t.tasks
  {
    exists kinds: Kinds :: kinds.terminal && t.tasks[id].cancel.emits == s.tasks[id].cancel.emits + [kinds]
  }

  /** Exactly when it does not: under last-wins the resume emits a type with terminal to a session
      that has not ended, be it an old one or one accepted just now, if and only if the last
      request of the suspension is terminal. The accept loop is left for it then; it goes on if
      and only if the last request is total, or is of no strength at all and the accept succeeded. */
  lemma LastWinsKeepsTerminalExactlyWhen(s: State, id: nat)
    requires Inv(LastWins, s) && Enabled(s, Resume) && s.cancel.emits != []
    requires id in Present(s).tasks && !Present(s).tasks[id].stage.Finished?
    ensures var last, t := s.cancel.emits[|s.cancel.emits| - 1], Step(LastWins, s, Resume);
            && id in t.tasks
            && (SentTerminal(Present(s), t, id) <==> last.terminal)
            && (s.phase.Accepting? ==> (t.phase.Accepting? <==> last == TOTAL || (s.op.ok && !last.Any())))
  {
    SpawnKeepsTracked(LastWins, s);
    var last, t := s.cancel.emits[|s.cancel.emits| - 1], Step(LastWins, s, Resume);
    var before, recorded := Present(s).tasks[id].cancel.emits, s.cancel.recorded;
    assert recorded.terminal == last.terminal;
    if recorded.Any() {
      ResumeForwards(LastWins, s);
      assert t.tasks[id].cancel.emits == before + [recorded];
      assert forall kinds :: before + [recorded] == before + [kinds] ==>
        (before + [recorded])[|before|] == (before + [kinds])[|before|];
    } else {
      assert t.tasks[id].cancel.emits == before || t.tasks[id].cancel.emits == before + [NONE];
      assert forall kinds :: |before + [kinds]| > |before| && (before + [kinds])[|before|] == kinds;
    }
  }
}
