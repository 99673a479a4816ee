/** SIGINT, end to end: the sessions that are echoing when the request is forwarded echo what
    they have read, say goodbye, and end gracefully. */
module EchoServerGraceful {
  import opened Cancellation
  import opened EchoServer
  import opened EchoServerProperties
  import S = EchoSession

  // Before the request

  /** While the server accepts, at most total was forwarded to a session. */
  ghost predicate Unharmed(s: State) {
    s.phase.Accepting? ==>
      forall id :: id in s.tasks && s.tasks[id].Echoing() ==> !s.tasks[id].cancel.recorded.terminal
  }

  lemma SessionStaysUnharmed(policy: Policy, session: S.Session, e: S.Event)
    requires S.Enabled(session, e) && (e.EmitToSession? ==> e.kinds == TOTAL)
    requires session.Echoing() ==> !session.cancel.recorded.terminal
    ensures var next := S.Step(policy, session, e);
            next.Echoing() ==> !next.cancel.recorded.terminal
  {
  }

  lemma ResumeLeavesUnharmed(policy: Policy, s: State)
    requires Inv(policy, s) && Unharmed(s) && s.phase.Accepting? && Enabled(s, Resume)
    ensures Unharmed(Step(policy, s, Resume))
  {
    var t := Step(policy, s, Resume);
    if t.phase.Accepting? && s.cancel.recorded.Any() {
      ResumeForwards(policy, s);
      forall id | id in Present(s).tasks
        ensures var next := Forward(policy, Present(s), TOTAL).tasks[id];
                next.Echoing() ==> !next.cancel.recorded.terminal
      {
        SessionStaysUnharmed(policy, Present(s).tasks[id], S.EmitToSession(TOTAL));
      }
    }
  }

  lemma StepLeavesUnharmed(policy: Policy, s: State, e: Event)
    requires Inv(policy, s) && Unharmed(s) && Enabled(s, e)
    ensures Unharmed(Step(policy, s, e))
  {
    if s.phase.Accepting? {
      match e
      case Resume => ResumeLeavesUnharmed(policy, s);
      case SessionMoves(id, event) => SessionStaysUnharmed(policy, s.tasks[id], event);
      case _ =>
    }
  }

  lemma {:induction false} RunLeavesUnharmed(policy: Policy, s: State, es: seq<Event>)
    requires Inv(policy, s) && Unharmed(s) && CanRun(policy, s, es)
    ensures Inv(policy, Run(policy, s, es)) && Unharmed(Run(policy, s, es))
    decreases |es|
  {
    if es != [] {
      StepKeepsInv(policy, s, es[0]);
      StepLeavesUnharmed(policy, s, es[0]);
      RunLeavesUnharmed(policy, Step(policy, s, es[0]), es[1..]);
    }
  }

  // The resume that forwards the request

  lemma StoppedGracefully(policy: Policy, session: S.Session, kinds: Kinds)
    requires S.Inv(policy, session) && session.Echoing() && !session.cancel.recorded.terminal
    requires kinds.Any() && !kinds.terminal
    ensures var next := S.Notify(policy, session, kinds);
            S.EndsGracefully(next, S.Owed(next))
  {
  }

  lemma ForwardStopsGracefully(policy: Policy, s: State, kinds: Kinds, id: nat)
    requires Tracked(policy, s) && id in s.tasks && kinds.Any() && !kinds.terminal
    requires s.tasks[id].Echoing() ==> !s.tasks[id].cancel.recorded.terminal
    ensures var next := Forward(policy, s, kinds).tasks[id];
            next.Echoing() ==> S.EndsGracefully(next, S.Owed(next))
  {
    if s.tasks[id].Echoing() {
      StoppedGracefully(policy, s.tasks[id], kinds);
    }
  }

  lemma PartialLeavesLoop(policy: Policy, s: State)
    requires s.phase.Accepting? && Enabled(s, Resume) && s.cancel.recorded.partial
    ensures !Step(policy, s, Resume).phase.Accepting? && !Pending(Step(policy, s, Resume))
  {
  }

  /** The resume that leaves the accept loop on a request without terminal stops every echo loop
      gracefully. */
  lemma GracefulResume(policy: Policy, s: State, id: nat)
    requires Inv(policy, s) && Unharmed(s) && s.phase.Accepting? && Enabled(s, Resume)
    requires s.cancel.recorded.partial && !s.cancel.recorded.terminal
    ensures var t := Step(policy, s, Resume);
            && !t.phase.Accepting? && !Pending(t)
            && (id in t.tasks && t.tasks[id].Echoing() ==> S.EndsGracefully(t.tasks[id], S.Owed(t.tasks[id])))
  {
    PartialLeavesLoop(policy, s);
    ResumeForwards(policy, s);
    if id in Present(s).tasks {
      ForwardStopsGracefully(policy, Present(s), s.cancel.recorded, id);
    }
  }

  // After it

  /** The drain has a request to forward. */
  predicate Pending(s: State) {
    s.phase.Draining? && s.cancel.recorded.Any()
  }

  /** No terminal request, and nothing that ends a session before its time. */
  predicate Peaceful(e: Event) {
    && e != Request(SIGTERM)
    && (e.SessionMoves? ==> S.Uneventful(e.event))
  }

  lemma PeacefulStep(policy: Policy, s: State, e: Event, id: nat, owed: S.Bytes)
    requires Inv(policy, s) && Enabled(s, e) && Peaceful(e) && !s.phase.Accepting? && !Pending(s)
    requires id in s.tasks && S.EndsGracefully(s.tasks[id], owed)
    ensures var t := Step(policy, s, e);
            && !t.phase.Accepting? && !Pending(t)
            && (id in t.tasks ==> S.EndsGracefully(t.tasks[id], owed))
  {
    match e
    case SessionMoves(moved, event) =>
      if moved == id { S.GracefulStep(policy, s.tasks[id], owed, event); }
    case _ =>
  }

  lemma {:induction false} PeacefulRun(policy: Policy, s: State, es: seq<Event>, id: nat, owed: S.Bytes)
    requires Inv(policy, s) && CanRun(policy, s, es) && !s.phase.Accepting? && !Pending(s)
    requires forall i :: 0 <= i < |es| ==> Peaceful(es[i])
    requires id < s.nextId && (id in s.tasks ==> S.EndsGracefully(s.tasks[id], owed))
    ensures var t := Run(policy, s, es);
            Inv(policy, t) && (id in t.tasks ==> S.EndsGracefully(t.tasks[id], owed))
    decreases |es|
  {
    if es != [] {
      var t := Step(policy, s, es[0]);
      StepKeepsInv(policy, s, es[0]);
      assert Peaceful(es[0]);
      if id in s.tasks {
        PeacefulStep(policy, s, es[0], id, owed);
      }
      assert forall i :: 0 <= i < |es[1..]| ==> es[1..][i] == es[i + 1];
      PeacefulRun(policy, t, es[1..], id, owed);
    }
  }

  /** The requests of one suspension that leave a partial request what it is: no terminal one,
      and under last-wins no other one at all. */
  ghost predicate StaysPartial(policy: Policy, es: seq<Event>) {
    && (forall i :: 0 <= i < |es| ==> es[i] != Request(SIGTERM))
    && NothingElse(policy, SIGINT, es)
  }

  lemma {:induction false} NoTerminalRecorded(policy: Policy, s: State, es: seq<Event>)
    requires CanRun(policy, s, es) && OneSuspension(es) && StaysPartial(policy, es)
    requires s.phase.Accepting? && !s.cancel.recorded.terminal
    ensures Run(policy, s, es).phase.Accepting? && !Run(policy, s, es).cancel.recorded.terminal
    decreases |es|
  {
    if es != [] {
      assert !es[0].Resume? && es[0] != Request(SIGTERM);
      assert forall i :: 0 <= i < |es[1..]| ==> es[1..][i] == es[i + 1];
      NoTerminalRecorded(policy, Step(policy, s, es[0]), es[1..]);
    }
  }

  /** SIGINT, end to end. Take any run to a state in which the server accepts and no terminal
      request is pending, an interrupt in it, any further events of the same suspension, the
      resume that ends it, and any continuation in which no terminal request is made, no
      session's write fails and no sleep is aborted. The server leaves the accept loop, and no
      session that was echoing at the resume ends otherwise than gracefully: when it ends, its
      client has been sent all that the session had read by then, unless its echo loop had
      failed before, and then the whole goodbye. */
  lemma InterruptEndsGracefully(policy: Policy, before: seq<Event>, same: seq<Event>, rest: seq<Event>, id: nat)
    requires CanRun(policy, INIT, before)
    requires var s := Run(policy, INIT, before);
             s.phase.Accepting? && !s.cancel.recorded.terminal
    requires var r := Step(policy, Run(policy, INIT, before), Request(SIGINT));
             && CanRun(policy, r, same) && OneSuspension(same) && StaysPartial(policy, same)
             && Enabled(Run(policy, r, same), Resume)
             && CanRun(policy, Step(policy, Run(policy, r, same), Resume), rest)
    requires forall i :: 0 <= i < |rest| ==> Peaceful(rest[i])
    ensures var r := Step(policy, Run(policy, INIT, before), Request(SIGINT));
            var t := Step(policy, Run(policy, r, same), Resume);
            var u := Run(policy, t, rest);
            && !t.phase.Accepting?
            && (id in t.tasks && t.tasks[id].Echoing() && id in u.tasks ==>
                  && u.tasks[id].stage != S.Finished(false)
                  && (u.tasks[id].stage.Finished? ==> u.tasks[id].output == S.Owed(t.tasks[id]) + S.GOODBYE))
  {
    RunLeavesUnharmed(policy, INIT, before);
    var s := Run(policy, INIT, before);
    StepKeepsInv(policy, s, Request(SIGINT));
    var r := Step(policy, s, Request(SIGINT));
    RunLeavesUnharmed(policy, r, same);
    RequestStaysRecorded(policy, r, SIGINT, same);
    NoTerminalRecorded(policy, r, same);
    var q := Run(policy, r, same);
    GracefulResume(policy, q, id);
    StepKeepsInv(policy, q, Resume);
    var t := Step(policy, q, Resume);
    if id in t.tasks && t.tasks[id].Echoing() {
      PeacefulRun(policy, t, rest, id, S.Owed(t.tasks[id]));
      var u := Run(policy, t, rest);
      if id in u.tasks && u.tasks[id].stage.Finished? {
        S.GracefulOutput(policy, u.tasks[id], S.Owed(t.tasks[id]));
      }
    }
  }
}
