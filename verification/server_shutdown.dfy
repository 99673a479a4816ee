/** The graceful shutdown of the echo server ends: once a request has made the server leave its
    accept loop, every event other than a further request brings the end closer, however the
    clients, the sessions and the server interleave. */
module EchoServerShutdown {
  import opened Cancellation
  import opened EchoServer
  import opened EchoServerProperties
  import S = EchoSession

  /** How many events a session has left at most once a request is recorded: a byte of a write
      each, a failing operation, the decision, the sleep, the completion handler and the resume
      of the server that the handler may bring about. */
  function Rank(stage: S.Stage): nat {
    match stage
    case Finished(_) => 2
    case Sleeping => 3
    case Farewell(rest) => |rest| + 3
    case Ended(_) => |S.GOODBYE| + 4
    case Writing(rest) => |rest| + |S.GOODBYE| + 4
    case Reading => |S.GOODBYE| + 5
  }

  /** The sum of the ranks of the sessions with an id below `n`. */
  ghost function RankBelow(s: State, n: nat): nat {
    if n == 0 then 0 else RankOf(s, n - 1) + RankBelow(s, n - 1)
  }

  function RankOf(s: State, id: nat): nat {
    if id in s.tasks then Rank(s.tasks[id].stage) else 0
  }

  /** How many events are left at most, apart from requests. */
  ghost function Measure(s: State): nat {
    RankBelow(s, s.nextId) + if s.phase.Draining? && s.op.Ready? then 1 else 0
  }

  predicate InEchoLoop(session: S.Session) {
    session.stage.Reading? || session.stage.Writing?
  }

  /** Every session that is still in its echo loop knows of a request. */
  ghost predicate AllNotified(s: State) {
    forall id :: id in s.tasks && InEchoLoop(s.tasks[id]) ==> s.tasks[id].stopped
  }

  lemma {:induction false} SameRanks(s: State, t: State, n: nat)
    requires forall id :: 0 <= id < n ==> RankOf(s, id) == RankOf(t, id)
    ensures RankBelow(s, n) == RankBelow(t, n)
  {
    if n > 0 { SameRanks(s, t, n - 1); }
  }

  /** One session changes. */
  lemma {:induction false} OneRank(s: State, t: State, id: nat, n: nat)
    requires id < n && forall i :: 0 <= i < n && i != id ==> RankOf(s, i) == RankOf(t, i)
    ensures RankBelow(t, n) - RankOf(t, id) == RankBelow(s, n) - RankOf(s, id)
  {
    if n - 1 == id {
      SameRanks(s, t, n - 1);
    } else {
      OneRank(s, t, id, n - 1);
    }
  }

  /** A session that knows of a request comes closer to its end with every event. */
  lemma SessionRank(policy: Policy, session: S.Session, e: S.Event)
    requires S.Inv(policy, session) && S.Enabled(session, e) && !e.EmitToSession?
    requires InEchoLoop(session) ==> session.stopped
    ensures var next := S.Step(policy, session, e);
            && Rank(next.stage) < Rank(session.stage)
            && (InEchoLoop(next) ==> next.stopped)
  {
  }

  /** Leaving the accept loop on a request notifies every session. */
  lemma LeavingNotifiesAll(policy: Policy, s: State)
    requires Inv(policy, s) && s.phase.Accepting? && Enabled(s, Resume) && s.cancel.recorded.Any()
    ensures AllNotified(Step(policy, s, Resume))
  {
    ResumeForwards(policy, s);
    var t := Step(policy, s, Resume);
    forall id | id in t.tasks && InEchoLoop(t.tasks[id])
      ensures t.tasks[id].stopped
    {
      assert S.Inv(policy, Present(s).tasks[id]);
      FilterBounds(policy, s.cancel.filter, s.cancel.emits);
    }
  }

  lemma DrainResume(policy: Policy, s: State)
    requires Inv(policy, s) && s.phase.Draining? && Enabled(s, Resume) && AllNotified(s)
    ensures AllNotified(Step(policy, s, Resume))
    ensures Measure(Step(policy, s, Resume)) < Measure(s)
  {
    SameRanks(s, Step(policy, s, Resume), s.nextId);
  }

  /** Only a request can put the end off, by a single resume. */
  lemma DrainStep(policy: Policy, s: State, e: Event)
    requires Inv(policy, s) && !s.phase.Accepting? && AllNotified(s) && Enabled(s, e)
    ensures var t := Step(policy, s, e);
            && !t.phase.Accepting? && AllNotified(t)
            && Measure(t) <= if e.Request? then Measure(s) + 1 else Measure(s) - 1
  {
    var t := Step(policy, s, e);
    match e
    case Request(_) =>
      SameRanks(s, t, s.nextId);
    case Resume =>
      DrainResume(policy, s);
    case SessionMoves(id, event) =>
      SessionRank(policy, s.tasks[id], event);
      OneRank(s, t, id, s.nextId);
    case Completed(id) =>
      OneRank(s, t, id, s.nextId);
    case Connect(_) =>
  }

  /** How many requests are made in `es`. */
  ghost function Requests(es: seq<Event>): nat {
    if es == [] then 0 else (if es[0].Request? then 1 else 0) + Requests(es[1..])
  }

  lemma {:induction false} DrainRun(policy: Policy, s: State, es: seq<Event>)
    requires Inv(policy, s) && !s.phase.Accepting? && AllNotified(s) && CanRun(policy, s, es)
    ensures var t := Run(policy, s, es);
            && Inv(policy, t) && !t.phase.Accepting?
            && |es| - Requests(es) + Measure(t) <= Measure(s) + Requests(es)
    decreases |es|
  {
    if es != [] {
      StepKeepsInv(policy, s, es[0]);
      DrainStep(policy, s, es[0]);
      DrainRun(policy, Step(policy, s, es[0]), es[1..]);
    }
  }

  /** A drain in which every session knows of a request: the bound on its events, and that it
      has returned when only requests are possible any more. */
  lemma DrainEnds(policy: Policy, s: State, es: seq<Event>)
    requires Inv(policy, s) && !s.phase.Accepting? && AllNotified(s) && CanRun(policy, s, es)
    ensures |es| - Requests(es) <= Measure(s) + Requests(es)
    ensures Run(policy, s, es).phase.Returned? <==> forall e :: Enabled(Run(policy, s, es), e) ==> e.Request?
  {
    DrainRun(policy, s, es);
    var t := Run(policy, s, es);
    if t.phase.Draining? {
      var e := DrainNeverStuck(policy, t);
    }
  }

  /** The graceful shutdown ends. Take any run to a resume that leaves the accept loop on a
      request, and any continuation. The number of its events, not counting further requests,
      is bounded by what the sessions have left to do and the number of those requests, under
      either policy. So without further requests the run cannot go on for ever, and when it
      cannot go on, except by a request, the server has returned. */
  lemma ShutdownEnds(policy: Policy, before: seq<Event>, rest: seq<Event>)
    requires CanRun(policy, INIT, before)
    requires var s := Run(policy, INIT, before);
             && s.phase.Accepting? && s.op.Ready? && s.cancel.recorded.Any()
             && !Step(policy, s, Resume).phase.Accepting?
             && CanRun(policy, Step(policy, s, Resume), rest)
    ensures var d := Step(policy, Run(policy, INIT, before), Resume);
            && |rest| - Requests(rest) <= Measure(d) + Requests(rest)
            && (Run(policy, d, rest).phase.Returned? <==>
                  forall e :: Enabled(Run(policy, d, rest), e) ==> e.Request?)
  {
    RunKeepsInv(policy, INIT, before);
    var s := Run(policy, INIT, before);
    LeavingNotifiesAll(policy, s);
    StepKeepsInv(policy, s, Resume);
    DrainEnds(policy, Step(policy, s, Resume), rest);
  }

  // Without a request

  /** A session in its echo loop that knows of no request, while the server drains. */
  ghost predicate Undisturbed(policy: Policy, s: State, id: nat) {
    && Inv(policy, s) && s.phase.Draining?
    && id in s.tasks && InEchoLoop(s.tasks[id]) && !s.tasks[id].stopped
  }

  /** What such a session can do: read a byte, or write all it has left to write. */
  function EchoOn(s: State, id: nat): Event
    requires id in s.tasks && InEchoLoop(s.tasks[id])
  {
    var stage := s.tasks[id].stage;
    SessionMoves(id, if stage.Reading? then S.ReadSome("a") else S.WriteSome(|stage.rest|))
  }

  lemma EchoOnStep(policy: Policy, s: State, id: nat)
    requires Undisturbed(policy, s, id)
    ensures Enabled(s, EchoOn(s, id)) && Undisturbed(policy, Step(policy, s, EchoOn(s, id)), id)
  {
    assert S.Inv(policy, s.tasks[id]);
    StepKeepsInv(policy, s, EchoOn(s, id));
  }

  lemma Prepend(policy: Policy, s: State, e: Event, es: seq<Event>)
    requires Enabled(s, e) && CanRun(policy, Step(policy, s, e), es)
    ensures CanRun(policy, s, [e] + es)
    ensures Run(policy, s, [e] + es) == Run(policy, Step(policy, s, e), es)
    ensures Requests([e] + es) == Requests(es) + if e.Request? then 1 else 0
  {
    assert ([e] + es)[1..] == es;
  }

  lemma {:induction false} EchoesForever(policy: Policy, s: State, id: nat, n: nat) returns (es: seq<Event>)
    requires Undisturbed(policy, s, id)
    ensures |es| == n && Requests(es) == 0
    ensures CanRun(policy, s, es) && Run(policy, s, es).phase.Draining?
    decreases n
  {
    es := [];
    if n > 0 {
      EchoOnStep(policy, s, id);
      var rest := EchoesForever(policy, Step(policy, s, EchoOn(s, id)), id, n - 1);
      Prepend(policy, s, EchoOn(s, id), rest);
      es := [EchoOn(s, id)] + rest;
    }
  }

  /** No run without requests has more than `bound` events. */
  ghost predicate Bounded(policy: Policy, s: State, bound: nat) {
    forall es: seq<Event> :: CanRun(policy, s, es) && Requests(es) == 0 ==> |es| <= bound
  }

  /** Once the accept loop is left the runs without further requests are bounded, that is, the
      server is sure to return, if and only if every session in its echo loop knows of a request. */
  lemma ReturnIsSureExactlyWhen(policy: Policy, s: State)
    requires Inv(policy, s) && !s.phase.Accepting?
    ensures (exists bound :: Bounded(policy, s, bound)) <==> AllNotified(s)
  {
    if AllNotified(s) {
      forall es | CanRun(policy, s, es) && Requests(es) == 0
        ensures |es| <= Measure(s)
      {
        DrainEnds(policy, s, es);
      }
      assert Bounded(policy, s, Measure(s));
    } else {
      var id :| id in s.tasks && InEchoLoop(s.tasks[id]) && !s.tasks[id].stopped;
      forall bound: nat
        ensures !Bounded(policy, s, bound)
      {
        var es := EchoesForever(policy, s, id, bound + 1);
      }
    }
  }

  /** The accept loop can be left without a request: after a failed accept nobody tells the
      session that was accepted before, and from the start of the server there are runs of any
      length in which it has not returned and nothing was requested. */
  lemma FailedAcceptMayNeverReturn(policy: Policy, n: nat) returns (es: seq<Event>)
    ensures |es| == n + 4 && Requests(es) == 0
    ensures CanRun(policy, INIT, es) && Run(policy, INIT, es).phase.Draining?
  {
    var s1 := Step(policy, INIT, Connect(true));
    StepKeepsInv(policy, INIT, Connect(true));
    var s2 := Step(policy, s1, Resume);
    StepKeepsInv(policy, s1, Resume);
    var s3 := Step(policy, s2, Connect(false));
    StepKeepsInv(policy, s2, Connect(false));
    var s4 := Step(policy, s3, Resume);
    StepKeepsInv(policy, s3, Resume);
    assert s2.tasks == map[0 := S.FRESH];
    assert Undisturbed(policy, s4, 0);
    var rest := EchoesForever(policy, s4, 0, n);
    Prepend(policy, s3, Resume, rest);
    Prepend(policy, s2, Connect(false), [Resume] + rest);
    Prepend(policy, s1, Resume, [Connect(false)] + ([Resume] + rest));
    Prepend(policy, INIT, Connect(true), [Resume] + ([Connect(false)] + ([Resume] + rest)));
    es := [Connect(true)] + ([Resume] + ([Connect(false)] + ([Resume] + rest)));
  }
}
