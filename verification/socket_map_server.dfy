/** The server that keeps its sessions' sockets in a map: a signal handler shuts all sockets
    down, completion handlers erase them, and a polling loop waits until the map is empty.

    An operation of a session that has completed keeps its result, also if the socket is shut
    down before the session is resumed: the session then goes on as if nothing had happened. */
module SocketMapServer {

  datatype Phase = Accepting | Polling | Returned

  /** A socket operation: pending, or completed with `n` bytes, or completed with an error. */
  datatype Op = Pending | Transferred(n: nat) | Failed

  /** An echo loop with `left` bytes of the current chunk still to be written; it is reading if
      there are none. `Finished` means that its completion handler is posted. */
  datatype Task = Running(left: nat, op: Op) | Finished

  /** The wait for a signal: its handler captures the server's frame, like the completion
      handlers. Destroying the frame aborts a wait that is still armed. */
  datatype Wait = Armed | Delivered | Aborted | Handled

  datatype State = State(
    phase: Phase,
    nextId: nat,
    shut: map<nat, bool>,    // the sockets in the map, and whether they were shut down
    tasks: map<nat, Task>,   // spawned sessions whose completion handler has not run
    wait: Wait,
    erasedLate: bool,        // a completion handler touched the frame after the server returned
    handledLate: bool)       // the signal handler did

  const INIT := State(Accepting, 0, map[], map[], Armed, false, false)

  datatype Event =
    | Accepted(ok: bool)             // async_accept completes and the loop goes on
    | Poll                           // one round of the polling loop
    | Transfers(id: nat, n: nat)     // a session's pending operation completes with n bytes
    | Fails(id: nat)                 // it completes with an error, end of file being one
    | Resume(id: nat)                // the session runs to its next operation, or to its end
    | Completed(id: nat)             // a session's completion handler runs
    | SignalArrives
    | HandleSignal                   // the handler of the signal wait runs

  predicate IsPending(s: State, id: nat) {
    id in s.tasks && s.tasks[id].Running? && s.tasks[id].op.Pending?
  }

  /** An operation on a socket that was shut down cannot succeed any more, unless it has
      completed before. */
  predicate Enabled(s: State, e: Event) {
    match e
    case Accepted(_) => s.phase.Accepting?
    case Poll => s.phase.Polling?
    case Transfers(id, n) =>
      && IsPending(s, id) && id in s.shut && !s.shut[id]
      && 0 < n && (s.tasks[id].left > 0 ==> n <= s.tasks[id].left)
    case Fails(id) => IsPending(s, id)
    case Resume(id) => id in s.tasks && s.tasks[id].Running? && !s.tasks[id].op.Pending? && Plausible(s.tasks[id])
    case Completed(id) => id in s.tasks && s.tasks[id].Finished?
    case SignalArrives => s.wait.Armed?
    case HandleSignal => s.wait.Delivered? || s.wait.Aborted?
  }

  /** The polling loop's test; leaving the frame destroys the signal set. */
  function CheckEmpty(s: State): State {
    if s.shut.Keys == {} then s.(phase := Returned, wait := if s.wait.Armed? then Aborted else s.wait)
    else s.(phase := Polling)
  }

  /** An operation that has succeeded moved at least one byte, and no more than it was offered. */
  predicate Plausible(task: Task) {
    task.Running? && task.op.Transferred? ==> 0 < task.op.n && (task.left > 0 ==> task.op.n <= task.left)
  }

  /** The echo loop, from the completion of an operation: it writes what was read, goes on with
      what is left of the chunk, reads again, or ends with the error. */
  function Continue(task: Task): Task
    requires task.Running? && !task.op.Pending? && Plausible(task)
  {
    match task.op
    case Failed => Finished
    case Transferred(n) =>
      if task.left == 0 then Running(n, Pending) else Running(task.left - n, Pending)
  }

  function Step(s: State, e: Event): State
    requires Enabled(s, e)
  {
    match e
    case Accepted(ok) =>
      if ok then
        s.(nextId := s.nextId + 1,
           shut := s.shut[s.nextId := false],
           tasks := s.tasks[s.nextId := Running(0, Pending)])
      else CheckEmpty(s)
    case Poll => CheckEmpty(s)
    case Transfers(id, n) => s.(tasks := s.tasks[id := s.tasks[id].(op := Transferred(n))])
    case Fails(id) => s.(tasks := s.tasks[id := s.tasks[id].(op := Failed)])
    case Resume(id) => s.(tasks := s.tasks[id := Continue(s.tasks[id])])
    case Completed(id) =>
      s.(tasks := s.tasks - {id}, shut := s.shut - {id}, erasedLate := s.erasedLate || s.phase.Returned?)
    case SignalArrives => s.(wait := Delivered)
    case HandleSignal =>
      if s.wait.Aborted? then s.(wait := Handled)
      else s.(wait := Handled, shut := map id | id in s.shut :: true, handledLate := s.phase.Returned?)
  }

  ghost predicate CanRun(s: State, es: seq<Event>)
    decreases |es|
  {
    es != [] ==> Enabled(s, es[0]) && CanRun(Step(s, es[0]), es[1..])
  }

  ghost function Run(s: State, es: seq<Event>): State
    requires CanRun(s, es)
    decreases |es|
  {
    if es == [] then s else Run(Step(s, es[0]), es[1..])
  }

  ghost predicate Inv(s: State) {
    && s.shut.Keys == s.tasks.Keys
    && (forall id :: id in s.tasks ==> id < s.nextId && Plausible(s.tasks[id]))
    && !s.erasedLate
    && (s.phase.Returned? ==> s.tasks.Keys == {} && !s.wait.Armed?)
    && (s.handledLate ==> s.phase.Returned? && s.wait.Handled?)
  }

  lemma StepKeepsInv(s: State, e: Event)
    requires Inv(s) && Enabled(s, e)
    ensures Inv(Step(s, e))
  {
  }

  lemma {:induction false} RunKeepsInv(s: State, es: seq<Event>)
    requires Inv(s) && CanRun(s, es)
    ensures Inv(Run(s, es))
    decreases |es|
  {
    if es != [] {
      StepKeepsInv(s, es[0]);
      RunKeepsInv(Step(s, es[0]), es[1..]);
    }
  }

  /** In every run the map holds exactly the sessions whose completion handler has not run, and
      no completion handler runs after the server has returned. */
  lemma CompletionHandlersAreInTime(es: seq<Event>)
    requires CanRun(INIT, es)
    ensures var s := Run(INIT, es);
            && s.shut.Keys == s.tasks.Keys
            && !s.erasedLate
            && (s.phase.Returned? ==> forall e :: Enabled(s, e) ==> e.HandleSignal?)
  {
    RunKeepsInv(INIT, es);
  }

  /** How many connections are accepted in `es`. */
  ghost function Connections(es: seq<Event>): nat {
    if es == [] then 0 else (if es[0] == Accepted(true) then 1 else 0) + Connections(es[1..])
  }

  lemma InCons(e: Event, es: seq<Event>)
    requires es != []
    ensures e in es <==> e == es[0] || e in es[1..]
  {
    assert es == [es[0]] + es[1..];
  }

  lemma {:induction false} SessionsHistory(s: State, es: seq<Event>, id: nat)
    requires Inv(s) && CanRun(s, es)
    ensures var t := Run(s, es);
            && t.nextId == s.nextId + Connections(es)
            && (id in t.tasks <==> (id in s.tasks || s.nextId <= id < t.nextId) && Completed(id) !in es)
            && (t.phase.Accepting? <==> s.phase.Accepting? && Accepted(false) !in es)
            && (id in t.shut && t.shut[id] ==> (id in s.shut && s.shut[id]) || HandleSignal in es)
    decreases |es|
  {
    if es != [] {
      StepKeepsInv(s, es[0]);
      InCons(Completed(id), es);
      InCons(Accepted(false), es);
      InCons(HandleSignal, es);
      SessionsHistory(Step(s, es[0]), es[1..], id);
    }
  }

  /** In every run, from the events alone: each accepted connection gets a session, which is in the
      map until its completion handler has run; the server accepts until accepting fails; and no
      socket is shut down before the signal was handled. */
  lemma SessionsOfRun(es: seq<Event>, id: nat)
    requires CanRun(INIT, es)
    ensures var t := Run(INIT, es);
            && (id in t.shut <==> id < Connections(es) && Completed(id) !in es)
            && (t.phase.Accepting? <==> Accepted(false) !in es)
            && (id in t.shut && t.shut[id] ==> HandleSignal in es)
  {
    RunKeepsInv(INIT, es);
    SessionsHistory(INIT, es, id);
    assert id in Run(INIT, es).shut <==> id in Run(INIT, es).shut.Keys;
    assert id in Run(INIT, es).tasks <==> id in Run(INIT, es).tasks.Keys;
  }

  // Shutting the sockets down

  /** What happens to session `id`. */
  predicate Concerns(e: Event, id: nat) {
    match e
    case Transfers(i, _) => i == id
    case Fails(i) => i == id
    case Resume(i) => i == id
    case Completed(i) => i == id
    case _ => false
  }

  /** How many events of `es` concern session `id`. */
  ghost function EventsOf(es: seq<Event>, id: nat): nat {
    if es == [] then 0 else (if Concerns(es[0], id) then 1 else 0) + EventsOf(es[1..], id)
  }

  /** Session `id` is resumed with success in `s`. */
  predicate Succeeds(s: State, e: Event, id: nat) {
    e == Resume(id) && id in s.tasks && s.tasks[id].Running? && s.tasks[id].op.Transferred?
  }

  /** How often session `id` is resumed with success. */
  ghost function Successes(s: State, es: seq<Event>, id: nat): nat
    requires CanRun(s, es)
    decreases |es|
  {
    if es == [] then 0 else (if Succeeds(s, es[0], id) then 1 else 0) + Successes(Step(s, es[0]), es[1..], id)
  }

  predicate IsRunning(s: State, id: nat) {
    id in s.tasks && s.tasks[id].Running?
  }

  /** The bytes session `id` has read and still has to write. */
  function Left(s: State, id: nat): nat {
    if IsRunning(s, id) then s.tasks[id].left else 0
  }

  /** The bytes that session `id` reads, or that it writes, in `es`. */
  ghost function Moved(s: State, es: seq<Event>, id: nat, reading: bool): nat
    requires CanRun(s, es)
    decreases |es|
  {
    if es == [] then 0
    else
      (if Succeeds(s, es[0], id) && (reading <==> s.tasks[id].left == 0) then s.tasks[id].op.n else 0)
      + Moved(Step(s, es[0]), es[1..], id, reading)
  }

  /** In every run, as long as a session has not ended, it has written what it has read except
      for the rest of the current chunk. */
  lemma {:induction false} EchoesWhatItReads(s: State, es: seq<Event>, id: nat)
    requires Inv(s) && CanRun(s, es)
    ensures IsRunning(Run(s, es), id) ==>
              && (IsRunning(s, id) || s.nextId <= id)
              && Moved(s, es, id, true) + Left(s, id) == Moved(s, es, id, false) + Left(Run(s, es), id)
    decreases |es|
  {
    if es != [] {
      StepKeepsInv(s, es[0]);
      EchoesWhatItReads(Step(s, es[0]), es[1..], id);
    }
  }

  /** The number of events until a session on a socket that was shut down is out of the map. */
  function Remaining(s: State, id: nat): nat {
    if id !in s.tasks then 0
    else
      match s.tasks[id]
      case Finished => 1
      case Running(_, Failed) => 2
      case Running(_, Pending) => 3
      case Running(_, Transferred(_)) => 4
  }

  /** Session `id` was spawned, and its socket is shut down if it is still in the map. */
  ghost predicate IsShut(s: State, id: nat) {
    id < s.nextId && (id in s.shut ==> s.shut[id])
  }

  lemma ShutStep(s: State, e: Event, id: nat)
    requires Inv(s) && Enabled(s, e) && IsShut(s, id)
    ensures IsShut(Step(s, e), id)
    ensures Remaining(Step(s, e), id) == Remaining(s, id) - (if Concerns(e, id) then 1 else 0)
    ensures Succeeds(s, e, id) <==> Remaining(s, id) == 4 && Remaining(Step(s, e), id) == 3
  {
  }

  /** The shut socket plays the role of a cancellation flag. Whatever happens after the signal
      was handled, a session that was in the map then is resumed with success once more if its
      operation had completed already, and not at all otherwise; its next operation fails and
      it ends. Every event of the session is one of at most four that it has left, and there is
      always one to come until it is out of the map. */
  lemma {:induction false} ShutSessionEnds(s: State, es: seq<Event>, id: nat)
    requires Inv(s) && CanRun(s, es) && IsShut(s, id)
    ensures var t := Run(s, es);
            && IsShut(t, id)
            && EventsOf(es, id) + Remaining(t, id) == Remaining(s, id)
            && Successes(s, es, id) == (if Remaining(s, id) == 4 && Remaining(t, id) < 4 then 1 else 0)
            && (id in t.shut <==> Remaining(t, id) > 0)
            && (id in t.shut ==> Enabled(t, Fails(id)) || Enabled(t, Resume(id)) || Enabled(t, Completed(id)))
    decreases |es|
  {
    if es != [] {
      StepKeepsInv(s, es[0]);
      ShutStep(s, es[0], id);
      ShutSessionEnds(Step(s, es[0]), es[1..], id);
    }
  }

  /** From the signal on: the handler reaches every session in the map. */
  lemma SignalEndsEverySession(s: State, es: seq<Event>, id: nat)
    requires Inv(s) && s.wait.Delivered? && id in s.tasks && CanRun(Step(s, HandleSignal), es)
    ensures var h := Step(s, HandleSignal);
            && EventsOf(es, id) <= 4
            && (Successes(h, es, id) > 0 ==> s.tasks[id].Running? && s.tasks[id].op.Transferred?)
            && Successes(h, es, id) <= 1
            && (id !in Run(h, es).shut <==> EventsOf(es, id) == Remaining(s, id))
  {
    StepKeepsInv(s, HandleSignal);
    ShutSessionEnds(Step(s, HandleSignal), es, id);
  }

  // The polling loop

  /** The events that the sessions with an id below `n` have left. */
  ghost function RemainingBelow(s: State, n: nat): nat {
    if n == 0 then 0 else Remaining(s, n - 1) + RemainingBelow(s, n - 1)
  }

  /** How many events of `es` concern a session. */
  ghost function SessionEvents(es: seq<Event>): nat {
    if es == [] then 0 else (if IsSessionEvent(es[0]) then 1 else 0) + SessionEvents(es[1..])
  }

  predicate IsSessionEvent(e: Event) {
    e.Transfers? || e.Fails? || e.Resume? || e.Completed?
  }

  lemma {:induction false} RemainingBelowStep(s: State, e: Event, n: nat)
    requires Inv(s) && Enabled(s, e) && n <= s.nextId
    requires forall id: nat :: id < n ==> IsShut(s, id)
    ensures RemainingBelow(Step(s, e), n) == RemainingBelow(s, n) - (if IsSessionEvent(e) && e.id < n then 1 else 0)
  {
    if n > 0 {
      assert IsShut(s, n - 1);
      ShutStep(s, e, n - 1);
      RemainingBelowStep(s, e, n - 1);
    }
  }

  lemma {:induction false} RemainingBelowBound(s: State, n: nat)
    requires Inv(s)
    ensures RemainingBelow(s, n) <= 4 * |set id | id in s.tasks && id < n|
    ensures RemainingBelow(s, n) == 0 <==> forall id :: id in s.tasks ==> n <= id
  {
    var below := set id | id in s.tasks && id < n;
    if n > 0 {
      RemainingBelowBound(s, n - 1);
      var before := set id | id in s.tasks && id < n - 1;
      if n - 1 in s.tasks {
        assert below == before + {n - 1};
      } else {
        assert below == before;
      }
    }
  }

  /** The server has left the accept loop, and all sockets in the map are shut down. */
  ghost predicate Draining(s: State) {
    !s.phase.Accepting? && forall id :: id in s.shut ==> s.shut[id]
  }

  lemma {:induction false} DrainingRun(s: State, es: seq<Event>)
    requires Inv(s) && Draining(s) && CanRun(s, es)
    ensures var t := Run(s, es);
            && Inv(t) && Draining(t) && t.nextId == s.nextId
            && SessionEvents(es) + RemainingBelow(t, t.nextId) == RemainingBelow(s, s.nextId)
    decreases |es|
  {
    if es != [] {
      StepKeepsInv(s, es[0]);
      RemainingBelowStep(s, es[0], s.nextId);
      DrainingRun(Step(s, es[0]), es[1..]);
    }
  }

  /** Once the signal was handled and the accept loop left, the polling loop returns: at most
      four events per session are left, however they interleave with each other and with the
      polling; while the loop polls and the map is not empty one of them is possible; and when
      they have happened, the next poll returns. */
  lemma PollingEnds(s: State, es: seq<Event>)
    requires Inv(s) && Draining(s) && CanRun(s, es)
    ensures SessionEvents(es) <= RemainingBelow(s, s.nextId) <= 4 * |s.shut.Keys|
    ensures var t := Run(s, es);
            && (SessionEvents(es) == RemainingBelow(s, s.nextId) <==> t.shut.Keys == {})
            && (t.shut.Keys != {} ==> exists e :: IsSessionEvent(e) && Enabled(t, e))
            && (t.shut.Keys == {} && !t.phase.Returned? ==> Enabled(t, Poll) && Step(t, Poll).phase.Returned?)
  {
    DrainingRun(s, es);
    var t := Run(s, es);
    RemainingBelowBound(s, s.nextId);
    assert (set id | id in s.tasks && id < s.nextId) == s.shut.Keys;
    RemainingBelowBound(t, t.nextId);
    if t.shut.Keys != {} {
      var id :| id in t.shut.Keys;
      assert Enabled(t, Fails(id)) || Enabled(t, Resume(id)) || Enabled(t, Completed(id));
    } else {
      assert forall id :: id in t.tasks ==> id in t.tasks.Keys;
    }
  }

  /** The signal handler itself is not covered by the drain. It touches the frame late exactly
      when the signal had been delivered, but not yet handled, at the time the server returned:
      a wait that is still armed then is aborted, and its handler does nothing. */
  lemma SignalHandlerIsLateExactlyWhen(s: State, e: Event, es: seq<Event>)
    requires Inv(s) && !s.phase.Returned? && Enabled(s, e) && Step(s, e).phase.Returned?
    requires CanRun(Step(s, e), es) && Run(Step(s, e), es).wait.Handled?
    ensures Run(Step(s, e), es).handledLate <==> s.wait.Delivered?
  {
    StepKeepsInv(s, e);
    AfterReturn(Step(s, e), es);
  }

  /** Such a run: the signal is delivered, the accept fails by itself, the server returns, and
      only then the handler runs. */
  lemma LateSignalExample()
    ensures var es := [SignalArrives, Accepted(false), HandleSignal];
            CanRun(INIT, es) && Run(INIT, es).handledLate
  {
    var es := [SignalArrives, Accepted(false), HandleSignal];
    var s1 := Step(INIT, es[0]);
    var s2 := Step(s1, es[1]);
    assert es[1..] == [Accepted(false), HandleSignal] && es[1..][1..] == [HandleSignal] && [HandleSignal][1..] == [];
    assert CanRun(s2, [HandleSignal]) && CanRun(s1, es[1..]);
    assert Run(s2, [HandleSignal]) == Step(s2, HandleSignal);
  }

  lemma {:induction false} AfterReturn(s: State, es: seq<Event>)
    requires Inv(s) && s.phase.Returned? && CanRun(s, es)
    ensures Run(s, es).handledLate <==>
              s.handledLate || (s.wait.Delivered? && Run(s, es).wait.Handled?)
    decreases |es|
  {
    if es != [] {
      StepKeepsInv(s, es[0]);
      AfterReturn(Step(s, es[0]), es[1..]);
    }
  }
}
