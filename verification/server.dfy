/** The echo server with graceful, escalating shutdown: accept loop, forwarding of
    cancellation to the sessions, and the drain that waits for the last of them.

    The state is what the server coroutine's frame holds, together with the sessions the
    executor still runs. The completion handler of a session captures that frame by
    reference, so running one after the server has returned is recorded as a fault. */
module EchoServer {
  import opened Cancellation
  import S = EchoSession

  datatype Signal = SIGINT | SIGTERM | SIGTSTP

  /** What `signal_handling` emits for a signal. */
  function KindsOf(signal: Signal): Kinds {
    match signal
    case SIGTSTP => TOTAL
    case SIGINT => PARTIAL
    case SIGTERM => TERMINAL
  }

  datatype Phase = Accepting | Draining | Returned

  /** The operation the server is suspended in: `async_accept` or `async_receive`. Once it
      is ready its result is fixed, whatever is requested afterwards. */
  datatype Op = Waiting | Ready(ok: bool)

  datatype State = State(
    phase: Phase,
    op: Op,
    nextId: nat,
    sessions: set<nat>,              // keys of the map of cancellation signals
    tasks: map<nat, S.Session>,      // spawned sessions whose completion handler has not run
    cancel: CancelState,
    faulted: bool)                   // a completion handler ran after the server returned

  const INIT := State(Accepting, Waiting, 0, {}, map[], Reset(ENABLE_TOTAL), false)

  datatype Event =
    | Request(signal: Signal)               // a signal is emitted to the server's slot
    | Connect(ok: bool)                     // async_accept completes
    | Resume                                // the server runs from here to its next suspension
    | SessionMoves(id: nat, event: S.Event) // a session runs to its next suspension
    | Completed(id: nat)                    // a session's completion handler runs

  predicate Enabled(s: State, e: Event) {
    match e
    case Request(_) => true
    case Connect(_) => s.phase.Accepting? && s.op.Waiting?
    case Resume => !s.phase.Returned? && s.op.Ready?
    case SessionMoves(id, event) => id in s.tasks && !event.EmitToSession? && S.Enabled(s.tasks[id], event)
    case Completed(id) => id in s.tasks && s.tasks[id].stage.Finished?
  }

  /** Emits `kinds` on the signal of every session in the map. */
  function Forward(policy: Policy, s: State, kinds: Kinds): State {
    s.(tasks := map id | id in s.tasks ::
         if id in s.sessions then S.Notify(policy, s.tasks[id], kinds) else s.tasks[id])
  }

  function Spawn(s: State): State {
    s.(nextId := s.nextId + 1, sessions := s.sessions + {s.nextId}, tasks := s.tasks[s.nextId := S.FRESH])
  }

  function AwaitAccept(s: State): State {
    s.(op := Waiting, cancel := Reset(ENABLE_TOTAL))
  }

  /** The head of the drain loop: return, or wait for the next notification. */
  function AwaitDrain(s: State): State {
    if s.sessions == {} then
      s.(phase := Returned)
    else
      s.(phase := Draining, op := Waiting, cancel := Reset(ENABLE_TERMINAL))
  }

  function ResumeAccept(policy: Policy, s: State): State
    requires s.op.Ready?
  {
    var t := if s.op.ok then Spawn(s) else s;
    var recorded := s.cancel.recorded;
    if recorded == TOTAL then
      AwaitAccept(Forward(policy, t, recorded))
    else if !s.op.ok || recorded.Any() then
      AwaitDrain(Forward(policy, t, recorded))
    else
      AwaitAccept(t)
  }

  function ResumeDrain(policy: Policy, s: State): State {
    AwaitDrain(if s.cancel.recorded.Any() then Forward(policy, s, s.cancel.recorded) else s)
  }

  function OnRequest(policy: Policy, s: State, kinds: Kinds): State {
    if s.phase.Returned? then
      s
    else
      s.(cancel := s.cancel.Emit(policy, kinds),
         op := if s.op.Waiting? && kinds.And(s.cancel.filter).Any() then Ready(false) else s.op)
  }

  /** The handler erases its session and notifies the channel. The channel has no buffer: the
      notification is dropped unless a receive is waiting. */
  function OnCompleted(s: State, id: nat): State {
    s.(sessions := s.sessions - {id},
       tasks := s.tasks - {id},
       op := if s.phase.Draining? && s.op.Waiting? then Ready(true) else s.op,
       faulted := s.faulted || s.phase.Returned?)
  }

  function Step(policy: Policy, s: State, e: Event): State
    requires Enabled(s, e)
  {
    match e
    case Request(signal) => OnRequest(policy, s, KindsOf(signal))
    case Connect(ok) => s.(op := Ready(ok))
    case Resume => if s.phase.Accepting? then ResumeAccept(policy, s) else ResumeDrain(policy, s)
    case SessionMoves(id, event) => s.(tasks := s.tasks[id := S.Step(policy, s.tasks[id], event)])
    case Completed(id) => OnCompleted(s, id)
  }

  ghost predicate CanRun(policy: Policy, s: State, es: seq<Event>)
    decreases |es|
  {
    es != [] ==> Enabled(s, es[0]) && CanRun(policy, Step(policy, s, es[0]), es[1..])
  }

  ghost function Run(policy: Policy, s: State, es: seq<Event>): State
    requires CanRun(policy, s, es)
    decreases |es|
  {
    if es == [] then s else Run(policy, Step(policy, s, es[0]), es[1..])
  }

  // The invariant

  /** Every session in the map is running or about to be erased, and the other way round. */
  ghost predicate Tracked(policy: Policy, s: State) {
    && s.sessions == s.tasks.Keys
    && (forall id :: id in s.tasks ==> id < s.nextId && S.Inv(policy, s.tasks[id]))
  }

  ghost predicate CancelInv(policy: Policy, s: State) {
    && s.cancel.Faithful(policy)
    && s.cancel.filter == (if s.phase.Accepting? then ENABLE_TOTAL else ENABLE_TERMINAL)
    && (s.cancel.recorded.Any() ==> s.op.Ready?)
  }

  ghost predicate Inv(policy: Policy, s: State) {
    && Tracked(policy, s)
    && !s.faulted
    && (s.phase.Returned? ==> s.sessions == {})
    && (s.phase.Draining? && s.op.Waiting? ==> s.sessions != {})
    && (!s.phase.Returned? ==> CancelInv(policy, s))
  }

  lemma ForwardKeepsTracked(policy: Policy, s: State, kinds: Kinds)
    requires Tracked(policy, s)
    ensures Tracked(policy, Forward(policy, s, kinds))
  {
    forall id | id in s.tasks
      ensures S.Inv(policy, S.Notify(policy, s.tasks[id], kinds))
    {
      S.StepKeepsInv(policy, s.tasks[id], S.EmitToSession(kinds));
    }
  }

  lemma SpawnKeepsTracked(policy: Policy, s: State)
    requires Tracked(policy, s)
    ensures Tracked(policy, Spawn(s))
  {
  }

  lemma AwaitKeepsInv(policy: Policy, s: State)
    requires Tracked(policy, s) && !s.faulted
    ensures s.phase.Accepting? ==> Inv(policy, AwaitAccept(s))
    ensures Inv(policy, AwaitDrain(s))
  {
  }

  lemma ResumeKeepsInv(policy: Policy, s: State)
    requires Inv(policy, s) && Enabled(s, Resume)
    ensures Inv(policy, Step(policy, s, Resume))
  {
    SpawnKeepsTracked(policy, s);
    var t := if s.phase.Accepting? && s.op.ok then Spawn(s) else s;
    ForwardKeepsTracked(policy, t, s.cancel.recorded);
    AwaitKeepsInv(policy, t);
    AwaitKeepsInv(policy, Forward(policy, t, s.cancel.recorded));
  }

  lemma StepKeepsInv(policy: Policy, s: State, e: Event)
    requires Inv(policy, s) && Enabled(s, e)
    ensures Inv(policy, Step(policy, s, e))
  {
    match e
    case Request(signal) =>
      if !s.phase.Returned? { EmitIsFaithful(policy, s.cancel, KindsOf(signal)); }
    case Resume => ResumeKeepsInv(policy, s);
    case SessionMoves(id, event) => S.StepKeepsInv(policy, s.tasks[id], event);
    case _ =>
  }

  lemma {:induction false} RunKeepsInv(policy: Policy, s: State, es: seq<Event>)
    requires Inv(policy, s) && CanRun(policy, s, es)
    ensures Inv(policy, Run(policy, s, es))
    decreases |es|
  {
    if es != [] {
      StepKeepsInv(policy, s, es[0]);
      RunKeepsInv(policy, Step(policy, s, es[0]), es[1..]);
    }
  }
}
