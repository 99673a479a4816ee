/** Servers that own their sessions through promises: destroying a promise cancels its task.
    A task that ends by itself erases its promise from the map it was stored in, so it must
    never do that once the map is gone.

    Two designs: the map is a member of an object that may be destroyed at any time while the
    accept loop and the sessions are still pending, or a local variable of the accept loop's
    own frame, cleared when the loop ends. */
module PromiseSessions {

  datatype Design = MapInObject | MapInFrame

  /** `Done` means that the echo loop has ended and its session task is about to be resumed; it
      may have been cancelled before or after that. */
  datatype Task = Echoing(cancelled: bool) | Done(cancelled: bool)

  datatype Op = Waiting | Ready(ok: bool)

  /** The accept loop: suspended in `async_accept`, or over. */
  datatype Loop = Accepting(op: Op, cancelled: bool) | Over

  datatype State = State(
    mapAlive: bool,
    promises: set<nat>,           // keys of the map
    tasks: map<nat, Task>,        // tasks that have not finished
    acceptLoop: Loop,
    nextId: nat,
    faulted: bool)                // somebody touched the map after its end

  const INIT := State(true, {}, map[], Accepting(Waiting, false), 0, false)

  datatype Event =
    | Connect(ok: bool)      // async_accept completes
    | ResumeLoop             // the accept loop runs to its next suspension
    | Stop                   // the object is destroyed, or the accept loop cancelled
    | EchoEnds(id: nat)      // the echo loop of a task ends, by itself or cancelled
    | ResumeTask(id: nat)    // a session task runs to its end

  predicate Enabled(design: Design, s: State, e: Event) {
    match e
    case Connect(_) => s.acceptLoop.Accepting? && s.acceptLoop.op.Waiting?
    case ResumeLoop => s.acceptLoop.Accepting? && s.acceptLoop.op.Ready?
    case Stop => if design.MapInObject? then s.mapAlive else s.acceptLoop.Accepting?
    case EchoEnds(id) => id in s.tasks && s.tasks[id].Echoing?
    case ResumeTask(id) => id in s.tasks && s.tasks[id].Done?
  }

  /** Destroys the map and with it every promise in it, which cancels their tasks. */
  function ClearMap(s: State): State {
    s.(mapAlive := false, promises := {},
       tasks := map id | id in s.tasks ::
         if id in s.promises then s.tasks[id].(cancelled := true) else s.tasks[id])
  }

  /** Spawns a task and stores its promise in the map. */
  function Spawn(s: State): State {
    s.(promises := s.promises + {s.nextId},
       tasks := s.tasks[s.nextId := Echoing(false)],
       nextId := s.nextId + 1,
       faulted := s.faulted || !s.mapAlive)
  }

  /** Cancelling the loop makes a pending accept fail; one that has completed still succeeds. */
  function CancelLoop(s: State): State {
    match s.acceptLoop
    case Over => s
    case Accepting(op, _) => s.(acceptLoop := Accepting(if op.Waiting? then Ready(false) else op, true))
  }

  function AcceptAgain(s: State): State {
    s.(acceptLoop := Accepting(Waiting, false))
  }

  function OnLoop(design: Design, s: State): State
    requires s.acceptLoop.Accepting? && s.acceptLoop.op.Ready?
  {
    var ok, cancelled := s.acceptLoop.op.ok, s.acceptLoop.cancelled;
    match design
    case MapInObject =>
      if !ok || cancelled then s.(acceptLoop := Over) else AcceptAgain(Spawn(s))
    case MapInFrame =>
      var t := if ok then Spawn(s) else s;
      if !ok || cancelled then ClearMap(t).(acceptLoop := Over) else AcceptAgain(t)
  }

  function OnTask(s: State, id: nat): State
    requires id in s.tasks
  {
    if s.tasks[id].cancelled then
      s.(tasks := s.tasks - {id})
    else
      s.(tasks := s.tasks - {id}, promises := s.promises - {id}, faulted := s.faulted || !s.mapAlive)
  }

  function Step(design: Design, s: State, e: Event): State
    requires Enabled(design, s, e)
  {
    match e
    case Connect(ok) => s.(acceptLoop := s.acceptLoop.(op := Ready(ok)))
    case ResumeLoop => OnLoop(design, s)
    case Stop => if design.MapInObject? then ClearMap(CancelLoop(s)) else CancelLoop(s)
    case EchoEnds(id) => s.(tasks := s.tasks[id := Done(s.tasks[id].cancelled)])
    case ResumeTask(id) => OnTask(s, id)
  }

  ghost predicate CanRun(design: Design, s: State, es: seq<Event>)
    decreases |es|
  {
    es != [] ==> Enabled(design, s, es[0]) && CanRun(design, Step(design, s, es[0]), es[1..])
  }

  ghost function Run(design: Design, s: State, es: seq<Event>): State
    requires CanRun(design, s, es)
    decreases |es|
  {
    if es == [] then s else Run(design, Step(design, s, es[0]), es[1..])
  }

  ghost predicate Inv(design: Design, s: State) {
    && !s.faulted
    && (forall id :: id in s.tasks ==> id < s.nextId)
    && (s.mapAlive ==> s.promises == s.tasks.Keys && forall id :: id in s.tasks ==> !s.tasks[id].cancelled)
    && (!s.mapAlive ==> s.promises == {} && forall id :: id in s.tasks ==> s.tasks[id].cancelled)
    && (!s.mapAlive ==> s.acceptLoop.Over? || (design.MapInObject? && s.acceptLoop.cancelled))
    && (design.MapInObject? && s.acceptLoop.Accepting? && s.acceptLoop.cancelled ==> s.acceptLoop.op.Ready?)
  }

  lemma StepKeepsInv(design: Design, s: State, e: Event)
    requires Inv(design, s) && Enabled(design, s, e)
    ensures Inv(design, Step(design, s, e))
  {
  }

  lemma {:induction false} RunKeepsInv(design: Design, s: State, es: seq<Event>)
    requires Inv(design, s) && CanRun(design, s, es)
    ensures Inv(design, Run(design, s, es))
    decreases |es|
  {
    if es != [] {
      StepKeepsInv(design, s, es[0]);
      RunKeepsInv(design, Step(design, s, es[0]), es[1..]);
    }
  }

  // Who is spawned, and for how long

  /** How many sessions are spawned in `es`: one for each resume of the accept loop with an
      accepted connection, unless the object is destroyed before. `inHand` is an accepted
      connection that the loop was not resumed for yet, `stopped` a cancellation of the loop. */
  ghost function Spawned(design: Design, es: seq<Event>, inHand: bool, stopped: bool): nat {
    if es == [] then 0
    else
      match es[0]
      case Connect(ok) => Spawned(design, es[1..], ok, stopped)
      case Stop => Spawned(design, es[1..], inHand, true)
      case ResumeLoop =>
        (if inHand && (design.MapInFrame? || !stopped) then 1 else 0) + Spawned(design, es[1..], false, false)
      case _ => Spawned(design, es[1..], inHand, stopped)
  }

  /** The accept loop is over after `es`: it was resumed when accepting had failed, or when it
      had been cancelled since the resume before. */
  ghost predicate LoopEnds(es: seq<Event>, inHand: bool, stopped: bool) {
    es != [] &&
    match es[0]
    case Connect(ok) => LoopEnds(es[1..], ok, stopped)
    case Stop => LoopEnds(es[1..], inHand, true)
    case ResumeLoop => !inHand || stopped || LoopEnds(es[1..], false, false)
    case _ => LoopEnds(es[1..], inHand, stopped)
  }

  predicate InHand(s: State) {
    s.acceptLoop.Accepting? && s.acceptLoop.op == Ready(true)
  }

  predicate Stopped(s: State) {
    s.acceptLoop.Accepting? && s.acceptLoop.cancelled
  }

  lemma LoopStaysOver(design: Design, s: State, es: seq<Event>)
    requires CanRun(design, s, es) && s.acceptLoop.Over?
    ensures Run(design, s, es).acceptLoop.Over? && Run(design, s, es).nextId == s.nextId
    ensures Spawned(design, es, false, false) == 0 && Spawned(design, es, false, true) == 0
    decreases |es|
  {
    if es != [] { LoopStaysOver(design, Step(design, s, es[0]), es[1..]); }
  }

  /** In every run, from the events alone: how many sessions were spawned, and whether the accept
      loop is over. */
  lemma {:induction false} SpawnedInRun(design: Design, s: State, es: seq<Event>)
    requires Inv(design, s) && CanRun(design, s, es) && s.acceptLoop.Accepting?
    ensures var t := Run(design, s, es);
            && t.nextId == s.nextId + Spawned(design, es, InHand(s), Stopped(s))
            && (t.acceptLoop.Over? <==> LoopEnds(es, InHand(s), Stopped(s)))
    decreases |es|
  {
    if es != [] {
      var t := Step(design, s, es[0]);
      StepKeepsInv(design, s, es[0]);
      if t.acceptLoop.Over? {
        LoopStaysOver(design, t, es[1..]);
      } else {
        SpawnedInRun(design, t, es[1..]);
      }
    }
  }

  lemma {:induction false} TasksOfRun(design: Design, s: State, es: seq<Event>, id: nat)
    requires Inv(design, s) && CanRun(design, s, es)
    ensures s.nextId <= Run(design, s, es).nextId
    ensures id in Run(design, s, es).tasks <==>
              && (id in s.tasks || s.nextId <= id < Run(design, s, es).nextId)
              && ResumeTask(id) !in es
    decreases |es|
  {
    if es != [] {
      StepKeepsInv(design, s, es[0]);
      assert es == [es[0]] + es[1..];
      TasksOfRun(design, Step(design, s, es[0]), es[1..], id);
    }
  }

  /** When the map ends: with the object, or with the accept loop whose frame holds it. */
  lemma {:induction false} EndOfMap(design: Design, s: State, es: seq<Event>)
    requires CanRun(design, s, es) && (design.MapInFrame? ==> (s.mapAlive <==> s.acceptLoop.Accepting?))
    ensures var t := Run(design, s, es);
            t.mapAlive <==> if design.MapInObject? then s.mapAlive && Stop !in es else t.acceptLoop.Accepting?
    decreases |es|
  {
    if es != [] {
      assert es == [es[0]] + es[1..];
      EndOfMap(design, Step(design, s, es[0]), es[1..]);
    }
  }

  /** Every accepted connection that the loop was resumed with, and that it had not been cancelled
      before in the design with the object, gets a session, and no other session exists. It is
      unfinished until its task is resumed, and its promise is in the map until then or until
      the end of the map: the destruction of the object, or the end of the accept loop. */
  lemma EveryConnectionGetsASession(design: Design, es: seq<Event>, id: nat)
    requires CanRun(design, INIT, es)
    ensures var s := Run(design, INIT, es);
            var ended := if design.MapInObject? then Stop in es else LoopEnds(es, false, false);
            && s.nextId == Spawned(design, es, false, false)
            && (id in s.tasks <==> id < Spawned(design, es, false, false) && ResumeTask(id) !in es)
            && (id in s.promises <==> id in s.tasks && !ended)
  {
    SpawnedInRun(design, INIT, es);
    TasksOfRun(design, INIT, es, id);
    EndOfMap(design, INIT, es);
    RunKeepsInv(design, INIT, es);
  }

  /** In every run of either design: while the map lives its keys are exactly the unfinished
      tasks; once it is gone every unfinished task has a recorded cancellation, also one whose
      I/O had completed before. Nobody ever touches the map after its end. */
  lemma MapIsNeverTouchedAfterItsEnd(design: Design, es: seq<Event>)
    requires CanRun(design, INIT, es)
    ensures var s := Run(design, INIT, es);
            && !s.faulted
            && (s.mapAlive ==> s.promises == s.tasks.Keys)
            && (!s.mapAlive ==> forall id :: id in s.tasks ==> s.tasks[id].cancelled)
            && (!s.mapAlive ==> forall e :: Enabled(design, s, e) ==> Step(design, s, e).promises == {})
  {
    RunKeepsInv(design, INIT, es);
    var s := Run(design, INIT, es);
    forall e | Enabled(design, s, e) && !s.mapAlive
      ensures Step(design, s, e).promises == {}
    {
      StepKeepsInv(design, s, e);
    }
  }

  /** After the map is gone every task that is left is finished off by two events, and only
      they and the last resume of the accept loop can still happen. */
  lemma TasksOutliveTheMapHarmlessly(design: Design, s: State, id: nat)
    requires Inv(design, s) && !s.mapAlive && id in s.tasks
    ensures var t := if s.tasks[id].Echoing? then Step(design, s, EchoEnds(id)) else s;
            && Enabled(design, t, ResumeTask(id))
            && id !in Step(design, t, ResumeTask(id)).tasks
            && Step(design, t, ResumeTask(id)).promises == s.promises
  {
  }
}
