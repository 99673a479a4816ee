/** The signal escalation ladder SIGINT, SIGTERM, SIGKILL, and the child it drives.

    Time is counted in milliseconds. A child is an arbitrary function of the signals sent to
    it where the ladder's safety is concerned, and the `handle_signal` program where the exit
    code is. */
module Escalation {
  import opened Cancellation
  import opened Wrappers

  datatype Signal = SIGINT | SIGTERM | SIGKILL

  function Number(signal: Signal): int {
    match signal
    case SIGINT => 2
    case SIGTERM => 15
    case SIGKILL => 9
  }

  datatype Sent = Sent(signal: Signal, at: nat)

  /** The result of waiting for the child: it has exited, or the wait failed. */
  datatype Waited = Exited(rc: int) | TimedOut

  /** Any behaviour of a child: what a wait that ends at a deadline reports, given the signals
      sent so far. Without a deadline the wait lasts until the child exits. */
  type Behaviour = (seq<Sent>, Option<nat>) -> Waited

  const PATIENCE := 1000

  // The ladder

  /** Which signal stands for which strength. */
  predicate Allowed(mask: Kinds, signal: Signal) {
    match signal
    case SIGINT => mask.total
    case SIGTERM => mask.partial
    case SIGKILL => mask.terminal
  }

  function Rank(signal: Signal): nat {
    match signal
    case SIGINT => 0
    case SIGTERM => 1
    case SIGKILL => 2
  }

  /** The signals a mask allows, weakest first, each one second after the one before. */
  function Schedule(mask: Kinds, start: nat): (plan: seq<Sent>)
    ensures forall i :: 0 <= i < |plan| ==> plan[i].at == start + i * PATIENCE
  {
    var ints := if mask.total then [Sent(SIGINT, start)] else [];
    var terms := ints + if mask.partial then [Sent(SIGTERM, start + |ints| * PATIENCE)] else [];
    terms + if mask.terminal then [Sent(SIGKILL, start + |terms| * PATIENCE)] else []
  }

  /** When the wait after the last signal ends: never after SIGKILL. */
  function LastDeadline(mask: Kinds, start: nat): Option<nat> {
    if mask.terminal then None else Some(start + |Schedule(mask, start)| * PATIENCE)
  }

  /** Every signal was sent only because the wait just before it had timed out. */
  ghost predicate Unanswered(child: Behaviour, sent: seq<Sent>) {
    forall k :: 0 <= k < |sent| ==> child(sent[..k], Some(sent[k].at)) == TimedOut
  }

  lemma SendUnanswered(child: Behaviour, sent: seq<Sent>, next: Sent)
    requires Unanswered(child, sent) && child(sent, Some(next.at)) == TimedOut
    ensures Unanswered(child, sent + [next])
  {
    assert forall k :: 0 <= k <= |sent| ==> (sent + [next])[..k] == sent[..k];
    assert sent[..|sent|] == sent;
  }

  /** What a ladder may have done when it returns `rc` having sent `sent`. */
  ghost predicate Climbed(mask: Kinds, start: nat, child: Behaviour, overrideCode: bool, rc: int, sent: seq<Sent>) {
    var plan := Schedule(mask, start);
    // The signals sent follow the plan,
    && sent <= plan
    // none of them after a wait that saw the child exit,
    && Unanswered(child, sent)
    // and the ladder stops early only because the child has exited.
    && (|sent| < |plan| ==> child(sent, Some(plan[|sent|].at)) == Exited(rc))
    && (sent == plan ==>
          var last := child(plan, LastDeadline(mask, start));
          if mask.terminal && overrideCode && last.Exited? then rc == Number(SIGKILL)
          else last == Exited(rc) || (last == TimedOut && (child(plan, None).Exited? ==> child(plan, None) == Exited(rc))))
  }

  /** `execute`, cancelled with `mask` at time `start` while it waits for the child.
      `overrideCode` is the workaround for library versions that misreport SIGKILL. */
  method Execute(mask: Kinds, start: nat, child: Behaviour, overrideCode: bool) returns (rc: int, sent: seq<Sent>)
    ensures Climbed(mask, start, child, overrideCode, rc, sent)
  {
    var now := start;
    sent := [];
    var result := child(sent, Some(now));

    if result == TimedOut && mask.total {
      SendUnanswered(child, sent, Sent(SIGINT, now));
      sent := sent + [Sent(SIGINT, now)];
      now := now + PATIENCE;
      result := child(sent, Some(now));
    }

    if result == TimedOut && mask.partial {
      SendUnanswered(child, sent, Sent(SIGTERM, now));
      sent := sent + [Sent(SIGTERM, now)];
      now := now + PATIENCE;
      result := child(sent, Some(now));
    }

    rc := if result.Exited? then result.rc else 0;
    if result == TimedOut && mask.terminal {
      SendUnanswered(child, sent, Sent(SIGKILL, now));
      sent := sent + [Sent(SIGKILL, now)];
      result := child(sent, None);
      if result.Exited? {
        rc := result.rc;
      }
      if overrideCode {
        rc := Number(SIGKILL);
      }
    }

    if result == TimedOut {
      result := child(sent, None);
      if result.Exited? {
        rc := result.rc;
      }
    }
  }

  /** Ever stronger signals, all allowed by the mask, one second apart. */
  ghost predicate Orderly(mask: Kinds, start: nat, sent: seq<Sent>) {
    && |sent| <= 3
    && (forall i, j :: 0 <= i < j < |sent| ==> Rank(sent[i].signal) < Rank(sent[j].signal))
    && (forall i :: 0 <= i < |sent| ==> Allowed(mask, sent[i].signal))
    && (forall i :: 0 <= i < |sent| ==> sent[i].at == start + i * 1000)
  }

  lemma ScheduleIsOrderly(mask: Kinds, start: nat)
    ensures Orderly(mask, start, Schedule(mask, start))
    ensures mask.terminal ==> Schedule(mask, start) != []
    ensures mask.terminal ==> Schedule(mask, start)[|Schedule(mask, start)| - 1].signal == SIGKILL
  {
  }

  /** For every child behaviour: each signal at most once, in order of strength, only what the
      mask allows, none after an exit was seen, and SIGKILL at most two seconds after the
      cancellation; with terminal in the mask it is sent unless the child exits before. */
  lemma EscalationIsSafe(mask: Kinds, start: nat, child: Behaviour, overrideCode: bool, rc: int, sent: seq<Sent>)
    requires Climbed(mask, start, child, overrideCode, rc, sent)
    ensures Orderly(mask, start, sent) && Unanswered(child, sent)
    ensures mask.terminal ==>
              || (sent != [] && sent[|sent| - 1].signal == SIGKILL)
              || (|sent| <= 2 && child(sent, Some(start + |sent| * 1000)) == Exited(rc))
  {
    ScheduleIsOrderly(mask, start);
  }

  // The child

  /** The options of `handle_signal`: how many signals to ignore, if a handler is installed at
      all, the child's own timeout, and how long it takes to react to a signal. */
  datatype Config = Config(sigint: Option<nat>, sigterm: Option<nat>, timeout: nat, delay: nat)

  /** The counting loop of `handle`: with `delivered` signals it finishes exactly when more
      arrive than are to be ignored, and consumes no more than it needs. */
  method Handle(toIgnore: nat, delivered: nat) returns (finished: bool, seen: nat)
    ensures finished <==> FinishesAfter(toIgnore, delivered)
    ensures seen == if finished then toIgnore + 1 else delivered
  {
    seen := 0;
    while seen <= toIgnore
      invariant seen <= toIgnore + 1 && seen <= delivered
    {
      if seen == delivered {
        return false, seen;
      }
      seen := seen + 1;
    }
    finished := true;
  }

  predicate FinishesAfter(toIgnore: nat, delivered: nat) {
    toIgnore < delivered
  }

  /** The exit code with which the first delivery of a signal ends the child, if it does: the
      default action of the signal without a handler, a normal return with one. */
  function EndsWith(config: Config, signal: Signal): Option<int> {
    match signal
    case SIGKILL => Some(9)
    case SIGINT => Reaction(config.sigint, signal)
    case SIGTERM => Reaction(config.sigterm, signal)
  }

  function Reaction(ignored: Option<nat>, signal: Signal): Option<int> {
    if ignored.None? then Some(Number(signal))
    else if FinishesAfter(ignored.value, 1) then Some(0)
    else None
  }

  /** When and with which code the child exits if exactly `sent` is sent: the first signal it
      does not survive ends it, unless its own timeout comes first. */
  function Death(config: Config, sent: seq<Sent>): (nat, int) {
    if sent == [] then
      (config.timeout, 0)
    else
      var code := EndsWith(config, sent[0].signal);
      var at := sent[0].at + if sent[0].signal.SIGKILL? then 0 else config.delay;
      if code.None? then Death(config, sent[1..])
      else if config.timeout < at then (config.timeout, 0)
      else (at, code.value)
  }

  /** What waiting for this child reports. */
  function Observe(config: Config): Behaviour {
    (sent: seq<Sent>, deadline: Option<nat>) =>
      var (at, code) := Death(config, sent);
      if deadline.None? || at < deadline.value then Exited(code) else TimedOut
  }

  /** The child's handler, or the default action if it has none, ends it at the first signal. */
  predicate Obeys(ignored: Option<nat>) {
    ignored.None? || ignored.value == 0
  }

  /** The exit code in closed form. The first signal of the mask that the child obeys ends it,
      with the number of the signal if it has no handler; SIGKILL is always obeyed. A child
      that ends by its own timeout before, or that obeys none of them, returns 0. */
  function ExitCode(config: Config, mask: Kinds, start: nat): int {
    var second := start + if mask.total then PATIENCE else 0;
    var third := second + if mask.partial then PATIENCE else 0;
    if mask.total && Obeys(config.sigint) then
      if config.sigint.None? && start + config.delay <= config.timeout then 2 else 0
    else if mask.partial && Obeys(config.sigterm) then
      if config.sigterm.None? && second + config.delay <= config.timeout then 15 else 0
    else if mask.terminal && third <= config.timeout then
      9
    else
      0
  }

  lemma Survived(config: Config, first: Sent, rest: seq<Sent>)
    requires EndsWith(config, first.signal).None?
    ensures Death(config, [first] + rest) == Death(config, rest)
  {
    assert ([first] + rest)[1..] == rest;
  }

  /** The child that is sent the whole plan of a mask ends with the code of the closed form. */
  lemma PlanEndsWithExitCode(config: Config, mask: Kinds, start: nat)
    ensures Death(config, Schedule(mask, start)).1 == ExitCode(config, mask, start)
  {
    var second := start + if mask.total then PATIENCE else 0;
    var third := second + if mask.partial then PATIENCE else 0;
    var kill := if mask.terminal then [Sent(SIGKILL, third)] else [];
    var term := (if mask.partial then [Sent(SIGTERM, second)] else []) + kill;
    assert Schedule(mask, start) == (if mask.total then [Sent(SIGINT, start)] else []) + term;
    if mask.total && !Obeys(config.sigint) {
      Survived(config, Sent(SIGINT, start), term);
    }
    if mask.partial && !Obeys(config.sigterm) {
      Survived(config, Sent(SIGTERM, second), kill);
    }
  }

  /** If the child survives none of `sent` before `t` and does exit before `t`, signals sent
      from `t` on make no difference to its exit. */
  lemma {:induction false} LaterSignalsDontMatter(config: Config, sent: seq<Sent>, later: seq<Sent>, t: nat)
    requires Death(config, sent).0 < t
    requires forall i :: 0 <= i < |later| ==> t <= later[i].at
    ensures Death(config, sent + later) == Death(config, sent)
    decreases |sent| + |later|
  {
    if sent != [] {
      assert (sent + later)[1..] == sent[1..] + later;
      if EndsWith(config, sent[0].signal).None? {
        LaterSignalsDontMatter(config, sent[1..], later, t);
      }
    } else {
      assert sent + later == later;
      if later != [] && EndsWith(config, later[0].signal).None? {
        assert [] + later[1..] == later[1..];
        LaterSignalsDontMatter(config, [], later[1..], t);
      }
    }
  }

  /** A child that has outlived every signal and its own timeout so far is killed by SIGKILL. */
  lemma {:induction false} KilledAtLast(config: Config, sent: seq<Sent>, at: nat)
    requires config.delay < PATIENCE
    requires forall i :: 0 <= i < |sent| ==> sent[i].at + PATIENCE <= at
    requires at <= Death(config, sent).0
    ensures Death(config, sent + [Sent(SIGKILL, at)]) == (at, Number(SIGKILL))
    decreases |sent|
  {
    if sent != [] {
      assert (sent + [Sent(SIGKILL, at)])[1..] == sent[1..] + [Sent(SIGKILL, at)];
      KilledAtLast(config, sent[1..], at);
    } else {
      assert sent + [Sent(SIGKILL, at)] == [Sent(SIGKILL, at)];
    }
  }

  lemma StoppedEarly(config: Config, mask: Kinds, start: nat, plan: seq<Sent>, sent: seq<Sent>)
    requires Orderly(mask, start, plan) && sent <= plan && |sent| < |plan|
    requires Death(config, sent).0 < plan[|sent|].at
    ensures Death(config, plan) == Death(config, sent)
  {
    LaterSignalsDontMatter(config, sent, plan[|sent|..], plan[|sent|].at);
    assert plan == sent + plan[|sent|..];
  }

  lemma KilledByPlan(config: Config, mask: Kinds, start: nat, plan: seq<Sent>)
    requires config.delay < PATIENCE && Orderly(mask, start, plan)
    requires plan != [] && plan[|plan| - 1].signal == SIGKILL
    requires Unanswered(Observe(config), plan)
    ensures Death(config, plan).1 == Number(SIGKILL)
  {
    var k := |plan| - 1;
    assert Observe(config)(plan[..k], Some(plan[k].at)) == TimedOut;
    KilledAtLast(config, plan[..k], plan[k].at);
    assert plan == plan[..k] + [Sent(SIGKILL, plan[k].at)];
  }

  /** The outcome: for every configuration of the child that reacts within a second, every mask
      and every time of cancellation, the ladder returns the closed-form exit code. */
  lemma EscalationOutcome(config: Config, mask: Kinds, start: nat, overrideCode: bool, rc: int, sent: seq<Sent>)
    requires config.delay < PATIENCE
    requires Climbed(mask, start, Observe(config), overrideCode, rc, sent)
    ensures rc == ExitCode(config, mask, start)
  {
    ScheduleIsOrderly(mask, start);
    PlanEndsWithExitCode(config, mask, start);
    var plan := Schedule(mask, start);
    var child := Observe(config);
    if |sent| < |plan| {
      assert child(sent, Some(plan[|sent|].at)) == Exited(rc);
      StoppedEarly(config, mask, start, plan, sent);
    } else if mask.terminal {
      assert sent == plan && Unanswered(child, plan);
      KilledByPlan(config, mask, start, plan);
    }
  }

  /** The test table: the child as its options configure it, with a timeout of ten seconds
      unless they say otherwise, and the ladder cancelled after 250 ms. Full escalation: */
  lemma TestTableAll(sigint: Option<nat>, sigterm: Option<nat>, delay: nat, overrideCode: bool, rc: int, sent: seq<Sent>)
    requires delay < PATIENCE
    requires Climbed(ENABLE_TOTAL, 250, Observe(Config(sigint, sigterm, 10000, delay)), overrideCode, rc, sent)
    ensures sigint == None ==> rc == 2
    ensures sigint == Some(0) ==> rc == 0
    ensures sigint == Some(1) && sigterm == None ==> rc == 15
    ensures sigint == Some(1) && sigterm == Some(0) ==> rc == 0
    ensures sigint == Some(1) && sigterm == Some(1) ==> rc == 9
  {
    EscalationOutcome(Config(sigint, sigterm, 10000, delay), ENABLE_TOTAL, 250, overrideCode, rc, sent);
  }

  /** and some of the signals only. */
  lemma TestTableSome(mask: Kinds, config: Config, overrideCode: bool, rc: int, sent: seq<Sent>)
    requires config.delay < PATIENCE && Climbed(mask, 250, Observe(config), overrideCode, rc, sent)
    ensures config.timeout == 10000 ==>
              && (mask == Kinds(true, false, true) && config.sigint == Some(1) ==> rc == 9)
              && (mask == Kinds(true, true, false) && config.sigterm == None ==> rc == 15)
              && (mask == Kinds(true, true, false) && config.sigterm == Some(0) ==> rc == 0)
              && (mask == Kinds(true, true, false) && config.sigterm == Some(1) ==> rc == 9)
              && (mask == TERMINAL ==> rc == 9)
    ensures mask == PARTIAL && config.timeout == 2000 && config.sigterm == Some(1) ==> rc == 0
    ensures mask == TERMINAL && config.timeout == 0 ==> rc == 0
  {
    EscalationOutcome(config, mask, 250, overrideCode, rc, sent);
  }
}
