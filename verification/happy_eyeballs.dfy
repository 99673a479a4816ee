/** Happy Eyeballs for two address families (a simplification of section 5 of RFC 8305): the
    IPv6 attempt starts at once, the IPv4 attempt when a shared timer fires or is cancelled
    because the IPv6 attempt has ended. The group of both waits for one success and then
    cancels the other attempt. */
module HappyEyeballs {
  import opened Wrappers

  // Filtering endpoints

  datatype Family = IPv4 | IPv6

  datatype Endpoint = Endpoint(family: Family, address: nat, port: nat)

  function Filter(endpoints: seq<Endpoint>, family: Family): seq<Endpoint> {
    if endpoints == [] then []
    else (if endpoints[0].family == family then [endpoints[0]] else []) + Filter(endpoints[1..], family)
  }

  /** `s` is `a` and `b` shuffled together, each in its own order. */
  ghost predicate Shuffle(a: seq<Endpoint>, b: seq<Endpoint>, s: seq<Endpoint>)
    decreases |s|
  {
    if s == [] then a == [] && b == []
    else
      || (a != [] && a[0] == s[0] && Shuffle(a[1..], b, s[1..]))
      || (b != [] && b[0] == s[0] && Shuffle(a, b[1..], s[1..]))
  }

  /** The two filters split the endpoints into two sublists that keep their order, have no
      endpoint in common and together make up the whole. */
  lemma {:induction false} FilterSplits(endpoints: seq<Endpoint>)
    ensures Shuffle(Filter(endpoints, IPv6), Filter(endpoints, IPv4), endpoints)
    ensures forall i :: 0 <= i < |Filter(endpoints, IPv6)| ==> Filter(endpoints, IPv6)[i].family == IPv6
    ensures forall i :: 0 <= i < |Filter(endpoints, IPv4)| ==> Filter(endpoints, IPv4)[i].family == IPv4
  {
    if endpoints != [] {
      FilterSplits(endpoints[1..]);
      var a, b := Filter(endpoints[1..], IPv6), Filter(endpoints[1..], IPv4);
      if endpoints[0].family == IPv6 {
        assert Filter(endpoints, IPv6)[1..] == a && Filter(endpoints, IPv4) == [] + b == b;
      } else {
        assert Filter(endpoints, IPv4)[1..] == b && Filter(endpoints, IPv6) == [] + a == a;
      }
    }
  }

  // The race

  datatype Attempt =
    | AtTimer              // suspended in the wait for the timer
    | Woken                // the wait has completed, the coroutine is about to be resumed
    | Connecting           // suspended in async_connect
    | Ended(ok: bool)      // returned its socket, or threw

  datatype Timer = Armed | Fired | Cancelled

  datatype Outcome = Undecided | Connected(winner: Family) | NoConnection

  /** The attempts whose completion the group has seen, and which of them came first. */
  datatype Seen = Nobody | One(first: Family) | Both(first: Family)

  /** `cancelled` are the attempts that a cancellation was sent to; `started4` is set when the
      IPv4 attempt begins to connect. */
  datatype Race = Race(
    v6: Attempt, v4: Attempt, timer: Timer,
    seen: Seen, cancelled: set<Family>, outcome: Outcome, started4: bool)

  const START := Race(Connecting, AtTimer, Armed, Nobody, {}, Undecided, false)

  datatype Event =
    | TimerFires
    | Connects(family: Family, ok: bool)   // async_connect completes
    | Resume4                              // the IPv4 attempt is resumed after its timer wait
    | GroupSees(family: Family)            // the group is told that an attempt has ended
    | CancelledFromOutside

  function AttemptOf(s: Race, family: Family): Attempt {
    if family.IPv6? then s.v6 else s.v4
  }

  predicate HasSeen(s: Race, family: Family) {
    s.seen.Both? || s.seen == One(family)
  }

  predicate Enabled(s: Race, e: Event) {
    match e
    case TimerFires => s.timer.Armed?
    case Connects(family, _) => AttemptOf(s, family).Connecting?
    case Resume4 => s.v4.Woken?
    case GroupSees(family) => AttemptOf(s, family).Ended? && !HasSeen(s, family)
    case CancelledFromOutside => s.outcome.Undecided?
  }

  /** Whoever ends the timer wait wakes the IPv4 attempt. */
  function Wake4(s: Race): Race {
    if s.v4.AtTimer? then s.(v4 := Woken) else s
  }

  function Cancel(s: Race, family: Family): Race {
    var t := s.(cancelled := s.cancelled + {family});
    if family.IPv4? then Wake4(t) else t
  }

  function Other(family: Family): Family {
    if family.IPv6? then IPv4 else IPv6
  }

  /** The first attempt in order of completion that succeeded, if any. */
  function FirstSuccess(s: Race, first: Family): Outcome {
    if AttemptOf(s, first) == Ended(true) then Connected(first)
    else if AttemptOf(s, Other(first)) == Ended(true) then Connected(Other(first))
    else NoConnection
  }

  /** `wait_for_one_success`: the first success cancels the other attempt, and the result is
      delivered when both have ended. */
  function OnGroup(s: Race, family: Family): Race {
    match s.seen
    case Nobody =>
      var t := s.(seen := One(family));
      if AttemptOf(s, family) == Ended(true) then Cancel(t, Other(family)) else t
    case One(first) => s.(seen := Both(first), outcome := FirstSuccess(s, first))
    case Both(_) => s
  }

  function Step(s: Race, e: Event): Race
    requires Enabled(s, e)
  {
    match e
    case TimerFires => Wake4(s.(timer := Fired))
    case Connects(family, ok) =>
      if family.IPv4? then
        s.(v4 := Ended(ok))
      else
        // The scope guard cancels the timer, whether the attempt succeeded or not.
        Wake4(s.(v6 := Ended(ok), timer := if s.timer.Armed? then Cancelled else s.timer))
    case Resume4 =>
      // The next await throws if a cancellation was recorded meanwhile.
      if IPv4 in s.cancelled then s.(v4 := Ended(false)) else s.(v4 := Connecting, started4 := true)
    case GroupSees(family) => OnGroup(s, family)
    case CancelledFromOutside => Cancel(Cancel(s, IPv6), IPv4)
  }

  ghost predicate CanRun(s: Race, es: seq<Event>)
    decreases |es|
  {
    es != [] ==> Enabled(s, es[0]) && CanRun(Step(s, es[0]), es[1..])
  }

  ghost function Run(s: Race, es: seq<Event>): Race
    requires CanRun(s, es)
    decreases |es|
  {
    if es == [] then s else Run(Step(s, es[0]), es[1..])
  }

  ghost predicate Inv(s: Race) {
    && (s.v6.Connecting? || s.v6.Ended?)
    // The IPv4 attempt waits exactly as long as nothing has happened,
    && (s.v4.AtTimer? ==> s.timer.Armed? && s.v6.Connecting? && IPv4 !in s.cancelled)
    // and connects only after the timer fired or the IPv6 attempt ended.
    && (s.started4 ==> s.timer.Fired? || s.v6.Ended?)
    && (s.v4.Connecting? || s.v4 == Ended(true) ==> s.started4)
    && (s.timer.Cancelled? ==> s.v6.Ended?)
    && (s.v4.Woken? ==> s.timer.Fired? || s.v6.Ended? || IPv4 in s.cancelled)
    && (HasSeen(s, IPv6) ==> s.v6.Ended?)
    && (HasSeen(s, IPv4) ==> s.v4.Ended?)
    && (s.seen.One? && AttemptOf(s, s.seen.first) == Ended(true) ==> Other(s.seen.first) in s.cancelled)
    && s.outcome == (if s.seen.Both? then FirstSuccess(s, s.seen.first) else Undecided)
  }

  lemma StepKeepsInv(s: Race, e: Event)
    requires Inv(s) && Enabled(s, e)
    ensures Inv(Step(s, e))
  {
  }

  lemma {:induction false} RunKeepsInv(s: Race, es: seq<Event>)
    requires Inv(s) && CanRun(s, es)
    ensures Inv(Run(s, es))
    decreases |es|
  {
    if es != [] {
      StepKeepsInv(s, es[0]);
      RunKeepsInv(Step(s, es[0]), es[1..]);
    }
  }

  /** In every interleaving: IPv4 connecting starts only after the IPv6 attempt ended or the
      timer fired, and from then on nothing holds it back any more. Once the race is decided,
      a socket is returned exactly if an attempt succeeded, it is that of the first success in
      order of completion, and failure is reported exactly if both failed. */
  lemma RaceIsFair(es: seq<Event>)
    requires CanRun(START, es)
    ensures var s := Run(START, es);
            && (s.started4 ==> s.timer.Fired? || s.v6.Ended?)
            && (s.timer.Fired? || s.v6.Ended? ==> !s.v4.AtTimer?)
            && (s.outcome.Undecided? <==> !(HasSeen(s, IPv6) && HasSeen(s, IPv4)))
            && (s.outcome.Connected? ==>
                  && AttemptOf(s, s.outcome.winner) == Ended(true)
                  && (AttemptOf(s, s.seen.first) == Ended(true) ==> s.outcome.winner == s.seen.first))
            && (s.outcome.NoConnection? <==>
                  !s.outcome.Undecided? && s.v6 == Ended(false) && s.v4 == Ended(false))
  {
    RunKeepsInv(START, es);
  }

  // The race in terms of what happens

  /** The attempt that the group is told of first. */
  ghost function FirstSeen(es: seq<Event>): Option<Family> {
    if es == [] then None else if es[0].GroupSees? then Some(es[0].family) else FirstSeen(es[1..])
  }

  function First(s: Race): Option<Family> {
    if s.seen.Nobody? then None else Some(s.seen.first)
  }

  lemma InCons(e: Event, es: seq<Event>)
    requires es != []
    ensures e in es <==> e == es[0] || e in es[1..]
  {
    assert es == [es[0]] + es[1..];
  }

  lemma EndedStep(s: Race, e: Event, family: Family)
    requires Inv(s) && Enabled(s, e)
    ensures var t := Step(s, e);
            && (AttemptOf(t, family) == Ended(true) <==>
                  AttemptOf(s, family) == Ended(true) || e == Connects(family, true))
            && (t.v6 == Ended(false) <==> s.v6 == Ended(false) || e == Connects(IPv6, false))
  {
  }

  lemma {:induction false} AttemptHistory(s: Race, es: seq<Event>, family: Family)
    requires Inv(s) && CanRun(s, es)
    ensures var t := Run(s, es);
            && (AttemptOf(t, family) == Ended(true) <==>
                  AttemptOf(s, family) == Ended(true) || Connects(family, true) in es)
            && (t.v6 == Ended(false) <==> s.v6 == Ended(false) || Connects(IPv6, false) in es)
    decreases |es|
  {
    if es != [] {
      StepKeepsInv(s, es[0]);
      EndedStep(s, es[0], family);
      InCons(Connects(family, true), es);
      InCons(Connects(IPv6, false), es);
      AttemptHistory(Step(s, es[0]), es[1..], family);
    }
  }

  lemma SeenStep(s: Race, e: Event, family: Family)
    requires Inv(s) && Enabled(s, e)
    ensures var t := Step(s, e);
            && (HasSeen(t, family) <==> HasSeen(s, family) || e == GroupSees(family))
            && First(t) == (if s.seen.Nobody? && e.GroupSees? then Some(e.family) else First(s))
  {
  }

  lemma {:induction false} GroupHistory(s: Race, es: seq<Event>, family: Family)
    requires Inv(s) && CanRun(s, es)
    ensures var t := Run(s, es);
            && (HasSeen(t, family) <==> HasSeen(s, family) || GroupSees(family) in es)
            && First(t) == if s.seen.Nobody? then FirstSeen(es) else First(s)
    decreases |es|
  {
    if es != [] {
      StepKeepsInv(s, es[0]);
      SeenStep(s, es[0], family);
      InCons(GroupSees(family), es);
      GroupHistory(Step(s, es[0]), es[1..], family);
    }
  }

  /** In every run, also one that is cancelled from outside: the race is decided when the group
      was told of both attempts. An attempt is returned if and only if it connected, and the
      group was told of it first if both did; no connection is reported if and only if none did. */
  lemma OutcomeOfRun(es: seq<Event>, family: Family)
    requires CanRun(START, es)
    ensures var s, decided := Run(START, es), GroupSees(IPv6) in es && GroupSees(IPv4) in es;
            && (s.outcome.Undecided? <==> !decided)
            && (s.outcome == NoConnection <==>
                  decided && Connects(IPv6, true) !in es && Connects(IPv4, true) !in es)
            && (s.outcome == Connected(family) <==>
                  && decided && Connects(family, true) in es
                  && (Connects(Other(family), true) in es ==> FirstSeen(es) == Some(family)))
  {
    RunKeepsInv(START, es);
    AttemptHistory(START, es, IPv6);
    AttemptHistory(START, es, IPv4);
    GroupHistory(START, es, IPv6);
    GroupHistory(START, es, IPv4);
  }

  /** Nobody cancels the race from outside. */
  ghost predicate Undisturbed(es: seq<Event>) {
    CancelledFromOutside !in es
  }

  /** Then the IPv4 attempt is cancelled if and only if the group was told first that the IPv6
      attempt has connected, and an IPv4 attempt that is not cancelled begins to connect. */
  ghost predicate Fair(s: Race) {
    && (IPv4 in s.cancelled <==> First(s) == Some(IPv6) && s.v6 == Ended(true))
    && (s.v4.Ended? && !s.started4 ==> s.v4 == Ended(false) && IPv4 in s.cancelled)
    && (s.v4.AtTimer? || s.v4.Woken? ==> !s.started4)
    && (s.v4.AtTimer? <==> s.timer.Armed? && s.v6.Connecting?)
  }

  /** The IPv4 attempt did connect, in vain. */
  predicate TriedAndFailed(s: Race) {
    s.started4 && s.v4 == Ended(false)
  }

  lemma FairStep(s: Race, e: Event)
    requires Inv(s) && Fair(s) && Enabled(s, e) && !e.CancelledFromOutside?
    ensures var t := Step(s, e);
            && Fair(t)
            && (t.timer.Fired? <==> s.timer.Fired? || e.TimerFires?)
            && (TriedAndFailed(t) <==> TriedAndFailed(s) || e == Connects(IPv4, false))
  {
  }

  lemma {:induction false} RunIsFair(s: Race, es: seq<Event>)
    requires Inv(s) && Fair(s) && CanRun(s, es) && Undisturbed(es)
    ensures var t := Run(s, es);
            && Inv(t) && Fair(t)
            && (t.timer.Fired? <==> s.timer.Fired? || TimerFires in es)
            && (TriedAndFailed(t) <==> TriedAndFailed(s) || Connects(IPv4, false) in es)
    decreases |es|
  {
    if es != [] {
      InCons(CancelledFromOutside, es);
      InCons(TimerFires, es);
      InCons(Connects(IPv4, false), es);
      StepKeepsInv(s, es[0]);
      FairStep(s, es[0]);
      RunIsFair(Step(s, es[0]), es[1..]);
    }
  }

  /** In every run that nobody cancels from outside, from the events alone. The IPv4 attempt leaves
      its wait if and only if the timer fired or the IPv6 attempt ended. As long as IPv6 has not
      connected, its next resume begins to connect. And failure is reported if and only if the
      race is decided and both attempts really tried to connect and failed. */
  lemma IPv4GetsItsChance(es: seq<Event>)
    requires CanRun(START, es) && Undisturbed(es)
    ensures var s := Run(START, es);
            && (s.v4.AtTimer? <==> TimerFires !in es && Connects(IPv6, true) !in es && Connects(IPv6, false) !in es)
            && (s.v4.Woken? && Connects(IPv6, true) !in es ==>
                  Step(s, Resume4).v4.Connecting? && Step(s, Resume4).started4)
            && (s.outcome == NoConnection <==>
                  && GroupSees(IPv6) in es && GroupSees(IPv4) in es
                  && Connects(IPv6, false) in es && Connects(IPv4, false) in es)
  {
    RunIsFair(START, es);
    OutcomeOfRun(es, IPv6);
    AttemptHistory(START, es, IPv6);
    AttemptHistory(START, es, IPv4);
    GroupHistory(START, es, IPv6);
    GroupHistory(START, es, IPv4);
  }

  lemma {:induction false} CancelledNeverStarts(s: Race, es: seq<Event>)
    requires CanRun(s, es) && IPv4 in s.cancelled && !s.started4
    ensures !Run(s, es).started4
    decreases |es|
  {
    if es != [] {
      CancelledNeverStarts(Step(s, es[0]), es[1..]);
    }
  }

  /** The first success cancels the other attempt: once the group has seen IPv6 succeed, an
      IPv4 attempt that has not begun to connect never does. */
  lemma NoLateIPv4(s: Race, es: seq<Event>)
    requires Inv(s) && CanRun(s, es)
    requires s.seen == One(IPv6) && s.v6 == Ended(true) && !s.started4
    ensures !Run(s, es).started4
  {
    CancelledNeverStarts(s, es);
  }

  /** A cancellation from outside reaches both attempts: an IPv4 attempt that still waits is woken
      and, like one that was woken before, never connects. */
  lemma OutsideCancelStopsIPv4(s: Race, es: seq<Event>)
    requires Inv(s) && s.outcome.Undecided? && !s.started4
    requires CanRun(Step(s, CancelledFromOutside), es)
    ensures IPv4 in Step(s, CancelledFromOutside).cancelled && IPv6 in Step(s, CancelledFromOutside).cancelled
    ensures !Step(s, CancelledFromOutside).v4.AtTimer?
    ensures !Run(Step(s, CancelledFromOutside), es).started4
  {
    CancelledNeverStarts(Step(s, CancelledFromOutside), es);
  }

  /** What is left to happen. */
  function Remaining(s: Race): nat {
    (if s.v6.Ended? then 0 else 1)
    + (match s.v4 case AtTimer => 3 case Woken => 2 case Connecting => 1 case Ended(_) => 0)
    + (if s.timer.Armed? then 1 else 0)
    + (match s.seen case Nobody => 2 case One(_) => 1 case Both(_) => 0)
  }

  /** Until the race is decided something can happen, without anybody cancelling it. */
  lemma SomethingHappens(s: Race) returns (possible: Event)
    requires Inv(s) && s.outcome.Undecided?
    ensures Enabled(s, possible) && !possible.CancelledFromOutside?
  {
    if s.v6.Connecting? {
      possible := Connects(IPv6, false);
    } else if !HasSeen(s, IPv6) {
      possible := GroupSees(IPv6);
    } else if s.v4.Woken? {
      possible := Resume4;
    } else if s.v4.Connecting? {
      possible := Connects(IPv4, false);
    } else {
      possible := GroupSees(IPv4);
    }
  }

  lemma LessRemains(s: Race, e: Event)
    requires Inv(s) && Enabled(s, e)
    ensures Remaining(Step(s, e)) <= Remaining(s) - if e.CancelledFromOutside? then 0 else 1
  {
  }

  /** How many of the events are not cancellations from outside. */
  ghost function Happenings(es: seq<Event>): nat {
    if es == [] then 0 else (if es[0].CancelledFromOutside? then 0 else 1) + Happenings(es[1..])
  }

  lemma {:induction false} RunLeavesLess(s: Race, es: seq<Event>)
    requires Inv(s) && CanRun(s, es)
    ensures Inv(Run(s, es)) && Happenings(es) + Remaining(Run(s, es)) <= Remaining(s)
    decreases |es|
  {
    if es != [] {
      StepKeepsInv(s, es[0]);
      LessRemains(s, es[0]);
      RunLeavesLess(Step(s, es[0]), es[1..]);
    }
  }

  /** The race always ends: in every run at most seven things happen, not counting repeated
      cancellations from outside, and a run in which nothing else can happen is decided. */
  lemma RaceEnds(es: seq<Event>)
    requires CanRun(START, es)
    ensures Happenings(es) <= 7
    ensures var s := Run(START, es);
            (forall e :: Enabled(s, e) ==> e.CancelledFromOutside?) ==> !s.outcome.Undecided?
  {
    RunLeavesLess(START, es);
    var s := Run(START, es);
    if s.outcome.Undecided? {
      var e := SomethingHappens(s);
    }
  }
}
