/** Cancellation types, filters and the per-coroutine cancellation state.

    A cancellation type is a bit mask over three strengths. Every coroutine started by
    `co_spawn` owns one cancellation state: a filter, installed by `reset_cancellation_state`,
    and the type recorded since that reset. How several emits between two resumes combine is
    a parameter, so that every result says which combination it needs. */
module Cancellation {

  datatype Kinds = Kinds(terminal: bool, partial: bool, total: bool) {

    predicate Any() {
      terminal || partial || total
    }

    function And(other: Kinds): Kinds {
      Kinds(terminal && other.terminal, partial && other.partial, total && other.total)
    }

    function Or(other: Kinds): Kinds {
      Kinds(terminal || other.terminal, partial || other.partial, total || other.total)
    }

    /** Every strength in `this` is also in `other`. */
    predicate Within(other: Kinds) {
      && (terminal ==> other.terminal)
      && (partial ==> other.partial)
      && (total ==> other.total)
    }
  }

  const NONE := Kinds(false, false, false)
  const TERMINAL := Kinds(true, false, false)
  const PARTIAL := Kinds(false, true, false)
  const TOTAL := Kinds(false, false, true)

  /** Filters: `enable_terminal_cancellation` and `enable_total_cancellation`. Each enables its
      own strength and all stronger ones. */
  const ENABLE_TERMINAL := TERMINAL
  const ENABLE_TOTAL := Kinds(true, true, true)

  /** How emits that arrive within one suspension combine. `LastWins` is the most hostile
      reading: each emit overwrites, even with the empty type its filter left over. */
  datatype Policy = Accumulate | LastWins

  /** The type recorded after `emits` have passed `filter`, oldest first. */
  function Recorded(policy: Policy, filter: Kinds, emits: seq<Kinds>): Kinds {
    if emits == [] then
      NONE
    else
      var last := emits[|emits| - 1].And(filter);
      match policy
      case LastWins => last
      case Accumulate => Recorded(policy, filter, emits[..|emits| - 1]).Or(last)
  }

  /** `emits` is the history of the emits since the last reset. */
  datatype CancelState = CancelState(filter: Kinds, recorded: Kinds, emits: seq<Kinds>) {

    function Emit(policy: Policy, kinds: Kinds): CancelState {
      var accepted := kinds.And(filter);
      CancelState(filter, if policy.LastWins? then accepted else recorded.Or(accepted), emits + [kinds])
    }

    /** The recorded type is the one its history determines. */
    ghost predicate Faithful(policy: Policy) {
      recorded == Recorded(policy, filter, emits)
    }
  }

  /** `reset_cancellation_state(filter)`: nothing is recorded any more. */
  function Reset(filter: Kinds): CancelState {
    CancelState(filter, NONE, [])
  }

  lemma EmitIsFaithful(policy: Policy, cs: CancelState, kinds: Kinds)
    requires cs.Faithful(policy)
    ensures cs.Emit(policy, kinds).Faithful(policy)
  {
    assert (cs.emits + [kinds])[..|cs.emits|] == cs.emits;
  }

  /** Under accumulation a strength is recorded exactly when some emit carried it past the
      filter: nothing is forgotten and nothing is invented. */
  lemma {:induction false} AccumulateRecordsTheUnion(filter: Kinds, emits: seq<Kinds>)
    ensures var r := Recorded(Accumulate, filter, emits);
            && (r.terminal <==> filter.terminal && exists i :: 0 <= i < |emits| && emits[i].terminal)
            && (r.partial <==> filter.partial && exists i :: 0 <= i < |emits| && emits[i].partial)
            && (r.total <==> filter.total && exists i :: 0 <= i < |emits| && emits[i].total)
  {
    if emits != [] {
      var front, k := emits[..|emits| - 1], |emits| - 1;
      AccumulateRecordsTheUnion(filter, front);
      assert forall i :: 0 <= i < k ==> front[i] == emits[i];
      assert Recorded(Accumulate, filter, emits)
          == Recorded(Accumulate, filter, front).Or(emits[k].And(filter));
    }
  }

  /** No emit drops a strength that an earlier one carried. */
  ghost predicate NeverWeaker(emits: seq<Kinds>) {
    forall i, j :: 0 <= i < j < |emits| ==> emits[i].Within(emits[j])
  }

  /** When no emit is weaker than an earlier one, both policies record the same type. */
  lemma {:induction false} PoliciesAgree(filter: Kinds, emits: seq<Kinds>)
    requires NeverWeaker(emits)
    ensures Recorded(LastWins, filter, emits) == Recorded(Accumulate, filter, emits)
  {
    if |emits| > 1 {
      var front := emits[..|emits| - 1];
      PoliciesAgree(filter, front);
      assert front[|front| - 1].Within(emits[|emits| - 1]);
    }
  }
}
