/** Metered acts (`core/entitlements.py`): `flux_allows` reads the counter and then debits it, in two steps, so
    concurrent callers may overshoot the ceiling.  One tenant, one metric, one period, a fixed limit. */
module Quota {

  import opened Basics
  import G = Guards

  /** `Limite` */
  datatype Limit = Limit(value: nat, gracePct: nat)

  /** `plafond_avec_grace` */
  function Ceiling(l: Limit): (c: nat)
    ensures 100 * (c - l.value) <= l.value * l.gracePct < 100 * (c - l.value + 1)
  {
    l.value + l.value * l.gracePct / 100
  }

  /** `meter`: no limit or no reading is unknown. */
  function MeterOf(l: Option<Limit>, used: Option<nat>): G.Meter {
    if l.None? || used.None? then G.Unknown
    else if used.value < l.value.value then G.Meter.Ok
    else if used.value < Ceiling(l.value) then G.Grace
    else G.Capped
  }

  predicate Open(m: G.Meter) { m == G.Meter.Ok || m == G.Grace }

  /** `meter` is open exactly below the ceiling with grace. */
  lemma OpenBelowCeiling(l: Option<Limit>, used: Option<nat>)
    ensures Open(MeterOf(l, used)) <==> l.Some? && used.Some? && used.value < Ceiling(l.value)
    ensures MeterOf(l, used) == G.Unknown <==> l.None? || used.None?
    ensures MeterOf(l, used) == G.Meter.Ok <==> l.Some? && used.Some? && used.value < l.value.value
    ensures MeterOf(l, used) == G.Grace <==> l.Some? && used.Some? && l.value.value <= used.value < Ceiling(l.value)
  {
  }

  /** The counter row: absent until the first debit. */
  class Counter {
    var used: Option<nat>

    constructor ()
      ensures used == None
    {
      used := None;
    }

    function Total(): nat
      reads this
    {
      if used.None? then 0 else used.value
    }

    /** `consume`: one statement adds and returns the new total; a failed statement leaves the counter alone. */
    method Debit(n: nat, fails: bool) returns (total: Option<nat>)
      modifies this
      ensures fails ==> total == None && used == old(used)
      ensures !fails ==> total == Some(old(Total()) + n) && used == total
    {
      if fails { return None; }
      used := Some(Total() + n);
      total := used;
    }

    /** `flux_allows` when nothing runs between its two steps: it debits one exactly when it answers that the meter was
        open, and the ceiling is then never passed. */
    method FluxAllows(l: Option<Limit>, readable: bool, fails: bool) returns (state: G.Meter)
      modifies this
      ensures Open(state) <==> readable && !fails && l.Some? && old(Total()) < Ceiling(l.value)
      ensures Total() == old(Total()) + if Open(state) then 1 else 0
      ensures l.Some? && old(Total()) <= Ceiling(l.value) ==> Total() <= Ceiling(l.value)
      ensures !Open(state) ==> used == old(used)
    {
      state := MeterOf(l, if readable then Some(Total()) else None);
      if Open(state) {
        var total := Debit(1, fails);
        if total.None? { return G.Unknown; }
      }
    }
  }

  // ---------------------------------------------------------------- concurrent callers

  /** `reading` are the callers that saw an open meter and have not debited yet; `granted` and `turnedAway` have their
      answer. */
  datatype State = State(used: nat, reading: set<nat>, granted: set<nat>, turnedAway: set<nat>)

  datatype Step =
    | Read(pid: nat, readable: bool)
    | Debit(pid: nat, fails: bool)

  function Callers(s: State): set<nat> { s.reading + s.granted + s.turnedAway }

  predicate Enabled(s: State, step: Step) {
    match step
    case Read(pid, _) => pid !in Callers(s)
    case Debit(pid, _) => pid in s.reading
  }

  function Next(s: State, l: Option<Limit>, step: Step): State
    requires Enabled(s, step)
  {
    match step
    case Read(pid, readable) =>
      if Open(MeterOf(l, if readable then Some(s.used) else None)) then s.(reading := s.reading + {pid})
      else s.(turnedAway := s.turnedAway + {pid})
    case Debit(pid, fails) =>
      if fails then s.(reading := s.reading - {pid}, turnedAway := s.turnedAway + {pid})
      else State(s.used + 1, s.reading - {pid}, s.granted + {pid}, s.turnedAway)
  }

  /** A run from `used` units in which at most `k` callers ever stand between their read and their debit. */
  ghost predicate Run(used: nat, l: Option<Limit>, k: nat, states: seq<State>, steps: seq<Step>) {
    && |states| == |steps| + 1 && states[0] == State(used, {}, {}, {})
    && (forall i :: 0 <= i < |steps| ==> Enabled(states[i], steps[i]) && states[i + 1] == Next(states[i], l, steps[i]))
    && (forall i :: 0 <= i < |states| ==> |states[i].reading| <= k)
  }

  ghost predicate Inv(used: nat, l: Option<Limit>, k: nat, s: State) {
    && s.reading !! s.granted && s.reading !! s.turnedAway && s.granted !! s.turnedAway
    && s.used == used + |s.granted|
    && (l.None? ==> s.reading == {} && s.granted == {})
    && (l.Some? ==> s.used + |s.reading| <= Max(used, Ceiling(l.value) + k - 1))
  }

  lemma StepKeeps(used: nat, l: Option<Limit>, k: nat, s: State, step: Step)
    requires Inv(used, l, k, s) && Enabled(s, step) && |Next(s, l, step).reading| <= k
    ensures Inv(used, l, k, Next(s, l, step))
  {
    match step
    case Read(pid, readable) => OpenBelowCeiling(l, if readable then Some(s.used) else None);
    case Debit(pid, fails) =>
      assert s.reading == (s.reading - {pid}) + {pid};
      assert |s.reading| == |s.reading - {pid}| + 1;
  }

  /** In every interleaving the counter grows by exactly the number of acts that were granted, and it never passes the
      ceiling by more than the number of concurrent callers less one: exactly the ceiling when they are sequential. */
  lemma {:induction false} OvershootIsBounded(used: nat, l: Option<Limit>, k: nat, states: seq<State>,
      steps: seq<Step>, i: nat)
    requires Run(used, l, k, states, steps) && i < |states|
    ensures Inv(used, l, k, states[i])
    ensures states[i].used == used + |states[i].granted|
    ensures l.Some? ==> states[i].used <= Max(used, Ceiling(l.value) + k - 1)
    ensures l.None? ==> states[i].used == used
  {
    if i > 0 {
      OvershootIsBounded(used, l, k, states, steps, i - 1);
      assert |states[i].reading| <= k && states[i - 1 + 1] == states[i];
      StepKeeps(used, l, k, states[i - 1], steps[i - 1]);
    }
  }

  // ---------------------------------------------------------------- the bound is reached

  function FirstN(n: nat): (r: set<nat>)
    ensures |r| == n && forall p: nat :: p in r <==> p < n
  {
    if n == 0 then {} else FirstN(n - 1) + {n - 1}
  }

  /** `k` callers read at one unit below the ceiling, then all debit. */
  lemma {:induction false} ReadersGather(l: Limit, n: nat) returns (states: seq<State>, steps: seq<Step>)
    requires Ceiling(l) >= 1
    ensures Run(Ceiling(l) - 1, Some(l), n, states, steps)
    ensures states[|states| - 1] == State(Ceiling(l) - 1, FirstN(n), {}, {})
  {
    if n == 0 {
      states, steps := [State(Ceiling(l) - 1, {}, {}, {})], [];
      assert FirstN(0) == {};
    } else {
      states, steps := ReadersGather(l, n - 1);
      var last := states[|states| - 1];
      var next := Next(last, Some(l), Read(n - 1, true));
      assert FirstN(n) == FirstN(n - 1) + {n - 1};
      ExtendRun(Ceiling(l) - 1, Some(l), n - 1, n, states, steps, Read(n - 1, true));
      states, steps := states + [next], steps + [Read(n - 1, true)];
    }
  }

  lemma ExtendRun(used: nat, l: Option<Limit>, j: nat, k: nat, states: seq<State>, steps: seq<Step>, step: Step)
    requires Run(used, l, j, states, steps) && j <= k && Enabled(states[|states| - 1], step)
    requires |Next(states[|states| - 1], l, step).reading| <= k
    ensures Run(used, l, k, states + [Next(states[|states| - 1], l, step)], steps + [step])
  {
    var states', steps' := states + [Next(states[|states| - 1], l, step)], steps + [step];
    forall i | 0 <= i < |steps'| ensures Enabled(states'[i], steps'[i])
        && states'[i + 1] == Next(states'[i], l, steps'[i]) {
      if i < |steps| { assert states'[i] == states[i] && states'[i + 1] == states[i + 1]; }
    }
  }

  lemma NextToDebit(k: nat, n: nat)
    requires 1 <= n <= k
    ensures n - 1 in FirstN(k) - FirstN(n - 1)
    ensures FirstN(k) - FirstN(n) == (FirstN(k) - FirstN(n - 1)) - {n - 1}
    ensures FirstN(n) == FirstN(n - 1) + {n - 1}
    ensures |FirstN(k) - FirstN(n)| <= k
  {
    var waiting := FirstN(k) - FirstN(n - 1);
    assert FirstN(n) == FirstN(n - 1) + {n - 1};
    assert FirstN(k) - FirstN(n) == waiting - {n - 1};
    assert FirstN(k) == (FirstN(k) - FirstN(n)) + FirstN(n);
  }

  /** `k` callers have read, and the first `n` of them have debited. */
  ghost function Debited(l: Limit, k: nat, n: nat): State
    requires Ceiling(l) >= 1
  {
    State(Ceiling(l) - 1 + n, FirstN(k) - FirstN(n), FirstN(n), {})
  }

  lemma DebitStep(l: Limit, k: nat, n: nat)
    requires Ceiling(l) >= 1 && 1 <= n <= k
    ensures Enabled(Debited(l, k, n - 1), Debit(n - 1, false))
    ensures Next(Debited(l, k, n - 1), Some(l), Debit(n - 1, false)) == Debited(l, k, n)
    ensures |Debited(l, k, n).reading| <= k
  {
    hide FirstN, Ceiling;
    NextToDebit(k, n);
  }

  lemma NobodyDebited(l: Limit, k: nat)
    requires Ceiling(l) >= 1
    ensures Debited(l, k, 0) == State(Ceiling(l) - 1, FirstN(k), {}, {})
  {
    assert FirstN(0) == {} && FirstN(k) - FirstN(0) == FirstN(k);
  }

  lemma {:induction false} ReadersDebit(l: Limit, k: nat, n: nat) returns (states: seq<State>, steps: seq<Step>)
    requires Ceiling(l) >= 1 && n <= k
    ensures Run(Ceiling(l) - 1, Some(l), k, states, steps)
    ensures states != [] && states[|states| - 1] == Debited(l, k, n)
  {
    hide Debited, FirstN, Ceiling, Enabled, Next;
    if n == 0 {
      states, steps := ReadersGather(l, k);
      NobodyDebited(l, k);
    } else {
      states, steps := ReadersDebit(l, k, n - 1);
      DebitStep(l, k, n);
      hide Run;
      ExtendRun(Ceiling(l) - 1, Some(l), k, k, states, steps, Debit(n - 1, false));
      states, steps := states + [Debited(l, k, n)], steps + [Debit(n - 1, false)];
    }
  }

  /** The bound is tight: with `k` concurrent callers some run ends at the ceiling plus `k - 1`. */
  lemma BoundIsReached(l: Limit, k: nat) returns (states: seq<State>, steps: seq<Step>)
    requires Ceiling(l) >= 1 && k >= 1
    ensures Run(Ceiling(l) - 1, Some(l), k, states, steps)
    ensures states[|states| - 1].used == Ceiling(l) + k - 1
  {
    states, steps := ReadersDebit(l, k, k);
  }
}
