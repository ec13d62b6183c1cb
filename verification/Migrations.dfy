/** The schema migration runner (`core/migrate.py`) over a fixed directory.  The files are numbered in filename order;
    `baseline` lists those that may have been applied by hand, which an adoption can record. */
module Migrations {

  import opened Basics

  /** Files recorded in the ledger, and how often a runner committed the effect of each file. */
  datatype Db = Db(ledger: set<nat>, runs: map<nat, nat>)

  function Runs(db: Db, i: nat): nat { if i in db.runs then db.runs[i] else 0 }

  /** `pending`: the files on disk that the ledger does not record, in order. */
  function Pending(ledger: set<nat>, n: nat): seq<nat> {
    if n == 0 then [] else Pending(ledger, n - 1) + (if n - 1 in ledger then [] else [n - 1])
  }

  /** `_apply_one`: the effect and the ledger row commit together. */
  function Applied(db: Db, i: nat): Db { db.(ledger := db.ledger + {i}, runs := db.runs[i := Runs(db, i) + 1]) }

  lemma {:induction false} PendingIsExact(ledger: set<nat>, n: nat)
    ensures forall i: nat :: i in Pending(ledger, n) <==> i < n && i !in ledger
    ensures forall j, k :: 0 <= j < k < |Pending(ledger, n)| ==> Pending(ledger, n)[j] < Pending(ledger, n)[k]
  {
    if n > 0 {
      var front := Pending(ledger, n - 1);
      PendingIsExact(ledger, n - 1);
      forall k | 0 <= k < |front| ensures front[k] < n - 1 { assert front[k] in front; }
      if n - 1 !in ledger {
        assert Pending(ledger, n) == front + [n - 1];
        assert forall i: nat :: i in Pending(ledger, n) <==> i in front || i == n - 1;
      }
    }
  }

  lemma {:induction false} NothingPending(ledger: set<nat>, n: nat)
    requires Below(n) <= ledger
    ensures Pending(ledger, n) == []
  {
    if n > 0 { NothingPending(ledger, n - 1); }
  }

  /** The files below a number. */
  function Below(m: nat): (r: set<nat>)
    ensures forall i: nat :: i in r <==> i < m
  {
    if m == 0 then {} else Below(m - 1) + {m - 1}
  }

  // ---------------------------------------------------------------- adopting a baseline

  /** The sentinels that are present form a prefix, of this length. */
  predicate IsPrefix(found: seq<bool>, length: nat) {
    length <= |found| && forall k :: 0 <= k < |found| ==> (found[k] <==> k < length)
  }

  lemma PrefixIsUnique(found: seq<bool>, a: nat, b: nat)
    requires IsPrefix(found, a) && IsPrefix(found, b)
    ensures a == b
  {
    PrefixReaches(found, a, b);
    PrefixReaches(found, b, a);
  }

  lemma PrefixReaches(found: seq<bool>, a: nat, b: nat)
    requires IsPrefix(found, a) && IsPrefix(found, b)
    ensures a >= b
  {
    if a < |found| { assert !found[a]; }
  }

  lemma MixedHasNoPrefix(found: seq<bool>, length: nat, j: nat, k: nat)
    requires j < k < |found| && !found[j] && found[k]
    ensures !IsPrefix(found, length)
  {
  }

  /** The probes of `adopt_baseline`: the length of the prefix to record, or nothing when the result is mixed. */
  method ContiguousPrefix(found: seq<bool>) returns (prefix: Option<nat>)
    ensures forall length: nat :: prefix == Some(length) <==> IsPrefix(found, length)
    ensures prefix.None? <==> exists j, k :: 0 <= j < k < |found| && !found[j] && found[k]
  {
    var length := 0;
    while length < |found| && found[length]
      invariant length <= |found|
      invariant forall k :: 0 <= k < length ==> found[k]
    {
      length := length + 1;
    }
    for k := length to |found|
      invariant forall j :: length <= j < k ==> !found[j]
    {
      if found[k] {
        forall other: nat ensures !IsPrefix(found, other) { MixedHasNoPrefix(found, other, length, k); }
        return None;
      }
    }
    assert IsPrefix(found, length);
    forall other: nat | IsPrefix(found, other) ensures other == length { PrefixIsUnique(found, length, other); }
    prefix := Some(length);
  }

  // ---------------------------------------------------------------- one run of the runner

  class Runner {
    var db: Db

    constructor (db: Db)
      ensures this.db == db
    {
      this.db := db;
    }

    /** The loop of `apply_all` under the lock; `fails` tells which file's script raises. */
    method ApplyPlan(plan: seq<nat>, fails: nat -> bool) returns (failed: Option<nat>)
      modifies this
      ensures failed.None? ==> forall k :: 0 <= k < |plan| ==> !fails(plan[k])
      ensures failed.Some? ==>
                && failed.value < |plan| && fails(plan[failed.value])
                && forall k :: 0 <= k < failed.value ==> !fails(plan[k])
      ensures var done := if failed.None? then plan else plan[..failed.value];
              && db.ledger == old(db.ledger) + (set i | i in done)
              && forall i: nat :: Runs(db, i) == Runs(old(db), i) + multiset(done)[i]
    {
      for k := 0 to |plan|
        invariant db == ApplyEach(old(db), plan[..k])
        invariant forall j :: 0 <= j < k ==> !fails(plan[j])
      {
        if fails(plan[k]) {
          AppliedOnce(old(db), plan[..k]);
          return Some(k);
        }
        assert plan[..k + 1][..k] == plan[..k];
        db := Applied(db, plan[k]);
      }
      assert plan[..|plan|] == plan;
      AppliedOnce(old(db), plan);
      failed := None;
    }
  }

  function ApplyEach(db: Db, plan: seq<nat>): Db {
    if plan == [] then db else Applied(ApplyEach(db, plan[..|plan| - 1]), plan[|plan| - 1])
  }

  /** Every file of the plan is recorded, and run once for each time it stands there. */
  lemma {:induction false} AppliedOnce(db: Db, plan: seq<nat>)
    ensures var after := ApplyEach(db, plan);
            && after.ledger == db.ledger + (set i | i in plan)
            && forall i: nat :: Runs(after, i) == Runs(db, i) + multiset(plan)[i]
  {
    if plan != [] {
      var front, last := plan[..|plan| - 1], plan[|plan| - 1];
      AppliedOnce(db, front);
      assert plan == front + [last];
      assert (set i | i in plan) == (set i | i in front) + {last};
    }
  }

  // ---------------------------------------------------------------- interleaved runners

  datatype Work = ApplyAll | AdoptBaseline

  /** Where a runner is; a crashed one has lost its session and its lock. */
  datatype Local =
    | Waiting(work: Work)
    | Holding(work: Work)
    | Ensured(work: Work)
    | Applying(plan: seq<nat>, next: nat)
    | Completed(plan: seq<nat>)
    | Adopted(prefix: nat)
    | Stopped

  datatype State = State(db: Db, lock: Option<nat>, runners: map<nat, Local>)

  /** The directory has `n` files, and a sentinel for each file of its baseline. */
  datatype Directory = Directory(n: nat, baseline: seq<nat>)

  /** The sentinels are listed in filename order, and their files are in the directory. */
  predicate DirectoryOk(d: Directory) {
    && (forall k :: 0 <= k < |d.baseline| ==> d.baseline[k] < d.n)
    && (forall j, k :: 0 <= j < k < |d.baseline| ==> d.baseline[j] < d.baseline[k])
  }

  /** The files of the first sentinels. */
  function Adoptable(d: Directory, length: nat): set<nat>
    requires length <= |d.baseline|
  {
    set i | i in d.baseline[..length]
  }

  /** The directory as it ships: 39 files, 0001 to 0040 without 0012; the baseline is 0001 to 0015, 0034 to 0036, 0039
      and 0040. */
  const SHIPPED := Directory(39, seq(19, k requires 0 <= k < 19 => ShippedBaseline(k)))

  /** The numbers 0 to 13, 32 to 34, 37 and 38. */
  function ShippedBaseline(k: nat): nat { if k < 14 then k else if k < 17 then k + 18 else k + 20 }

  datatype Step =
    | Start(pid: nat, work: Work)
    | Acquire(pid: nat)
    | EnsureLedger(pid: nat)
    | Plan(pid: nat, drifted: bool)
    | Apply(pid: nat)
    | Finish(pid: nat)
    | Adopt(pid: nat, found: seq<bool>)
    | Fail(pid: nat)

  predicate Locked(l: Local) { l.Holding? || l.Ensured? || l.Applying? }

  ghost predicate Enabled(d: Directory, s: State, step: Step) {
    match step
    case Start(pid, _) => pid !in s.runners
    case Acquire(pid) => pid in s.runners && s.runners[pid].Waiting? && s.lock.None?
    case EnsureLedger(pid) => pid in s.runners && s.runners[pid].Holding?
    case Plan(pid, _) => pid in s.runners && s.runners[pid] == Ensured(ApplyAll)
    case Apply(pid) => pid in s.runners && s.runners[pid].Applying? && s.runners[pid].next < |s.runners[pid].plan|
    case Finish(pid) => pid in s.runners && s.runners[pid].Applying? && s.runners[pid].next == |s.runners[pid].plan|
    case Adopt(pid, found) => pid in s.runners && s.runners[pid] == Ensured(AdoptBaseline) && |found| == |d.baseline|
    case Fail(pid) => pid in s.runners && (s.runners[pid].Waiting? || Locked(s.runners[pid]))
  }

  function Moved(s: State, pid: nat, l: Local): State { s.(runners := s.runners[pid := l]) }

  ghost function Next(d: Directory, s: State, step: Step): State
    requires Enabled(d, s, step)
  {
    match step
    case Start(pid, work) => Moved(s, pid, Waiting(work))
    case Acquire(pid) => Moved(s, pid, Holding(s.runners[pid].work)).(lock := Some(pid))
    case EnsureLedger(pid) => Moved(s, pid, Ensured(s.runners[pid].work))
    case Plan(pid, drifted) =>
      if drifted then Moved(s, pid, Stopped).(lock := None)
      else Moved(s, pid, Applying(Pending(s.db.ledger, d.n), 0))
    case Apply(pid) =>
      var l := s.runners[pid];
      Moved(s.(db := Applied(s.db, l.plan[l.next])), pid, l.(next := l.next + 1))
    case Finish(pid) => Moved(s, pid, Completed(s.runners[pid].plan)).(lock := None)
    case Adopt(pid, found) =>
      // a mixed result raises; otherwise exactly the prefix is recorded, and nothing is executed
      if exists length: nat :: IsPrefix(found, length) then
        var length: nat :| IsPrefix(found, length);
        Moved(s.(db := s.db.(ledger := s.db.ledger + Adoptable(d, length))), pid, Adopted(length)).(lock := None)
      else Moved(s, pid, Stopped).(lock := None)
    case Fail(pid) =>
      // a script that raises or a crash: nothing uncommitted survives, and the session gives up its lock
      Moved(s, pid, Stopped).(lock := if Locked(s.runners[pid]) then None else s.lock)
  }

  const VIRGIN := State(Db({}, map[]), None, map[])

  ghost predicate Run(d: Directory, states: seq<State>, steps: seq<Step>) {
    && |states| == |steps| + 1 && states[0] == VIRGIN
    && forall k :: 0 <= k < |steps| ==> Enabled(d, states[k], steps[k]) && states[k + 1] == Next(d, states[k], steps[k])
  }

  /** The files that some adoption recorded. */
  ghost predicate WasAdopted(d: Directory, s: State, i: nat) {
    exists pid <- s.runners :: Took(d, s.runners[pid], i)
  }

  predicate Took(d: Directory, l: Local, i: nat) {
    l.Adopted? && l.prefix <= |d.baseline| && i in d.baseline[..l.prefix]
  }

  // ---------------------------------------------------------------- the invariant

  /** The plan from `next` on is what the ledger does not record, in order. */
  ghost predicate PlanOk(d: Directory, ledger: set<nat>, plan: seq<nat>, next: nat) {
    && next <= |plan|
    && (forall j, k :: 0 <= j < k < |plan| ==> plan[j] < plan[k])
    && (forall i: nat :: i in plan[next..] <==> i < d.n && i !in ledger)
  }

  ghost predicate LocalOk(d: Directory, s: State, pid: nat, l: Local) {
    && (Locked(l) <==> s.lock == Some(pid))
    && (l.Applying? ==> PlanOk(d, s.db.ledger, l.plan, l.next))
    && (l.Completed? ==> Below(d.n) <= s.db.ledger)
    && (l.Adopted? ==> l.prefix <= |d.baseline| && Adoptable(d, l.prefix) <= s.db.ledger)
  }

  ghost predicate FileOk(d: Directory, s: State, i: nat) {
    && Runs(s.db, i) <= 1 && (i in s.db.ledger ==> i < d.n)
    && (i in s.db.ledger <==> Runs(s.db, i) == 1 || WasAdopted(d, s, i))
  }

  /** The ledger is the first `m` files of the directory, and what was adopted besides. */
  ghost predicate ReachedTo(d: Directory, s: State, m: nat) {
    m <= d.n && forall i: nat :: i in s.db.ledger <==> i < m || WasAdopted(d, s, i)
  }

  ghost predicate Inv(d: Directory, s: State) {
    && (forall pid <- s.runners :: LocalOk(d, s, pid, s.runners[pid]))
    && (s.lock.Some? ==> s.lock.value in s.runners)
    && (forall i: nat :: FileOk(d, s, i))
    && (exists m: nat :: ReachedTo(d, s, m))
  }

  /** The next file of a plan is the first one that the ledger does not record. */
  lemma PlanAdvances(d: Directory, ledger: set<nat>, plan: seq<nat>, next: nat)
    requires PlanOk(d, ledger, plan, next) && next < |plan|
    ensures plan[next] < d.n && plan[next] !in ledger && (forall i: nat :: i < plan[next] ==> i in ledger)
    ensures PlanOk(d, ledger + {plan[next]}, plan, next + 1)
  {
    var todo, rest, x := plan[next..], plan[next + 1..], plan[next];
    assert todo == [x] + rest && todo[0] in todo;
    assert forall k :: 0 <= k < |rest| ==> rest[k] == plan[next + 1 + k] && x < rest[k];
    assert forall i: nat :: i in todo <==> i == x || i in rest;
  }

  /** Adoptions are not undone. */
  lemma AdoptionsStay(d: Directory, s: State, t: State, i: nat)
    requires forall pid <- s.runners :: s.runners[pid].Adopted? ==> pid in t.runners && t.runners[pid] == s.runners[pid]
    ensures WasAdopted(d, s, i) ==> WasAdopted(d, t, i)
  {
  }

  /** A step of a runner that adopts nothing leaves the adopted files alone. */
  lemma SameAdoptions(d: Directory, s: State, t: State, actor: nat)
    requires actor in t.runners && t.runners == s.runners[actor := t.runners[actor]]
    requires !t.runners[actor].Adopted? && (actor in s.runners ==> !s.runners[actor].Adopted?)
    ensures forall i: nat :: WasAdopted(d, t, i) <==> WasAdopted(d, s, i)
  {
    forall i: nat ensures WasAdopted(d, t, i) <==> WasAdopted(d, s, i) {
      AdoptionsStay(d, s, t, i);
      AdoptionsStay(d, t, s, i);
    }
  }

  /** A step that leaves the ledger and the runs alone. */
  lemma QuietKeeps(d: Directory, s: State, t: State, actor: nat)
    requires Inv(d, s) && t.db.ledger == s.db.ledger && t.db.runs == s.db.runs
    requires actor in t.runners && t.runners == s.runners[actor := t.runners[actor]]
    requires !t.runners[actor].Adopted? && (actor in s.runners ==> !s.runners[actor].Adopted?)
    requires LocalOk(d, t, actor, t.runners[actor])
    requires forall pid <- s.runners :: pid != actor ==> (s.lock == Some(pid) <==> t.lock == Some(pid))
    requires t.lock.Some? ==> t.lock.value in t.runners
    ensures Inv(d, t)
  {
    SameAdoptions(d, s, t, actor);
    hide WasAdopted;
    forall i: nat ensures FileOk(d, t, i) { assert FileOk(d, s, i); }
    var m: nat :| ReachedTo(d, s, m);
    assert ReachedTo(d, t, m);
  }

  lemma ApplyKeeps(d: Directory, s: State, pid: nat)
    requires Inv(d, s) && Enabled(d, s, Apply(pid))
    ensures Inv(d, Next(d, s, Apply(pid)))
  {
    var l, t := s.runners[pid], Next(d, s, Apply(pid));
    assert LocalOk(d, s, pid, l);
    PlanAdvances(d, s.db.ledger, l.plan, l.next);
    SameAdoptions(d, s, t, pid);
    hide WasAdopted, PlanOk;
    var x := l.plan[l.next];
    assert t.db.ledger == s.db.ledger + {x};
    forall i: nat ensures FileOk(d, t, i) { assert FileOk(d, s, i); }
    ApplyShapes(d, s, t, x);
    forall q <- t.runners ensures LocalOk(d, t, q, t.runners[q]) {
      if q != pid { assert LocalOk(d, s, q, s.runners[q]); }
    }
  }

  lemma ApplyShapes(d: Directory, s: State, t: State, x: nat)
    requires (exists m: nat :: ReachedTo(d, s, m)) && x < d.n && x !in s.db.ledger
    requires forall i: nat :: i < x ==> i in s.db.ledger
    requires t.db.ledger == s.db.ledger + {x} && forall i: nat :: WasAdopted(d, t, i) <==> WasAdopted(d, s, i)
    ensures ReachedTo(d, t, x + 1)
  {
    hide WasAdopted;
    var m: nat :| ReachedTo(d, s, m);
    assert x < m ==> x in s.db.ledger;
    forall i: nat ensures i in t.db.ledger <==> i < x + 1 || WasAdopted(d, t, i) {
      assert i in s.db.ledger <==> i < m || WasAdopted(d, s, i);
      assert i < x ==> i in s.db.ledger;
      assert i in t.db.ledger <==> i in s.db.ledger || i == x;
    }
  }

  lemma AdoptKeeps(d: Directory, s: State, pid: nat, found: seq<bool>)
    requires DirectoryOk(d) && Inv(d, s) && Enabled(d, s, Adopt(pid, found))
    ensures Inv(d, Next(d, s, Adopt(pid, found)))
  {
    var t := Next(d, s, Adopt(pid, found));
    assert LocalOk(d, s, pid, s.runners[pid]);
    if t.runners[pid].Adopted? {
      var length := t.runners[pid].prefix;
      assert IsPrefix(found, length);
      MoreAdopted(d, s, t, pid, length);
      hide WasAdopted;
      forall i: nat ensures FileOk(d, t, i) { assert FileOk(d, s, i); }
      var m: nat :| ReachedTo(d, s, m);
      assert ReachedTo(d, t, m);
      forall q <- t.runners ensures LocalOk(d, t, q, t.runners[q]) {
        if q != pid { assert LocalOk(d, s, q, s.runners[q]); }
      }
    } else {
      QuietKeeps(d, s, t, pid);
    }
  }

  lemma MoreAdopted(d: Directory, s: State, t: State, pid: nat, length: nat)
    requires length <= |d.baseline| && t.runners == s.runners[pid := Adopted(length)]
    requires pid in s.runners && !s.runners[pid].Adopted?
    ensures forall i: nat :: WasAdopted(d, t, i) <==> WasAdopted(d, s, i) || i in d.baseline[..length]
  {
    forall i: nat ensures WasAdopted(d, t, i) <==> WasAdopted(d, s, i) || i in d.baseline[..length] {
      AdoptionsStay(d, s, t, i);
      assert Took(d, t.runners[pid], i) <==> i in d.baseline[..length];
      if WasAdopted(d, t, i) {
        var q :| q in t.runners && Took(d, t.runners[q], i);
        assert q == pid || s.runners[q] == t.runners[q];
      }
    }
  }

  lemma PlanKeeps(d: Directory, s: State, pid: nat, drifted: bool)
    requires Inv(d, s) && Enabled(d, s, Plan(pid, drifted))
    ensures Inv(d, Next(d, s, Plan(pid, drifted)))
  {
    assert LocalOk(d, s, pid, s.runners[pid]);
    PendingIsExact(s.db.ledger, d.n);
    var plan := Pending(s.db.ledger, d.n);
    assert plan[0..] == plan;
    QuietKeeps(d, s, Next(d, s, Plan(pid, drifted)), pid);
  }

  lemma StepKeeps(d: Directory, s: State, step: Step)
    requires DirectoryOk(d) && Inv(d, s) && Enabled(d, s, step)
    ensures Inv(d, Next(d, s, step))
  {
    match step
    case Apply(pid) => ApplyKeeps(d, s, pid);
    case Adopt(pid, found) => AdoptKeeps(d, s, pid, found);
    case Plan(pid, drifted) => PlanKeeps(d, s, pid, drifted);
    case Start(pid, _) => QuietKeeps(d, s, Next(d, s, step), pid);
    case Acquire(pid) => QuietKeeps(d, s, Next(d, s, step), pid);
    case EnsureLedger(pid) => QuietKeeps(d, s, Next(d, s, step), pid);
    case Finish(pid) => QuietKeeps(d, s, Next(d, s, step), pid);
    case Fail(pid) => QuietKeeps(d, s, Next(d, s, step), pid);
  }

  lemma {:induction false} RunKeeps(d: Directory, states: seq<State>, steps: seq<Step>, k: nat)
    requires DirectoryOk(d) && Run(d, states, steps) && k < |states|
    ensures Inv(d, states[k])
  {
    if k == 0 {
      assert ReachedTo(d, VIRGIN, 0);
    } else {
      RunKeeps(d, states, steps, k - 1);
      StepKeeps(d, states[k - 1], steps[k - 1]);
    }
  }

  // ---------------------------------------------------------------- what every run guarantees

  /** Whatever the interleaving of runners, failures and crashes: no file runs twice; the ledger records a file exactly
      when its effect was committed by a runner or its history was adopted; and the recorded files are the first ones of
      the directory and the adopted ones. */
  lemma LedgerIsTheHistory(d: Directory, states: seq<State>, steps: seq<Step>, k: nat, i: nat)
    requires DirectoryOk(d) && Run(d, states, steps) && k < |states|
    ensures Runs(states[k].db, i) <= 1
    ensures i in states[k].db.ledger <==> Runs(states[k].db, i) == 1 || WasAdopted(d, states[k], i)
    ensures exists m: nat :: ReachedTo(d, states[k], m)
  {
    RunKeeps(d, states, steps, k);
    assert FileOk(d, states[k], i);
  }

  /** When the recorded files are the first ones of the directory without a hole: exactly when no file that precedes an
      adopted one is still pending. */
  lemma NoHoleIff(d: Directory, states: seq<State>, steps: seq<Step>, k: nat)
    requires DirectoryOk(d) && Run(d, states, steps) && k < |states|
    ensures (exists m: nat :: m <= d.n && states[k].db.ledger == Below(m))
            <==> forall i: nat, j: nat ::
                   WasAdopted(d, states[k], i) && j < i ==> j !in Pending(states[k].db.ledger, d.n)
  {
    RunKeeps(d, states, steps, k);
    var s := states[k];
    assert exists m: nat :: ReachedTo(d, s, m);
    PendingIsExact(s.db.ledger, d.n);
    forall i: nat ensures WasAdopted(d, s, i) ==> i in s.db.ledger && i < d.n { assert FileOk(d, s, i); }
    hide *;
    if m: nat :| m <= d.n && s.db.ledger == Below(m) {
      forall i: nat, j: nat | WasAdopted(d, s, i) && j < i ensures j !in Pending(s.db.ledger, d.n) {
        assert i in Below(m) && j in Below(m);
      }
    }
    if forall i: nat, j: nat :: WasAdopted(d, s, i) && j < i ==> j !in Pending(s.db.ledger, d.n) {
      WithoutHole(d, s);
    }
  }

  lemma WithoutHole(d: Directory, s: State)
    requires (exists m: nat :: ReachedTo(d, s, m)) && forall i: nat :: WasAdopted(d, s, i) ==> i < d.n
    requires forall i: nat, j: nat :: WasAdopted(d, s, i) && j < i ==> j !in Pending(s.db.ledger, d.n)
    ensures exists m: nat :: m <= d.n && s.db.ledger == Below(m)
  {
    PendingIsExact(s.db.ledger, d.n);
    hide WasAdopted, Pending, Below;
    var m: nat :| ReachedTo(d, s, m);
    var top := Longest(d, s, m, d.n);
    assert s.db.ledger == Below(top);
  }

  /** Where the ledger ends when it has no hole. */
  lemma {:induction false} Longest(d: Directory, s: State, m: nat, n: nat) returns (top: nat)
    requires m <= n <= d.n && forall i: nat :: i in s.db.ledger <==> i < m || WasAdopted(d, s, i)
    requires forall i: nat, j: nat :: WasAdopted(d, s, i) && j < i ==> j in s.db.ledger
    requires forall i: nat :: i in s.db.ledger ==> i < n
    ensures top <= n && forall i: nat :: i in s.db.ledger <==> i < top
  {
    hide WasAdopted;
    if n == m || n - 1 in s.db.ledger {
      top := n;
    } else {
      top := Longest(d, s, m, n - 1);
    }
  }

  /** What the ledger records, by adoption or by a run, is never executed again. */
  lemma {:induction false} RecordedIsNotRun(d: Directory, states: seq<State>, steps: seq<Step>, j: nat, k: nat, i: nat)
    requires DirectoryOk(d) && Run(d, states, steps) && j <= k < |states| && i in states[j].db.ledger
    ensures i in states[k].db.ledger && Runs(states[k].db, i) == Runs(states[j].db, i)
    decreases k
  {
    if j < k {
      RecordedIsNotRun(d, states, steps, j, k - 1, i);
      var s, step := states[k - 1], steps[k - 1];
      if step.Apply? {
        RunKeeps(d, states, steps, k - 1);
        var l := s.runners[step.pid];
        assert LocalOk(d, s, step.pid, l);
        PlanAdvances(d, s.db.ledger, l.plan, l.next);
      }
    }
  }

  /** A plan on a directory whose files no longer match the ledger applies nothing and ends the run; any other is the
      list of pending files. */
  lemma PlanIsExact(d: Directory, s: State, pid: nat, drifted: bool)
    requires Enabled(d, s, Plan(pid, drifted))
    ensures var t := Next(d, s, Plan(pid, drifted));
            && t.db == s.db
            && if drifted then t.runners[pid] == Stopped && t.lock == None
               else t.runners[pid] == Applying(Pending(s.db.ledger, d.n), 0) && t.lock == s.lock
  {
  }

  /** Two runners never hold the lock together. */
  lemma RunnersExclude(d: Directory, states: seq<State>, steps: seq<Step>, k: nat, p: nat, q: nat)
    requires DirectoryOk(d) && Run(d, states, steps) && k < |states|
    requires p in states[k].runners && q in states[k].runners
    requires Locked(states[k].runners[p]) && Locked(states[k].runners[q])
    ensures p == q
  {
    RunKeeps(d, states, steps, k);
    assert LocalOk(d, states[k], p, states[k].runners[p]) && LocalOk(d, states[k], q, states[k].runners[q]);
  }

  /** Once a runner has completed, nothing is pending, and every later plan is empty. */
  lemma CompletionIsFinal(d: Directory, states: seq<State>, steps: seq<Step>, k: nat, p: nat)
    requires DirectoryOk(d) && Run(d, states, steps) && k < |states|
    requires p in states[k].runners && states[k].runners[p].Completed?
    ensures Pending(states[k].db.ledger, d.n) == []
  {
    RunKeeps(d, states, steps, k);
    assert LocalOk(d, states[k], p, states[k].runners[p]);
    NothingPending(states[k].db.ledger, d.n);
  }

  /** Without a hole, the sentinels that are present form a prefix. */
  lemma {:induction false} PrefixExists(found: seq<bool>) returns (length: nat)
    requires forall j, k :: 0 <= j < k < |found| && found[k] ==> found[j]
    ensures IsPrefix(found, length)
  {
    if found == [] {
      length := 0;
    } else {
      var front := found[..|found| - 1];
      length := PrefixExists(front);
      assert forall k :: 0 <= k < |front| ==> found[k] == front[k];
      if found[|front|] {
        assert forall j :: 0 <= j < |front| ==> found[j];
        length := |found|;
      }
    }
  }

  /** Adopting succeeds exactly when no sentinel is missing before one that is present; it then records exactly the
      files whose sentinel is present, and runs nothing. */
  lemma AdoptionIsExact(d: Directory, s: State, pid: nat, found: seq<bool>)
    requires Enabled(d, s, Adopt(pid, found))
    ensures var t := Next(d, s, Adopt(pid, found));
            && (t.runners[pid].Adopted? <==> forall j, k :: 0 <= j < k < |found| && found[k] ==> found[j])
            && (t.runners[pid].Adopted? ==>
                  forall i: nat ::
                    i in t.db.ledger
                    <==> i in s.db.ledger || exists k :: 0 <= k < |found| && found[k] && d.baseline[k] == i)
            && (!t.runners[pid].Adopted? ==> t.db.ledger == s.db.ledger)
            && t.db.runs == s.db.runs
  {
    if forall j, k :: 0 <= j < k < |found| && found[k] ==> found[j] {
      var length := PrefixExists(found);
      assert IsPrefix(found, length);
    }
    var t := Next(d, s, Adopt(pid, found));
    if t.runners[pid].Adopted? {
      var length := t.runners[pid].prefix;
      assert IsPrefix(found, length);
      forall i: nat
        ensures i in Adoptable(d, length) <==> exists k :: 0 <= k < |found| && found[k] && d.baseline[k] == i
      {
        if i in Adoptable(d, length) {
          var k :| 0 <= k < length && d.baseline[..length][k] == i;
          assert found[k] && d.baseline[k] == i;
        }
        if k :| 0 <= k < |found| && found[k] && d.baseline[k] == i { assert d.baseline[..length][k] == i; }
      }
    }
  }

  // ---------------------------------------------------------------- adopting a database migrated by hand

  /** Adopting a database that shows every sentinel records the whole baseline, runs nothing, and leaves everything else
      pending. */
  lemma FullAdoption(d: Directory, found: seq<bool>) returns (states: seq<State>, steps: seq<Step>)
    requires DirectoryOk(d) && |found| == |d.baseline| && forall k :: 0 <= k < |found| ==> found[k]
    ensures Run(d, states, steps) && |states| == 5
    ensures forall i: nat :: WasAdopted(d, states[4], i) <==> i in d.baseline
    ensures forall i: nat :: i in states[4].db.ledger <==> i in d.baseline
    ensures forall i: nat :: i in Pending(states[4].db.ledger, d.n) <==> i < d.n && i !in d.baseline
    ensures states[4].db.runs == map[]
  {
    var a := Next(d, VIRGIN, Start(0, AdoptBaseline));
    var b := Next(d, a, Acquire(0));
    var c := Next(d, b, EnsureLedger(0));
    assert IsPrefix(found, |found|);
    var e := Next(d, c, Adopt(0, found));
    assert IsPrefix(found, e.runners[0].prefix);
    PrefixIsUnique(found, |found|, e.runners[0].prefix);
    assert d.baseline[..|found|] == d.baseline;
    states, steps := [VIRGIN, a, b, c, e], [Start(0, AdoptBaseline), Acquire(0), EnsureLedger(0), Adopt(0, found)];
    PendingIsExact(e.db.ledger, d.n);
    forall i: nat ensures WasAdopted(d, e, i) <==> i in d.baseline {
      assert Took(d, e.runners[0], i) <==> i in d.baseline;
    }
  }

  /** With the baseline that ships, that ledger has a hole: 0016 is still pending when 0034 is recorded. */
  lemma FullAdoptionLeavesAHole() returns (states: seq<State>, steps: seq<Step>)
    ensures DirectoryOk(SHIPPED) && Run(SHIPPED, states, steps) && |states| == 5
    ensures 14 in Pending(states[4].db.ledger, SHIPPED.n) && 32 in states[4].db.ledger
    ensures !exists m: nat :: m <= SHIPPED.n && states[4].db.ledger == Below(m)
  {
    hide Run;
    var found := seq(19, _ => true);
    assert SHIPPED.baseline[14] == 32;
    states, steps := FullAdoption(SHIPPED, found);
    assert 14 in Pending(states[4].db.ledger, SHIPPED.n) && 32 in states[4].db.ledger;
  }
}
