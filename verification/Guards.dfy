/** The guards that follow `evaluate` on the cooperative door, in the order in which `authorize` folds them
    (`core/decision.py`): the judge, graduated autonomy and the plan ceiling (`core/judge.py`, `core/risk.py`,
    `core/entitlements.py`). */
module Guards {

  import opened Basics
  import opened PolicyEngine

  // ---------------------------------------------------------------- the judge

  /** What the model answered: nothing usable because the call failed, an unusable text, or a class. */
  datatype Answer = Failed | Unusable | Classified(c: ActionClass)

  /** The counters of a judge. */
  datatype Counters = Counters(maxCalls: int, calls: nat, classifications: nat)

  /** `Judge.classify` on the counters. */
  function Consulted(j: Counters, a: Answer): (Counters, ActionClass) {
    if j.calls >= j.maxCalls then (j, Irreversible)
    else if a.Classified? then (j.(calls := j.calls + 1, classifications := j.classifications + 1), a.c)
    else (j.(calls := j.calls + 1), Irreversible)
  }

  /** `resolve_ambiguous`; no judge is an absent one. */
  function Resolved(o: Outcome, judge: Option<Counters>, a: Answer): Outcome {
    if !o.ambiguous then o
    else
      match judge
      case None => o.(actionClass := Some(Irreversible), decision := EscalateForClass(o.decision, Irreversible),
                      reason := JudgeUnavailable, ambiguous := true, judgeUsed := false)
      case Some(j) =>
        var (after, c) := Consulted(j, a);
        var used := after.classifications > j.classifications;
        o.(actionClass := Some(c), decision := EscalateForClass(o.decision, c),
           reason := if used then ByJudge else if after.calls > j.calls then JudgeError else JudgeOverBudget,
           ambiguous := true, judgeUsed := used)
  }

  /** What an ambiguous call becomes: its class, who gave it, and the least verdict that is at least the one so far
      and a human for a dangerous class. */
  predicate ClassifiedAs(o: Outcome, r: Outcome, c: ActionClass, reason: Reason, used: bool) {
    && r.actionClass == Some(c) && r.reason == reason && r.judgeUsed == used && r.ambiguous && r.ruleName == o.ruleName
    && r.decision == if c in {ExternalSend, Irreversible} && o.decision in {Auto, Notify} then HumanInTheLoop
                     else o.decision
  }

  /** `resolve_ambiguous`, exactly: a call that is not ambiguous is left alone; without a judge, over its budget, or
      when it fails, the call counts as irreversible, for three different reasons; otherwise it has the class that the
      model gave. */
  lemma ResolvedIsExact(o: Outcome, judge: Option<Counters>, a: Answer)
    ensures var r := Resolved(o, judge, a);
            && (!o.ambiguous ==> r == o)
            && (o.ambiguous && judge.None? ==> ClassifiedAs(o, r, Irreversible, JudgeUnavailable, false))
            && (o.ambiguous && judge.Some? && judge.value.calls >= judge.value.maxCalls ==>
                  ClassifiedAs(o, r, Irreversible, JudgeOverBudget, false))
            && (o.ambiguous && judge.Some? && judge.value.calls < judge.value.maxCalls && a in {Failed, Unusable} ==>
                  ClassifiedAs(o, r, Irreversible, JudgeError, false))
            && (o.ambiguous && judge.Some? && judge.value.calls < judge.value.maxCalls && a.Classified? ==>
                  ClassifiedAs(o, r, a.c, ByJudge, true))
  {
  }

  class Judge {
    const maxCalls: int
    var calls: nat
    var classifications: nat

    ghost function Now(): Counters
      reads this
    {
      Counters(maxCalls, calls, classifications)
    }

    constructor (maxCalls: int)
      ensures Now() == Counters(maxCalls, 0, 0)
    {
      this.maxCalls := maxCalls;
      calls, classifications := 0, 0;
    }

    /** `Judge.classify`: the budget counts attempts, so a provider that fails cannot exceed it. */
    method Classify(a: Answer) returns (c: ActionClass)
      modifies this
      ensures (Now(), c) == Consulted(old(Now()), a)
    {
      if calls >= maxCalls { return Irreversible; }
      calls := calls + 1;
      match a
      case Classified(cls) =>
        classifications := classifications + 1;
        c := cls;
      case _ =>
        c := Irreversible;
    }

    /** `Judge.narrate`: it spends the same budget and is credited with nothing; it raises over budget, and when the
        call does (`text` is then none). */
    method Narrate(text: Option<string>) returns (r: Option<string>)
      modifies this
      ensures Now() == Asked(old(Now()), ToNarrate)
      ensures r == if old(calls) >= maxCalls then None else text
    {
      if calls >= maxCalls { return None; }
      calls := calls + 1;
      r := text;
    }
  }

  /** `resolve_ambiguous` */
  method ResolveAmbiguous(o: Outcome, judge: Judge?, a: Answer) returns (r: Outcome)
    modifies judge
    ensures judge == null ==> r == Resolved(o, None, a)
    ensures judge != null ==> r == Resolved(o, Some(old(judge.Now())), a)
    ensures judge != null ==>
              judge.Now() == if o.ambiguous then Consulted(old(judge.Now()), a).0 else old(judge.Now())
  {
    if !o.ambiguous { return o; }
    var judged, reason, used := Irreversible, JudgeUnavailable, false;
    if judge != null {
      var attempts, classes := judge.calls, judge.classifications;
      judged := judge.Classify(a);
      used := judge.classifications > classes;
      reason := if used then ByJudge else if judge.calls > attempts then JudgeError else JudgeOverBudget;
    }
    r := Outcome(Some(judged), EscalateForClass(o.decision, judged), o.ruleName, reason, true, used);
  }

  /** The two uses of the one budget. */
  datatype Question = ToClassify(a: Answer) | ToNarrate

  function Asked(j: Counters, q: Question): Counters {
    match q
    case ToClassify(a) => Consulted(j, a).0
    case ToNarrate => if j.calls >= j.maxCalls then j else j.(calls := j.calls + 1)
  }

  /** The counters after any number of questions. */
  function AfterQuestions(j: Counters, questions: seq<Question>): Counters {
    if questions == [] then j
    else Asked(AfterQuestions(j, questions[..|questions| - 1]), questions[|questions| - 1])
  }

  /** The questions that the model answered with a class. */
  function Classes(questions: seq<Question>): nat {
    if questions == [] then 0
    else
      var last := questions[|questions| - 1];
      Classes(questions[..|questions| - 1]) + (if last.ToClassify? && last.a.Classified? then 1 else 0)
  }

  /** Over any run of classifications and narratives the model is asked at most `maxCalls` times, once per question
      until then, and is credited with exactly the classes that it gave within the budget. */
  lemma {:induction false} JudgeBudget(j: Counters, questions: seq<Question>)
    requires j.calls == j.classifications == 0
    ensures var after := AfterQuestions(j, questions);
            var asked := Max(0, Min(j.maxCalls, |questions|));
            && after.maxCalls == j.maxCalls && after.calls == asked
            && after.classifications == Classes(questions[..asked])
  {
    if questions != [] {
      var front := questions[..|questions| - 1];
      JudgeBudget(j, front);
      var asked := Max(0, Min(j.maxCalls, |questions|));
      assert questions[..asked] == if asked == |questions| then questions else front[..asked];
      assert front[..|front|] == front;
    }
  }

  // ---------------------------------------------------------------- graduated autonomy

  /** What the risk score reads of the arguments: their texts, the addresses of a text, whether a text names
      everyone, the length of the lists, and the categories of the findings of a text. */
  datatype Category = Secret | Pii

  datatype Facts = Facts(
    texts: seq<string>,
    addresses: string -> set<string>,
    everyone: string -> bool,
    listTargets: nat,
    findings: string -> seq<Category>)

  function Recipients(texts: seq<string>, addresses: string -> set<string>): set<string> {
    if texts == [] then {} else Recipients(texts[..|texts| - 1], addresses) + addresses(texts[|texts| - 1])
  }

  function FanOut(f: Facts): nat {
    if exists k :: 0 <= k < |f.texts| && f.everyone(f.texts[k]) then 15
    else
      var n := Max(|Recipients(f.texts, f.addresses)|, f.listTargets);
      if n >= 3 then 10 else if n >= 1 then 5 else 0
  }

  /** `_blast_radius` */
  method BlastRadius(f: Facts) returns (points: nat)
    ensures points == FanOut(f)
  {
    var recipients: set<string> := {};
    for k := 0 to |f.texts|
      invariant forall j :: 0 <= j < k ==> !f.everyone(f.texts[j])
      invariant recipients == Recipients(f.texts[..k], f.addresses)
    {
      assert f.texts[..k + 1][..k] == f.texts[..k];
      recipients := recipients + f.addresses(f.texts[k]);
      if f.everyone(f.texts[k]) { return 15; }
    }
    assert f.texts[..|f.texts|] == f.texts;
    var n := Max(|recipients|, f.listTargets);
    points := if n >= 3 then 10 else if n >= 1 then 5 else 0;
  }

  predicate Mentions(f: Facts, c: Category) { exists k :: 0 <= k < |f.texts| && c in f.findings(f.texts[k]) }

  function Sensitivity(f: Facts): nat { if Mentions(f, Secret) then 25 else if Mentions(f, Pii) then 15 else 0 }

  /** `_sensitivity`: it stops at the first secret. */
  method WorstFinding(f: Facts) returns (worst: nat)
    ensures worst == Sensitivity(f)
  {
    worst := 0;
    for k := 0 to |f.texts|
      invariant forall j :: 0 <= j < k ==> Secret !in f.findings(f.texts[j])
      invariant worst == if exists j :: 0 <= j < k && Pii in f.findings(f.texts[j]) then 15 else 0
    {
      var found := f.findings(f.texts[k]);
      for i := 0 to |found|
        invariant Secret !in found[..i]
        invariant worst == if (exists j :: 0 <= j < k && Pii in f.findings(f.texts[j])) || Pii in found[..i] then 15
                           else 0
      {
        if found[i] == Secret { return 25; }
        worst := 15;
      }
      assert found[..|found|] == found;
    }
  }

  function BaseRisk(c: Option<ActionClass>): nat {
    match c
    case None => 25
    case Some(Read) => 5
    case Some(Write) => 25
    case Some(ExternalSend) => 55
    case Some(Irreversible) => 75
  }

  /** `risk_score` */
  function RiskScore(c: Option<ActionClass>, f: Facts, seenBefore: bool): nat {
    Min(100, BaseRisk(c) + FanOut(f) + Sensitivity(f) + if seenBefore then 0 else 10)
  }

  /** The same detectors, on arguments that carry more: every text of `f`, and lists at least as long. */
  ghost predicate CarriesMore(f: Facts, g: Facts) {
    && f.addresses == g.addresses && f.everyone == g.everyone && f.findings == g.findings
    && (forall t <- f.texts :: t in g.texts) && f.listTargets <= g.listTargets
  }

  /** The second class is at least as risky; an unknown one ranks with the writes. */
  predicate NoMilder(c: Option<ActionClass>, d: Option<ActionClass>) {
    || c == d || c == Some(Read) || d == Some(Irreversible) || (c in {None, Some(Write)} && d in {None, Some(Write)})
    || (d == Some(ExternalSend) && c != Some(Irreversible))
  }

  lemma {:induction false} RecipientsOf(texts: seq<string>, addresses: string -> set<string>, a: string)
    ensures a in Recipients(texts, addresses) <==> exists t <- texts :: a in addresses(t)
  {
    if texts != [] {
      var front, last := texts[..|texts| - 1], texts[|texts| - 1];
      RecipientsOf(front, addresses, a);
      assert texts == front + [last];
    }
  }

  lemma SubsetIsSmaller(a: set<string>, b: set<string>)
    requires a <= b
    ensures |a| <= |b|
  {
    assert b == a + (b - a);
  }

  lemma RecipientsGrow(f: Facts, g: Facts)
    requires CarriesMore(f, g)
    ensures |Recipients(f.texts, f.addresses)| <= |Recipients(g.texts, g.addresses)|
  {
    forall a | a in Recipients(f.texts, f.addresses) ensures a in Recipients(g.texts, g.addresses) {
      RecipientsOf(f.texts, f.addresses, a);
      RecipientsOf(g.texts, g.addresses, a);
    }
    SubsetIsSmaller(Recipients(f.texts, f.addresses), Recipients(g.texts, g.addresses));
  }

  lemma FanOutGrows(f: Facts, g: Facts)
    requires CarriesMore(f, g)
    ensures FanOut(f) <= FanOut(g)
  {
    hide Recipients;
    RecipientsGrow(f, g);
    if k :| 0 <= k < |f.texts| && f.everyone(f.texts[k]) {
      assert f.texts[k] in g.texts;
    }
  }

  lemma MentionsGrow(f: Facts, g: Facts, c: Category)
    requires CarriesMore(f, g) && Mentions(f, c)
    ensures Mentions(g, c)
  {
    var k :| 0 <= k < |f.texts| && c in f.findings(f.texts[k]);
    assert f.texts[k] in g.texts;
  }

  lemma SensitivityGrows(f: Facts, g: Facts)
    requires CarriesMore(f, g)
    ensures Sensitivity(f) <= Sensitivity(g)
  {
    hide CarriesMore, Mentions;
    if Mentions(f, Secret) { MentionsGrow(f, g, Secret); }
    if Mentions(f, Pii) { MentionsGrow(f, g, Pii); }
  }

  /** The four factors: a riskier class, arguments that carry more texts, in any order and nesting, or longer lists, and
      a pair that was not seen before never lower the score, which stays within 100. */
  lemma RiskScoreIsMonotone(c: Option<ActionClass>, d: Option<ActionClass>, f: Facts, g: Facts, seen: bool, less: bool)
    requires NoMilder(c, d) && CarriesMore(f, g) && (less ==> seen)
    ensures RiskScore(c, f, seen) <= RiskScore(d, g, less) <= 100
  {
    hide CarriesMore, FanOut, Sensitivity;
    FanOutGrows(f, g);
    SensitivityGrows(f, g);
  }

  /** The score, exactly: what the class weighs, how many distinct recipients or list entries the arguments name, the
      worst thing found in them, and whether the pair is new, capped at 100. */
  lemma RiskScoreIsExact(c: Option<ActionClass>, f: Facts, seen: bool)
    ensures var base := if c == Some(Read) then 5 else if c == Some(ExternalSend) then 55
                        else if c == Some(Irreversible) then 75 else 25;
            var named := |set t, a | t in f.texts && a in f.addresses(t) :: a|;
            var fan := if exists t <- f.texts :: f.everyone(t) then 15
                       else if named >= 3 || f.listTargets >= 3 then 10
                       else if named >= 1 || f.listTargets >= 1 then 5 else 0;
            var worst := if exists t <- f.texts :: Secret in f.findings(t) then 25
                         else if exists t <- f.texts :: Pii in f.findings(t) then 15 else 0;
            var sum := base + fan + worst + if seen then 0 else 10;
            RiskScore(c, f, seen) == if sum > 100 then 100 else sum
  {
    FanOutIsExact(f);
    SensitivityIsExact(f);
    hide FanOut, Sensitivity;
  }

  lemma FanOutIsExact(f: Facts)
    ensures var named := |set t, a | t in f.texts && a in f.addresses(t) :: a|;
            FanOut(f) == if exists t <- f.texts :: f.everyone(t) then 15
                         else if named >= 3 || f.listTargets >= 3 then 10
                         else if named >= 1 || f.listTargets >= 1 then 5 else 0
  {
    NamedAddresses(f);
    SomeText(f.texts, f.everyone);
  }

  lemma SensitivityIsExact(f: Facts)
    ensures Sensitivity(f) == if exists t <- f.texts :: Secret in f.findings(t) then 25
                              else if exists t <- f.texts :: Pii in f.findings(t) then 15 else 0
  {
    SomeText(f.texts, t => Secret in f.findings(t));
    SomeText(f.texts, t => Pii in f.findings(t));
  }

  lemma SomeText(texts: seq<string>, p: string -> bool)
    ensures (exists t <- texts :: p(t)) <==> exists k :: 0 <= k < |texts| && p(texts[k])
  {
  }

  lemma NamedAddresses(f: Facts)
    ensures Recipients(f.texts, f.addresses) == set t, a | t in f.texts && a in f.addresses(t) :: a
  {
    forall a ensures a in Recipients(f.texts, f.addresses) <==> exists t <- f.texts :: a in f.addresses(t) {
      RecipientsOf(f.texts, f.addresses, a);
    }
  }

  /** `band` */
  function Band(score: int, bands: RiskBands, c: Option<ActionClass>): Approval {
    var tier := if score < bands.auto then Auto
                else if score < bands.notify then Notify
                else if score < bands.hitl then HumanInTheLoop
                else Deny;
    if c == Some(Irreversible) && (tier == Auto || tier == Notify) then HumanInTheLoop else tier
  }

  const TRUST_THRESHOLD: nat := 5
  const TRUST_STEP: nat := 30

  function TrustDiscount(cleanStreak: int): nat { if cleanStreak >= TRUST_THRESHOLD then TRUST_STEP else 0 }

  /** `escalate_by_risk` */
  function EscalateByRisk(base: Approval, c: Option<ActionClass>, f: Facts, bands: Option<RiskBands>,
                          seenBefore: bool, cleanStreak: int): Approval {
    if bands.None? || base != Auto then base
    else RaiseTo(base, Band(Max(0, RiskScore(c, f, seenBefore) - TrustDiscount(cleanStreak)), bands.value, c))
  }

  /** Earned trust never raises the tier, and no trust lets an irreversible action run unattended. */
  lemma TrustNeverTightens(base: Approval, c: Option<ActionClass>, f: Facts, bands: Option<RiskBands>,
                           seen: bool, streak: int, seenMore: bool, longer: int)
    requires (seen ==> seenMore) && streak <= longer
    ensures AtLeast(EscalateByRisk(base, c, f, bands, seen, streak),
                    EscalateByRisk(base, c, f, bands, seenMore, longer))
    ensures AtLeast(EscalateByRisk(base, c, f, bands, seenMore, longer), base)
    ensures bands.Some? && c == Some(Irreversible) ==>
              AtLeast(EscalateByRisk(base, c, f, bands, seenMore, longer), HumanInTheLoop) || base != Auto
  {
    if bands.Some? && base == Auto {
      var s := Max(0, RiskScore(c, f, seen) - TrustDiscount(streak));
      var t := Max(0, RiskScore(c, f, seenMore) - TrustDiscount(longer));
      assert t <= s;
      hide RiskScore, TrustDiscount;
      BandsAreMonotone(t, s, bands.value, c);
    }
  }

  lemma BandsAreMonotone(t: int, s: int, bands: RiskBands, c: Option<ActionClass>)
    requires t <= s
    ensures AtLeast(Band(s, bands, c), Band(t, bands, c))
    ensures c == Some(Irreversible) ==> AtLeast(Band(t, bands, c), HumanInTheLoop)
  {
  }

  /** Graduated autonomy, exactly: only a verdict that runs unattended is scored, the score less 30 points after five
      clean approvals; it gives the tier of its band, raised to a human for an irreversible action. */
  lemma EscalationIsExact(base: Approval, c: Option<ActionClass>, f: Facts, bands: Option<RiskBands>, seen: bool,
                          streak: int)
    ensures var r := EscalateByRisk(base, c, f, bands, seen, streak);
            if bands.None? || base != Auto then r == base
            else
              var score := RiskScore(c, f, seen) - if streak >= 5 then 30 else 0;
              var kept := if score < 0 then 0 else score;
              var tier := if kept < bands.value.auto then Auto else if kept < bands.value.notify then Notify
                          else if kept < bands.value.hitl then HumanInTheLoop else Deny;
              r == if c == Some(Irreversible) && tier != Deny then HumanInTheLoop else tier
  {
    hide RiskScore;
  }

  const DEFAULT_BANDS := RiskBands(30, 60, 85)

  /** Under the default bands an external send that the policy lets run stays unattended exactly when trust was earned,
      the pair was seen before, and nothing in the arguments is a recipient or sensitive; the first one that carries a
      secret is denied. */
  lemma ExternalSendsEarnTheirWay(f: Facts, seen: bool, streak: int)
    ensures EscalateByRisk(Auto, Some(ExternalSend), f, Some(DEFAULT_BANDS), seen, streak) == Auto
            <==> streak >= TRUST_THRESHOLD && seen && FanOut(f) == 0 && Sensitivity(f) == 0
    ensures !seen && Mentions(f, Secret) && streak < TRUST_THRESHOLD ==>
              EscalateByRisk(Auto, Some(ExternalSend), f, Some(DEFAULT_BANDS), seen, streak) == Deny
  {
  }

  // ---------------------------------------------------------------- the plan ceiling

  datatype Meter = Ok | Grace | Capped | Unknown

  predicate Closed(m: Meter) { m == Capped || m == Unknown }

  /** `tighten` */
  function Tightened(o: Outcome, p: Policy, m: Meter): Outcome {
    if o.decision == HumanInTheLoop || o.decision == HumanDual then o
    else if !Risky(o.actionClass) then o
    else
      var closed := RaiseTo(o.decision, ServiceDownVerdict(p, o.actionClass));
      if closed == o.decision then o
      else o.(decision := closed, reason := if m == Capped then PlanCapped else PlanUnknown)
  }

  /** What the ceiling does, as a rule: it denies exactly the risky actions that were to run unattended. */
  lemma TightenIsExact(o: Outcome, p: Policy, m: Meter)
    ensures var r := Tightened(o, p, m);
            if o.actionClass !in {Some(Read), Some(Write)} && o.decision in {Auto, Notify}
            then r == o.(decision := Deny, reason := if m == Capped then PlanCapped else PlanUnknown)
            else r == o
  {
  }

  // ---------------------------------------------------------------- the chain of guards

  /** What reading the entitlement gave: the load raised, or it succeeded; then the commit that follows the debit of
      the judge may raise. */
  datatype Reading =
    | Unreadable
    | Readable(judgeSold: bool, judgeMeter: Meter, commitRaises: bool, decisions: Meter)

  /** The trust lookup: it raised, or it gave whether the pair was seen and its clean streak. */
  datatype Trust = NoTrust | Observed(seen: bool, streak: int)

  datatype Oracles = Oracles(
    byName: Option<ActionClass>,
    reading: Reading,
    judge: Option<Counters>,
    answer: Answer,
    trust: Trust,
    facts: Facts)

  /** Whether the judge may run, and the state of the decision meter when the entitlement was read to the end. */
  function Permitted(r: Reading, ambiguous: bool): (bool, Option<Meter>) {
    match r
    case Unreadable => (false, None)
    case Readable(sold, meter, raises, decisions) =>
      if sold && ambiguous then (meter != Capped, if raises then None else Some(decisions))
      else (false, Some(decisions))
  }

  /** The verdict of the policy after every guard. */
  function FinalOutcome(p: Policy, tool: string, arguments: Arguments, x: Oracles): Outcome {
    var meter := MeterRead(p, tool, arguments, x);
    var before := BeforeCeiling(p, tool, arguments, x);
    if meter.Some? && Closed(meter.value) then Tightened(before, p, meter.value) else before
  }

  /** The decision meter, when the entitlement was read to the end. */
  function MeterRead(p: Policy, tool: string, arguments: Arguments, x: Oracles): Option<Meter> {
    Permitted(x.reading, Evaluate(p, tool, arguments, x.byName).ambiguous).1
  }

  /** The verdict after the judge and the risk score. */
  function BeforeCeiling(p: Policy, tool: string, arguments: Arguments, x: Oracles): Outcome {
    Scored(p, AfterJudge(p, tool, arguments, x), x)
  }

  /** The verdict after the judge. */
  function AfterJudge(p: Policy, tool: string, arguments: Arguments, x: Oracles): Outcome {
    var first := Evaluate(p, tool, arguments, x.byName);
    Resolved(first, if Permitted(x.reading, first.ambiguous).0 then x.judge else None, x.answer)
  }

  function Scored(p: Policy, o: Outcome, x: Oracles): Outcome {
    if p.riskBands.None? || o.decision != Auto then o
    else
      var tier := EscalateByRisk(o.decision, o.actionClass, x.facts, p.riskBands,
                                 x.trust.Observed? && x.trust.seen, if x.trust.Observed? then x.trust.streak else 0);
      if tier == o.decision then o else o.(decision := tier, reason := Risk)
  }

  /** When the judge is asked, and when the decision meter counts: the judge only about an ambiguous call, if it was
      sold, its own meter is not capped and the entitlement could be loaded; the decision meter if the entitlement was
      read to the end, which the commit that follows a question to the judge can prevent. */
  lemma ReadingIsExact(p: Policy, tool: string, arguments: Arguments, x: Oracles)
    ensures var first := Evaluate(p, tool, arguments, x.byName);
            var asked := x.reading.Readable? && x.reading.judgeSold && x.reading.judgeMeter != Capped;
            AfterJudge(p, tool, arguments, x) == Resolved(first, if asked then x.judge else None, x.answer)
    ensures var interrupted := Evaluate(p, tool, arguments, x.byName).ambiguous && x.reading.Readable?
                               && x.reading.judgeSold && x.reading.commitRaises;
            MeterRead(p, tool, arguments, x)
            == if x.reading.Unreadable? || interrupted then None else Some(x.reading.decisions)
  {
    hide Evaluate;
  }

  /** When the risk score is consulted: on a verdict that runs unattended under declared bands, and a trust lookup that
      fails counts as a pair that is new and has earned nothing. */
  lemma ScoringIsExact(p: Policy, tool: string, arguments: Arguments, x: Oracles)
    ensures var o, r := AfterJudge(p, tool, arguments, x), BeforeCeiling(p, tool, arguments, x);
            var (seen, streak) := if x.trust.NoTrust? then (false, 0) else (x.trust.seen, x.trust.streak);
            var tier := EscalateByRisk(o.decision, o.actionClass, x.facts, p.riskBands, seen, streak);
            r == if tier == o.decision then o else o.(decision := tier, reason := Risk)
  {
    hide AfterJudge, RiskScore, Band;
  }

  /** The guards of `authorize`, as it runs them. */
  method ApplyGuards(p: Policy, tool: string, arguments: Arguments, x: Oracles, judge: Judge?) returns (o: Outcome)
    requires (x.judge == None <==> judge == null) && (judge != null ==> x.judge == Some(judge.Now()))
    modifies judge
    ensures o == FinalOutcome(p, tool, arguments, x)
  {
    hide Evaluate, Resolved, EscalateByRisk, Tightened;
    o := Evaluate(p, tool, arguments, x.byName);
    var judgeAllowed, read, meter := false, false, Unknown;
    match x.reading {
      case Unreadable =>
      case Readable(sold, judgeMeter, raises, decisions) =>
        judgeAllowed := sold && o.ambiguous;
        var raised := false;
        if judgeAllowed {
          judgeAllowed := judgeMeter != Capped;
          raised := raises;
        }
        if !raised {
          meter := decisions;
          read := true;
        }
    }
    o := ResolveAmbiguous(o, if judgeAllowed then judge else null, x.answer);
    if p.riskBands.Some? && o.decision == Auto {
      var seen, streak := false, 0;
      if x.trust.Observed? { seen, streak := x.trust.seen, x.trust.streak; }
      var tier := EscalateByRisk(o.decision, o.actionClass, x.facts, p.riskBands, seen, streak);
      if tier != o.decision { o := o.(decision := tier, reason := Risk); }
    }
    var state := if read then meter else Meter.Ok;
    if state == Capped || state == Unknown { o := Tightened(o, p, state); }
  }

  /** Guards only tighten: whatever the judge, the trust history and the meters answer, or fail to answer, the final
      verdict is at least the verdict of the policy. */
  lemma GuardsOnlyTighten(p: Policy, tool: string, arguments: Arguments, x: Oracles)
    ensures AtLeast(FinalOutcome(p, tool, arguments, x).decision, Evaluate(p, tool, arguments, x.byName).decision)
    ensures FinalOutcome(p, tool, arguments, x).ruleName == Evaluate(p, tool, arguments, x.byName).ruleName
  {
    hide RiskScore, ConstraintsHold, ConstraintFloor, ClassifyByArgument, RuleFor;
  }

  /** A call that needed a classification, by the judge or by its arguments, and that ends up dangerous, ends at a
      human or stricter. */
  lemma DangerousIsHeld(p: Policy, tool: string, arguments: Arguments, x: Oracles)
    requires var first := Evaluate(p, tool, arguments, x.byName);
             first.ambiguous || first.reason == ArgumentClassified
    requires FinalOutcome(p, tool, arguments, x).actionClass in {Some(ExternalSend), Some(Irreversible)}
    ensures AtLeast(FinalOutcome(p, tool, arguments, x).decision, HumanInTheLoop)
  {
    hide RiskScore, ConstraintsHold, ConstraintFloor, ClassifyByArgument, RuleFor;
  }

  /** An ambiguous call runs unattended only if the model itself classified it as read or write, inside its budget. */
  lemma UnattendedNeedsTheJudge(p: Policy, tool: string, arguments: Arguments, x: Oracles)
    requires Evaluate(p, tool, arguments, x.byName).ambiguous
    requires !AtLeast(FinalOutcome(p, tool, arguments, x).decision, HumanInTheLoop)
    ensures x.judge.Some? && x.judge.value.calls < x.judge.value.maxCalls && x.answer.Classified?
    ensures x.answer.c in {Read, Write} && FinalOutcome(p, tool, arguments, x).judgeUsed
  {
    hide RiskScore, ConstraintsHold, ConstraintFloor, ClassifyByArgument, RuleFor;
  }

  /** Exactly what the plan does: it denies the risky actions that were left to run unattended when the meter was read
      and is closed; an open meter, or one that could not be read at all, never changes the verdict. */
  lemma ClosedPlanClosesRisk(p: Policy, tool: string, arguments: Arguments, x: Oracles)
    ensures var before, o := BeforeCeiling(p, tool, arguments, x), FinalOutcome(p, tool, arguments, x);
            var meter := MeterRead(p, tool, arguments, x);
            if meter in {Some(Capped), Some(Unknown)} && before.actionClass !in {Some(Read), Some(Write)}
               && before.decision in {Auto, Notify}
            then o == before.(decision := Deny,
                              reason := if meter == Some(Capped) then PlanCapped else PlanUnknown)
            else o == before
    ensures var o, meter := FinalOutcome(p, tool, arguments, x), MeterRead(p, tool, arguments, x);
            meter in {Some(Capped), Some(Unknown)} && o.actionClass !in {Some(Read), Some(Write)} ==>
              AtLeast(o.decision, HumanInTheLoop)
  {
    hide BeforeCeiling, MeterRead;
  }
}
