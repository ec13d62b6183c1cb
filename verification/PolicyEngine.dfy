/** The deterministic policy engine (`core/policy.py`): the severity lattice of verdicts and `evaluate`. */
module PolicyEngine {

  import opened Basics
  import opened JsonText

  datatype ActionClass = Read | Write | ExternalSend | Irreversible

  datatype Approval = Auto | Notify | HumanInTheLoop | HumanDual | Deny

  /** `_APPROVAL_ORDER` */
  function Severity(a: Approval): nat {
    match a
    case Auto => 0
    case Notify => 1
    case HumanInTheLoop => 2
    case HumanDual => 3
    case Deny => 4
  }

  predicate AtLeast(a: Approval, b: Approval) { Severity(a) >= Severity(b) }

  /** `raise_to`: a guard contributes a minimum. */
  function RaiseTo(base: Approval, minimum: Approval): (r: Approval)
    ensures AtLeast(r, base) && AtLeast(r, minimum)
    ensures forall bound :: AtLeast(bound, base) && AtLeast(bound, minimum) ==> AtLeast(bound, r)
  {
    if AtLeast(base, minimum) then base else minimum
  }

  /** The order in which guards are folded is irrelevant: `raise_to` is the least upper bound of a total order. */
  lemma RaiseToLattice(a: Approval, b: Approval, c: Approval)
    ensures RaiseTo(RaiseTo(a, b), c) == RaiseTo(a, RaiseTo(b, c)) == RaiseTo(RaiseTo(a, c), b)
    ensures RaiseTo(a, b) == a <==> AtLeast(a, b)
  {
  }

  /** The order: auto, notify, one person, two people, denial. */
  lemma SeverityOrder(a: Approval)
    ensures RaiseTo(Auto, a) == a && RaiseTo(a, Deny) == Deny
    ensures RaiseTo(Notify, a) == if a == Auto then Notify else a
    ensures RaiseTo(HumanInTheLoop, a) == if a in {Auto, Notify} then HumanInTheLoop else a
    ensures RaiseTo(HumanDual, a) == if a == Deny then Deny else HumanDual
  {
  }

  predicate Dangerous(c: ActionClass) { c == ExternalSend || c == Irreversible }

  /** `CLASSES_RISQUEES`: the unknown class is one of them. */
  predicate Risky(c: Option<ActionClass>) { c == None || Dangerous(c.value) }

  function FloorForClass(c: ActionClass): Approval { if Dangerous(c) then HumanInTheLoop else Auto }

  /** `escalate_for_class` */
  function EscalateForClass(base: Approval, c: ActionClass): Approval { RaiseTo(base, FloorForClass(c)) }

  // ---------------------------------------------------------------- policies

  type Arguments = map<string, Json>

  /** One argument predicate; `predicates.holds` on its operator and operand is an arbitrary test of the value. */
  datatype ArgumentRule = ArgumentRule(field: string, holds: Json -> bool, actionClass: ActionClass)

  datatype ArgumentClass = ArgumentClass(rules: seq<ArgumentRule>, otherwise: ActionClass)

  datatype Classify = Declared | Ambiguous | ByArgument

  /** A declared constraint: a bound on the arguments, a floor, one enforced elsewhere, or one no parser accepts. */
  datatype Constraint =
    | Bound(check: Arguments -> bool)
    | DryRun(on: bool)
    | Adapter
    | Unenforceable

  datatype ToolRule = ToolRule(
    name: string,
    actionClass: Option<ActionClass>,
    classify: Classify,
    approval: Approval,
    constraints: seq<Constraint>,
    argumentClass: Option<ArgumentClass>)

  /** Ascending score ceilings. */
  datatype RiskBands = RiskBands(auto: int, notify: int, hitl: int)

  datatype Policy = Policy(
    tools: seq<ToolRule>,
    unknownTool: Approval,
    serviceDown: Approval,
    autoClassify: bool,
    riskBands: Option<RiskBands>,
    classApprovals: map<ActionClass, Approval>)

  /** `approval_for_class`: the tenant's own approval for the class, or the default: reads and writes run. */
  function ApprovalForClass(p: Policy, c: ActionClass): Approval {
    if c in p.classApprovals then p.classApprovals[c]
    else
      match c
      case Read => Auto
      case Write => Auto
      case ExternalSend => HumanInTheLoop
      case Irreversible => HumanInTheLoop
  }

  /** What the parser guarantees of the defaults. */
  predicate Parsed(p: Policy) {
    p.unknownTool in {HumanInTheLoop, HumanDual, Deny} && p.serviceDown in {Auto, Deny}
  }

  datatype Reason =
    | AutoClassified | UnknownTool | ConstraintViolated | ArgumentClassified | NeedsJudge | PolicyRule
    | ByJudge | JudgeUnavailable | JudgeError | JudgeOverBudget | Risk | PlanCapped | PlanUnknown

  datatype Outcome = Outcome(
    actionClass: Option<ActionClass>,
    decision: Approval,
    ruleName: Option<string>,
    reason: Reason,
    ambiguous: bool,
    judgeUsed: bool)

  function RuleFor(tools: seq<ToolRule>, tool: string): Option<ToolRule> {
    if tools == [] then None else if tools[0].name == tool then Some(tools[0]) else RuleFor(tools[1..], tool)
  }

  /** `classify_by_argument`: the class of the first rule that holds. */
  function ClassifyByArgument(rules: seq<ArgumentRule>, otherwise: ActionClass, arguments: Arguments): ActionClass {
    if rules == [] then otherwise
    else if rules[0].field in arguments && rules[0].holds(arguments[rules[0].field]) then rules[0].actionClass
    else ClassifyByArgument(rules[1..], otherwise, arguments)
  }

  predicate ConstraintHolds(c: Constraint, arguments: Arguments) {
    match c
    case Bound(check) => check(arguments)
    case Unenforceable => false
    case _ => true
  }

  predicate ConstraintsHold(constraints: seq<Constraint>, arguments: Arguments) {
    forall k :: 0 <= k < |constraints| ==> ConstraintHolds(constraints[k], arguments)
  }

  /** `_constraints_ok` */
  method ConstraintsOk(constraints: seq<Constraint>, arguments: Arguments) returns (ok: bool)
    ensures ok <==> ConstraintsHold(constraints, arguments)
  {
    for k := 0 to |constraints|
      invariant forall j :: 0 <= j < k ==> ConstraintHolds(constraints[j], arguments)
    {
      if constraints[k].Unenforceable? { return false; }
      if constraints[k].Bound? && !constraints[k].check(arguments) { return false; }
    }
    return true;
  }

  /** The floor that the constraints demand. */
  function ConstraintFloor(constraints: seq<Constraint>, base: Approval): Approval {
    if exists k :: 0 <= k < |constraints| && constraints[k] == DryRun(true) then RaiseTo(base, HumanInTheLoop) else base
  }

  /** `_constraint_floor` */
  method RaiseByConstraints(constraints: seq<Constraint>, base: Approval) returns (floor: Approval)
    ensures floor == ConstraintFloor(constraints, base)
  {
    floor := base;
    for k := 0 to |constraints|
      invariant floor == if exists j :: 0 <= j < k && constraints[j] == DryRun(true)
                         then RaiseTo(base, HumanInTheLoop) else base
    {
      if constraints[k].DryRun? && constraints[k].on { floor := RaiseTo(floor, HumanInTheLoop); }
    }
  }

  /** `evaluate`; `byName` is the class that the name heuristics give a tool. */
  function Evaluate(p: Policy, tool: string, arguments: Arguments, byName: Option<ActionClass>): Outcome {
    match RuleFor(p.tools, tool)
    case None =>
      if p.autoClassify && byName.Some? then
        Outcome(byName, ApprovalForClass(p, byName.value), None, AutoClassified, false, false)
      else Outcome(None, p.unknownTool, None, UnknownTool, false, false)
    case Some(rule) =>
      if !ConstraintsHold(rule.constraints, arguments) then
        Outcome(rule.actionClass, Deny, Some(rule.name), ConstraintViolated, false, false)
      else
        var approval := ConstraintFloor(rule.constraints, rule.approval);
        if rule.classify.ByArgument? && rule.argumentClass.Some? then
          var spec := rule.argumentClass.value;
          var resolved := ClassifyByArgument(spec.rules, spec.otherwise, arguments);
          Outcome(Some(resolved), EscalateForClass(approval, resolved), Some(rule.name), ArgumentClassified, false,
                  false)
        else if rule.classify.Ambiguous? then
          Outcome(None, approval, Some(rule.name), NeedsJudge, true, false)
        else Outcome(rule.actionClass, approval, Some(rule.name), PolicyRule, false, false)
  }

  /** What a rule means: a violated constraint denies; otherwise the verdict is at least the rule's own, at least
      human review under a dry run, and at least human review when the arguments resolve to a dangerous class. */
  lemma RuleIsHonoured(p: Policy, tool: string, arguments: Arguments, byName: Option<ActionClass>, rule: ToolRule)
    requires RuleFor(p.tools, tool) == Some(rule)
    ensures var o := Evaluate(p, tool, arguments, byName);
            && o.ruleName == Some(rule.name) && AtLeast(o.decision, rule.approval)
            && (!ConstraintsHold(rule.constraints, arguments) ==> o.decision == Deny)
            && (DryRun(true) in rule.constraints ==> AtLeast(o.decision, HumanInTheLoop))
            && (rule.classify.ByArgument? && o.actionClass.Some? && rule.actionClass.None?
                && Dangerous(o.actionClass.value)
                ==> AtLeast(o.decision, HumanInTheLoop))
  {
    if DryRun(true) in rule.constraints {
      assert exists k :: 0 <= k < |rule.constraints| && rule.constraints[k] == DryRun(true);
    }
  }

  /** A tool without a rule runs unattended only by name, and only if the policy asks for it. */
  lemma UnknownToolsAreHeld(p: Policy, tool: string, arguments: Arguments, byName: Option<ActionClass>)
    requires Parsed(p) && RuleFor(p.tools, tool) == None && (!p.autoClassify || byName == None)
    ensures AtLeast(Evaluate(p, tool, arguments, byName).decision, HumanInTheLoop)
  {
  }

  /** The rule of a tool is the first one that bears its name. */
  lemma {:induction false} RuleForIsFirst(tools: seq<ToolRule>, tool: string)
    ensures RuleFor(tools, tool) == None <==> forall k :: 0 <= k < |tools| ==> tools[k].name != tool
    ensures forall k :: 0 <= k < |tools| && tools[k].name == tool && (forall j :: 0 <= j < k ==> tools[j].name != tool)
              ==> RuleFor(tools, tool) == Some(tools[k])
  {
    if tools != [] {
      RuleForIsFirst(tools[1..], tool);
      forall k | 0 <= k < |tools| && tools[k].name == tool && (forall j :: 0 <= j < k ==> tools[j].name != tool)
        ensures RuleFor(tools, tool) == Some(tools[k])
      {
        if k > 0 { assert tools[1..][k - 1] == tools[k]; }
      }
    }
  }

  /** A tool without a rule, exactly: recognized under automatic classification, it gets the class recognized and the
      approval that the tenant declared for that class, or the default one; otherwise it has no class and gets what the
      tenant declared for unknown tools. */
  lemma UnknownToolIsExact(p: Policy, tool: string, arguments: Arguments, byName: Option<ActionClass>)
    requires forall k :: 0 <= k < |p.tools| ==> p.tools[k].name != tool
    ensures var o := Evaluate(p, tool, arguments, byName);
            && o.ruleName == None && !o.ambiguous && !o.judgeUsed
            && if p.autoClassify && byName.Some?
               then
                 && o.actionClass == byName && o.reason == AutoClassified
                 && (byName.value in p.classApprovals ==> o.decision == p.classApprovals[byName.value])
                 && (byName.value !in p.classApprovals && byName.value in {Read, Write} ==> o.decision == Auto)
                 && (byName.value !in p.classApprovals && byName.value in {ExternalSend, Irreversible} ==>
                       o.decision == HumanInTheLoop)
               else o.actionClass == None && o.reason == UnknownTool && o.decision == p.unknownTool
  {
    RuleForIsFirst(p.tools, tool);
  }

  /** The verdict satisfies the rule: its own approval, human review under a dry run, and human review for a class that
      the arguments resolve to external or irreversible. */
  ghost predicate Satisfies(a: Approval, rule: ToolRule, resolved: Option<ActionClass>) {
    && AtLeast(a, rule.approval) && (DryRun(true) in rule.constraints ==> AtLeast(a, HumanInTheLoop))
    && (resolved in {Some(ExternalSend), Some(Irreversible)} ==> AtLeast(a, HumanInTheLoop))
  }

  /** The class of a call whose arguments decide it: that of the first argument rule that holds, or the ceiling. */
  ghost predicate ResolvesTo(spec: ArgumentClass, arguments: Arguments, c: ActionClass) {
    || (exists k :: 0 <= k < |spec.rules| && Applies(spec.rules[k], arguments) && c == spec.rules[k].actionClass
                    && forall j :: 0 <= j < k ==> !Applies(spec.rules[j], arguments))
    || (c == spec.otherwise && forall j :: 0 <= j < |spec.rules| ==> !Applies(spec.rules[j], arguments))
  }

  predicate Applies(rule: ArgumentRule, arguments: Arguments) {
    rule.field in arguments && rule.holds(arguments[rule.field])
  }

  lemma {:induction false} ClassifiesAsResolved(spec: ArgumentClass, arguments: Arguments)
    ensures ResolvesTo(spec, arguments, ClassifyByArgument(spec.rules, spec.otherwise, arguments))
  {
    if k :| 0 <= k < |spec.rules| && Applies(spec.rules[k], arguments) {
      var first := FirstThatApplies(spec.rules, arguments, k);
      FirstRuleDecides(spec.rules, spec.otherwise, arguments, first);
    } else {
      NoRuleTakesTheCeiling(spec.rules, spec.otherwise, arguments);
    }
  }

  lemma {:induction false} FirstThatApplies(rules: seq<ArgumentRule>, arguments: Arguments, k: nat) returns (first: nat)
    requires k < |rules| && Applies(rules[k], arguments)
    ensures first <= k && Applies(rules[first], arguments)
    ensures forall j :: 0 <= j < first ==> !Applies(rules[j], arguments)
  {
    if j :| 0 <= j < k && Applies(rules[j], arguments) {
      first := FirstThatApplies(rules, arguments, j);
    } else {
      first := k;
    }
  }

  /** A tool with a rule, exactly: a violated constraint denies, with the declared class; otherwise the verdict is the
      least one that satisfies the rule, and the class is what the arguments resolve to, none while it is ambiguous,
      or the declared one. */
  lemma RuleIsExact(p: Policy, tool: string, arguments: Arguments, byName: Option<ActionClass>, k: nat)
    requires k < |p.tools| && p.tools[k].name == tool && forall j :: 0 <= j < k ==> p.tools[j].name != tool
    ensures var o, rule := Evaluate(p, tool, arguments, byName), p.tools[k];
            && o.ruleName == Some(tool) && !o.judgeUsed
            && if exists c :: c in rule.constraints && (c.Unenforceable? || (c.Bound? && !c.check(arguments)))
               then
                 && o.decision == Deny && o.actionClass == rule.actionClass
                 && o.reason == ConstraintViolated && !o.ambiguous
               else
                 var byArguments := rule.classify.ByArgument? && rule.argumentClass.Some?;
                 && Satisfies(o.decision, rule, if byArguments then o.actionClass else None)
                 && (forall a :: Satisfies(a, rule, if byArguments then o.actionClass else None) ==>
                       AtLeast(a, o.decision))
                 && (o.ambiguous <==> rule.classify.Ambiguous?)
                 && o.reason == (if byArguments then ArgumentClassified
                                 else if o.ambiguous then NeedsJudge else PolicyRule)
                 && if byArguments
                    then o.actionClass.Some? && ResolvesTo(rule.argumentClass.value, arguments, o.actionClass.value)
                    else o.actionClass == if o.ambiguous then None else rule.actionClass
  {
    RuleForIsFirst(p.tools, tool);
    var rule := p.tools[k];
    ViolationIff(rule.constraints, arguments);
    FloorIff(rule.constraints, rule.approval);
    if rule.argumentClass.Some? { ClassifiesAsResolved(rule.argumentClass.value, arguments); }
    hide ConstraintsHold, ConstraintFloor, ClassifyByArgument, ResolvesTo, RuleFor;
  }

  lemma ViolationIff(constraints: seq<Constraint>, arguments: Arguments)
    ensures !ConstraintsHold(constraints, arguments) <==>
              exists c :: c in constraints && (c.Unenforceable? || (c.Bound? && !c.check(arguments)))
  {
  }

  lemma FloorIff(constraints: seq<Constraint>, base: Approval)
    ensures ConstraintFloor(constraints, base)
            == if DryRun(true) in constraints then RaiseTo(base, HumanInTheLoop) else base
  {
    if DryRun(true) in constraints {
      assert exists k :: 0 <= k < |constraints| && constraints[k] == DryRun(true);
    }
  }

  /** `service_down_verdict` */
  function ServiceDownVerdict(p: Policy, c: Option<ActionClass>): (r: Approval)
    ensures r == if c in {Some(Read), Some(Write)} then p.serviceDown else Deny
  {
    if Risky(c) then Deny else p.serviceDown
  }

  // ---------------------------------------------------------------- first match wins

  lemma {:induction false} FirstRuleDecides(rules: seq<ArgumentRule>, otherwise: ActionClass, arguments: Arguments,
                                            k: nat)
    requires k < |rules| && rules[k].field in arguments && rules[k].holds(arguments[rules[k].field])
    requires forall j :: 0 <= j < k ==> !(rules[j].field in arguments && rules[j].holds(arguments[rules[j].field]))
    ensures ClassifyByArgument(rules, otherwise, arguments) == rules[k].actionClass
  {
    if k > 0 { FirstRuleDecides(rules[1..], otherwise, arguments, k - 1); }
  }

  lemma {:induction false} NoRuleTakesTheCeiling(rules: seq<ArgumentRule>, otherwise: ActionClass, arguments: Arguments)
    requires forall j :: 0 <= j < |rules| ==>
               !(rules[j].field in arguments && rules[j].holds(arguments[rules[j].field]))
    ensures ClassifyByArgument(rules, otherwise, arguments) == otherwise
  {
    if rules != [] { NoRuleTakesTheCeiling(rules[1..], otherwise, arguments); }
  }
}
