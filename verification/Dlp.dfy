/** Findings of `core/dlp.py`: choosing among overlapping findings, redacting them, and the verdict on a request. */
module Dlp {

  import opened Basics
  import opened Spans

  // ---------------------------------------------------------------- choosing among overlapping findings

  predicate Overlap(a: Span, b: Span) { !(a.end <= b.start || a.start >= b.end) }

  /** Two findings overlap when they share a position. */
  lemma OverlapIff(a: Span, b: Span)
    requires a.start < a.end && b.start < b.end
    ensures Overlap(a, b) <==> exists p {:trigger Within(a, p)} :: Within(a, p) && Within(b, p)
  {
    if Overlap(a, b) {
      var p := if a.start < b.start then b.start else a.start;
      assert Within(a, p) && Within(b, p);
    }
  }

  predicate Within(s: Span, p: int) { s.start <= p < s.end }

  /** `_overlaps` */
  predicate Overlaps(s: Span, spans: seq<Span>) { exists k :: 0 <= k < |spans| && Overlap(s, spans[k]) }

  /** The findings kept by `_dedupe_overlaps`, in catalogue order. */
  function Kept(findings: seq<Span>): seq<Span> {
    if findings == [] then []
    else
      var before, f := Kept(findings[..|findings| - 1]), findings[|findings| - 1];
      if Overlaps(f, before) then before else before + [f]
  }

  /** `_dedupe_overlaps` */
  method DedupeOverlaps(findings: seq<Span>) returns (kept: seq<Span>)
    ensures kept == Sort(Kept(findings), ByStart)
  {
    var chosen: seq<Span> := [];
    for k := 0 to |findings|
      invariant chosen == Kept(findings[..k])
    {
      assert findings[..k + 1][..k] == findings[..k];
      if Overlaps(findings[k], chosen) { continue; }
      chosen := chosen + [findings[k]];
    }
    assert findings[..|findings|] == findings;
    kept := Sort(chosen, ByStart);
  }

  ghost predicate PairwiseApart(spans: seq<Span>) {
    forall i, j :: 0 <= i < j < |spans| ==> !Overlap(spans[i], spans[j])
  }

  lemma {:induction false} KeptApart(findings: seq<Span>)
    ensures PairwiseApart(Kept(findings)) && forall s <- Kept(findings) :: s in findings
  {
    if findings != [] {
      var f := findings[|findings| - 1];
      KeptApart(findings[..|findings| - 1]);
      var before := Kept(findings[..|findings| - 1]);
      if !Overlaps(f, before) {
        forall i | 0 <= i < |before| ensures !Overlap(before[i], f) { assert !Overlap(f, before[i]); }
      }
    }
  }

  lemma {:induction false} KeptPrefix(findings: seq<Span>, k: nat)
    requires k <= |findings|
    ensures forall s <- Kept(findings[..k]) :: s in Kept(findings)
  {
    if k < |findings| {
      assert findings[..|findings| - 1][..k] == findings[..k];
      KeptPrefix(findings[..|findings| - 1], k);
    } else {
      assert findings[..k] == findings;
    }
  }

  /** A finding that is dropped overlaps a kept one that comes earlier in the catalogue order. */
  lemma DroppedOverlapsEarlier(findings: seq<Span>, i: nat) returns (j: nat)
    requires i < |findings| && findings[i] !in Kept(findings)
    ensures j < i && findings[j] in Kept(findings) && Overlap(findings[i], findings[j])
  {
    var before := findings[..i];
    assert findings[..i + 1][..i] == before;
    KeptPrefix(findings, i);
    KeptPrefix(findings, i + 1);
    assert Overlaps(findings[i], Kept(before));
    var k :| 0 <= k < |Kept(before)| && Overlap(findings[i], Kept(before)[k]);
    KeptApart(before);
    assert Kept(before)[k] in before;
    j :| 0 <= j < |before| && before[j] == Kept(before)[k];
  }

  lemma ApartSurvivesSorting(spans: seq<Span>, sorted: seq<Span>, n: nat)
    requires PairwiseApart(spans) && InRange(spans, n) && Ordered(sorted) && multiset(sorted) == multiset(spans)
    ensures Disjoint(sorted) && InRange(sorted, n)
  {
    SameElements(sorted, spans);
    AmongInRange(sorted, spans, n);
    forall i, j | 0 <= i < j < |sorted| ensures sorted[i].end <= sorted[j].start {
      var a, b := sorted[i], sorted[j];
      NotTwice(spans, sorted, n, i, j);
      assert a in spans && b in spans;
      var p :| 0 <= p < |spans| && spans[p] == a;
      var q :| 0 <= q < |spans| && spans[q] == b;
      assert !Overlap(a, b) && !Overlap(b, a);
    }
  }

  /** Spans that are apart and non-empty are all different, in any order. */
  lemma NotTwice(spans: seq<Span>, sorted: seq<Span>, n: nat, i: nat, j: nat)
    requires PairwiseApart(spans) && InRange(spans, n) && multiset(sorted) == multiset(spans)
    requires i < j < |sorted|
    ensures sorted[i] != sorted[j]
  {
    var x := sorted[i];
    if sorted[j] == x {
      assert sorted == sorted[..i] + [x] + sorted[i + 1..j] + [x] + sorted[j + 1..];
      assert multiset(sorted)[x] >= 2;
      SameElements(sorted, spans);
      AtMostOnce(spans, x);
    }
  }

  lemma {:induction false} AtMostOnce(spans: seq<Span>, x: Span)
    requires PairwiseApart(spans) && x.start < x.end
    ensures multiset(spans)[x] <= 1
  {
    if spans != [] {
      var front, last := spans[..|spans| - 1], spans[|spans| - 1];
      assert spans == front + [last];
      AtMostOnce(front, x);
      forall i | 0 <= i < |front| ensures front[i] != x || last != x {
        assert !Overlap(spans[i], spans[|front|]);
      }
    }
  }

  /** `redact_text` on the output of `_dedupe_overlaps`: a character survives if and only if no kept finding
      covers it, and every kept finding is masked once. */
  lemma DedupedRedactionIsExact(findings: seq<Span>, n: nat)
    requires InRange(findings, n)
    ensures var kept := Sort(Kept(findings), ByStart);
            && InRange(kept, n) && Disjoint(kept)
            && Survivors(Pieces(kept, 0, n)) == Uncovered(Kept(findings), 0, n)
            && Masks(Pieces(kept, 0, n)) == RuleSeq(kept)
  {
    KeptApart(findings);
    AmongInRange(Kept(findings), findings, n);
    ApartRedactionIsExact(Kept(findings), n);
  }

  lemma ApartRedactionIsExact(apart: seq<Span>, n: nat)
    requires PairwiseApart(apart) && InRange(apart, n)
    ensures var sorted := Sort(apart, ByStart);
            && InRange(sorted, n) && Disjoint(sorted)
            && Survivors(Pieces(sorted, 0, n)) == Uncovered(apart, 0, n)
            && Masks(Pieces(sorted, 0, n)) == RuleSeq(sorted)
  {
    var sorted := Sort(apart, ByStart);
    SortProperties(apart, ByStart);
    ApartSurvivesSorting(apart, sorted, n);
    PiecesExact(sorted, 0, n);
    SameElements(sorted, apart);
    SameCoverage(sorted, apart);
    UncoveredSame(sorted, apart, 0, n);
  }

  // ---------------------------------------------------------------- redacting and the verdict

  /** `redact_text` */
  method RedactText(text: string, findings: seq<Span>, placeholder: string -> string) returns (out: string)
    requires InRange(findings, |text|)
    ensures InRange(Sort(findings, ByStart), |text|)
    ensures var tokens := Pieces(Sort(findings, ByStart), 0, |text|);
            Renderable(text, tokens) && out == Render(text, tokens, placeholder)
  {
    SortProperties(findings, ByStart);
    SameElements(Sort(findings, ByStart), findings);
    AmongInRange(Sort(findings, ByStart), findings, |text|);
    var count, kinds;
    out, count, kinds := ReplaceSpans(text, Sort(findings, ByStart), placeholder);
  }

  datatype Action = Block | Redact | Flag | Off

  /** A policy, resolved for the rules of the catalogue: what to do with a finding of a rule. */
  type Policy = string -> Action

  function Acting(policy: Policy, action: Action): Span -> bool { (s: Span) => policy(s.rule) == action }

  function Effective(policy: Policy): Span -> bool { (s: Span) => policy(s.rule) != Off }

  function Select(spans: seq<Span>, keep: Span -> bool): seq<Span> {
    if spans == [] then []
    else
      var front, last := Select(spans[..|spans| - 1], keep), spans[|spans| - 1];
      if keep(last) then front + [last] else front
  }

  lemma {:induction false} SelectMember(spans: seq<Span>, keep: Span -> bool, x: Span)
    ensures x in Select(spans, keep) <==> x in spans && keep(x)
  {
    if spans != [] {
      SelectMember(spans[..|spans| - 1], keep, x);
      assert spans == spans[..|spans| - 1] + [spans[|spans| - 1]];
    }
  }

  lemma {:induction false} SelectKeepsDisjoint(spans: seq<Span>, keep: Span -> bool, n: nat, bound: nat)
    requires Disjoint(spans) && InRange(spans, n) && EndsBy(spans, bound)
    ensures Disjoint(Select(spans, keep)) && InRange(Select(spans, keep), n) && EndsBy(Select(spans, keep), bound)
  {
    if spans != [] {
      var front, last := spans[..|spans| - 1], spans[|spans| - 1];
      SelectKeepsDisjoint(front, keep, n, last.start);
    }
  }

  predicate EndsBy(spans: seq<Span>, bound: nat) { forall k :: 0 <= k < |spans| ==> spans[k].end <= bound }

  /** A stable sort leaves an ordered list alone. */
  lemma {:induction false} SortOfSorted(spans: seq<Span>)
    requires Ordered(spans)
    ensures Sort(spans, ByStart) == spans
  {
    if spans != [] {
      var front, last := spans[..|spans| - 1], spans[|spans| - 1];
      SortOfSorted(front);
      assert spans == front + [last] && Sort(spans, ByStart) == Insert(front, last, ByStart);
      assert front == [] || ByStart(front[|front| - 1], last);
    }
  }

  lemma SelectIsSelected(spans: seq<Span>, all: seq<Span>, keep: Span -> bool, n: nat)
    requires Disjoint(spans) && InRange(spans, n) && Among(spans, all) && Among(all, spans)
    ensures Selected(all, keep, Select(spans, keep)) && InRange(Select(spans, keep), n)
  {
    SelectKeepsDisjoint(spans, keep, n, n);
    forall s ensures s in Select(spans, keep) <==> s in all && keep(s) {
      SelectMember(spans, keep, s);
      assert s in spans <==> s in all;
    }
  }

  /** `redact_text` on findings in order and apart: exact, and no finding is skipped. */
  lemma RedactedTextIsExact(head: string, tail: string, masked: seq<Span>, placeholder: string -> string, out: string)
    requires InRange(masked, |head|) && Disjoint(masked)
    requires InRange(Sort(masked, ByStart), |head|) && Renderable(head, Pieces(Sort(masked, ByStart), 0, |head|))
    requires out == Render(head, Pieces(Sort(masked, ByStart), 0, |head|), placeholder)
    ensures RedactedOf(head, tail, masked, placeholder, out + tail)
  {
    SortOfSorted(masked);
    PiecesExact(masked, 0, |head|);
  }

  const MAX_SCAN: nat := 2_000_000

  datatype ScanResult = ScanResult(findings: seq<Span>, blocked: bool, redactedBody: Option<string>, truncated: bool)

  /** `selected` holds, in order and without overlap, exactly the spans of `all` that `keep` picks. */
  ghost predicate Selected(all: seq<Span>, keep: Span -> bool, selected: seq<Span>) {
    Disjoint(selected) && forall s :: s in selected <==> s in all && keep(s)
  }

  /** `body` is `head` with every span of `masked` replaced, every other character kept, and `tail` after it. */
  ghost predicate RedactedOf(head: string, tail: string, masked: seq<Span>, placeholder: string -> string,
                             body: string) {
    exists tokens: seq<Token> ::
      && Renderable(head, tokens) && body == Render(head, tokens, placeholder) + tail
      && Survivors(tokens) == Uncovered(masked, 0, |head|) && Masks(tokens) == RuleSeq(masked)
  }

  ghost predicate Any(kept: seq<Span>, policy: Policy, action: Action) { exists s <- kept :: policy(s.rule) == action }

  lemma SelectActing(kept: seq<Span>, effective: seq<Span>, policy: Policy, action: Action, n: nat)
    requires Selected(kept, Effective(policy), effective) && InRange(effective, n) && action != Off
    ensures var selected := Select(effective, Acting(policy, action));
            && Selected(kept, Acting(policy, action), selected) && InRange(selected, n)
            && (selected != [] <==> Any(kept, policy, action))
  {
    var selected := Select(effective, Acting(policy, action));
    SelectIsSelected(effective, effective, Acting(policy, action), n);
    if selected != [] {
      assert selected[0] in selected;
      assert selected[0] in kept && policy(selected[0].rule) == action;
    }
    if Any(kept, policy, action) {
      var s :| s in kept && policy(s.rule) == action;
      assert s in effective;
      assert s in selected;
    }
  }

  lemma NoneEffective(kept: seq<Span>, policy: Policy, action: Action)
    requires Selected(kept, Effective(policy), []) && action != Off
    ensures !Any(kept, policy, action)
  {
    forall s | s in kept ensures policy(s.rule) != action {
      assert !(s in kept && Effective(policy)(s));
    }
  }

  /** The findings that reach the verdict: in order, apart, and those that were kept. */
  lemma FindingsFacts(raw: seq<Span>, n: nat)
    requires InRange(raw, n)
    ensures var findings := Sort(Kept(raw), ByStart);
            Disjoint(findings) && InRange(findings, n) && Among(findings, Kept(raw)) && Among(Kept(raw), findings)
  {
    DedupedRedactionIsExact(raw, n);
    SortProperties(Kept(raw), ByStart);
    SameElements(Sort(Kept(raw), ByStart), Kept(raw));
  }

  /** What `scan_request` promises about the findings `kept` after overlaps were resolved: `block` wins over
      `redact`, which wins over `flag`. */
  ghost predicate Verdict(head: string, tail: string, kept: seq<Span>, policy: Policy, placeholder: string -> string,
                          r: ScanResult) {
    && Selected(kept, Effective(policy), r.findings)
    && (r.blocked <==> Any(kept, policy, Block))
    && (r.redactedBody.Some? <==> !r.blocked && Any(kept, policy, Redact))
    && (r.redactedBody.Some? ==>
          exists masked :: Selected(kept, Acting(policy, Redact), masked)
                           && RedactedOf(head, tail, masked, placeholder, r.redactedBody.value))
  }

  /** `scan_request` for an active policy: `found` is the catalogue's findings in the scanned head, in order. */
  method ScanRequest(text: string, scan: string -> seq<Span>, policy: Policy, placeholder: string -> string)
    returns (r: ScanResult)
    requires InRange(scan(text[..Min(|text|, MAX_SCAN)]), Min(|text|, MAX_SCAN))
    ensures r.truncated == (|text| > 2_000_000)
    ensures Verdict(text[..Min(|text|, MAX_SCAN)], text[Min(|text|, MAX_SCAN)..],
                    Kept(scan(text[..Min(|text|, MAX_SCAN)])), policy, placeholder, r)
  {
    var cut := Min(|text|, MAX_SCAN);
    var head, tail := text[..cut], text[cut..];
    var truncated := |text| > MAX_SCAN;
    var findings := DedupeOverlaps(scan(head));
    ghost var kept := Kept(scan(head));
    FindingsFacts(scan(head), |head|);
    var effective := Select(findings, Effective(policy));
    SelectIsSelected(findings, kept, Effective(policy), |head|);
    if effective == [] {
      NoneEffective(kept, policy, Block);
      NoneEffective(kept, policy, Redact);
      return ScanResult([], false, None, truncated);
    }
    var blocking := Select(effective, Acting(policy, Block));
    SelectActing(kept, effective, policy, Block, |head|);
    if blocking != [] {
      return ScanResult(effective, true, None, truncated);
    }
    var toRedact := Select(effective, Acting(policy, Redact));
    SelectActing(kept, effective, policy, Redact, |head|);
    if toRedact == [] {
      return ScanResult(effective, false, None, truncated);
    }
    var redacted := RedactText(head, toRedact, placeholder);
    RedactedTextIsExact(head, tail, toRedact, placeholder, redacted);
    r := ScanResult(effective, false, Some(redacted + tail), truncated);
  }

}
