/** Interval algorithms of `core/extension_redaction.py` and `core/dlp.py`: merging the spans that the
    detectors found and replacing spans in a text.  The detectors are arbitrary: any spans that are non-empty
    and inside the text. */
module Spans {

  import opened Basics

  datatype Span = Span(start: nat, end: nat, rule: string)

  predicate InRange(spans: seq<Span>, n: nat) {
    forall k :: 0 <= k < |spans| ==> spans[k].start < spans[k].end <= n
  }

  predicate Covered(spans: seq<Span>, i: int) { exists k :: 0 <= k < |spans| && spans[k].start <= i < spans[k].end }

  /** In order, and no two overlap. */
  predicate Disjoint(spans: seq<Span>) { forall i, j :: 0 <= i < j < |spans| ==> spans[i].end <= spans[j].start }

  predicate Ordered(spans: seq<Span>) { forall i, j :: 0 <= i < j < |spans| ==> spans[i].start <= spans[j].start }

  // ---------------------------------------------------------------- sorting

  predicate StringLe(a: string, b: string) {
    a == "" || (b != "" && (a[0] < b[0] || (a[0] == b[0] && StringLe(a[1..], b[1..]))))
  }

  /** The order of the tuples `(start, end, rule)`. */
  predicate TupleLe(a: Span, b: Span) {
    a.start < b.start || (a.start == b.start && (a.end < b.end || (a.end == b.end && StringLe(a.rule, b.rule))))
  }

  function Insert(sorted: seq<Span>, s: Span, le: (Span, Span) -> bool): seq<Span> {
    if sorted == [] || le(sorted[|sorted| - 1], s) then sorted + [s]
    else Insert(sorted[..|sorted| - 1], s, le) + [sorted[|sorted| - 1]]
  }

  /** Python's stable `sorted`, for an order given by `le`. */
  function Sort(spans: seq<Span>, le: (Span, Span) -> bool): seq<Span> {
    if spans == [] then [] else Insert(Sort(spans[..|spans| - 1], le), spans[|spans| - 1], le)
  }

  const ByTuple: (Span, Span) -> bool := (a: Span, b: Span) => TupleLe(a, b)

  const ByStart: (Span, Span) -> bool := (a: Span, b: Span) => a.start <= b.start

  /** `le` refines the order of the start positions. */
  ghost predicate RefinesStart(le: (Span, Span) -> bool) {
    forall a, b :: (le(a, b) ==> a.start <= b.start) && (!le(a, b) ==> b.start <= a.start)
  }

  lemma AppendOrdered(spans: seq<Span>, last: Span)
    requires Ordered(spans) && StartsBy(spans, last.start)
    ensures Ordered(spans + [last])
  {
  }

  lemma {:induction false} InsertMultiset(sorted: seq<Span>, s: Span, le: (Span, Span) -> bool)
    ensures multiset(Insert(sorted, s, le)) == multiset(sorted) + multiset{s}
  {
    if sorted != [] && !le(sorted[|sorted| - 1], s) {
      InsertMultiset(sorted[..|sorted| - 1], s, le);
      assert sorted == sorted[..|sorted| - 1] + [sorted[|sorted| - 1]];
    }
  }

  lemma {:induction false} InsertOrdered(sorted: seq<Span>, s: Span, le: (Span, Span) -> bool, bound: nat)
    requires RefinesStart(le) && Ordered(sorted) && StartsBy(sorted, bound) && s.start <= bound
    ensures Ordered(Insert(sorted, s, le)) && StartsBy(Insert(sorted, s, le), bound)
  {
    if sorted != [] {
      var front, last := sorted[..|sorted| - 1], sorted[|sorted| - 1];
      if le(last, s) {
        AppendOrdered(sorted, s);
      } else {
        InsertOrdered(front, s, le, last.start);
        AppendOrdered(Insert(front, s, le), last);
      }
    }
  }

  function Latest(spans: seq<Span>): (bound: nat)
    ensures StartsBy(spans, bound)
  {
    if spans == [] then 0
    else
      var rest, last := Latest(spans[..|spans| - 1]), spans[|spans| - 1].start;
      if rest < last then last else rest
  }

  lemma InsertKeepsOrder(sorted: seq<Span>, s: Span, le: (Span, Span) -> bool)
    requires RefinesStart(le) && Ordered(sorted)
    ensures Ordered(Insert(sorted, s, le))
  {
    hide Insert, RefinesStart;
    var bound := Latest(sorted + [s]);
    assert (sorted + [s])[|sorted|] == s;
    assert forall k :: 0 <= k < |sorted| ==> (sorted + [s])[k] == sorted[k];
    InsertOrdered(sorted, s, le, bound);
  }

  lemma {:induction false} SortIsOrdered(spans: seq<Span>, le: (Span, Span) -> bool)
    requires RefinesStart(le)
    ensures Ordered(Sort(spans, le))
  {
    if spans != [] {
      hide Insert, RefinesStart, Ordered;
      SortIsOrdered(spans[..|spans| - 1], le);
      InsertKeepsOrder(Sort(spans[..|spans| - 1], le), spans[|spans| - 1], le);
    }
  }

  lemma {:induction false} SortKeepsElements(spans: seq<Span>, le: (Span, Span) -> bool)
    ensures multiset(Sort(spans, le)) == multiset(spans)
  {
    if spans != [] {
      hide Insert;
      var front, last := spans[..|spans| - 1], spans[|spans| - 1];
      SortKeepsElements(front, le);
      InsertMultiset(Sort(front, le), last, le);
      assert spans == front + [last];
    }
  }

  lemma SortProperties(spans: seq<Span>, le: (Span, Span) -> bool)
    requires RefinesStart(le)
    ensures Ordered(Sort(spans, le)) && multiset(Sort(spans, le)) == multiset(spans)
  {
    hide *;
    SortIsOrdered(spans, le);
    SortKeepsElements(spans, le);
  }

  /** Every span of `a` is one of `b`. */
  ghost predicate Among(a: seq<Span>, b: seq<Span>) { forall k :: 0 <= k < |a| ==> a[k] in b }

  lemma SameElements(a: seq<Span>, b: seq<Span>)
    requires multiset(a) == multiset(b)
    ensures Among(a, b) && Among(b, a)
  {
    forall k | 0 <= k < |a| ensures a[k] in b { assert a[k] in multiset(a); }
    forall k | 0 <= k < |b| ensures b[k] in a { assert b[k] in multiset(b); }
  }

  lemma AmongInRange(a: seq<Span>, b: seq<Span>, n: nat)
    requires Among(a, b) && InRange(b, n)
    ensures InRange(a, n)
  {
    forall k | 0 <= k < |a| ensures a[k].start < a[k].end <= n {
      assert a[k] in b;
    }
  }

  lemma AmongCovered(a: seq<Span>, b: seq<Span>, i: int)
    requires Among(a, b) && Covered(a, i)
    ensures Covered(b, i)
  {
    var k :| 0 <= k < |a| && a[k].start <= i < a[k].end;
    assert a[k] in b;
  }

  /** Two lists with the same elements cover the same positions. */
  lemma SameCoverage(a: seq<Span>, b: seq<Span>)
    requires Among(a, b) && Among(b, a)
    ensures forall i :: Covered(a, i) <==> Covered(b, i)
  {
    forall i ensures Covered(a, i) <==> Covered(b, i) {
      if Covered(a, i) { AmongCovered(a, b, i); }
      if Covered(b, i) { AmongCovered(b, a, i); }
    }
  }

  // ---------------------------------------------------------------- merging

  /** One step of the merge loop. */
  function Absorb(merged: seq<Span>, s: Span): seq<Span> {
    if merged != [] && s.start < merged[|merged| - 1].end then
      var last := merged[|merged| - 1];
      merged[..|merged| - 1] + [last.(end := if last.end < s.end then s.end else last.end)]
    else merged + [s]
  }

  function Merged(sorted: seq<Span>): seq<Span> {
    if sorted == [] then [] else Absorb(Merged(sorted[..|sorted| - 1]), sorted[|sorted| - 1])
  }

  lemma MergedSnoc(front: seq<Span>, s: Span)
    ensures Merged(front + [s]) == Absorb(Merged(front), s)
  {
    assert (front + [s])[..|front|] == front;
  }

  lemma NothingMerged()
    ensures Merged([]) == []
  {
  }

  /** The merge loop of `spans` */
  method MergeSpans(found: seq<Span>) returns (merged: seq<Span>)
    ensures merged == Merged(Sort(found, ByTuple))
  {
    var sorted := Sort(found, ByTuple);
    merged := [];
    NothingMerged();
    hide Merged, Sort;
    for k := 0 to |sorted|
      invariant merged == Merged(sorted[..k])
    {
      var s := sorted[k];
      ghost var before := merged;
      assert sorted[..k + 1] == sorted[..k] + [s];
      MergedSnoc(sorted[..k], s);
      if merged != [] && s.start < merged[|merged| - 1].end {
        var last := merged[|merged| - 1];
        merged := merged[..|merged| - 1] + [last.(end := if last.end < s.end then s.end else last.end)];
      } else {
        merged := merged + [s];
      }
      assert merged == Absorb(before, s);
    }
    assert sorted[..|sorted|] == sorted;
  }

  /** `merged` covers what `found` covers, without overlap, and each of its spans carries the rule of a found
      span that starts there. */
  ghost predicate ExactMerge(found: seq<Span>, merged: seq<Span>) {
    && Disjoint(merged)
    && (forall i :: Covered(merged, i) <==> Covered(found, i))
    && Sourced(found, merged)
  }

  ghost predicate HasSource(found: seq<Span>, start: nat, rule: string) {
    exists k :: 0 <= k < |found| && found[k].start == start && found[k].rule == rule
  }

  ghost predicate Sourced(found: seq<Span>, merged: seq<Span>) {
    forall k :: 0 <= k < |merged| ==> HasSource(found, merged[k].start, merged[k].rule)
  }

  lemma SourceGrows(front: seq<Span>, s: Span, start: nat, rule: string)
    requires HasSource(front, start, rule)
    ensures HasSource(front + [s], start, rule)
  {
    var k :| 0 <= k < |front| && front[k].start == start && front[k].rule == rule;
    assert (front + [s])[k] == front[k];
  }

  lemma AmongSourced(a: seq<Span>, b: seq<Span>, start: nat, rule: string)
    requires Among(a, b) && HasSource(a, start, rule)
    ensures HasSource(b, start, rule)
  {
    var k :| 0 <= k < |a| && a[k].start == start && a[k].rule == rule;
    assert a[k] in b;
  }

  predicate StartsBy(spans: seq<Span>, bound: nat) { forall k :: 0 <= k < |spans| ==> spans[k].start <= bound }

  lemma CoveredSplit(a: seq<Span>, s: Span, i: int)
    ensures Covered(a + [s], i) <==> Covered(a, i) || s.start <= i < s.end
  {
    if Covered(a, i) {
      var k :| 0 <= k < |a| && a[k].start <= i < a[k].end;
      assert (a + [s])[k] == a[k];
    }
    if s.start <= i < s.end { assert (a + [s])[|a|] == s; }
  }

  lemma {:induction false} MergeSorted(sorted: seq<Span>, n: nat, bound: nat)
    requires Ordered(sorted) && InRange(sorted, n) && StartsBy(sorted, bound)
    ensures ExactMerge(sorted, Merged(sorted)) && InRange(Merged(sorted), n) && StartsBy(Merged(sorted), bound)
  {
    if sorted == [] {
      assert Merged(sorted) == sorted;
    } else {
      hide Absorb, ExactMerge, Merged;
      var front, s := sorted[..|sorted| - 1], sorted[|sorted| - 1];
      assert sorted == front + [s];
      MergeSorted(front, n, s.start);
      MergedSnoc(front, s);
      AbsorbExact(front, Merged(front), s, n);
    }
  }

  lemma AbsorbExact(front: seq<Span>, m: seq<Span>, s: Span, n: nat)
    requires ExactMerge(front, m) && InRange(m, n) && s.start < s.end <= n && StartsBy(m, s.start)
    ensures ExactMerge(front + [s], Absorb(m, s)) && InRange(Absorb(m, s), n) && StartsBy(Absorb(m, s), s.start)
  {
    AbsorbDisjoint(m, s, n);
    AbsorbCoverage(front, m, s);
    AbsorbSourced(front, m, s);
  }

  lemma AbsorbDisjoint(m: seq<Span>, s: Span, n: nat)
    requires Disjoint(m) && InRange(m, n) && s.start < s.end <= n && StartsBy(m, s.start)
    ensures Disjoint(Absorb(m, s)) && InRange(Absorb(m, s), n) && StartsBy(Absorb(m, s), s.start)
  {
    var out := Absorb(m, s);
    assert forall k :: 0 <= k < |m| - 1 ==> out[k] == m[k];
    if m != [] && s.start >= m[|m| - 1].end {
      assert forall k :: 0 <= k < |m| - 1 ==> m[k].end <= m[|m| - 1].start;
    }
  }

  lemma AbsorbCoverage(front: seq<Span>, m: seq<Span>, s: Span)
    requires StartsBy(m, s.start) && forall i :: Covered(m, i) <==> Covered(front, i)
    ensures forall i :: Covered(Absorb(m, s), i) <==> Covered(front + [s], i)
  {
    forall i ensures Covered(Absorb(m, s), i) <==> Covered(front + [s], i) {
      AbsorbCovers(m, s, i);
      CoveredSplit(front, s, i);
    }
  }

  lemma AbsorbSourced(front: seq<Span>, m: seq<Span>, s: Span)
    requires Sourced(front, m)
    ensures Sourced(front + [s], Absorb(m, s))
  {
    var out := Absorb(m, s);
    forall k | 0 <= k < |out| ensures HasSource(front + [s], out[k].start, out[k].rule) {
      if k < |m| {
        assert out[k].start == m[k].start && out[k].rule == m[k].rule;
        SourceGrows(front, s, m[k].start, m[k].rule);
      } else {
        assert (front + [s])[|front|] == s == out[k];
      }
    }
  }

  lemma AbsorbCovers(m: seq<Span>, s: Span, i: int)
    requires StartsBy(m, s.start)
    ensures Covered(Absorb(m, s), i) <==> Covered(m, i) || s.start <= i < s.end
  {
    if m != [] && s.start < m[|m| - 1].end {
      var front, last := m[..|m| - 1], m[|m| - 1];
      assert m == front + [last];
      CoveredSplit(front, last, i);
      CoveredSplit(front, last.(end := if last.end < s.end then s.end else last.end), i);
    } else {
      CoveredSplit(m, s, i);
    }
  }

  /** The merged spans are sorted, disjoint, and cover exactly the union of the spans that were found. */
  lemma MergeIsExact(found: seq<Span>, n: nat)
    requires InRange(found, n)
    ensures ExactMerge(found, Merged(Sort(found, ByTuple))) && InRange(Merged(Sort(found, ByTuple)), n)
  {
    var sorted := Sort(found, ByTuple);
    SortProperties(found, ByTuple);
    SameElements(sorted, found);
    AmongInRange(sorted, found, n);
    MergeSorted(sorted, n, Latest(sorted));
    MergeTransfer(sorted, found, Merged(sorted));
  }

  /** The boundary before position `p` falls strictly inside a span. */
  predicate Inside(spans: seq<Span>, p: int) { exists k :: 0 <= k < |spans| && spans[k].start < p < spans[k].end }

  lemma InsideSnoc(front: seq<Span>, s: Span, p: int)
    ensures Inside(front + [s], p) <==> Inside(front, p) || s.start < p < s.end
  {
    var all := front + [s];
    if Inside(front, p) {
      var k :| 0 <= k < |front| && front[k].start < p < front[k].end;
      assert all[k] == front[k];
    }
    if s.start < p < s.end { assert all[|front|] == s; }
  }

  lemma AbsorbInside(m: seq<Span>, s: Span, p: int)
    requires StartsBy(m, s.start) && s.start < s.end
    ensures Inside(Absorb(m, s), p) <==> Inside(m, p) || s.start < p < s.end
  {
    hide Inside;
    if m != [] && s.start < m[|m| - 1].end {
      var front, last := m[..|m| - 1], m[|m| - 1];
      assert m == front + [last];
      InsideSnoc(front, last, p);
      InsideSnoc(front, last.(end := if last.end < s.end then s.end else last.end), p);
    } else {
      InsideSnoc(m, s, p);
    }
  }

  lemma {:induction false} SortedInside(sorted: seq<Span>, n: nat, bound: nat, p: int)
    requires Ordered(sorted) && InRange(sorted, n) && StartsBy(sorted, bound)
    ensures Inside(Merged(sorted), p) <==> Inside(sorted, p)
  {
    if sorted != [] {
      hide Absorb, Inside, ExactMerge;
      var front, s := sorted[..|sorted| - 1], sorted[|sorted| - 1];
      assert sorted == front + [s];
      SortedInside(front, n, s.start, p);
      MergeSorted(front, n, s.start);
      AbsorbInside(Merged(front), s, p);
      InsideSnoc(front, s, p);
    }
  }

  lemma AmongInside(a: seq<Span>, b: seq<Span>, p: int)
    requires Among(a, b) && Inside(a, p)
    ensures Inside(b, p)
  {
    var k :| 0 <= k < |a| && a[k].start < p < a[k].end;
    assert a[k] in b;
  }

  /** Where merged spans part: between two positions exactly if no found span reaches across.  So spans that overlap are
      one, and spans that only touch stay two. */
  lemma MergeJoinsOverlaps(found: seq<Span>, n: nat, p: int)
    requires InRange(found, n)
    ensures Inside(Merged(Sort(found, ByTuple)), p) <==> Inside(found, p)
  {
    hide Inside, Merged, Sort;
    var sorted := Sort(found, ByTuple);
    SortProperties(found, ByTuple);
    SameElements(sorted, found);
    AmongInRange(sorted, found, n);
    SortedInside(sorted, n, Latest(sorted), p);
    if Inside(sorted, p) { AmongInside(sorted, found, p); }
    if Inside(found, p) { AmongInside(found, sorted, p); }
  }

  lemma MergeTransfer(sorted: seq<Span>, found: seq<Span>, merged: seq<Span>)
    requires ExactMerge(sorted, merged) && Among(sorted, found) && Among(found, sorted)
    ensures ExactMerge(found, merged)
  {
    SameCoverage(sorted, found);
    forall k | 0 <= k < |merged| ensures HasSource(found, merged[k].start, merged[k].rule) {
      AmongSourced(sorted, found, merged[k].start, merged[k].rule);
    }
  }

  // ---------------------------------------------------------------- the rule of a merged span

  lemma {:induction false} StringLeTotal(a: string, b: string)
    ensures StringLe(a, b) || StringLe(b, a)
  {
    if a != "" && b != "" { StringLeTotal(a[1..], b[1..]); }
  }

  lemma {:induction false} StringLeTransitive(a: string, b: string, c: string)
    requires StringLe(a, b) && StringLe(b, c)
    ensures StringLe(a, c)
  {
    if a != "" && b != "" && c != "" && a[0] == b[0] == c[0] { StringLeTransitive(a[1..], b[1..], c[1..]); }
  }

  /** The first character that differs, at `k`, is smaller. */
  predicate SmallerAt(a: string, b: string, k: nat) { k < |a| && k < |b| && a[..k] == b[..k] && a[k] < b[k] }

  lemma SmallerTail(a: string, b: string, k: nat)
    requires a != "" && b != "" && a[0] == b[0]
    ensures SmallerAt(a, b, k + 1) <==> SmallerAt(a[1..], b[1..], k)
  {
    if k < |a| - 1 && k < |b| - 1 {
      assert a[..k + 1] == [a[0]] + a[1..][..k] && b[..k + 1] == [b[0]] + b[1..][..k];
      assert a[1..][..k] == a[..k + 1][1..] && b[1..][..k] == b[..k + 1][1..];
    }
  }

  lemma {:induction false} StringOrder(a: string, b: string)
    ensures StringLe(a, b) <==> a <= b || exists k: nat :: SmallerAt(a, b, k)
  {
    if a != "" && b != "" {
      StringOrder(a[1..], b[1..]);
      if a[0] < b[0] {
        assert SmallerAt(a, b, 0);
      } else if a[0] == b[0] {
        if k: nat :| SmallerAt(a, b, k) { SmallerTail(a, b, k - 1); }
        if k: nat :| SmallerAt(a[1..], b[1..], k) { SmallerTail(a, b, k); }
      }
    }
  }

  /** The order of the tuples: by start, then the shorter span first, then by rule, character by character. */
  lemma TupleOrder(a: Span, b: Span)
    ensures TupleLe(a, b) <==>
              || a.start < b.start
              || (a.start == b.start && a.end < b.end)
              || (a.start == b.start && a.end == b.end
                  && (a.rule <= b.rule || exists k: nat :: SmallerAt(a.rule, b.rule, k)))
  {
    StringOrder(a.rule, b.rule);
  }

  lemma TupleLeTotal(a: Span, b: Span)
    ensures TupleLe(a, b) || TupleLe(b, a)
  {
    StringLeTotal(a.rule, b.rule);
  }

  lemma TupleLeTransitive(a: Span, b: Span, c: Span)
    requires TupleLe(a, b) && TupleLe(b, c)
    ensures TupleLe(a, c)
  {
    if a.start == b.start == c.start && a.end == b.end == c.end { StringLeTransitive(a.rule, b.rule, c.rule); }
  }

  /** Every span comes before `top` in the order of the tuples. */
  predicate Under(spans: seq<Span>, top: Span) { forall k :: 0 <= k < |spans| ==> TupleLe(spans[k], top) }

  /** Sorted in the order of the tuples: each span is above all those before it. */
  predicate TupleSorted(spans: seq<Span>) { forall k :: 0 <= k < |spans| ==> Under(spans[..k], spans[k]) }

  lemma TupleSortedSnoc(front: seq<Span>, last: Span)
    requires TupleSorted(front) && Under(front, last)
    ensures TupleSorted(front + [last])
  {
    var all := front + [last];
    forall k | 0 <= k < |all| ensures Under(all[..k], all[k]) {
      assert all[..k] == front[..k];
      if k == |front| { assert front[..k] == front; }
    }
  }

  lemma TupleSortedFront(spans: seq<Span>)
    requires TupleSorted(spans) && spans != []
    ensures TupleSorted(spans[..|spans| - 1]) && Under(spans[..|spans| - 1], spans[|spans| - 1])
  {
    var front := spans[..|spans| - 1];
    forall k | 0 <= k < |front| ensures Under(front[..k], front[k]) {
      assert front[..k] == spans[..k] && front[k] == spans[k];
    }
  }

  lemma {:induction false} InsertTupleSorted(sorted: seq<Span>, s: Span, top: Span)
    requires TupleSorted(sorted) && Under(sorted, top) && TupleLe(s, top)
    ensures TupleSorted(Insert(sorted, s, ByTuple)) && Under(Insert(sorted, s, ByTuple), top)
  {
    if sorted == [] {
      assert Insert(sorted, s, ByTuple) == [s];
    } else {
      var front, last := sorted[..|sorted| - 1], sorted[|sorted| - 1];
      TupleSortedFront(sorted);
      if TupleLe(last, s) {
        forall k | 0 <= k < |sorted| ensures TupleLe(sorted[k], s) {
          if k < |front| { assert front[k] == sorted[k]; TupleLeTransitive(sorted[k], last, s); }
        }
        TupleSortedSnoc(sorted, s);
      } else {
        TupleLeTotal(last, s);
        InsertTupleSorted(front, s, last);
        TupleSortedSnoc(Insert(front, s, ByTuple), last);
        forall k | 0 <= k < |Insert(front, s, ByTuple)| ensures TupleLe(Insert(front, s, ByTuple)[k], top) {
          TupleLeTransitive(Insert(front, s, ByTuple)[k], last, top);
        }
      }
    }
  }

  /** A span above all the given ones and `s`. */
  lemma {:induction false} SomeTop(spans: seq<Span>, s: Span) returns (top: Span)
    ensures Under(spans, top) && TupleLe(s, top)
  {
    if spans == [] {
      top := s;
      TupleLeTotal(s, s);
    } else {
      var last := spans[|spans| - 1];
      var below := SomeTop(spans[..|spans| - 1], s);
      TupleLeTotal(below, last);
      TupleLeTotal(last, last);
      top := if TupleLe(below, last) then last else below;
      forall k | 0 <= k < |spans| ensures TupleLe(spans[k], top) {
        if k < |spans| - 1 {
          assert spans[..|spans| - 1][k] == spans[k];
          if top == last { TupleLeTransitive(spans[k], below, last); }
        }
      }
      if top == last { TupleLeTransitive(s, below, last); }
    }
  }

  lemma {:induction false} SortIsTupleSorted(spans: seq<Span>)
    ensures TupleSorted(Sort(spans, ByTuple))
  {
    if spans != [] {
      var sorted, s := Sort(spans[..|spans| - 1], ByTuple), spans[|spans| - 1];
      SortIsTupleSorted(spans[..|spans| - 1]);
      var top := SomeTop(sorted, s);
      InsertTupleSorted(sorted, s, top);
    }
  }

  /** `rule` is that of the least tuple among the spans that start at `start`. */
  ghost predicate LeastThere(spans: seq<Span>, start: nat, rule: string) {
    exists k :: 0 <= k < |spans| && spans[k].start == start && spans[k].rule == rule && LeastAt(spans, k)
  }

  predicate LeastAt(spans: seq<Span>, k: nat)
    requires k < |spans|
  {
    forall j :: 0 <= j < |spans| && spans[j].start == spans[k].start ==> TupleLe(spans[k], spans[j])
  }

  ghost predicate LeastRules(spans: seq<Span>, merged: seq<Span>) {
    forall k :: 0 <= k < |merged| ==> LeastThere(spans, merged[k].start, merged[k].rule)
  }

  lemma LeastGrows(front: seq<Span>, s: Span, start: nat, rule: string)
    requires LeastThere(front, start, rule) && Under(front, s)
    ensures LeastThere(front + [s], start, rule)
  {
    var k :| 0 <= k < |front| && front[k].start == start && front[k].rule == rule && LeastAt(front, k);
    assert (front + [s])[k] == front[k] && LeastAt(front + [s], k);
  }

  /** A span that opens a new merged span is the first one that starts there. */
  lemma NewStart(front: seq<Span>, m: seq<Span>, s: Span, n: nat)
    requires InRange(front, n) && Disjoint(m) && InRange(m, n) && (m == [] || s.start >= m[|m| - 1].end)
    requires forall i :: Covered(front, i) ==> Covered(m, i)
    ensures forall j :: 0 <= j < |front| ==> front[j].start != s.start
  {
    forall j | 0 <= j < |front| ensures front[j].start != s.start {
      assert Covered(front, front[j].start);
      var k :| 0 <= k < |m| && m[k].start <= front[j].start < m[k].end;
      assert k == |m| - 1 || m[k].end <= m[|m| - 1].start;
    }
  }

  lemma AbsorbLeast(front: seq<Span>, m: seq<Span>, s: Span, n: nat)
    requires LeastRules(front, m) && Under(front, s) && ExactMerge(front, m) && InRange(front, n) && InRange(m, n)
    ensures LeastRules(front + [s], Absorb(m, s))
  {
    var all, out := front + [s], Absorb(m, s);
    forall k | 0 <= k < |out| ensures LeastThere(all, out[k].start, out[k].rule) {
      if k < |m| {
        assert out[k].start == m[k].start && out[k].rule == m[k].rule;
        LeastGrows(front, s, m[k].start, m[k].rule);
      } else {
        NewStart(front, m, s, n);
        TupleLeTotal(s, s);
        assert all[|front|] == s == out[k] && LeastAt(all, |front|);
      }
    }
  }

  /** The prefix of a sorted sequence: in order, in range, and below the last span. */
  lemma SortedFront(sorted: seq<Span>, n: nat)
    requires sorted != [] && Ordered(sorted) && TupleSorted(sorted) && InRange(sorted, n)
    ensures var front, s := sorted[..|sorted| - 1], sorted[|sorted| - 1];
            && sorted == front + [s] && Ordered(front) && TupleSorted(front) && InRange(front, n)
            && StartsBy(front, s.start) && Under(front, s)
  {
    hide TupleLe, Under;
    var front, s := sorted[..|sorted| - 1], sorted[|sorted| - 1];
    TupleSortedFront(sorted);
    hide TupleSorted;
    assert forall k :: 0 <= k < |front| ==> front[k] == sorted[k] && sorted[k].start <= s.start;
    assert Ordered(front) && InRange(front, n) && StartsBy(front, s.start);
  }

  lemma {:induction false} MergeTakesLeast(sorted: seq<Span>, n: nat)
    requires Ordered(sorted) && TupleSorted(sorted) && InRange(sorted, n)
    ensures LeastRules(sorted, Merged(sorted))
  {
    if sorted != [] {
      hide Ordered, TupleSorted, InRange, StartsBy, Under, LeastRules, ExactMerge, Merged, Absorb;
      var front, s := sorted[..|sorted| - 1], sorted[|sorted| - 1];
      SortedFront(sorted, n);
      MergeTakesLeast(front, n);
      MergeSorted(front, n, s.start);
      AbsorbLeast(front, Merged(front), s, n);
      MergedSnoc(front, s);
    }
  }

  lemma LeastTransfer(sorted: seq<Span>, found: seq<Span>, start: nat, rule: string)
    requires Among(sorted, found) && Among(found, sorted) && LeastThere(sorted, start, rule)
    ensures LeastThere(found, start, rule)
  {
    var k :| 0 <= k < |sorted| && sorted[k].start == start && sorted[k].rule == rule && LeastAt(sorted, k);
    assert sorted[k] in found;
    var i :| 0 <= i < |found| && found[i] == sorted[k];
    forall j | 0 <= j < |found| && found[j].start == found[i].start ensures TupleLe(found[i], found[j]) {
      assert found[j] in sorted;
    }
    assert LeastAt(found, i);
  }

  /** The rule under which a merged span is counted: that of the least found tuple that starts there, the shortest span
      first and then the rule that comes first. */
  lemma MergedRulesAreLeast(found: seq<Span>, n: nat)
    requires InRange(found, n)
    ensures LeastRules(found, Merged(Sort(found, ByTuple)))
  {
    var sorted := Sort(found, ByTuple);
    SortProperties(found, ByTuple);
    SortIsTupleSorted(found);
    SameElements(sorted, found);
    AmongInRange(sorted, found, n);
    MergeTakesLeast(sorted, n);
    var merged := Merged(sorted);
    forall k | 0 <= k < |merged| ensures LeastThere(found, merged[k].start, merged[k].rule) {
      LeastTransfer(sorted, found, merged[k].start, merged[k].rule);
    }
  }

  // ---------------------------------------------------------------- replacing

  /** A piece of the output: a character of the input, by position, or the mask of a rule. */
  datatype Token = Keep(index: nat) | Mask(rule: string)

  function Keeps(a: nat, b: nat): seq<Token>
    requires a <= b
  {
    seq(b - a, k requires 0 <= k < b - a => Keep(a + k))
  }

  /** What the replacement loop produces from `cursor` on: a span that starts before the cursor is skipped. */
  function Pieces(spans: seq<Span>, cursor: nat, n: nat): seq<Token>
    requires InRange(spans, n) && cursor <= n
  {
    if spans == [] then Keeps(cursor, n)
    else if spans[0].start < cursor then Pieces(spans[1..], cursor, n)
    else Keeps(cursor, spans[0].start) + [Mask(spans[0].rule)] + Pieces(spans[1..], spans[0].end, n)
  }

  predicate Renderable(text: string, tokens: seq<Token>) { forall t <- tokens :: t.Keep? ==> t.index < |text| }

  function Render(text: string, tokens: seq<Token>, mask: string -> string): string
    requires Renderable(text, tokens)
  {
    if tokens == [] then ""
    else (if tokens[0].Keep? then [text[tokens[0].index]] else mask(tokens[0].rule)) + Render(text, tokens[1..], mask)
  }

  /** The rules whose masks were written, in order. */
  function Masks(tokens: seq<Token>): seq<string> {
    if tokens == [] then [] else MaskOf(tokens[0]) + Masks(tokens[1..])
  }

  function MaskOf(t: Token): seq<string> { if t.Mask? then [t.rule] else [] }

  /** The positions that survive, in order. */
  function Survivors(tokens: seq<Token>): seq<nat> {
    if tokens == [] then [] else SurvivorOf(tokens[0]) + Survivors(tokens[1..])
  }

  function SurvivorOf(t: Token): seq<nat> { if t.Keep? then [t.index] else [] }

  lemma {:induction false} PiecesRenderable(text: string, spans: seq<Span>, cursor: nat)
    requires InRange(spans, |text|) && cursor <= |text|
    ensures Renderable(text, Pieces(spans, cursor, |text|))
    decreases |spans|
  {
    if spans != [] {
      PiecesRenderable(text, spans[1..], cursor);
      if spans[0].start >= cursor { PiecesRenderable(text, spans[1..], spans[0].end); }
    }
  }

  lemma {:induction false} RenderConcat(text: string, a: seq<Token>, b: seq<Token>, mask: string -> string)
    requires Renderable(text, a) && Renderable(text, b)
    ensures Renderable(text, a + b) && Render(text, a + b, mask) == Render(text, a, mask) + Render(text, b, mask)
  {
    if a == [] {
      assert a + b == b;
    } else {
      assert (a + b)[1..] == a[1..] + b;
      RenderConcat(text, a[1..], b, mask);
    }
  }

  lemma {:induction false} RenderKeeps(text: string, a: nat, b: nat, mask: string -> string)
    requires a <= b <= |text|
    ensures Renderable(text, Keeps(a, b)) && Render(text, Keeps(a, b), mask) == text[a..b]
    decreases b - a
  {
    if a < b {
      assert Keeps(a, b)[1..] == Keeps(a + 1, b);
      RenderKeeps(text, a + 1, b, mask);
      assert text[a..b] == [text[a]] + text[a + 1..b];
    }
  }

  lemma RenderMask(text: string, rule: string, mask: string -> string)
    ensures Renderable(text, [Mask(rule)]) && Render(text, [Mask(rule)], mask) == mask(rule)
  {
    assert [Mask(rule)][1..] == [];
  }

  /** What the loop appends for one span that is not skipped. */
  lemma AppendPiece(text: string, done: seq<Token>, s: Span, cursor: nat, mask: string -> string)
    requires Renderable(text, done) && cursor <= s.start <= |text|
    ensures var after := done + (Keeps(cursor, s.start) + [Mask(s.rule)]);
            && Renderable(text, after)
            && Render(text, after, mask) == Render(text, done, mask) + (text[cursor..s.start] + mask(s.rule))
            && Masks(after) == Masks(done) + [s.rule]
  {
    RenderKeeps(text, cursor, s.start, mask);
    RenderMask(text, s.rule, mask);
    RenderConcat(text, Keeps(cursor, s.start), [Mask(s.rule)], mask);
    RenderConcat(text, done, Keeps(cursor, s.start) + [Mask(s.rule)], mask);
    SurvivorsMask(s.rule);
    KeepsHaveNoMask(cursor, s.start);
    MasksConcat(Keeps(cursor, s.start), [Mask(s.rule)]);
    MasksConcat(done, Keeps(cursor, s.start) + [Mask(s.rule)]);
  }

  /** The last piece of the text. */
  lemma AppendRest(text: string, done: seq<Token>, cursor: nat, mask: string -> string)
    requires Renderable(text, done) && cursor <= |text|
    ensures var after := done + Keeps(cursor, |text|);
            && Renderable(text, after)
            && Render(text, after, mask) == Render(text, done, mask) + text[cursor..]
            && Masks(after) == Masks(done)
  {
    RenderKeeps(text, cursor, |text|, mask);
    RenderConcat(text, done, Keeps(cursor, |text|), mask);
    KeepsHaveNoMask(cursor, |text|);
    MasksConcat(done, Keeps(cursor, |text|));
  }

  lemma {:induction false} KeepsHaveNoMask(a: nat, b: nat)
    requires a <= b
    ensures Masks(Keeps(a, b)) == []
    decreases b - a
  {
    if a < b {
      assert Keeps(a, b)[1..] == Keeps(a + 1, b);
      KeepsHaveNoMask(a + 1, b);
    }
  }

  lemma SurvivorsMask(rule: string)
    ensures Survivors([Mask(rule)]) == [] && Masks([Mask(rule)]) == [rule]
  {
    assert [Mask(rule)][1..] == [];
  }

  lemma TakePiece(done: seq<Token>, spans: seq<Span>, cursor: nat, n: nat)
    requires InRange(spans, n) && spans != [] && cursor <= spans[0].start
    ensures done + Pieces(spans, cursor, n)
            == done + (Keeps(cursor, spans[0].start) + [Mask(spans[0].rule)]) + Pieces(spans[1..], spans[0].end, n)
  {
  }

  /** The replacement loop of `visit` and of `redact_text`: `count` and `kinds` count the masks written. */
  method ReplaceSpans(text: string, spans: seq<Span>, mask: string -> string)
    returns (out: string, count: nat, kinds: set<string>)
    requires InRange(spans, |text|)
    ensures Renderable(text, Pieces(spans, 0, |text|)) && out == Render(text, Pieces(spans, 0, |text|), mask)
    ensures count == |Masks(Pieces(spans, 0, |text|))|
    ensures kinds == set r <- Masks(Pieces(spans, 0, |text|))
  {
    var parts, cursor: nat := "", 0;
    count, kinds := 0, {};
    ghost var done: seq<Token> := [];
    for k := 0 to |spans|
      invariant cursor <= |text| && Renderable(text, done)
      invariant Pieces(spans, 0, |text|) == done + Pieces(spans[k..], cursor, |text|)
      invariant parts == Render(text, done, mask) && count == |Masks(done)| && kinds == set r <- Masks(done)
    {
      var s := spans[k];
      assert spans[k..][0] == s && spans[k..][1..] == spans[k + 1..];
      if s.start < cursor { continue; }
      TakePiece(done, spans[k..], cursor, |text|);
      AppendPiece(text, done, s, cursor, mask);
      parts := parts + (text[cursor..s.start] + mask(s.rule));
      done := done + (Keeps(cursor, s.start) + [Mask(s.rule)]);
      cursor := s.end;
      count := count + 1;
      kinds := kinds + {s.rule};
    }
    AppendRest(text, done, cursor, mask);
    out := parts + text[cursor..];
  }

  // ---------------------------------------------------------------- which characters survive

  /** The reference: the positions from `a` to `n` that no span covers. */
  function Uncovered(spans: seq<Span>, a: nat, n: nat): seq<nat>
    requires a <= n
    decreases n - a
  {
    if a == n then [] else (if Covered(spans, a) then [] else [a]) + Uncovered(spans, a + 1, n)
  }

  lemma {:induction false} UncoveredSplit(spans: seq<Span>, a: nat, b: nat, n: nat)
    requires a <= b <= n
    ensures Uncovered(spans, a, n) == Uncovered(spans, a, b) + Uncovered(spans, b, n)
    decreases b - a
  {
    if a < b { UncoveredSplit(spans, a + 1, b, n); }
  }

  lemma {:induction false} UncoveredSame(p: seq<Span>, q: seq<Span>, a: nat, n: nat)
    requires a <= n && forall i :: a <= i < n ==> (Covered(p, i) <==> Covered(q, i))
    ensures Uncovered(p, a, n) == Uncovered(q, a, n)
    decreases n - a
  {
    if a < n { UncoveredSame(p, q, a + 1, n); }
  }

  lemma {:induction false} UncoveredNone(spans: seq<Span>, a: nat, n: nat)
    requires a <= n && forall i :: a <= i < n ==> Covered(spans, i)
    ensures Uncovered(spans, a, n) == []
    decreases n - a
  {
    if a < n { UncoveredNone(spans, a + 1, n); }
  }

  lemma {:induction false} SurvivorsConcat(a: seq<Token>, b: seq<Token>)
    ensures Survivors(a + b) == Survivors(a) + Survivors(b)
  {
    if a == [] {
      assert a + b == b;
    } else {
      assert (a + b)[1..] == a[1..] + b && (a + b)[0] == a[0];
      SurvivorsConcat(a[1..], b);
      Assoc(SurvivorOf(a[0]), Survivors(a[1..]), Survivors(b));
    }
  }

  lemma {:induction false} MasksConcat(a: seq<Token>, b: seq<Token>)
    ensures Masks(a + b) == Masks(a) + Masks(b)
  {
    if a == [] {
      assert a + b == b;
    } else {
      assert (a + b)[1..] == a[1..] + b && (a + b)[0] == a[0];
      MasksConcat(a[1..], b);
      Assoc(MaskOf(a[0]), Masks(a[1..]), Masks(b));
    }
  }

  lemma {:induction false} SurvivorsKeeps(spans: seq<Span>, a: nat, b: nat)
    requires a <= b && forall i :: a <= i < b ==> !Covered(spans, i)
    ensures Survivors(Keeps(a, b)) == Uncovered(spans, a, b)
    decreases b - a
  {
    hide Covered;
    if a < b {
      assert !Covered(spans, a);
      KeepsFirst(a, b);
      SurvivorsKeeps(spans, a + 1, b);
    }
  }

  lemma KeepsFirst(a: nat, b: nat)
    requires a < b
    ensures Survivors(Keeps(a, b)) == [a] + Survivors(Keeps(a + 1, b))
  {
    assert Keeps(a, b)[0] == Keep(a) && Keeps(a, b)[1..] == Keeps(a + 1, b);
  }

  function RuleSeq(spans: seq<Span>): seq<string> {
    if spans == [] then [] else [spans[0].rule] + RuleSeq(spans[1..])
  }

  lemma CoverageOfTail(spans: seq<Span>, cursor: nat)
    requires Disjoint(spans) && spans != [] && cursor <= spans[0].start < spans[0].end
    ensures forall i :: cursor <= i < spans[0].start ==> !Covered(spans, i)
    ensures forall i :: spans[0].start <= i < spans[0].end ==> Covered(spans, i)
    ensures forall i :: spans[0].end <= i ==> (Covered(spans, i) <==> Covered(spans[1..], i))
  {
    forall i | spans[0].end <= i ensures Covered(spans, i) <==> Covered(spans[1..], i) {
      if Covered(spans, i) {
        var k :| 0 <= k < |spans| && spans[k].start <= i < spans[k].end;
        assert spans[1..][k - 1] == spans[k];
      }
      if Covered(spans[1..], i) {
        var k :| 0 <= k < |spans| - 1 && spans[1..][k].start <= i < spans[1..][k].end;
        assert spans[1..][k] == spans[k + 1];
      }
    }
  }

  /** The uncovered positions are those before the first span and those that the others leave after it. */
  lemma UncoveredAround(spans: seq<Span>, cursor: nat, n: nat)
    requires InRange(spans, n) && Disjoint(spans) && spans != [] && cursor <= spans[0].start
    ensures Uncovered(spans, cursor, n)
            == Uncovered(spans, cursor, spans[0].start) + Uncovered(spans[1..], spans[0].end, n)
  {
    var s := spans[0];
    CoverageOfTail(spans, cursor);
    UncoveredSplit(spans, cursor, s.start, n);
    UncoveredSplit(spans, s.start, s.end, n);
    UncoveredNone(spans, s.start, s.end);
    UncoveredSame(spans, spans[1..], s.end, n);
  }

  lemma SurvivorsAround(a: seq<Token>, rule: string, b: seq<Token>)
    ensures Survivors(a + [Mask(rule)] + b) == Survivors(a) + Survivors(b)
  {
    SurvivorsMask(rule);
    SurvivorsConcat(a, [Mask(rule)]);
    SurvivorsConcat(a + [Mask(rule)], b);
  }

  /** What the pieces of the first span contribute. */
  lemma FirstSurvivors(spans: seq<Span>, cursor: nat, n: nat)
    requires InRange(spans, n) && Disjoint(spans) && spans != [] && cursor <= spans[0].start
    ensures Survivors(Pieces(spans, cursor, n))
            == Uncovered(spans, cursor, spans[0].start) + Survivors(Pieces(spans[1..], spans[0].end, n))
  {
    CoverageOfTail(spans, cursor);
    SurvivorsKeeps(spans, cursor, spans[0].start);
    SurvivorsAround(Keeps(cursor, spans[0].start), spans[0].rule, Pieces(spans[1..], spans[0].end, n));
  }

  lemma FirstMask(spans: seq<Span>, cursor: nat, n: nat)
    requires InRange(spans, n) && spans != [] && cursor <= spans[0].start
    ensures Masks(Pieces(spans, cursor, n)) == [spans[0].rule] + Masks(Pieces(spans[1..], spans[0].end, n))
  {
    KeepsHaveNoMask(cursor, spans[0].start);
    MasksAround(Keeps(cursor, spans[0].start), spans[0].rule, Pieces(spans[1..], spans[0].end, n));
  }

  lemma MasksAround(a: seq<Token>, rule: string, b: seq<Token>)
    ensures Masks(a + [Mask(rule)] + b) == Masks(a) + [rule] + Masks(b)
  {
    SurvivorsMask(rule);
    MasksConcat(a, [Mask(rule)]);
    MasksConcat(a + [Mask(rule)], b);
  }

  /** On disjoint spans, the pieces keep exactly the uncovered positions and write one mask per span. */
  lemma {:induction false} PiecesExact(spans: seq<Span>, cursor: nat, n: nat)
    requires InRange(spans, n) && Disjoint(spans) && cursor <= n && (spans != [] ==> cursor <= spans[0].start)
    ensures Survivors(Pieces(spans, cursor, n)) == Uncovered(spans, cursor, n)
    ensures Masks(Pieces(spans, cursor, n)) == RuleSeq(spans)
    decreases |spans|
  {
    if spans == [] {
      SurvivorsKeeps(spans, cursor, n);
      KeepsHaveNoMask(cursor, n);
    } else {
      PiecesExact(spans[1..], spans[0].end, n);
      UncoveredAround(spans, cursor, n);
      FirstSurvivors(spans, cursor, n);
      FirstMask(spans, cursor, n);
    }
  }

  /** Redaction is exact: after merging and replacement a character survives, in its order, if and only if no
      span that was found covers it; and one mask is written per merged span. */
  lemma RedactionIsExact(found: seq<Span>, n: nat)
    requires InRange(found, n)
    ensures var merged := Merged(Sort(found, ByTuple));
            && InRange(merged, n)
            && Survivors(Pieces(merged, 0, n)) == Uncovered(found, 0, n)
            && Masks(Pieces(merged, 0, n)) == RuleSeq(merged)
  {
    MergeIsExact(found, n);
    var merged := Merged(Sort(found, ByTuple));
    PiecesExact(merged, 0, n);
    UncoveredSame(merged, found, 0, n);
  }
}
