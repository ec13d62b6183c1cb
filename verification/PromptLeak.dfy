/** The longest run of words that a completion copies from a system prompt (`core/prompt_leak.py`).  A text is the
    sequence of its lower-cased words; words are compared for equality and nothing else. */
module PromptLeak {

  import opened Basics

  const MAX_WORDS: nat := 4000

  /** Only the first 4000 words are compared. */
  function Cut<W>(words: seq<W>): (r: seq<W>)
    ensures |words| <= 4000 ==> r == words
    ensures |words| > 4000 ==> |r| == 4000 && r <= words
  {
    if |words| > MAX_WORDS then words[..MAX_WORDS] else words
  }

  /** `k` words in a row are the same, at `i` in `a` and at `j` in `b`. */
  predicate Common<W(==)>(a: seq<W>, b: seq<W>, i: nat, j: nat, k: nat) {
    i + k <= |a| && j + k <= |b| && a[i..i + k] == b[j..j + k]
  }

  /** `k` is the greatest length of a contiguous run common to `a` and `b`. */
  ghost predicate IsLongest<W>(a: seq<W>, b: seq<W>, k: nat) {
    && (exists i: nat, j: nat :: Common(a, b, i, j, k))
    && (forall i: nat, j: nat, m: nat :: Common(a, b, i, j, m) ==> m <= k)
  }

  /** The length of the longest common suffix of `a[..i]` and `b[..j]`: one cell of the table. */
  function Cell<W(==)>(a: seq<W>, b: seq<W>, i: nat, j: nat): nat
    requires i <= |a| && j <= |b|
  {
    if i == 0 || j == 0 || a[i - 1] != b[j - 1] then 0 else Cell(a, b, i - 1, j - 1) + 1
  }

  lemma CommonGrows<W>(a: seq<W>, b: seq<W>, i: nat, j: nat, k: nat)
    requires Common(a, b, i, j, k) && i + k < |a| && j + k < |b| && a[i + k] == b[j + k]
    ensures Common(a, b, i, j, k + 1)
  {
    assert a[i..i + k + 1] == a[i..i + k] + [a[i + k]];
    assert b[j..j + k + 1] == b[j..j + k] + [b[j + k]];
  }

  /** A cell is the length of a common run that ends there. */
  lemma {:induction false} CellIsCommon<W>(a: seq<W>, b: seq<W>, i: nat, j: nat)
    requires i <= |a| && j <= |b|
    ensures var k := Cell(a, b, i, j); k <= i && k <= j && Common(a, b, i - k, j - k, k)
  {
    if i != 0 && j != 0 && a[i - 1] == b[j - 1] {
      CellIsCommon(a, b, i - 1, j - 1);
      var k := Cell(a, b, i - 1, j - 1);
      CommonGrows(a, b, i - 1 - k, j - 1 - k, k);
    }
  }

  /** No common run that ends there is longer than the cell. */
  lemma {:induction false} CommonFitsCell<W>(a: seq<W>, b: seq<W>, i: nat, j: nat, k: nat)
    requires Common(a, b, i, j, k)
    ensures k <= Cell(a, b, i + k, j + k)
    decreases k
  {
    if k > 0 {
      assert a[i..i + k][k - 1] == b[j..j + k][k - 1];
      assert a[i..i + k - 1] == a[i..i + k][..k - 1] && b[j..j + k - 1] == b[j..j + k][..k - 1];
      CommonFitsCell(a, b, i, j, k - 1);
    }
  }

  lemma CommonIsSymmetric<W>(a: seq<W>, b: seq<W>, i: nat, j: nat, k: nat)
    requires Common(a, b, i, j, k)
    ensures Common(b, a, j, i, k)
  {
  }

  /** The measure does not depend on which text is the prompt. */
  lemma LongestIsSymmetric<W>(a: seq<W>, b: seq<W>, k: nat)
    requires IsLongest(a, b, k)
    ensures IsLongest(b, a, k)
  {
    var i: nat, j: nat :| Common(a, b, i, j, k);
    CommonIsSymmetric(a, b, i, j, k);
    forall p: nat, q: nat, m: nat | Common(b, a, p, q, m) ensures m <= k {
      CommonIsSymmetric(b, a, p, q, m);
    }
  }

  /** A row of the table, up to a column. */
  ghost predicate IsRow<W>(cells: seq<nat>, a: seq<W>, b: seq<W>, i: nat, upTo: nat) {
    i <= |a| && |cells| == |b| + 1 && upTo <= |b| && forall q: nat :: q <= upTo ==> cells[q] == Cell(a, b, i, q)
  }

  /** No cell of a row, up to a column, exceeds `best`. */
  ghost predicate RowBounded<W>(a: seq<W>, b: seq<W>, i: nat, upTo: nat, best: nat) {
    i <= |a| && upTo <= |b| && forall q: nat :: q <= upTo ==> Cell(a, b, i, q) <= best
  }

  ghost predicate RowsBounded<W>(a: seq<W>, b: seq<W>, i: nat, best: nat) {
    i <= |a| && forall p: nat :: p <= i ==> RowBounded(a, b, p, |b|, best)
  }

  /** The table gives the measure: a bound of every cell that one of them reaches. */
  lemma BestCellIsLongest<W>(a: seq<W>, b: seq<W>, best: nat, i: nat, j: nat)
    requires i <= |a| && j <= |b| && Cell(a, b, i, j) == best
    requires RowsBounded(a, b, |a|, best)
    ensures IsLongest(a, b, best)
  {
    CellIsCommon(a, b, i, j);
    forall p: nat, q: nat, m: nat | Common(a, b, p, q, m) ensures m <= best {
      CommonFitsCell(a, b, p, q, m);
      assert RowBounded(a, b, p + m, |b|, best);
    }
  }

  /** The cell that is written at a step. */
  lemma CellStep<W>(a: seq<W>, b: seq<W>, i: nat, j: nat)
    requires i < |a| && j < |b|
    ensures Cell(a, b, i + 1, j + 1) == if a[i] == b[j] then Cell(a, b, i, j) + 1 else 0
  {
  }

  lemma RowGrows<W>(a: seq<W>, b: seq<W>, i: nat, j: nat, best: nat)
    requires RowBounded(a, b, i, j, best) && j < |b| && Cell(a, b, i, j + 1) <= best
    ensures RowBounded(a, b, i, j + 1, best)
  {
  }

  /** The first row and the first column are empty. */
  lemma FirstCells<W>(a: seq<W>, b: seq<W>, i: nat, best: nat)
    requires i <= |a|
    ensures Cell(a, b, i, 0) == 0 && forall j: nat :: j <= |b| ==> Cell(a, b, 0, j) == 0
    ensures RowBounded(a, b, i, 0, best) && (i == 0 ==> RowsBounded(a, b, 0, best))
  {
  }

  lemma RowsGrow<W>(a: seq<W>, b: seq<W>, i: nat, best: nat)
    requires RowsBounded(a, b, i, best) && RowBounded(a, b, i + 1, |b|, best)
    ensures RowsBounded(a, b, i + 1, best)
  {
  }

  lemma TooShort<W>(a: seq<W>, b: seq<W>, minWords: int)
    requires |a| < minWords || |b| < minWords
    ensures forall i: nat, j: nat, k: nat :: Common(a, b, i, j, k) ==> k < minWords
    ensures forall k: nat :: IsLongest(a, b, k) ==> k < minWords
  {
  }

  lemma LongestIsOne<W>(a: seq<W>, b: seq<W>, best: nat)
    requires IsLongest(a, b, best)
    ensures forall k: nat :: IsLongest(a, b, k) <==> k == best
    ensures exists i: nat, j: nat :: Common(a, b, i, j, best)
    ensures forall i: nat, j: nat, k: nat :: Common(a, b, i, j, k) ==> k <= best
  {
  }

  lemma RaiseBound<W>(a: seq<W>, b: seq<W>, i: nat, j: nat, best: nat, better: nat)
    requires RowsBounded(a, b, i, best) && RowBounded(a, b, i + 1, j, best) && best <= better
    ensures RowsBounded(a, b, i, better) && RowBounded(a, b, i + 1, j, better)
  {
    forall p: nat | p <= i ensures RowBounded(a, b, p, |b|, better) {
      assert RowBounded(a, b, p, |b|, best);
    }
  }

  /** `leaked_span`: it returns `k` exactly when `k` is the length of the longest common run of the two truncated
      texts and reaches the threshold. */
  method LeakedSpan<W(==)>(prompt: seq<W>, output: seq<W>, minWords: int) returns (r: Option<nat>)
    ensures forall k: nat :: r == Some(k) <==> IsLongest(Cut(prompt), Cut(output), k) && k >= minWords
    ensures r.None? <==> forall i: nat, j: nat, k: nat :: Common(Cut(prompt), Cut(output), i, j, k) ==> k < minWords
    ensures |prompt| <= 4000 && |output| <= 4000 ==>
              forall k: nat :: r == Some(k) <==> IsLongest(prompt, output, k) && k >= minWords
  {
    hide Common, IsLongest, RowBounded, RowsBounded, Cell;
    var a, b := Cut(prompt), Cut(output);
    if |a| < minWords || |b| < minWords {
      TooShort(a, b, minWords);
      return None;
    }
    var previous := new nat[|b| + 1](_ => 0);
    var best: nat := 0;
    ghost var bi: nat, bj: nat := 0, 0;
    FirstCells(a, b, 0, 0);
    for i := 0 to |a|
      invariant IsRow(previous[..], a, b, i, |b|)
      invariant bi <= |a| && bj <= |b| && Cell(a, b, bi, bj) == best
      invariant RowsBounded(a, b, i, best)
    {
      var current := new nat[|b| + 1](_ => 0);
      FirstCells(a, b, i + 1, best);
      for j := 0 to |b|
        invariant previous != current && IsRow(previous[..], a, b, i, |b|)
        invariant IsRow(current[..], a, b, i + 1, j)
        invariant forall q :: j < q <= |b| ==> current[q] == 0
        invariant bi <= |a| && bj <= |b| && Cell(a, b, bi, bj) == best
        invariant RowsBounded(a, b, i, best) && RowBounded(a, b, i + 1, j, best)
      {
        ghost var row := current[..];
        assert previous[..][j] == Cell(a, b, i, j) && current[j + 1] == 0;
        CellStep(a, b, i, j);
        if a[i] == b[j] {
          current[j + 1] := previous[j] + 1;
          if current[j + 1] > best {
            RaiseBound(a, b, i, j, best, current[j + 1]);
            best, bi, bj := current[j + 1], i + 1, j + 1;
          }
        }
        assert current[..] == row[j + 1 := Cell(a, b, i + 1, j + 1)];
        RowGrows(a, b, i + 1, j, best);
      }
      RowsGrow(a, b, i, best);
      previous := current;
    }
    BestCellIsLongest(a, b, best, bi, bj);
    LongestIsOne(a, b, best);
    r := if best >= minWords then Some(best) else None;
  }
}
