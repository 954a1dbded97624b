/**
 * The selection of the final results: the per-URL analysis results are
 * filtered to the successful ones, which are then sorted by safety score,
 * highest first. The sort is stable, as Python's `sorted` with
 * `reverse=True` is: entries with equal scores keep their input order.
 */
module Selection {

  /**
   * The result of analysing one URL: a successful analysis, with the rating
   * as the label the analyzer reports, or an error message.
   */
  datatype AnalysisResult =
    | Success(url: string, domain: string, safetyScore: real, rating: string,
              badWordCount: nat, totalWordCount: nat, categoryAnalysis: map<string, nat>)
    | Error(url: string, message: string)

  predicate AllSucceeded(s: seq<AnalysisResult>)
  {
    forall i | 0 <= i < |s| :: s[i].Success?
  }

  /** Every earlier entry scores at least as high as every later one. */
  predicate SortedByScore(s: seq<AnalysisResult>)
  {
    forall i, j | 0 <= i < j < |s| ::
      s[i].Success? && s[j].Success? && s[i].safetyScore >= s[j].safetyScore
  }

  /** The successful entries, in input order: `[r for r in results if r.get('status') == 'success']`. */
  function SuccessOnly(results: seq<AnalysisResult>): (valid: seq<AnalysisResult>)
    ensures AllSucceeded(valid)
    ensures forall r: AnalysisResult | r.Success? :: multiset(valid)[r] == multiset(results)[r]
    ensures forall r: AnalysisResult | r.Error? :: multiset(valid)[r] == 0
  {
    if results == [] then []
    else
      assert results == [results[0]] + results[1..];
      (if results[0].Success? then [results[0]] else []) + SuccessOnly(results[1..])
  }

  /**
   * Filtering distributes over concatenation: the successful entries of
   * `a + b` are those of `a` followed by those of `b`, each in its order.
   */
  lemma {:induction false} SuccessOnlyAppend(a: seq<AnalysisResult>, b: seq<AnalysisResult>)
    ensures SuccessOnly(a + b) == SuccessOnly(a) + SuccessOnly(b)
  {
    if a == [] {
      assert a + b == b;
    } else {
      var head := if a[0].Success? then [a[0]] else [];
      assert (a + b)[0] == a[0];
      assert (a + b)[1..] == a[1..] + b;
      calc {
        SuccessOnly(a + b);
        head + SuccessOnly(a[1..] + b);
        { SuccessOnlyAppend(a[1..], b); }
        head + (SuccessOnly(a[1..]) + SuccessOnly(b));
        (head + SuccessOnly(a[1..])) + SuccessOnly(b);
        SuccessOnly(a) + SuccessOnly(b);
      }
    }
  }

  /** Places `x` before the first entry it scores at least as high as. */
  function InsertByScore(x: AnalysisResult, s: seq<AnalysisResult>): (r: seq<AnalysisResult>)
    requires x.Success? && AllSucceeded(s)
    ensures AllSucceeded(r)
    ensures multiset(r) == multiset(s) + multiset{x}
    ensures SortedByScore(s) ==> SortedByScore(r)
  {
    if s == [] || x.safetyScore >= s[0].safetyScore then
      PrependKeepsSorted(x, s);
      [x] + s
    else
      var rest := InsertByScore(x, s[1..]);
      InsertBehindFirst(x, s, rest);
      [s[0]] + rest
  }

  /** Putting an entry that scores at least as high as the first of a sorted list in front keeps it sorted. */
  lemma PrependKeepsSorted(top: AnalysisResult, s: seq<AnalysisResult>)
    requires top.Success? && AllSucceeded(s)
    ensures AllSucceeded([top] + s)
    ensures SortedByScore(s) && (s == [] || top.safetyScore >= s[0].safetyScore) ==> SortedByScore([top] + s)
  {
  }

  /** The step of the insertion that keeps the first entry, which outscores `x`, in front. */
  lemma InsertBehindFirst(x: AnalysisResult, s: seq<AnalysisResult>, rest: seq<AnalysisResult>)
    requires x.Success? && AllSucceeded(s) && s != [] && s[0].safetyScore > x.safetyScore
    requires AllSucceeded(rest) && multiset(rest) == multiset(s[1..]) + multiset{x}
    requires SortedByScore(s[1..]) ==> SortedByScore(rest)
    ensures AllSucceeded([s[0]] + rest)
    ensures multiset([s[0]] + rest) == multiset(s) + multiset{x}
    ensures SortedByScore(s) ==> SortedByScore([s[0]] + rest)
  {
    assert s == [s[0]] + s[1..];
    InsertedEntriesScoreBelow(s[0], x, s[1..], rest);
    PrependKeepsSorted(s[0], rest);
  }

  /** An entry that outscores `x` and every entry of `s` outscores every entry of `s` with `x` added. */
  lemma InsertedEntriesScoreBelow(top: AnalysisResult, x: AnalysisResult, s: seq<AnalysisResult>,
                                  r: seq<AnalysisResult>)
    requires top.Success? && x.Success? && top.safetyScore >= x.safetyScore
    requires multiset(r) == multiset(s) + multiset{x}
    ensures (forall i | 0 <= i < |s| :: s[i].Success? && top.safetyScore >= s[i].safetyScore) ==>
            forall i | 0 <= i < |r| :: r[i].Success? && top.safetyScore >= r[i].safetyScore
  {
    if forall i | 0 <= i < |s| :: s[i].Success? && top.safetyScore >= s[i].safetyScore {
      forall i | 0 <= i < |r| ensures r[i].Success? && top.safetyScore >= r[i].safetyScore {
        assert r[i] in multiset(r);
        if r[i] != x {
          assert r[i] in multiset(s);
        }
      }
    }
  }

  /** `sorted(s, key=safety_score, reverse=True)` on successful entries. */
  function SortByScore(s: seq<AnalysisResult>): (r: seq<AnalysisResult>)
    requires AllSucceeded(s)
    ensures AllSucceeded(r)
    ensures SortedByScore(r)
    ensures multiset(r) == multiset(s)
  {
    if s == [] then []
    else
      assert s == [s[0]] + s[1..];
      InsertByScore(s[0], SortByScore(s[1..]))
  }

  /**
   * The final list: exactly the successful entries of `results` (each as
   * many times as it occurs there), ordered by score, highest first.
   */
  function SelectResults(results: seq<AnalysisResult>): (r: seq<AnalysisResult>)
    ensures AllSucceeded(r)
    ensures SortedByScore(r)
    ensures forall x: AnalysisResult :: multiset(r)[x] == if x.Success? then multiset(results)[x] else 0
  {
    SortByScore(SuccessOnly(results))
  }

  // ---------------------------------------------------------------------------
  // Stability

  /** The successful entries with score `v`, in order. */
  function WithScore(s: seq<AnalysisResult>, v: real): (r: seq<AnalysisResult>)
  {
    if s == [] then []
    else (if s[0].Success? && s[0].safetyScore == v then [s[0]] else []) + WithScore(s[1..], v)
  }

  lemma {:induction false} InsertWithScore(x: AnalysisResult, s: seq<AnalysisResult>, v: real)
    requires x.Success? && AllSucceeded(s)
    ensures WithScore(InsertByScore(x, s), v) ==
            if x.safetyScore == v then [x] + WithScore(s, v) else WithScore(s, v)
  {
    if s == [] || x.safetyScore >= s[0].safetyScore {
      assert ([x] + s)[1..] == s;
    } else {
      InsertWithScore(x, s[1..], v);
      assert ([s[0]] + InsertByScore(x, s[1..]))[1..] == InsertByScore(x, s[1..]);
    }
  }

  /** Sorting keeps entries of equal score in their input order. */
  lemma {:induction false} SortIsStable(s: seq<AnalysisResult>, v: real)
    requires AllSucceeded(s)
    ensures WithScore(SortByScore(s), v) == WithScore(s, v)
  {
    if s != [] {
      SortIsStable(s[1..], v);
      InsertWithScore(s[0], SortByScore(s[1..]), v);
    }
  }

  lemma {:induction false} WithScoreAppend(a: seq<AnalysisResult>, b: seq<AnalysisResult>, v: real)
    ensures WithScore(a + b, v) == WithScore(a, v) + WithScore(b, v)
  {
    if a == [] {
      assert a + b == b;
    } else {
      assert (a + b)[1..] == a[1..] + b;
      WithScoreAppend(a[1..], b, v);
    }
  }

  lemma {:induction false} SuccessOnlyWithScore(s: seq<AnalysisResult>, v: real)
    ensures WithScore(SuccessOnly(s), v) == WithScore(s, v)
  {
    if s != [] {
      var head := if s[0].Success? then [s[0]] else [];
      SuccessOnlyWithScore(s[1..], v);
      WithScoreAppend(head, SuccessOnly(s[1..]), v);
      assert s == [s[0]] + s[1..];
      WithScoreAppend([s[0]], s[1..], v);
    }
  }

  /** In the final list, the entries of any one score appear in the order the URLs were analysed. */
  lemma SelectIsStable(results: seq<AnalysisResult>, v: real)
    ensures WithScore(SelectResults(results), v) == WithScore(results, v)
  {
    SortIsStable(SuccessOnly(results), v);
    SuccessOnlyWithScore(results, v);
  }

  /** Sorting a list that is already sorted by score leaves it as it is. */
  lemma {:induction false} SortSortedIsIdentity(s: seq<AnalysisResult>)
    requires AllSucceeded(s) && SortedByScore(s)
    ensures SortByScore(s) == s
  {
    if s != [] {
      assert AllSucceeded(s[1..]) && SortedByScore(s[1..]);
      SortSortedIsIdentity(s[1..]);
      assert s == [s[0]] + s[1..];
    }
  }

  /**
   * Two successes followed by an error: the error is dropped and the higher
   * score comes first, the earlier entry first on a tie.
   */
  lemma SelectTwoAndAnError(a: AnalysisResult, b: AnalysisResult, e: AnalysisResult)
    requires a.Success? && b.Success? && e.Error? && a.safetyScore >= b.safetyScore
    ensures SelectResults([a, b, e]) == [a, b]
  {
    calc {
      SuccessOnly([a, b, e]);
      { assert [a, b, e][1..] == [b, e]; }
      [a] + SuccessOnly([b, e]);
      { assert [b, e][1..] == [e]; }
      [a] + ([b] + SuccessOnly([e]));
      { assert [e][1..] == []; }
      [a, b];
    }
    SortSortedIsIdentity([a, b]);
  }

  /** No analysis results, or none successful, give an empty final list. */
  lemma SelectEmptyIff(results: seq<AnalysisResult>)
    ensures SelectResults(results) == [] <==> forall i | 0 <= i < |results| :: results[i].Error?
  {
  }
}
