/**
 * The analysis of one web page and of the pages a search returns. The
 * network, the HTML parser and the tokenizer are collaborators passed in as
 * functions; the analyzer combines the matcher, the scorer and the result
 * selection around them.
 */
module Analyzer {
  import opened Wrappers
  import opened Matcher
  import opened Scorer
  import opened Selection

  /**
   * What the analyzer calls but does not define: the search (result links for
   * a query, of which the source asks for ten), the page fetch (`None` on any
   * failure), the HTML text extraction, the network location (`netloc`) of a
   * URL, and word tokenization of lower-cased text.
   */
  datatype Collaborators = Collaborators(
    googleSearch: string -> seq<string>,
    fetchWebpage: string -> Option<string>,
    getText: string -> string,
    netloc: string -> string,
    lowerTokenize: string -> seq<string>)

  /** The message of a URL whose page could not be loaded. */
  const LoadFailure: string := "Could not load the page"

  /** What analysing `url` produces, given what the collaborators return for it. */
  ghost predicate IsPageResult(env: Collaborators, url: string, res: AnalysisResult)
  {
    var content := env.fetchWebpage(url);
    if IsMissing(content) then res == Error(url, LoadFailure)
    else
      var text := env.getText(content.value);
      var tokens := env.lowerTokenize(text);
      && res.Success?
      && res.url == url
      && res.domain == env.netloc(url)
      && (if text == "" then
            res.categoryAnalysis == map[] && res.badWordCount == 0 && res.totalWordCount == 0
          else
            && res.categoryAnalysis == CategoryScores(tokens)
            && res.badWordCount == BadWordTotal(tokens, Categories)
            && res.totalWordCount == |tokens|)
      && res.safetyScore == SafetyScore(res.badWordCount, res.totalWordCount)
      && res.rating == RatingFor(res.safetyScore).Label()
  }

  /**
   * Analyses one URL: a page that cannot be loaded, or loads empty, gives an
   * error entry; otherwise its text is matched and scored.
   */
  method AnalyzeSingleWebpage(env: Collaborators, url: string) returns (res: AnalysisResult)
    ensures IsPageResult(env, url, res)
    ensures res.url == url
    ensures res.Success? ==> 0.0 <= res.safetyScore <= 10.0
    ensures res.Success? ==> res.badWordCount <= |Categories| * res.totalWordCount
  {
    var content := env.fetchWebpage(url);
    if IsMissing(content) {
      return Error(url, LoadFailure);
    }
    var textContent := env.getText(content.value);
    var categoryScores, badWordCount, totalWordCount := AnalyzeTextContent(Some(textContent), env.lowerTokenize);
    var safety := GetSafetyRating(badWordCount, totalWordCount);
    res := Success(url, env.netloc(url), safety.score, safety.rating.Label(),
                   badWordCount, totalWordCount, categoryScores);
  }

  /**
   * Analyses every URL the search returns for `query`, in order, and keeps
   * the successful results sorted by score, highest first. `results` holds
   * the per-URL results before selection.
   */
  method AnalyzeSearchResults(env: Collaborators, query: string)
    returns (valid: seq<AnalysisResult>, ghost results: seq<AnalysisResult>)
    ensures var urls := env.googleSearch(query);
            && |results| == |urls|
            && forall i | 0 <= i < |urls| :: IsPageResult(env, urls[i], results[i])
    ensures valid == SelectResults(results)
    ensures env.googleSearch(query) == [] ==> valid == []
  {
    var urls := env.googleSearch(query);
    if urls == [] {
      return [], [];
    }
    var all: seq<AnalysisResult> := [];
    for i := 0 to |urls|
      invariant |all| == i
      invariant forall j | 0 <= j < i :: IsPageResult(env, urls[j], all[j])
    {
      var res := AnalyzeSingleWebpage(env, urls[i]);
      all := all + [res];
    }
    results := all;
    valid := SelectResults(all);
  }

  /** `url` loads a page with non-empty text whose lower-cased tokens are `tokens`. */
  ghost predicate LoadsTokens(env: Collaborators, url: string, tokens: seq<string>)
  {
    var content := env.fetchWebpage(url);
    && !IsMissing(content)
    && env.getText(content.value) != ""
    && env.lowerTokenize(env.getText(content.value)) == tokens
  }

  /**
   * A loaded page whose only hits are `n` violence hits: its analysis reports
   * all six categories, `n` bad words and the score and label of `n` among
   * its tokens.
   */
  lemma ViolenceOnlyPage(env: Collaborators, url: string, tokens: seq<string>, n: nat, res: AnalysisResult)
    requires LoadsTokens(env, url, tokens)
    requires HitsOnly(tokens, "violence", n)
    requires IsPageResult(env, url, res)
    ensures res.Success? && res.url == url
    ensures res.categoryAnalysis == OneCategoryMap("violence", n)
    ensures res.badWordCount == n && res.totalWordCount == |tokens|
    ensures res.safetyScore == SafetyScore(n, |tokens|)
    ensures res.rating == RatingFor(SafetyScore(n, |tokens|)).Label()
  {
    OneCategoryHit(tokens, "violence", n);
  }

  /**
   * Three URLs: the first page has no hits among 100 tokens, the second has
   * 10 violence hits among 100 tokens, the third cannot be loaded. Their
   * analyses report all six categories, and only the first two are kept, the
   * clean page first.
   */
  lemma ThreePageExample(env: Collaborators, cleanTokens: seq<string>, violentTokens: seq<string>,
                         clean: AnalysisResult, violent: AnalysisResult, failed: AnalysisResult)
    requires LoadsTokens(env, "u1", cleanTokens) && |cleanTokens| == 100
    requires HitsOnly(cleanTokens, "violence", 0)
    requires LoadsTokens(env, "u2", violentTokens) && |violentTokens| == 100
    requires HitsOnly(violentTokens, "violence", 10)
    requires env.fetchWebpage("u3") == None
    requires IsPageResult(env, "u1", clean)
    requires IsPageResult(env, "u2", violent)
    requires IsPageResult(env, "u3", failed)
    ensures clean.Success? && clean.categoryAnalysis == OneCategoryMap("violence", 0)
    ensures clean.badWordCount == 0 && clean.safetyScore == 10.0 && clean.rating == "Very Good"
    ensures violent.Success?
    ensures violent.categoryAnalysis == OneCategoryMap("violence", 10)
    ensures violent.badWordCount == 10 && violent.safetyScore == 5.0 && violent.rating == "Very Bad"
    ensures failed == Error("u3", LoadFailure)
    ensures SelectResults([clean, violent, failed]) == [clean, violent]
  {
    ViolenceOnlyPage(env, "u1", cleanTokens, 0, clean);
    ViolenceOnlyPage(env, "u2", violentTokens, 10, violent);
    assert clean.safetyScore == 10.0 && clean.rating == "Very Good" by {
      assert SafetyScore(0, 100) == 10.0;
    }
    assert violent.safetyScore == 5.0 && violent.rating == "Very Bad" by {
      assert SafetyScore(10, 100) == 5.0;
    }
    SelectTwoAndAnError(clean, violent, failed);
  }
}
