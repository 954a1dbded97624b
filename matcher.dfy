/**
 * The keyword matcher of the web content analyzer: a fixed table of six
 * sensitive-content categories, and the counting of tokens of a page that
 * contain one of a category's keywords as a substring.
 */
module Matcher {
  import opened Wrappers

  /** The category names, in the order the keyword table lists them. */
  const Categories: seq<string> :=
    ["violence", "adult_content", "drugs", "discrimination", "gambling", "fraud"]

  /** The keyword table: category name to the keywords searched for in each token. */
  const SensitiveKeywords: map<string, seq<string>> := map[
    "violence" := ["violence", "murder", "fight", "weapons", "blood", "death", "fatal"],
    "adult_content" := ["pornography", "adult", "sex", "nude", "naked"],
    "drugs" := ["drugs", "cocaine", "heroin", "marijuana", "opium"],
    "discrimination" := ["discrimination", "racism", "sexism"],
    "gambling" := ["gambling", "casino", "betting"],
    "fraud" := ["fraud", "hacking", "scamming", "theft"]
  ]

  /** The table has exactly the six listed categories, each named once. */
  lemma TableShape()
    ensures SensitiveKeywords.Keys == set c | c in Categories
    ensures forall i, j | 0 <= i < j < |Categories| :: Categories[i] != Categories[j]
    ensures |SensitiveKeywords| == |Categories| == 6
  {
    TableKeys();
    CategorySet();
    TableSize();
    CategoriesDistinct();
  }

  lemma TableKeys()
    ensures SensitiveKeywords.Keys == {"violence", "adult_content", "drugs", "discrimination", "gambling", "fraud"}
  {
  }

  lemma CategorySet()
    ensures (set c | c in Categories) == {"violence", "adult_content", "drugs", "discrimination", "gambling", "fraud"}
  {
  }

  lemma TableSize()
    ensures |SensitiveKeywords| == 6
  {
    TableKeys();
    assert |{"violence", "adult_content", "drugs", "discrimination", "gambling", "fraud"}| == 6;
  }

  lemma CategoriesDistinct()
    ensures forall i, j | 0 <= i < j < |Categories| :: Categories[i] != Categories[j]
  {
  }

  // ---------------------------------------------------------------------------
  // Substring matching

  /** `sub` occurs in `s` at position `i`. */
  ghost predicate OccursAt(s: string, sub: string, i: int)
  {
    0 <= i && i + |sub| <= |s| && s[i..i + |sub|] == sub
  }

  /** Python's `sub in s` on two strings: `sub` is a contiguous part of `s`. */
  predicate Contains(s: string, sub: string)
    decreases |s|
  {
    (|sub| <= |s| && s[..|sub|] == sub) || (|s| > 0 && Contains(s[1..], sub))
  }

  /** `Contains` holds exactly when `sub` occurs at some position of `s`. */
  lemma {:induction false} ContainsIffOccurs(s: string, sub: string)
    ensures Contains(s, sub) <==> exists i :: OccursAt(s, sub, i)
    decreases |s|
  {
    if |sub| <= |s| && s[..|sub|] == sub {
      assert OccursAt(s, sub, 0);
    }
    if |s| > 0 {
      ContainsIffOccurs(s[1..], sub);
      if Contains(s[1..], sub) {
        var i :| OccursAt(s[1..], sub, i);
        assert s[i + 1..i + 1 + |sub|] == s[1..][i..i + |sub|];
        assert OccursAt(s, sub, i + 1);
      }
      if exists i :: OccursAt(s, sub, i) {
        var i :| OccursAt(s, sub, i);
        if i > 0 {
          assert s[1..][i - 1..i - 1 + |sub|] == s[i..i + |sub|];
          assert OccursAt(s[1..], sub, i - 1);
        }
      }
    }
  }

  /** A string that lacks some character of `sub` does not contain `sub`. */
  lemma {:induction false} MissingCharNotContained(s: string, sub: string, ch: char)
    requires ch in sub && ch !in s
    ensures !Contains(s, sub)
    decreases |s|
  {
    if |s| > 0 {
      assert forall x | x in s[1..] :: x in s;
      MissingCharNotContained(s[1..], sub, ch);
    }
  }

  /** Python's `any(keyword in token for keyword in keywords)`. */
  predicate MatchesAny(token: string, keywords: seq<string>)
  {
    exists k | k in keywords :: Contains(token, k)
  }

  // ---------------------------------------------------------------------------
  // Counting

  /** The number of tokens that contain some keyword: `sum(1 for token in tokens if ...)`. */
  function CountMatches(tokens: seq<string>, keywords: seq<string>): (n: nat)
    ensures n <= |tokens|
  {
    if tokens == [] then 0
    else (if MatchesAny(tokens[0], keywords) then 1 else 0) + CountMatches(tokens[1..], keywords)
  }

  /** Positions of the tokens that contain some keyword. */
  ghost function MatchingPositions(tokens: seq<string>, keywords: seq<string>): (positions: set<int>)
  {
    set i | 0 <= i < |tokens| && MatchesAny(tokens[i], keywords)
  }

  /** Counting splits over a concatenation of token sequences. */
  lemma {:induction false} CountAppend(a: seq<string>, b: seq<string>, keywords: seq<string>)
    ensures CountMatches(a + b, keywords) == CountMatches(a, keywords) + CountMatches(b, keywords)
  {
    if a != [] {
      assert (a + b)[1..] == a[1..] + b;
      CountAppend(a[1..], b, keywords);
    } else {
      assert a + b == b;
    }
  }

  /** The count is exactly the number of positions whose token contains some keyword. */
  lemma {:induction false} CountIsNumberOfMatchingTokens(tokens: seq<string>, keywords: seq<string>)
    ensures CountMatches(tokens, keywords) == |MatchingPositions(tokens, keywords)|
  {
    if tokens == [] {
      assert MatchingPositions(tokens, keywords) == {};
    } else {
      var init, last := tokens[..|tokens| - 1], tokens[|tokens| - 1];
      assert tokens == init + [last];
      CountIsNumberOfMatchingTokens(init, keywords);
      CountAppend(init, [last], keywords);
      assert [last][1..] == [];
      var n := |init|;
      if MatchesAny(last, keywords) {
        assert MatchingPositions(tokens, keywords) == MatchingPositions(init, keywords) + {n};
      } else {
        assert MatchingPositions(tokens, keywords) == MatchingPositions(init, keywords);
      }
    }
  }

  /** No token counts if and only if no token contains a keyword. */
  lemma {:induction false} CountZeroIff(tokens: seq<string>, keywords: seq<string>)
    ensures CountMatches(tokens, keywords) == 0 <==>
            forall i | 0 <= i < |tokens| :: !MatchesAny(tokens[i], keywords)
  {
    if tokens != [] {
      CountZeroIff(tokens[1..], keywords);
      if forall i | 0 <= i < |tokens| :: !MatchesAny(tokens[i], keywords) {
        forall i | 0 <= i < |tokens| - 1 ensures !MatchesAny(tokens[1..][i], keywords) {
          assert tokens[1..][i] == tokens[i + 1];
        }
      }
      if CountMatches(tokens, keywords) == 0 {
        forall i | 0 <= i < |tokens| ensures !MatchesAny(tokens[i], keywords) {
          if i > 0 { assert tokens[i] == tokens[1..][i - 1]; }
        }
      }
    }
  }

  // ---------------------------------------------------------------------------
  // Per-category counts and their total

  /** Every category listed is a key of the table. */
  predicate KnownCategories(cats: seq<string>)
  {
    forall c | c in cats :: c in SensitiveKeywords
  }

  /** The per-category counts of a token sequence, one entry per table category. */
  function CategoryScores(tokens: seq<string>): (scores: map<string, nat>)
    ensures scores.Keys == SensitiveKeywords.Keys
    ensures forall c | c in scores :: scores[c] <= |tokens|
  {
    map c | c in SensitiveKeywords :: CountMatches(tokens, SensitiveKeywords[c])
  }

  /** The sum of the per-category counts over the categories `cats`. */
  function BadWordTotal(tokens: seq<string>, cats: seq<string>): (n: nat)
    requires KnownCategories(cats)
    ensures n <= |cats| * |tokens|
  {
    if cats == [] then 0
    else
      var init, last := cats[..|cats| - 1], cats[|cats| - 1];
      assert forall c | c in init :: c in cats;
      assert |init| * |tokens| + |tokens| == |cats| * |tokens|;
      BadWordTotal(tokens, init) + CountMatches(tokens, SensitiveKeywords[last])
  }

  /** The number of categories among `cats` for which `token` contains a keyword. */
  function CategoriesHit(token: string, cats: seq<string>): (n: nat)
    requires KnownCategories(cats)
    ensures n <= |cats|
  {
    if cats == [] then 0
    else
      var init, last := cats[..|cats| - 1], cats[|cats| - 1];
      assert forall c | c in init :: c in cats;
      CategoriesHit(token, init) + (if MatchesAny(token, SensitiveKeywords[last]) then 1 else 0)
  }

  /** Summing `CategoriesHit` token by token. */
  function TokenHits(tokens: seq<string>, cats: seq<string>): (n: nat)
    requires KnownCategories(cats)
  {
    if tokens == [] then 0 else CategoriesHit(tokens[0], cats) + TokenHits(tokens[1..], cats)
  }

  lemma {:induction false} TokenHitsSnoc(tokens: seq<string>, cats: seq<string>)
    requires cats != [] && KnownCategories(cats)
    ensures KnownCategories(cats[..|cats| - 1])
    ensures TokenHits(tokens, cats) ==
            TokenHits(tokens, cats[..|cats| - 1]) + CountMatches(tokens, SensitiveKeywords[cats[|cats| - 1]])
  {
    assert forall c | c in cats[..|cats| - 1] :: c in cats;
    if tokens != [] {
      TokenHitsSnoc(tokens[1..], cats);
    }
  }

  /**
   * The bad-word total counts each token once for every category it hits:
   * summed category by category or token by token, the total is the same.
   */
  lemma {:induction false} BadWordTotalCountsTokenPerCategory(tokens: seq<string>, cats: seq<string>)
    requires KnownCategories(cats)
    ensures BadWordTotal(tokens, cats) == TokenHits(tokens, cats)
    decreases |cats|
  {
    if cats == [] {
      ZeroTokenHits(tokens, cats);
    } else {
      TokenHitsSnoc(tokens, cats);
      BadWordTotalCountsTokenPerCategory(tokens, cats[..|cats| - 1]);
    }
  }

  lemma {:induction false} ZeroTokenHits(tokens: seq<string>, cats: seq<string>)
    requires cats == []
    ensures TokenHits(tokens, cats) == 0
  {
    if tokens != [] {
      ZeroTokenHits(tokens[1..], cats);
    }
  }

  /**
   * When only the category `hot` has hits, `n` of them, the bad-word total
   * over distinct categories is `n` if `hot` is among them and 0 otherwise.
   */
  lemma {:induction false} BadWordTotalOfOneCategory(tokens: seq<string>, cats: seq<string>, hot: string, n: nat)
    requires KnownCategories(cats)
    requires forall i, j | 0 <= i < j < |cats| :: cats[i] != cats[j]
    requires forall c | c in cats :: CountMatches(tokens, SensitiveKeywords[c]) == if c == hot then n else 0
    ensures BadWordTotal(tokens, cats) == if hot in cats then n else 0
    decreases |cats|
  {
    if cats != [] {
      var init, last := cats[..|cats| - 1], cats[|cats| - 1];
      assert forall c | c in init :: c in cats;
      BadWordTotalOfOneCategory(tokens, init, hot, n);
      assert cats == init + [last];
      assert last in cats;
      assert hot in cats <==> hot in init || hot == last;
      if hot == last {
        assert hot !in init;
      }
    }
  }

  /** The category map of a page whose only hits are `n` in the category `hot`. */
  function OneCategoryMap(hot: string, n: nat): (scores: map<string, nat>)
    ensures scores.Keys == set c | c in Categories
    ensures forall c | c in scores :: scores[c] == if c == hot then n else 0
  {
    map c | c in Categories :: if c == hot then n else 0
  }

  /** Of the table's categories only `hot` has hits, in `n` tokens. */
  predicate HitsOnly(tokens: seq<string>, hot: string, n: nat)
  {
    forall c | c in SensitiveKeywords :: CountMatches(tokens, SensitiveKeywords[c]) == if c == hot then n else 0
  }

  /**
   * Tokens whose only hits are `n` in the category `hot`: the category map
   * reports `n` for `hot` and 0 for the five others, and the bad-word total
   * is `n`.
   */
  lemma OneCategoryHit(tokens: seq<string>, hot: string, n: nat)
    requires hot in SensitiveKeywords && HitsOnly(tokens, hot, n)
    ensures CategoryScores(tokens) == OneCategoryMap(hot, n)
    ensures BadWordTotal(tokens, Categories) == n
  {
    var expected := OneCategoryMap(hot, n);
    assert CategoryScores(tokens) == expected by {
      TableShape();
      assert CategoryScores(tokens).Keys == expected.Keys;
    }
    assert BadWordTotal(tokens, Categories) == n by {
      TableShape();
      BadWordTotalOfOneCategory(tokens, Categories, hot, n);
    }
  }

  // ---------------------------------------------------------------------------
  // The analysis of one page's text

  /** Python's `not text` on a string that may be `None`. */
  predicate IsMissing(text: Option<string>)
  {
    text.None? || text.value == ""
  }

  /**
   * Counts, for each category of the table, the tokens of `text` that contain
   * one of its keywords. `lowerTokenize` stands for word tokenization of the
   * lower-cased text. Missing or empty text gives an empty map and zero counts.
   */
  method AnalyzeTextContent(text: Option<string>, lowerTokenize: string -> seq<string>)
    returns (categoryScores: map<string, nat>, badWordCount: nat, totalWordCount: nat)
    ensures IsMissing(text) ==> categoryScores == map[] && badWordCount == 0 && totalWordCount == 0
    ensures !IsMissing(text) ==>
              var tokens := lowerTokenize(text.value);
              && totalWordCount == |tokens|
              && categoryScores.Keys == SensitiveKeywords.Keys
              && (forall c | c in categoryScores ::
                    categoryScores[c] == CountMatches(tokens, SensitiveKeywords[c]))
              && categoryScores == CategoryScores(tokens)
              && badWordCount == BadWordTotal(tokens, Categories)
    ensures forall c | c in categoryScores :: categoryScores[c] <= totalWordCount
    ensures badWordCount <= |Categories| * totalWordCount
  {
    if IsMissing(text) {
      return map[], 0, 0;
    }
    var tokens := lowerTokenize(text.value);
    totalWordCount := |tokens|;
    TableShape();
    categoryScores, badWordCount := CountCategories(tokens, Categories);
    FilledMapIsCategoryScores(tokens, categoryScores);
  }

  /**
   * The loop of the analysis: for each category of `cats` in order, records
   * the category's count in the map and adds it to the bad-word total.
   */
  method CountCategories(tokens: seq<string>, cats: seq<string>)
    returns (categoryScores: map<string, nat>, badWordCount: nat)
    requires KnownCategories(cats)
    ensures categoryScores.Keys == set c | c in cats
    ensures forall c | c in categoryScores ::
              c in SensitiveKeywords && categoryScores[c] == CountMatches(tokens, SensitiveKeywords[c])
    ensures badWordCount == BadWordTotal(tokens, cats)
  {
    categoryScores := map[];
    badWordCount := 0;
    for i := 0 to |cats|
      invariant KnownCategories(cats[..i])
      invariant categoryScores.Keys == set c | c in cats[..i]
      invariant forall c | c in categoryScores ::
                  c in SensitiveKeywords && categoryScores[c] == CountMatches(tokens, SensitiveKeywords[c])
      invariant badWordCount == BadWordTotal(tokens, cats[..i])
    {
      var category := cats[i];
      var keywords := SensitiveKeywords[category];
      var matches := CountMatches(tokens, keywords);
      categoryScores := categoryScores[category := matches];
      badWordCount := badWordCount + matches;
      assert cats[..i + 1][..i] == cats[..i];
      assert forall c | c in cats[..i + 1] :: c in cats;
    }
    assert cats[..|cats|] == cats;
  }

  /** A map filled with the count of every listed category is the per-category count map. */
  lemma FilledMapIsCategoryScores(tokens: seq<string>, scores: map<string, nat>)
    requires scores.Keys == set c | c in Categories
    requires forall c | c in scores :: c in SensitiveKeywords && scores[c] == CountMatches(tokens, SensitiveKeywords[c])
    ensures scores.Keys == SensitiveKeywords.Keys
    ensures scores == CategoryScores(tokens)
  {
    TableShape();
  }

  // ---------------------------------------------------------------------------
  // Examples of the substring policy

  /** "bloodshed" counts for violence because it contains "blood". */
  lemma BloodshedIsViolence()
    ensures MatchesAny("bloodshed", SensitiveKeywords["violence"])
  {
    assert "bloodshed"[0..5] == "blood";
    assert OccursAt("bloodshed", "blood", 0);
    ContainsIffOccurs("bloodshed", "blood");
  }

  /** "sexism" counts for adult content (through "sex") and for discrimination. */
  lemma SexismCountsTwice()
    ensures MatchesAny("sexism", SensitiveKeywords["adult_content"])
    ensures MatchesAny("sexism", SensitiveKeywords["discrimination"])
  {
    assert "sexism"[0..3] == "sex";
    assert OccursAt("sexism", "sex", 0);
    ContainsIffOccurs("sexism", "sex");
    assert "sexism"[0..6] == "sexism";
    assert OccursAt("sexism", "sexism", 0);
    ContainsIffOccurs("sexism", "sexism");
  }

  /** "classic" does not count as adult content: it contains none of its keywords. */
  lemma ClassicIsNotAdultContent()
    ensures !MatchesAny("classic", SensitiveKeywords["adult_content"])
  {
    var keywords := SensitiveKeywords["adult_content"];
    assert keywords == ["pornography", "adult", "sex", "nude", "naked"];
    MissingCharNotContained("classic", "pornography", 'p');
    MissingCharNotContained("classic", "adult", 'd');
    MissingCharNotContained("classic", "sex", 'x');
    MissingCharNotContained("classic", "nude", 'n');
    MissingCharNotContained("classic", "naked", 'n');
  }

  /** The substring policy also counts unrelated words: "sextant" counts as adult content. */
  lemma SextantIsAFalsePositive()
    ensures MatchesAny("sextant", SensitiveKeywords["adult_content"])
  {
    assert "sextant"[0..3] == "sex";
    assert OccursAt("sextant", "sex", 0);
    ContainsIffOccurs("sextant", "sex");
  }
}
