# Web content analyzer: a Dafny model of its scoring core

The web content analyzer takes a search query and fetches the pages the search returns. It rates each page's text against a fixed table of sensitive-content keywords and returns the pages it could load, sorted by safety score.

This project models that scoring core:

- `Matcher` (matcher.dfy) holds the keyword table of six categories. It counts, for each category, the tokens that contain one of that category's keywords as a substring. It also sums those counts into the bad-word total. `AnalyzeTextContent` is a method. Its loop over the categories (`CountCategories`) fills the per-category map and accumulates the total, as the source does.
- `Scorer` (scorer.dfy) holds the safety score and the rating. The score starts at 10 and loses 50 times the share of bad words among all tokens, but never drops below 0. The rating is one of four labels at inclusive thresholds 9, 8 and 7. The penalty is a ratio of naturals, so it is modelled exactly with `real`.
- `Selection` (selection.dfy) keeps the successful per-URL results (each a record with the rating as its reported label) and sorts them by score, highest first. The sort is a stable insertion sort, because Python's `sorted(..., reverse=True)` keeps entries with equal keys in input order.
- `Analyzer` (analyzer.dfy) analyses one URL and all URLs of a search. The search, the page fetch, HTML text extraction, parsing of a URL's network location (its `netloc`) and tokenization are collaborators, passed in as functions in a `Collaborators` record.
- `Wrappers` (wrappers.dfy) holds `Option`, which stands for Python's `None`-or-value.

## Model

| member | source | states |
|---|---|---|
| `Matcher.TableShape` | app.py:16-23 | The keyword table has exactly six categories, named once each, in the listed order. |
| `Matcher.ContainsIffOccurs` | app.py:70 | `keyword in token` holds exactly when the keyword occurs at some position of the token. |
| `Matcher.CountMatches` | app.py:70 | The per-category count of a token sequence is at most the number of tokens. |
| `Matcher.CountIsNumberOfMatchingTokens` | app.py:70 | The count equals the number of positions whose token contains some keyword of the category. |
| `Matcher.CountZeroIff` | app.py:70 | The count is 0 if and only if no token contains any keyword of the category. |
| `Matcher.CountAppend` | app.py:70 | Counting splits over concatenated token sequences. |
| `Matcher.CategoryScores` | app.py:69-71 | The category map has exactly the table's keys, and each count is at most the token count. |
| `Matcher.BadWordTotal` | app.py:67-72 | The bad-word total over `k` categories is at most `k` times the token count. |
| `Matcher.BadWordTotalCountsTokenPerCategory` | app.py:69-72 | The bad-word total counts each token once for every category it hits. Summing category by category or token by token gives the same total. |
| `Matcher.BadWordTotalOfOneCategory` | app.py:69-72 | When only one category has hits, `n` of them, the bad-word total over a list of distinct categories is `n` if that category is listed and 0 otherwise. |
| `Matcher.OneCategoryHit` | app.py:66-72 | Tokens whose only hits are `n` in one table category give a category map with all six categories, `n` for that one and 0 for the others. The bad-word total is `n`. |
| `Matcher.AnalyzeTextContent` | app.py:59-74 | Missing or empty text gives an empty map and zero counts. Otherwise the map has the six table keys, each mapped to its category's count. The bad-word total is their sum, and the word total is the token count. Each count is at most the word total, and the bad-word total is at most 6 times it. |
| `Matcher.CountCategories` | app.py:66-72 | The loop visits the categories in order. Each one is recorded in the map with its count, and the bad-word total is the running sum of those counts. |
| `Matcher.BloodshedIsViolence` | app.py:17 | "bloodshed" counts for violence, through the keyword "blood". |
| `Matcher.SexismCountsTwice` | app.py:18-20 | "sexism" counts for adult content (through "sex") and for discrimination. |
| `Matcher.SextantIsAFalsePositive` | app.py:18 | The substring policy counts the unrelated word "sextant" as adult content. |
| `Matcher.ClassicIsNotAdultContent` | app.py:18 | "classic" contains no adult-content keyword. |
| `Scorer.SafetyScore` | app.py:77-88 | The score lies in [0, 10]. It is exactly 10 when there are no tokens. |
| `Scorer.RatingFor` | app.py:91-98 | Score ≥ 9 gives Very Good, [8, 9) gives Good, [7, 8) gives Bad, and below 7 gives Very Bad. Every boundary is inclusive, and each label holds if and only if its band does. |
| `Scorer.LabelsDistinct` | app.py:91-98 | The four labels are pairwise different, so a reported label determines its rating. |
| `Scorer.GetSafetyRating` | app.py:76-100 | The returned score is in [0, 10], and the rating is the rating of that score. No tokens gives (10, Very Good). |
| `Scorer.ScoreTimesTotal` | app.py:79-88 | Above the clamp, the score times the token count is exactly `10 * total - 50 * bad`. |
| `Scorer.ScoreAtLeastIff` | app.py:80-88 | For `k < 10` and tokens present, the score is at least `10 - k` if and only if `50 * bad <= k * total`. |
| `Scorer.ScoreIsZeroIff` | app.py:85-88 | With tokens present, the score clamps to exactly 0 if and only if `bad * 50 >= total * 10`. |
| `Scorer.RatingFromCounts` | app.py:80-98 | With tokens present, each rating holds if and only if `50 * bad` lies in its band. Very Good is up to `total`, Good is up to `2 * total`, Bad is up to `3 * total`, and Very Bad is above that. |
| `Scorer.ScoreNonIncreasing` | app.py:80-88 | For a fixed token count, more bad words never raise the score. |
| `Scorer.RatingMonotone` | app.py:91-98 | A higher score never gets a worse rating. |
| `Scorer.RatingNonIncreasing` | app.py:76-100 | For a fixed token count, more bad words never improve the rating. |
| `Selection.SuccessOnly` | app.py:143 | The kept entries are all successes. Each success occurs as often as in the input, and no error entry is kept. |
| `Selection.SuccessOnlyAppend` | app.py:143 | The successes of `a + b` are those of `a` followed by those of `b`. So the filter keeps the successful entries in their input order. |
| `Selection.InsertByScore` | app.py:144 | Inserting adds exactly the one entry and keeps a score-sorted list sorted. |
| `Selection.SortByScore` | app.py:144 | The sorted list is a permutation of the input, and earlier entries never score lower than later ones. |
| `Selection.SelectResults` | app.py:143-144 | The final list holds only successes, with the same multiplicities as in the input. Its scores do not increase along the list. |
| `Selection.SortIsStable` | app.py:144 | Sorting keeps entries of equal score in their input order. |
| `Selection.SuccessOnlyWithScore` | app.py:143 | For each score, the successful entries with that score keep their input order. |
| `Selection.SelectIsStable` | app.py:143-144 | In the final list, the entries of any one score keep the order in which the URLs were analysed. |
| `Selection.SortSortedIsIdentity` | app.py:144 | Sorting a list that is already sorted by score leaves it unchanged. |
| `Selection.SelectTwoAndAnError` | app.py:143-144 | For two successes followed by an error, where the first scores at least as high, the error is dropped and the two keep their order. |
| `Selection.SelectEmptyIff` | app.py:143-144 | The final list is empty if and only if no URL's analysis succeeded. |
| `Analyzer.AnalyzeSingleWebpage` | app.py:102-127 | A missing or empty page gives an error entry with the fixed message. Otherwise the entry is a success with the URL and its network location (`netloc`). Its counts come from the page text, its score from those counts, and its rating is the label of that score. |
| `Analyzer.ViolenceOnlyPage` | app.py:102-127 | A loaded page whose only hits are `n` violence hits gives a success. It reports all six categories (`n` for violence, 0 for the others), `n` bad words, the token count, and the score and label of those counts. |
| `Analyzer.AnalyzeSearchResults` | app.py:135-144 | Every search URL is analysed, in order. The answer is the selection of those results, and no search results gives an empty answer. |
| `Analyzer.ThreePageExample` | app.py:102-144 | Take collaborators under which one URL loads 100 tokens with no hits, a second loads 100 tokens with 10 violence hits and no others, and a third fails to load. The analysed records report all six categories. The clean page scores 10 ("Very Good"), and the violent page scores 5 ("Very Bad") with 10 bad words. The third URL gives the load-failure error. The selection is the clean page, then the violent one. |

## Left out

- `google_search` and `fetch_webpage` (app.py:25-57) make HTTP requests and scrape HTML. They are the `googleSearch` and `fetchWebpage` fields of `Collaborators`, and whatever they return is taken as given.
- Word tokenization and lower-casing (app.py:63), the HTML text extraction (app.py:112-113) and parsing of the URL's network location (app.py:121) are foreign library calls. They are the `lowerTokenize`, `getText` and `netloc` collaborators. The download of tokenizer data (app.py:14) is not modelled.
- The thread pool (app.py:140-141) runs the per-URL analysis concurrently. Its `map` returns results in input order, so the model runs the analysis as a sequential loop.
- `round(score, 2)` (app.py:122) is not modelled: the stored score is the exact score. The labels agree with the exact score. Floating point changes only the stored two-decimal score, which `round` already makes differ.
- Selection.SelectResults: the source sorts on the stored, rounded score (app.py:122, 144), and the model sorts on the exact score. Two pages whose exact scores differ but round to the same value are a tie in the source and keep URL order. The model orders them by exact score instead. One example is 1 bad word in 2500 tokens (9.98) against 1 in 3000 (9.9833…, stored as 9.98).
- Selection.SelectIsStable: "the same score" means the same exact score, not the same rounded score that the source reports.
- The catch-all exception handlers (app.py:103, 128-133) turn an unexpected exception into an error entry carrying the exception text. The model's collaborators are total functions that do not raise, so this path is not modelled.
- The web routes `index` and `analyze` (app.py:149-160) are request and template plumbing and are not modelled.
- The category map is a Dafny `map`. It keeps the keys and counts, but not the insertion order of the Python dict that `analyze_text_content` builds in table order (app.py:16-23, 66-71). The JSON route (app.py:160) sorts object keys anyway.
- Python's mix of `int` and `float` scores is not distinguished. With no tokens the source keeps the integer 10, and a clamped score is the integer 0. Both are modelled as reals of the same value.
