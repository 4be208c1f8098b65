# QUESST 2014 query-by-example: matching and decision

A Dafny model of the scoring back end of the QUESST 2014 downstream task
(`downstream/quesst14/expert.py`). During evaluation, `forward` appends each
utterance's features and audio name to a `records` dictionary. After that,
`log_records` does the following:

- splits the records into the first `n_queries` queries and the remaining
  documents;
- strips `".wav"` from every name;
- submits one segmental-DTW match per query × document pair;
- collects the `(doc_name, score)` results per query name, in the order the
  workers finish, together with a flat list of scores;
- sorts the scores, taking the cutoff at index `int(0.99 * n)` and the minimum
  at index 0;
- builds one term list per query. Each term holds the document, the
  normalised score `score - score_min` and the decision YES exactly when
  `score > score_thresh`.

`match` negates the DTW cost, so a better match gets a higher score.

Modules:

- `Base`: options and results, `Range`, `MapSeq`, multiset helpers.
- `PyList`: Python slicing and `zip`.
- `PyStr`: `str.replace(".wav", "")`.
- `Sorting`: `sorted`, counting the scores above and below a value, and the
  rank lemma (`SortedRank`) that pins the cutoff to one sorted entry.
- `Threshold`: the cutoff and the minimum.
- `Matching`: `match`, pair submission, arrival orders.
- `Grouping`: the `results` defaultdict and the `scores` list.
- `Report`: the term lists.
- `Expert`: `forward` on a `Records` class, and `log_records`.

Modelling choices:

- Scores are exact `real`s.
- `segmental_dtw` is a function parameter `dtw`.
- The `as_completed` order is a parameter `arrival`. It must be a permutation
  of the job indices (`IsArrivalOrder`).
- The empty-score `IndexError` is the `Err(IndexError)` result of
  `LogRecords`.

The code uses `str.replace(".wav", "")`, which removes every occurrence of
`.wav`, not only an extension at the end. The model follows the code:
`StripWav("a.wav.b") == "a.b"`, and `StripsLeftmost` states that every
non-overlapping occurrence goes, left to right. Removal is also not idempotent, because
removing one occurrence can join the characters around it into a new one
(`StripNotIdempotent`).

## Model

| member | source | states |
|---|---|---|
| Expert.Records.Forward | downstream/quesst14/expert.py:66-70 | appends the zipped batch, as far as `zip` pairs it, to features and names; names stay aligned with features |
| PyList.Prefix | downstream/quesst14/expert.py:77 | `xs[:n]` has length min(n, len) and agrees with xs index by index |
| PyList.Suffix | downstream/quesst14/expert.py:78 | `xs[n:]` has length len - n (0 past the end) and its item i is xs[n + i] |
| PyList.SplitJoins | downstream/quesst14/expert.py:77-80 | queries ++ docs is the whole record list, for any `n_queries` |
| PyList.Zip | downstream/quesst14/expert.py:88 | `zip` has the shorter length and pairs items at equal indices |
| PyList.PrefixAligned | downstream/quesst14/expert.py:77-88 | with aligned records, every zipped query pairs feature i with name i |
| PyList.SuffixAligned | downstream/quesst14/expert.py:78-90 | with aligned records, the zipped document at i is record n_queries + i, and the two sides together are all records |
| PyStr.RemoveAll | downstream/quesst14/expert.py:89 | removing a non-empty pattern never lengthens the string; which occurrences go is fixed by `StripsLeftmost` and `UnchangedIffAbsent` |
| PyStr.StripWav | downstream/quesst14/expert.py:89-91 | stripping never lengthens a name, and leaves it unchanged if and only if it does not contain ".wav"; with `StripsLeftmost` this fixes the result on every name |
| PyStr.StripsLeftmost | downstream/quesst14/expert.py:89-91 | for s free of ".wav", s + ".wav" + t strips to s followed by t stripped: the first occurrence goes and the scan continues after it, so every non-overlapping occurrence goes |
| PyStr.RemoveLeftmost | downstream/quesst14/expert.py:89-91 | the same for `replace(".wav", "")` itself, by induction on the part before the occurrence |
| PyStr.StripsEveryOccurrence | downstream/quesst14/expert.py:89-91 | two extensions both go: s + ".wav" + u + ".wav" strips to s + u (so "a.wav.wav" becomes "a") |
| PyStr.UnchangedIffAbsent | downstream/quesst14/expert.py:89-91 | `replace(pat, "")` leaves a string unchanged if and only if the string does not contain pat |
| PyStr.StripsExtension | downstream/quesst14/expert.py:89-91 | stem + ".wav" becomes stem when stem does not contain ".wav" |
| PyStr.StripsInnerOccurrence | downstream/quesst14/expert.py:89-91 | an interior ".wav" is removed too |
| PyStr.JoinedOccurrence | downstream/quesst14/expert.py:89-91 | removing the inner ".wav" of "x.w.wavav" joins its neighbours into a new ".wav" |
| PyStr.StripNotIdempotent | downstream/quesst14/expert.py:89-91 | stripping twice can remove more than stripping once |
| Matching.Match | downstream/quesst14/expert.py:146-148 | both names pass through unchanged and the score is the negated DTW cost |
| Matching.MatchReversesCost | downstream/quesst14/expert.py:148 | a lower cost gives a higher score, and the converse holds |
| Matching.CrossJobs | downstream/quesst14/expert.py:88-94 | the jobs of the nested loops number exactly len(queries) × len(docs) |
| Matching.CrossJobsAt | downstream/quesst14/expert.py:88-94 | job i × len(docs) + j is query i against doc j, with both names stripped (query-major order) |
| Matching.CrossJobsGrid | downstream/quesst14/expert.py:88-94 | every (query, doc) slot of the grid holds its job |
| Matching.SubmitPairs | downstream/quesst14/expert.py:86-94 | the nested loops submit exactly the query-major cross product, len(queries) × len(docs) jobs, each slot holding its pair |
| Matching.Completed | downstream/quesst14/expert.py:96-99 | the i-th collected triple carries the names of the i-th finished job and its negated DTW cost, one per arrival |
| Matching.CompletedPerm | downstream/quesst14/expert.py:96-99 | two arrival orders with the same indices complete the same multiset of results |
| Matching.CompletedOrderFree | downstream/quesst14/expert.py:96-99 | whatever the arrival order, the collected (query, doc, score) triples are, as a multiset, one per submitted job |
| Grouping.Add | downstream/quesst14/expert.py:100 | one defaultdict append keeps keys distinct and in step with the map; a new query goes to the end of the key order, an existing one leaves it unchanged; the entry is appended to the end of that query's list (an empty list if it was new) and no other list changes |
| Grouping.Group | downstream/quesst14/expert.py:96-100 | the grouped results form a dictionary with distinct keys matching its map |
| Grouping.FirstIndex | downstream/quesst14/expert.py:100 | the index of the first result for a query (len when none): that result is for the query and no earlier one is |
| Grouping.FirstIndexSnoc | downstream/quesst14/expert.py:100 | appending a result leaves every existing first index in place, and gives a new query the index of the appended result |
| Grouping.GroupKeyOrder | downstream/quesst14/expert.py:96-100 | the keys are exactly the queries with a result, each once, ordered by the arrival of their first result (the order `results.items()` yields them) |
| Grouping.ForQuery | downstream/quesst14/expert.py:100 | the results for one query are results of that query, taken from the input |
| Grouping.GroupListsAt | downstream/quesst14/expert.py:100 | a query is a key if and only if some result is for it, and its list is exactly that query's results in arrival order |
| Grouping.GroupLists | downstream/quesst14/expert.py:100 | the same, for every query |
| Grouping.GroupKeepsAll | downstream/quesst14/expert.py:100 | the lists of `results` together hold every collected result once, and nothing else |
| Grouping.GroupOrderFree | downstream/quesst14/expert.py:96-100 | arrival orders with the same results give the same keys, and per key the same multiset of entries |
| Grouping.CollectResults | downstream/quesst14/expert.py:81-101 | the loop leaves `results` and `scores` equal to the grouping and score list of the results in arrival order |
| Grouping.Scores | downstream/quesst14/expert.py:101 | `scores` has one entry per result, the score of the result at the same index |
| Grouping.CollectedSizes | downstream/quesst14/expert.py:96-101 | the summed lengths of the `results` lists equal len(scores), which equals the number of submitted pairs |
| Sorting.Insert | downstream/quesst14/expert.py:104 | inserting into a sorted list keeps it sorted and adds exactly that element |
| Sorting.Sort | downstream/quesst14/expert.py:104 | `sorted` returns an ascending permutation of the scores |
| Sorting.SortedUnique | downstream/quesst14/expert.py:104 | two ascending permutations of each other are equal |
| Sorting.SortOrderFree | downstream/quesst14/expert.py:104 | the sorted list does not depend on the input order |
| Sorting.CountAbovePerm | downstream/quesst14/expert.py:104-134 | the number of scores above a cutoff does not depend on their order |
| Sorting.CountAboveSorted | downstream/quesst14/expert.py:105-134 | in a sorted list at most len - 1 - k entries exceed entry k |
| Sorting.CountBelowPerm | downstream/quesst14/expert.py:104-105 | the number of scores below a cutoff does not depend on their order |
| Sorting.CountBelowSorted | downstream/quesst14/expert.py:104-105 | in a sorted list at most k entries lie below entry k |
| Sorting.SortedRank | downstream/quesst14/expert.py:104-105 | in a sorted list, entry k is the only value with at most k entries below it and at most len - 1 - k above it |
| Threshold.CutIndex | downstream/quesst14/expert.py:105 | `int(0.99 * n)` is a valid index into n ≥ 1 scores |
| Threshold.Estimate | downstream/quesst14/expert.py:104-106 | none exactly when there are no scores; otherwise min and cutoff are scores, min is the least score and at most the cutoff, at most n - 1 - int(0.99 n) scores exceed the cutoff and at most int(0.99 n) lie below it |
| Threshold.CutIsPercentile | downstream/quesst14/expert.py:104-106 | the cutoff is element int(0.99 n) of the sorted scores and the minimum is element 0 |
| Threshold.SomeScoreNotAbove | downstream/quesst14/expert.py:105-134 | at least one score is never above the cutoff |
| Threshold.SmallRunHasNoAbove | downstream/quesst14/expert.py:105-134 | with at most 100 scores the cutoff is the largest score and nothing is above it |
| Threshold.EstimateOrderFree | downstream/quesst14/expert.py:104-106 | the cutoff and minimum depend only on the multiset of scores |
| Threshold.TwoScoreExample | downstream/quesst14/expert.py:104-106 | scores 0 and -2 give cutoff 0 and minimum -2 |
| Report.Decide | downstream/quesst14/expert.py:134 | YES if and only if the score is strictly above the cutoff |
| Report.ReportOf | downstream/quesst14/expert.py:117-135 | one term list per key, titled by the key in key order, with as many terms as that key has entries |
| Report.BuildReport | downstream/quesst14/expert.py:117-135 | the loops build one term list per key in insertion order and one term per entry in list order |
| Report.TermDecision | downstream/quesst14/expert.py:117-135 | term j of list i names doc j of key i, its score is score - score_min, and its decision is YES if and only if score > score_thresh |
| Report.ReportFlat | downstream/quesst14/expert.py:117-135 | reading the report's terms in order gives the terms of the flattened results |
| Report.YesCountTerms | downstream/quesst14/expert.py:134 | the YES count is the number of scores strictly above the cutoff |
| Report.ReportCounts | downstream/quesst14/expert.py:117-135 | the report has one term per collected result, and its YES count is the count of scores above the cutoff |
| Report.TermsNonNegative | downstream/quesst14/expert.py:133 | with no score below score_min, every normalised score is ≥ 0 |
| Report.MemberScoreBound | downstream/quesst14/expert.py:106-133 | every collected result's score is at least score_min |
| Report.ReportNonNegative | downstream/quesst14/expert.py:106-133 | every normalised score in the report is ≥ 0 |
| Report.TitlesDistinct | downstream/quesst14/expert.py:117-124 | no two term lists share a termid |
| Report.ReportBounds | downstream/quesst14/expert.py:104-135 | for n ≥ 1 results: n terms, at most n - 1 - int(0.99 n) YES (so at least one NO), no negative score, distinct termids |
| Expert.NoJobsIffNoSide | downstream/quesst14/expert.py:88-94 | no job is submitted exactly when there are no queries or no documents |
| Expert.LogRecords | downstream/quesst14/expert.py:75-135 | fails with IndexError exactly when there are no queries or no documents; otherwise returns the report built from the grouped results and the threshold of their scores, which has the ReportBounds properties |
| Expert.ForQueryNonEmpty | downstream/quesst14/expert.py:100 | a query has a non-empty result list exactly when some result is for it |
| Expert.JobQueryNames | downstream/quesst14/expert.py:88-94 | every job carries the stripped name of one of the queries |
| Expert.KeyIffResult | downstream/quesst14/expert.py:100-117 | a term list is titled q exactly when some result is for q |
| Expert.ResultIsForQuery | downstream/quesst14/expert.py:88-100 | every collected result is for a stripped query name |
| Expert.QueryHasResult | downstream/quesst14/expert.py:88-100 | with at least one document, every stripped query name gets a result |
| Expert.TermListsPerQuery | downstream/quesst14/expert.py:88-124 | with at least one document, the termids are exactly the stripped query names |
| Expert.SameTermsUnderKey | downstream/quesst14/expert.py:117-135 | a termid whose entries agree as a multiset gets the same multiset of terms |
| Expert.ArrivalOrderIrrelevant | downstream/quesst14/expert.py:96-135 | two arrival orders give the same threshold, the same termids, and under each termid the same multiset of terms |

## Left out

- The process pool, futures, `tqdm` and `as_completed` are not modelled as
  concurrency. The order in which results arrive is the parameter
  `arrival`, and any permutation of the jobs is allowed.
- `segmental_dtw` is the function parameter `dtw`. Its algorithm and any
  exception it raises are not modelled.
- In `forward`, the torch conversion (`detach().cpu().numpy()`) is not
  modelled; features have an arbitrary type `F`. The `torch.zeros(1)` return
  value is also left out.
- `log_records` takes the `records` dictionary as its two lists, `features`
  and `audioNames`, and `n_queries` as a parameter. The dataset object it
  comes from is not modelled.
- The lxml tree, its fixed attributes (channel, tbeg, dur, term_search_time,
  oov_term_count, the stdlist header) and the file write are not modelled.
  The report is plain data: term lists of (file, score, decision).
- Floating point is not modelled. Scores are exact reals, so
  `score - score_min` is exact and the `:.4f` rounding is left out.
  `int(0.99 * n)` is the integer `(99 * n) / 100`; this can differ from the
  float product only for very large n.
- Sorting.Sort: models `sorted` as an insertion sort. Only its result matters (the
  unique ascending permutation), so Timsort's steps are not modelled.
- PyStr.RemoveAll: covers only the non-empty pattern `.wav` that the code
  uses. Python's special meaning of an empty pattern is not modelled.
- Expert.LogRecords: the `IndexError` is returned as a value rather than
  raised, and no report is produced in that case.
- The other `DownstreamExpert` methods, the data loaders and the dataset are
  not part of this model.
