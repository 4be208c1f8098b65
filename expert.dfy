/**
 * `DownstreamExpert.forward` (the record-append step) and
 * `DownstreamExpert.log_records` (matching, threshold and report) of the
 * QUESST 2014 query-by-example spoken term detection task.
 */
module Expert {
  import opened Base
  import opened PyList
  import opened PyStr
  import opened Sorting
  import opened Threshold
  import opened Matching
  import opened Grouping
  import opened Report

  /** Indexing the empty sorted score list: there were no pairs to score. */
  datatype Error = IndexError

  /**
   * The `records` dictionary that `forward` fills batch by batch:
   * `records["features"]` and `records["audio_names"]`.
   */
  class Records<F> {
    var features: seq<F>
    var audioNames: seq<string>

    /** Every feature has its name at the same index. */
    predicate Aligned()
      reads this
    {
      |features| == |audioNames|
    }

    constructor ()
      ensures features == [] && audioNames == []
      ensures Aligned()
    {
      features := [];
      audioNames := [];
    }

    /**
     * `forward`: appends each `(feature, audio_name)` pair of the batch, as
     * far as `zip` pairs them.
     */
    method Forward(batchFeatures: seq<F>, batchNames: seq<string>)
      modifies this
      ensures var n := |Zip(batchFeatures, batchNames)|;
              && features == old(features) + batchFeatures[..n]
              && audioNames == old(audioNames) + batchNames[..n]
      ensures old(Aligned()) ==> Aligned()
    {
      var pairs := Zip(batchFeatures, batchNames);
      for i := 0 to |pairs|
        invariant features == old(features) + batchFeatures[..i]
        invariant audioNames == old(audioNames) + batchNames[..i]
      {
        var feature, audioName := pairs[i].0, pairs[i].1;
        features := features + [feature];
        audioNames := audioNames + [audioName];
        assert batchFeatures[..i + 1] == batchFeatures[..i] + [feature];
        assert batchNames[..i + 1] == batchNames[..i] + [audioName];
      }
    }
  }

  /** `zip(queries, query_names)`: the first `nQueries` records. */
  function QueryPairs<F>(features: seq<F>, audioNames: seq<string>, nQueries: nat): seq<(F, string)>
  {
    Zip(Prefix(features, nQueries), Prefix(audioNames, nQueries))
  }

  /** `zip(docs, doc_names)`: the records after the first `nQueries`. */
  function DocPairs<F>(features: seq<F>, audioNames: seq<string>, nQueries: nat): seq<(F, string)>
  {
    Zip(Suffix(features, nQueries), Suffix(audioNames, nQueries))
  }

  /** Every submitted job, in submission order. */
  function Jobs<F>(features: seq<F>, audioNames: seq<string>, nQueries: nat): seq<Job<F>>
  {
    CrossJobs(QueryPairs(features, audioNames, nQueries), DocPairs(features, audioNames, nQueries))
  }

  /** No jobs exactly when there are no queries or no documents. */
  lemma NoJobsIffNoSide<F>(queries: seq<(F, string)>, docs: seq<(F, string)>)
    ensures CrossJobs(queries, docs) == [] <==> queries == [] || docs == []
  {
    if queries != [] && docs != [] {
      assert |queries| * |docs| >= 1 * |docs|;
    }
  }

  /**
   * `log_records`, with the segmental DTW cost `dtw` and the order
   * `arrival` in which the workers finish. It fails, and no report is
   * built, exactly when there are no queries or no documents; otherwise
   * the report has one term per submitted pair, never a negative score and
   * at most n - 1 - int(0.99 * n) YES terms out of n.
   */
  method LogRecords<F>(features: seq<F>, audioNames: seq<string>, nQueries: nat,
                       dtw: (F, F) -> real, arrival: seq<nat>)
    returns (r: Result<seq<TermList>, Error>)
    requires IsArrivalOrder(arrival, |Jobs(features, audioNames, nQueries)|)
    ensures r.Err? <==> QueryPairs(features, audioNames, nQueries) == [] ||
                        DocPairs(features, audioNames, nQueries) == []
    ensures r.Ok? ==> Sound(r.value, |Jobs(features, audioNames, nQueries)|)
    ensures r.Ok? ==>
              var rs := Completed(dtw, Jobs(features, audioNames, nQueries), arrival);
              var g := Group(rs);
              Estimate(Scores(rs)).Some? &&
              r.value == ReportOf(g.keys, g.lists, Estimate(Scores(rs)).value)
  {
    var queries := Prefix(features, nQueries);
    var docs := Suffix(features, nQueries);
    var queryNames := Prefix(audioNames, nQueries);
    var docNames := Suffix(audioNames, nQueries);
    var futures := SubmitPairs(Zip(queries, queryNames), Zip(docs, docNames));
    var keys, results, scores := CollectResults(dtw, futures, arrival);
    NoJobsIffNoSide(Zip(queries, queryNames), Zip(docs, docNames));
    var threshold := Estimate(scores);
    if threshold.None? {
      return Err(IndexError);
    }
    var report := BuildReport(keys, results, threshold.value);
    ReportBounds(Completed(dtw, futures, arrival));
    r := Ok(report);
  }

  /** `ForQuery(rs, q)` is non-empty exactly when some result is for `q`. */
  lemma {:induction false} ForQueryNonEmpty(rs: seq<MatchResult>, q: string)
    ensures ForQuery(rs, q) != [] <==> exists i :: 0 <= i < |rs| && rs[i].query == q
    decreases |rs|
  {
    if rs != [] {
      var init := rs[..|rs| - 1];
      ForQueryNonEmpty(init, q);
      if exists i :: 0 <= i < |init| && init[i].query == q {
        var i :| 0 <= i < |init| && init[i].query == q;
        assert rs[i].query == q;
      }
      if exists i :: 0 <= i < |rs| && rs[i].query == q {
        var i :| 0 <= i < |rs| && rs[i].query == q;
        if i < |rs| - 1 {
          assert init[i].query == q;
        }
      }
    }
  }

  /** Every submitted job carries the stripped name of one of the queries. */
  lemma {:induction false} JobQueryNames<F>(queries: seq<(F, string)>, docs: seq<(F, string)>, k: nat)
    requires k < |CrossJobs(queries, docs)|
    ensures exists i :: 0 <= i < |queries| && CrossJobs(queries, docs)[k].queryName == StripWav(queries[i].1)
    decreases |queries|
  {
    var init := queries[..|queries| - 1];
    var last := |queries| - 1;
    if k < |CrossJobs(init, docs)| {
      JobQueryNames(init, docs, k);
      var i :| 0 <= i < |init| && CrossJobs(init, docs)[k].queryName == StripWav(init[i].1);
      assert queries[i] == init[i];
    } else {
      assert CrossJobs(queries, docs)[k].queryName == StripWav(queries[last].1);
    }
  }

  /** Some term list of the report is titled `q`. */
  ghost predicate Titled(report: seq<TermList>, q: string)
  {
    exists p :: 0 <= p < |report| && report[p].termid == q
  }

  /** Some collected result is for the query `q`. */
  ghost predicate HasResultFor(rs: seq<MatchResult>, q: string)
  {
    exists m :: 0 <= m < |rs| && rs[m].query == q
  }

  /** `q` is the stripped name of one of the queries. */
  ghost predicate IsQueryName<F>(queries: seq<(F, string)>, q: string)
  {
    exists i :: 0 <= i < |queries| && StripWav(queries[i].1) == q
  }

  /** A query name titles a term list exactly when some result is for it. */
  lemma KeyIffResult(rs: seq<MatchResult>, thr: ScoreThreshold, q: string)
    ensures var g := Group(rs);
            Titled(ReportOf(g.keys, g.lists, thr), q) <==> HasResultFor(rs, q)
  {
    var g := Group(rs);
    var report := ReportOf(g.keys, g.lists, thr);
    GroupListsAt(rs, q);
    ForQueryNonEmpty(rs, q);
    if q in g.lists {
      var p :| 0 <= p < |g.keys| && g.keys[p] == q;
      assert report[p].termid == q;
    }
  }

  /** Every collected result is for a stripped query name. */
  lemma ResultIsForQuery<F>(dtw: (F, F) -> real, queries: seq<(F, string)>, docs: seq<(F, string)>,
                            arrival: seq<nat>, q: string)
    requires IsArrivalOrder(arrival, |CrossJobs(queries, docs)|)
    requires HasResultFor(Completed(dtw, CrossJobs(queries, docs), arrival), q)
    ensures IsQueryName(queries, q)
  {
    var jobs := CrossJobs(queries, docs);
    var rs := Completed(dtw, jobs, arrival);
    var all := Scored(dtw, jobs);
    CompletedOrderFree(dtw, jobs, arrival);
    var m :| 0 <= m < |rs| && rs[m].query == q;
    assert rs[m] in multiset(all);
    var k :| 0 <= k < |jobs| && all[k] == rs[m];
    JobQueryNames(queries, docs, k);
  }

  /** With a document to match against, every query name gets a result. */
  lemma QueryHasResult<F>(dtw: (F, F) -> real, queries: seq<(F, string)>, docs: seq<(F, string)>,
                          arrival: seq<nat>, q: string)
    requires docs != []
    requires IsArrivalOrder(arrival, |CrossJobs(queries, docs)|)
    requires IsQueryName(queries, q)
    ensures HasResultFor(Completed(dtw, CrossJobs(queries, docs), arrival), q)
  {
    var jobs := CrossJobs(queries, docs);
    var rs := Completed(dtw, jobs, arrival);
    var all := Scored(dtw, jobs);
    CompletedOrderFree(dtw, jobs, arrival);
    var i :| 0 <= i < |queries| && StripWav(queries[i].1) == q;
    CrossJobsAt(queries, docs, i, 0);
    var k := i * |docs|;
    assert all[k].query == q;
    assert all[k] in multiset(rs);
    var m :| 0 <= m < |rs| && rs[m] == all[k];
  }

  /**
   * When there are documents, the term lists are titled by exactly the
   * stripped query names, whatever the arrival order (two queries whose
   * names strip to the same text share one term list).
   */
  lemma TermListsPerQuery<F>(dtw: (F, F) -> real, queries: seq<(F, string)>, docs: seq<(F, string)>,
                             arrival: seq<nat>, thr: ScoreThreshold)
    requires docs != []
    requires IsArrivalOrder(arrival, |CrossJobs(queries, docs)|)
    ensures var g := Group(Completed(dtw, CrossJobs(queries, docs), arrival));
            forall q :: Titled(ReportOf(g.keys, g.lists, thr), q) <==> IsQueryName(queries, q)
  {
    var rs := Completed(dtw, CrossJobs(queries, docs), arrival);
    var g := Group(rs);
    forall q ensures Titled(ReportOf(g.keys, g.lists, thr), q) <==> IsQueryName(queries, q) {
      KeyIffResult(rs, thr, q);
      if HasResultFor(rs, q) {
        ResultIsForQuery(dtw, queries, docs, arrival, q);
      }
      if IsQueryName(queries, q) {
        QueryHasResult(dtw, queries, docs, arrival, q);
      }
    }
  }

  /**
   * Two arrival orders of the same jobs give the same threshold, the same
   * term-list titles and, under each title, the same terms; only the order
   * of term lists and of terms can differ.
   */
  lemma ArrivalOrderIrrelevant<F>(dtw: (F, F) -> real, jobs: seq<Job<F>>, a1: seq<nat>, a2: seq<nat>)
    requires IsArrivalOrder(a1, |jobs|) && IsArrivalOrder(a2, |jobs|)
    ensures var rs1, rs2 := Completed(dtw, jobs, a1), Completed(dtw, jobs, a2);
            Estimate(Scores(rs1)) == Estimate(Scores(rs2))
    ensures var rs1, rs2 := Completed(dtw, jobs, a1), Completed(dtw, jobs, a2);
            var g1, g2 := Group(rs1), Group(rs2);
            && g1.lists.Keys == g2.lists.Keys
            && forall thr: ScoreThreshold, i1, i2 ::
                 var report1, report2 := ReportOf(g1.keys, g1.lists, thr), ReportOf(g2.keys, g2.lists, thr);
                 0 <= i1 < |report1| && 0 <= i2 < |report2| && report1[i1].termid == report2[i2].termid ==>
                   multiset(report1[i1].terms) == multiset(report2[i2].terms)
  {
    var rs1, rs2 := Completed(dtw, jobs, a1), Completed(dtw, jobs, a2);
    CompletedOrderFree(dtw, jobs, a1);
    CompletedOrderFree(dtw, jobs, a2);
    MapPerm(rs1, rs2, ScoreOf);
    EstimateOrderFree(Scores(rs1), Scores(rs2));
    GroupOrderFree(rs1, rs2);
    var g1, g2 := Group(rs1), Group(rs2);
    forall thr: ScoreThreshold, i1, i2 |
      var report1, report2 := ReportOf(g1.keys, g1.lists, thr), ReportOf(g2.keys, g2.lists, thr);
      0 <= i1 < |report1| && 0 <= i2 < |report2| && report1[i1].termid == report2[i2].termid
      ensures multiset(ReportOf(g1.keys, g1.lists, thr)[i1].terms) == multiset(ReportOf(g2.keys, g2.lists, thr)[i2].terms)
    {
      var q := g1.keys[i1];
      assert q in g1.lists;
      SameTermsUnderKey(g1, g2, thr, i1, i2);
    }
  }

  /** Under one termid, keys whose lists agree as multisets give the same terms. */
  lemma SameTermsUnderKey(g1: Groups, g2: Groups, thr: ScoreThreshold, i1: nat, i2: nat)
    requires WellFormed(g1) && WellFormed(g2)
    requires i1 < |g1.keys| && i2 < |g2.keys| && g1.keys[i1] == g2.keys[i2]
    requires multiset(Tag(g1.keys[i1], g1.lists[g1.keys[i1]])) == multiset(Tag(g2.keys[i2], g2.lists[g2.keys[i2]]))
    ensures multiset(ReportOf(g1.keys, g1.lists, thr)[i1].terms) == multiset(ReportOf(g2.keys, g2.lists, thr)[i2].terms)
  {
    var q := g1.keys[i1];
    MapPerm(Tag(q, g1.lists[q]), Tag(q, g2.lists[q]), TermFn(thr));
  }
}
