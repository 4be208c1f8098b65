/**
 * The pairwise matching of `log_records`: one unit of work per
 * (query, document) pair, scored by `match`, and collected in whatever
 * order the workers finish.
 */
module Matching {
  import opened Base
  import opened PyStr

  /**
   * One submitted unit of work: `executor.submit(match, query, doc,
   * query_name, doc_name)`, with both names already stripped of ".wav".
   */
  datatype Job<F> = Job(query: F, doc: F, queryName: string, docName: string)

  /** What `match` returns: `(query_name, doc_name, score)`. */
  datatype MatchResult = MatchResult(query: string, doc: string, score: real)

  /**
   * The module-level `match`. The segmental DTW cost is the parameter
   * `dtw`; the score is its negation, and both names pass through.
   */
  function Match<F>(dtw: (F, F) -> real, query: F, doc: F, queryName: string, docName: string): (r: MatchResult)
    ensures r.query == queryName && r.doc == docName
    ensures r.score == -dtw(query, doc)
  {
    MatchResult(queryName, docName, -1.0 * dtw(query, doc))
  }

  /** A lower alignment cost always means a higher score. */
  lemma MatchReversesCost<F>(dtw: (F, F) -> real, query: F, doc1: F, doc2: F, qn: string, dn1: string, dn2: string)
    ensures dtw(query, doc1) < dtw(query, doc2) <==>
            Match(dtw, query, doc1, qn, dn1).score > Match(dtw, query, doc2, qn, dn2).score
  {
  }

  /** `future.result()` of a submitted job. */
  function RunJob<F>(dtw: (F, F) -> real, job: Job<F>): MatchResult
  {
    Match(dtw, job.query, job.doc, job.queryName, job.docName)
  }

  /** The jobs of the inner loop for one query: one per document, in order. */
  function Row<F>(query: (F, string), docs: seq<(F, string)>): seq<Job<F>>
  {
    seq(|docs|, j requires 0 <= j < |docs| => Job(query.0, docs[j].0, StripWav(query.1), StripWav(docs[j].1)))
  }

  /** All jobs of the two nested loops, query-major: |queries| × |docs| of them. */
  function CrossJobs<F>(queries: seq<(F, string)>, docs: seq<(F, string)>): (r: seq<Job<F>>)
    ensures |r| == |queries| * |docs|
  {
    if queries == [] then []
    else
      assert (|queries| - 1) * |docs| + |docs| == |queries| * |docs|;
      CrossJobs(queries[..|queries| - 1], docs) + Row(queries[|queries| - 1], docs)
  }

  /** The slot of (i, j) in a query-major grid of q rows of d columns. */
  lemma SlotInGrid(i: nat, j: nat, q: nat, d: nat)
    requires i < q && j < d
    ensures i * d + j < q * d
  {
    assert (i + 1) * d <= q * d;
  }

  lemma CrossJobsSnoc<F>(queries: seq<(F, string)>, docs: seq<(F, string)>, k: nat)
    requires k < |queries|
    ensures CrossJobs(queries[..k + 1], docs) == CrossJobs(queries[..k], docs) + Row(queries[k], docs)
  {
    assert queries[..k + 1][..k] == queries[..k];
  }

  /** The job for query i and document j sits at index i * |docs| + j. */
  lemma {:induction false} CrossJobsAt<F>(queries: seq<(F, string)>, docs: seq<(F, string)>, i: nat, j: nat)
    requires i < |queries| && j < |docs|
    ensures i * |docs| + j < |CrossJobs(queries, docs)|
    ensures CrossJobs(queries, docs)[i * |docs| + j] ==
              Job(queries[i].0, docs[j].0, StripWav(queries[i].1), StripWav(docs[j].1))
    decreases |queries|
  {
    var q := |queries|;
    var init := queries[..q - 1];
    SlotInGrid(i, j, q, |docs|);
    if i < q - 1 {
      SlotInGrid(i, j, q - 1, |docs|);
      CrossJobsAt(init, docs, i, j);
    }
  }

  /** The job for query i and document j is at index i * |docs| + j of `jobs`. */
  ghost predicate JobAtSlot<F>(jobs: seq<Job<F>>, queries: seq<(F, string)>, docs: seq<(F, string)>, i: nat, j: nat)
    requires i < |queries| && j < |docs|
  {
    && i * |docs| + j < |jobs|
    && jobs[i * |docs| + j] == Job(queries[i].0, docs[j].0, StripWav(queries[i].1), StripWav(docs[j].1))
  }

  /** Every (query, document) pair has its job, at its query-major slot. */
  lemma CrossJobsGrid<F>(queries: seq<(F, string)>, docs: seq<(F, string)>)
    ensures |CrossJobs(queries, docs)| == |queries| * |docs|
    ensures forall i: nat, j: nat :: i < |queries| && j < |docs| ==>
              JobAtSlot(CrossJobs(queries, docs), queries, docs, i, j)
  {
    forall i: nat, j: nat | i < |queries| && j < |docs|
      ensures JobAtSlot(CrossJobs(queries, docs), queries, docs, i, j)
    {
      CrossJobsAt(queries, docs, i, j);
    }
  }

  /**
   * The nested `executor.submit` loops: for each query, strip its
   * name; for each document, strip its name and submit the pair.
   */
  method SubmitPairs<F>(queries: seq<(F, string)>, docs: seq<(F, string)>) returns (futures: seq<Job<F>>)
    ensures futures == CrossJobs(queries, docs)
    ensures |futures| == |queries| * |docs|
    ensures forall i: nat, j: nat :: i < |queries| && j < |docs| ==> JobAtSlot(futures, queries, docs, i, j)
  {
    futures := [];
    for qi := 0 to |queries|
      invariant futures == CrossJobs(queries[..qi], docs)
    {
      var query := queries[qi].0;
      var queryName := StripWav(queries[qi].1);
      ghost var before := futures;
      ghost var row := Row(queries[qi], docs);
      for di := 0 to |docs|
        invariant futures == before + row[..di]
      {
        var doc := docs[di].0;
        var docName := StripWav(docs[di].1);
        futures := futures + [Job(query, doc, queryName, docName)];
        assert row[..di + 1] == row[..di] + [row[di]];
      }
      assert row[..|docs|] == row;
      CrossJobsSnoc(queries, docs, qi);
    }
    assert queries[..|queries|] == queries;
    CrossJobsGrid(queries, docs);
  }

  /**
   * `as_completed` yields every submitted future exactly once: `arrival`
   * lists the indices of the n submitted jobs in completion order.
   */
  predicate IsArrivalOrder(arrival: seq<nat>, n: nat)
  {
    && |arrival| == n
    && (forall i :: 0 <= i < |arrival| ==> arrival[i] < n)
    && multiset(arrival) == multiset(Range(n))
  }

  /** The results in completion order: the job at `arrival[i]` finishes i-th. */
  function Completed<F>(dtw: (F, F) -> real, jobs: seq<Job<F>>, arrival: seq<nat>): (r: seq<MatchResult>)
    requires forall i :: 0 <= i < |arrival| ==> arrival[i] < |jobs|
    ensures |r| == |arrival|
    ensures forall i :: 0 <= i < |r| ==>
              && r[i].query == jobs[arrival[i]].queryName
              && r[i].doc == jobs[arrival[i]].docName
              && r[i].score == -dtw(jobs[arrival[i]].query, jobs[arrival[i]].doc)
  {
    seq(|arrival|, i requires 0 <= i < |arrival| => RunJob(dtw, jobs[arrival[i]]))
  }

  /** The results in submission order, as if every worker finished in turn. */
  function Scored<F>(dtw: (F, F) -> real, jobs: seq<Job<F>>): seq<MatchResult>
  {
    seq(|jobs|, i requires 0 <= i < |jobs| => RunJob(dtw, jobs[i]))
  }

  lemma CompletedCons<F>(dtw: (F, F) -> real, jobs: seq<Job<F>>, a: seq<nat>)
    requires a != [] && forall i :: 0 <= i < |a| ==> a[i] < |jobs|
    ensures Completed(dtw, jobs, a) == [RunJob(dtw, jobs[a[0]])] + Completed(dtw, jobs, a[1..])
  {
  }

  /** One more finished job appends its result. */
  lemma CompletedSnoc<F>(dtw: (F, F) -> real, jobs: seq<Job<F>>, arrival: seq<nat>, i: nat)
    requires i < |arrival| && forall k :: 0 <= k < |arrival| ==> arrival[k] < |jobs|
    ensures Completed(dtw, jobs, arrival[..i + 1]) ==
              Completed(dtw, jobs, arrival[..i]) + [RunJob(dtw, jobs[arrival[i]])]
  {
  }

  lemma CompletedSplit<F>(dtw: (F, F) -> real, jobs: seq<Job<F>>, b: seq<nat>, j: nat)
    requires j < |b| && forall i :: 0 <= i < |b| ==> b[i] < |jobs|
    ensures Completed(dtw, jobs, b) ==
              Completed(dtw, jobs, b[..j]) + [RunJob(dtw, jobs[b[j]])] + Completed(dtw, jobs, b[j + 1..])
    ensures Completed(dtw, jobs, b[..j] + b[j + 1..]) ==
              Completed(dtw, jobs, b[..j]) + Completed(dtw, jobs, b[j + 1..])
  {
  }

  /** Rearranging the arrival order rearranges the results and nothing more. */
  lemma {:induction false} CompletedPerm<F>(dtw: (F, F) -> real, jobs: seq<Job<F>>, a: seq<nat>, b: seq<nat>)
    requires forall i :: 0 <= i < |a| ==> a[i] < |jobs|
    requires forall i :: 0 <= i < |b| ==> b[i] < |jobs|
    requires multiset(a) == multiset(b)
    ensures multiset(Completed(dtw, jobs, a)) == multiset(Completed(dtw, jobs, b))
    decreases |a|
  {
    if a == [] {
      assert |b| == |multiset(b)| == 0;
    } else {
      var j, rest := PickFirst(a, b);
      assert forall i :: 0 <= i < |rest| ==> rest[i] in multiset(b);
      CompletedPerm(dtw, jobs, a[1..], rest);
      CompletedCons(dtw, jobs, a);
      CompletedSplit(dtw, jobs, b, j);
      MultisetMoveOne(Completed(dtw, jobs, a), Completed(dtw, jobs, b),
        Completed(dtw, jobs, b[..j]), Completed(dtw, jobs, b[j + 1..]),
        Completed(dtw, jobs, a[1..]), RunJob(dtw, jobs[a[0]]));
    }
  }

  /**
   * Whatever order the workers finish in, the collected triples are
   * exactly those of the submitted jobs, each once.
   */
  lemma CompletedOrderFree<F>(dtw: (F, F) -> real, jobs: seq<Job<F>>, arrival: seq<nat>)
    requires IsArrivalOrder(arrival, |jobs|)
    ensures multiset(Completed(dtw, jobs, arrival)) == multiset(Scored(dtw, jobs))
  {
    var all := Range(|jobs|);
    CompletedPerm(dtw, jobs, arrival, all);
    assert Completed(dtw, jobs, all) == Scored(dtw, jobs);
  }
}
