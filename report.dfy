/**
 * The detection report of `log_records` (the `stdlist` XML tree) as plain data: one
 * term list per query key, one term per collected `(doc_name, score)`.
 */
module Report {
  import opened Base
  import opened Sorting
  import opened Threshold
  import opened Matching
  import opened Grouping

  datatype Decision = Yes | No

  /**
   * One `term` element: the document, the normalised score
   * `score - score_min` and the decision. Its fixed attributes
   * (`channel`, `tbeg`, `dur`) carry no information and are not kept.
   */
  datatype Term = Term(file: string, score: real, decision: Decision)

  /** One `detected_termlist` element, for the query `termid`. */
  datatype TermList = TermList(termid: string, terms: seq<Term>)

  /** `"YES" if score > score_thresh else "NO"`: strictly above the cutoff. */
  function Decide(score: real, thr: ScoreThreshold): (d: Decision)
    ensures d == Yes <==> score > thr.cut
  {
    if score > thr.cut then Yes else No
  }

  /** The term emitted for one collected result. */
  function TermFn(thr: ScoreThreshold): MatchResult -> Term
  {
    (r: MatchResult) => Term(r.doc, r.score - thr.min, Decide(r.score, thr))
  }

  function Terms(rs: seq<MatchResult>, thr: ScoreThreshold): seq<Term>
  {
    MapSeq(rs, TermFn(thr))
  }

  /** The report: the term lists in key order, each with its terms in list order. */
  function ReportOf(keys: seq<string>, lists: map<string, seq<Hit>>, thr: ScoreThreshold): (r: seq<TermList>)
    requires forall k :: k in keys ==> k in lists
    ensures |r| == |keys|
    ensures forall i :: 0 <= i < |keys| ==> r[i].termid == keys[i] && |r[i].terms| == |lists[keys[i]]|
  {
    seq(|keys|, i requires 0 <= i < |keys| => TermList(keys[i], Terms(Tag(keys[i], lists[keys[i]]), thr)))
  }

  /** Every term of the report, term list after term list. */
  function FlatTerms(report: seq<TermList>): seq<Term>
  {
    if report == [] then []
    else FlatTerms(report[..|report| - 1]) + report[|report| - 1].terms
  }

  /** How many terms say YES. */
  function YesCount(terms: seq<Term>): (c: nat)
    ensures c <= |terms|
  {
    if terms == [] then 0
    else (if terms[0].decision == Yes then 1 else 0) + YesCount(terms[1..])
  }

  /**
   * The loops over `results.items()` that build the XML tree: for each key of `results`, in
   * insertion order, one term list; for each `(doc_name, score)` of it,
   * one term.
   */
  method BuildReport(keys: seq<string>, results: map<string, seq<Hit>>, thr: ScoreThreshold)
    returns (report: seq<TermList>)
    requires forall k :: k in keys ==> k in results
    ensures report == ReportOf(keys, results, thr)
  {
    report := [];
    for i := 0 to |keys|
      invariant report == ReportOf(keys, results, thr)[..i]
    {
      var queryName := keys[i];
      var docScores := results[queryName];
      var terms := [];
      for j := 0 to |docScores|
        invariant terms == Terms(Tag(queryName, docScores), thr)[..j]
      {
        var docName, score := docScores[j].doc, docScores[j].score;
        terms := terms + [Term(docName, score - thr.min, Decide(score, thr))];
      }
      assert terms == Terms(Tag(queryName, docScores), thr);
      assert ReportOf(keys, results, thr)[..i + 1] == ReportOf(keys, results, thr)[..i] + [TermList(queryName, terms)];
      report := report + [TermList(queryName, terms)];
    }
  }

  /**
   * Each term of term list i is the j-th entry of that key's list, with its
   * score less the minimum and YES exactly when its score is strictly
   * above the cutoff; a score equal to the cutoff is NO.
   */
  lemma TermDecision(keys: seq<string>, lists: map<string, seq<Hit>>, thr: ScoreThreshold, i: nat, j: nat)
    requires forall k :: k in keys ==> k in lists
    requires i < |keys| && j < |lists[keys[i]]|
    ensures |ReportOf(keys, lists, thr)| == |keys|
    ensures ReportOf(keys, lists, thr)[i].termid == keys[i]
    ensures |ReportOf(keys, lists, thr)[i].terms| == |lists[keys[i]]|
    ensures ReportOf(keys, lists, thr)[i].terms[j].file == lists[keys[i]][j].doc
    ensures ReportOf(keys, lists, thr)[i].terms[j].score == lists[keys[i]][j].score - thr.min
    ensures ReportOf(keys, lists, thr)[i].terms[j].decision == Yes <==> lists[keys[i]][j].score > thr.cut
  {
  }

  /** The report's terms, read in order, are the terms of the flattened lists. */
  lemma {:induction false} ReportFlat(keys: seq<string>, lists: map<string, seq<Hit>>, thr: ScoreThreshold)
    requires forall k :: k in keys ==> k in lists
    ensures FlatTerms(ReportOf(keys, lists, thr)) == Terms(Flatten(keys, lists), thr)
    decreases |keys|
  {
    if keys != [] {
      var init := keys[..|keys| - 1];
      var k := keys[|keys| - 1];
      ReportFlat(init, lists, thr);
      assert ReportOf(keys, lists, thr)[..|keys| - 1] == ReportOf(init, lists, thr);
      MapSeqAppend(Flatten(init, lists), Tag(k, lists[k]), TermFn(thr));
    }
  }

  /** The YES terms are exactly the results scored above the cutoff. */
  lemma {:induction false} YesCountTerms(rs: seq<MatchResult>, thr: ScoreThreshold)
    ensures YesCount(Terms(rs, thr)) == CountAbove(Scores(rs), thr.cut)
    decreases |rs|
  {
    if rs != [] {
      assert Terms(rs, thr)[1..] == Terms(rs[1..], thr);
      assert Scores(rs)[1..] == Scores(rs[1..]);
      YesCountTerms(rs[1..], thr);
    }
  }

  /**
   * The report of a grouping of `rs` has one term per result, and as many
   * YES terms as `rs` has scores above the cutoff, whatever the threshold.
   */
  lemma ReportCounts(rs: seq<MatchResult>, thr: ScoreThreshold)
    ensures var g := Group(rs);
            var terms := FlatTerms(ReportOf(g.keys, g.lists, thr));
            |terms| == |rs| && YesCount(terms) == CountAbove(Scores(rs), thr.cut)
  {
    var g := Group(rs);
    var flat := Flatten(g.keys, g.lists);
    ReportFlat(g.keys, g.lists, thr);
    GroupKeepsAll(rs);
    MapPerm(flat, rs, ScoreOf);
    CountAbovePerm(Scores(flat), Scores(rs), thr.cut);
    YesCountTerms(flat, thr);
  }

  lemma TermsNonNegative(rs: seq<MatchResult>, thr: ScoreThreshold)
    requires forall i :: 0 <= i < |rs| ==> thr.min <= rs[i].score
    ensures forall t :: t in Terms(rs, thr) ==> t.score >= 0.0
  {
  }

  lemma MemberScoreBound(rs: seq<MatchResult>, x: MatchResult, thr: ScoreThreshold)
    requires forall y :: y in Scores(rs) ==> thr.min <= y
    requires x in multiset(rs)
    ensures thr.min <= x.score
  {
    var j :| 0 <= j < |rs| && rs[j] == x;
    assert Scores(rs)[j] == x.score && Scores(rs)[j] in Scores(rs);
  }

  /** With a minimum below every score, no normalised score is negative. */
  lemma ReportNonNegative(rs: seq<MatchResult>, thr: ScoreThreshold)
    requires forall x :: x in Scores(rs) ==> thr.min <= x
    ensures var g := Group(rs);
            forall t :: t in FlatTerms(ReportOf(g.keys, g.lists, thr)) ==> t.score >= 0.0
  {
    var g := Group(rs);
    var flat := Flatten(g.keys, g.lists);
    ReportFlat(g.keys, g.lists, thr);
    GroupKeepsAll(rs);
    forall i | 0 <= i < |flat| ensures thr.min <= flat[i].score {
      MemberScoreBound(rs, flat[i], thr);
    }
    TermsNonNegative(flat, thr);
  }

  /**
   * What a report of n results promises: one term per result, at most
   * n - 1 - k YES terms for the cutoff index k (so at least one NO), no
   * negative normalised score, and no query titling two term lists.
   */
  ghost predicate Sound(report: seq<TermList>, n: nat)
  {
    var terms := FlatTerms(report);
    && |terms| == n
    && YesCount(terms) <= n - 1 - CutIndex(n)
    && YesCount(terms) < n
    && (forall t :: t in terms ==> t.score >= 0.0)
    && (forall i, j :: 0 <= i < j < |report| ==> report[i].termid != report[j].termid)
  }

  lemma TitlesDistinct(g: Groups, thr: ScoreThreshold)
    requires WellFormed(g)
    ensures forall i, j :: 0 <= i < j < |g.keys| ==>
              ReportOf(g.keys, g.lists, thr)[i].termid != ReportOf(g.keys, g.lists, thr)[j].termid
  {
  }

  /** The report built from the results collected in any order is sound. */
  lemma ReportBounds(rs: seq<MatchResult>)
    requires rs != []
    ensures Estimate(Scores(rs)).Some?
    ensures var g := Group(rs);
            Sound(ReportOf(g.keys, g.lists, Estimate(Scores(rs)).value), |rs|)
  {
    var g, thr := Group(rs), Estimate(Scores(rs)).value;
    var report := ReportOf(g.keys, g.lists, thr);
    ReportCounts(rs, thr);
    ReportNonNegative(rs, thr);
    TitlesDistinct(g, thr);
    var terms := FlatTerms(report);
    assert |terms| == |rs|;
    assert YesCount(terms) == CountAbove(Scores(rs), thr.cut);
  }
}
