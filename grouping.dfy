/**
 * The `as_completed` collection loop of `log_records`: each finished
 * future's `(query_name, doc_name, score)` is appended to
 * `results[query_name]` (a `defaultdict(list)`) and its score to `scores`.
 */
module Grouping {
  import opened Base
  import opened Matching

  /** One `(doc_name, score)` entry of a per-query results list. */
  datatype Hit = Hit(doc: string, score: real)

  /**
   * The `results` dictionary: `keys` in insertion order (the order
   * `results.items()` yields them) and the list under each key.
   */
  datatype Groups = Groups(keys: seq<string>, lists: map<string, seq<Hit>>)

  /** Keys appear once, and exactly the keys of the map are listed. */
  ghost predicate WellFormed(g: Groups)
  {
    && (forall i, j :: 0 <= i < j < |g.keys| ==> g.keys[i] != g.keys[j])
    && (forall k :: k in g.lists <==> k in g.keys)
  }

  /**
   * `results[r.query].append((r.doc, r.score))`: a missing key is created
   * with an empty list first, and goes to the end of the key order; the
   * entry goes to the end of its key's list and no other list changes.
   */
  function Add(g: Groups, r: MatchResult): (g': Groups)
    requires WellFormed(g)
    ensures WellFormed(g')
    ensures g'.lists.Keys == g.lists.Keys + {r.query}
    ensures g'.keys == if r.query in g.lists then g.keys else g.keys + [r.query]
    ensures r.query in g'.lists &&
            g'.lists[r.query] == (if r.query in g.lists then g.lists[r.query] else []) + [Hit(r.doc, r.score)]
    ensures g'.lists == g.lists[r.query := g'.lists[r.query]]
  {
    var h := Hit(r.doc, r.score);
    if r.query in g.lists then Groups(g.keys, g.lists[r.query := g.lists[r.query] + [h]])
    else Groups(g.keys + [r.query], g.lists[r.query := [h]])
  }

  /** The dictionary after appending every result of `rs`, in order. */
  function Group(rs: seq<MatchResult>): (g: Groups)
    ensures WellFormed(g)
  {
    if rs == [] then Groups([], map[])
    else Add(Group(rs[..|rs| - 1]), rs[|rs| - 1])
  }

  /** A per-query list read back as the `(query, doc, score)` triples it came from. */
  function Tag(query: string, hits: seq<Hit>): (r: seq<MatchResult>)
    ensures |r| == |hits|
  {
    seq(|hits|, i requires 0 <= i < |hits| => MatchResult(query, hits[i].doc, hits[i].score))
  }

  /** The results for `query`, in the order they arrived. */
  function ForQuery(rs: seq<MatchResult>, query: string): (r: seq<MatchResult>)
    ensures forall i :: 0 <= i < |r| ==> r[i].query == query && r[i] in rs
  {
    if rs == [] then []
    else
      var last := rs[|rs| - 1];
      ForQuery(rs[..|rs| - 1], query) + (if last.query == query then [last] else [])
  }

  lemma GroupSnoc(rs: seq<MatchResult>, r: MatchResult)
    ensures Group(rs + [r]) == Add(Group(rs), r)
    ensures ForQuery(rs + [r], r.query) == ForQuery(rs, r.query) + [r]
    ensures forall q :: q != r.query ==> ForQuery(rs + [r], q) == ForQuery(rs, q)
  {
    assert (rs + [r])[..|rs|] == rs;
  }

  lemma TagSnoc(q: string, hits: seq<Hit>, h: Hit)
    ensures Tag(q, hits + [h]) == Tag(q, hits) + [MatchResult(q, h.doc, h.score)]
  {
  }

  /**
   * A key exists exactly for the queries that have results, and its list
   * holds exactly that query's results, in arrival order.
   */
  lemma {:induction false} GroupListsAt(rs: seq<MatchResult>, q: string)
    ensures q in Group(rs).lists <==> ForQuery(rs, q) != []
    ensures q in Group(rs).lists ==> Tag(q, Group(rs).lists[q]) == ForQuery(rs, q)
    decreases |rs|
  {
    if rs != [] {
      var init, r := rs[..|rs| - 1], rs[|rs| - 1];
      assert rs == init + [r];
      GroupListsAt(init, q);
      GroupSnoc(init, r);
      var g := Group(init);
      if r.query == q {
        var before := if q in g.lists then g.lists[q] else [];
        TagSnoc(q, before, Hit(r.doc, r.score));
        assert MatchResult(q, r.doc, r.score) == r;
      }
    }
  }

  /**
   * The index of the first result for `query`, scanning from the front;
   * `|rs|` when there is none.
   */
  function FirstIndex(rs: seq<MatchResult>, query: string): (k: nat)
    ensures k <= |rs|
    ensures k < |rs| ==> rs[k].query == query
    ensures forall m :: 0 <= m < k ==> rs[m].query != query
  {
    if rs == [] then 0
    else if rs[0].query == query then 0
    else 1 + FirstIndex(rs[1..], query)
  }

  /** Appending a result moves no first index that already exists. */
  lemma {:induction false} FirstIndexSnoc(rs: seq<MatchResult>, r: MatchResult, query: string)
    ensures FirstIndex(rs + [r], query) ==
              if FirstIndex(rs, query) < |rs| then FirstIndex(rs, query)
              else if r.query == query then |rs|
              else |rs| + 1
    decreases |rs|
  {
    if rs != [] {
      assert (rs + [r])[0] == rs[0];
      assert (rs + [r])[1..] == rs[1..] + [r];
      FirstIndexSnoc(rs[1..], r, query);
    }
  }

  /**
   * The keys are queries that have results, listed in the order of their
   * first results.
   */
  ghost predicate KeysInFirstOrder(keys: seq<string>, rs: seq<MatchResult>)
  {
    && (forall i :: 0 <= i < |keys| ==> FirstIndex(rs, keys[i]) < |rs|)
    && (forall i, j :: 0 <= i < j < |keys| ==> FirstIndex(rs, keys[i]) < FirstIndex(rs, keys[j]))
  }

  /** The queries with a key are exactly those with a result in `rs`. */
  ghost predicate KeysAreQueries(g: Groups, rs: seq<MatchResult>)
  {
    forall q :: q in g.lists <==> FirstIndex(rs, q) < |rs|
  }

  lemma KeysAreQueriesStep(g: Groups, rs: seq<MatchResult>, r: MatchResult)
    requires WellFormed(g) && KeysAreQueries(g, rs)
    ensures KeysAreQueries(Add(g, r), rs + [r])
  {
    forall q ensures q in Add(g, r).lists <==> FirstIndex(rs + [r], q) < |rs + [r]| {
      FirstIndexSnoc(rs, r, q);
    }
  }

  /** A query that already had a result keeps its first index. */
  lemma FirstIndexKept(rs: seq<MatchResult>, r: MatchResult, keys: seq<string>)
    requires forall i :: 0 <= i < |keys| ==> FirstIndex(rs, keys[i]) < |rs|
    ensures forall i :: 0 <= i < |keys| ==> FirstIndex(rs + [r], keys[i]) == FirstIndex(rs, keys[i])
  {
    forall i | 0 <= i < |keys|
      ensures FirstIndex(rs + [r], keys[i]) == FirstIndex(rs, keys[i])
    {
      FirstIndexSnoc(rs, r, keys[i]);
    }
  }

  /** A result for a query that already has a key leaves the key order valid. */
  lemma KeysInFirstOrderKeep(keys: seq<string>, rs: seq<MatchResult>, r: MatchResult)
    requires KeysInFirstOrder(keys, rs)
    ensures KeysInFirstOrder(keys, rs + [r])
  {
    FirstIndexKept(rs, r, keys);
  }

  /** The first result for a new query puts its key last. */
  lemma KeysInFirstOrderGrow(keys: seq<string>, rs: seq<MatchResult>, r: MatchResult)
    requires KeysInFirstOrder(keys, rs) && FirstIndex(rs, r.query) == |rs|
    ensures KeysInFirstOrder(keys + [r.query], rs + [r])
  {
    var keys', rs' := keys + [r.query], rs + [r];
    FirstIndexKept(rs, r, keys);
    FirstIndexSnoc(rs, r, r.query);
    forall i | 0 <= i < |keys'|
      ensures FirstIndex(rs', keys'[i]) < |rs'|
    {
      if i < |keys| {
        assert keys'[i] == keys[i];
      }
    }
    forall i, j | 0 <= i < j < |keys'|
      ensures FirstIndex(rs', keys'[i]) < FirstIndex(rs', keys'[j])
    {
      assert keys'[i] == keys[i];
      if j < |keys| {
        assert keys'[j] == keys[j];
      }
    }
  }

  lemma KeysInFirstOrderStep(g: Groups, rs: seq<MatchResult>, r: MatchResult)
    requires WellFormed(g) && KeysAreQueries(g, rs) && KeysInFirstOrder(g.keys, rs)
    ensures KeysInFirstOrder(Add(g, r).keys, rs + [r])
  {
    if r.query in g.lists {
      assert Add(g, r).keys == g.keys;
      KeysInFirstOrderKeep(g.keys, rs, r);
    } else {
      assert Add(g, r).keys == g.keys + [r.query];
      assert FirstIndex(rs, r.query) == |rs|;
      KeysInFirstOrderGrow(g.keys, rs, r);
    }
  }

  /**
   * `results.items()` yields each query that has a result exactly once, in
   * the order in which its first result arrived.
   */
  lemma {:induction false} GroupKeyOrder(rs: seq<MatchResult>)
    ensures KeysInFirstOrder(Group(rs).keys, rs)
    ensures forall q :: q in Group(rs).lists <==> FirstIndex(rs, q) < |rs|
    decreases |rs|
  {
    if rs != [] {
      var init, r := rs[..|rs| - 1], rs[|rs| - 1];
      assert rs == init + [r];
      GroupKeyOrder(init);
      assert Group(rs) == Add(Group(init), r);
      KeysAreQueriesStep(Group(init), init, r);
      KeysInFirstOrderStep(Group(init), init, r);
      assert KeysAreQueries(Group(rs), rs);
    }
  }

  lemma GroupLists(rs: seq<MatchResult>)
    ensures forall q :: q in Group(rs).lists <==> ForQuery(rs, q) != []
    ensures forall q :: q in Group(rs).lists ==> Tag(q, Group(rs).lists[q]) == ForQuery(rs, q)
  {
    forall q
      ensures q in Group(rs).lists <==> ForQuery(rs, q) != []
      ensures q in Group(rs).lists ==> Tag(q, Group(rs).lists[q]) == ForQuery(rs, q)
    {
      GroupListsAt(rs, q);
    }
  }

  /** Every key's list, as triples, one key after another in key order. */
  function Flatten(keys: seq<string>, lists: map<string, seq<Hit>>): seq<MatchResult>
    requires forall k :: k in keys ==> k in lists
  {
    if keys == [] then []
    else
      var k := keys[|keys| - 1];
      Flatten(keys[..|keys| - 1], lists) + Tag(k, lists[k])
  }

  /** Flattening reads the lists of listed keys only. */
  lemma {:induction false} FlattenFrame(keys: seq<string>, l1: map<string, seq<Hit>>, l2: map<string, seq<Hit>>)
    requires forall k :: k in keys ==> k in l1 && k in l2 && l1[k] == l2[k]
    ensures Flatten(keys, l1) == Flatten(keys, l2)
    decreases |keys|
  {
    if keys != [] {
      FlattenFrame(keys[..|keys| - 1], l1, l2);
    }
  }

  /** Appending to one key's list adds exactly that triple to the flat view. */
  lemma {:induction false} FlattenGrow(keys: seq<string>, lists: map<string, seq<Hit>>, q: string, h: Hit)
    requires forall k :: k in keys ==> k in lists
    requires forall i, j :: 0 <= i < j < |keys| ==> keys[i] != keys[j]
    requires q in keys
    ensures multiset(Flatten(keys, lists[q := lists[q] + [h]])) ==
            multiset(Flatten(keys, lists)) + multiset{MatchResult(q, h.doc, h.score)}
    decreases |keys|
  {
    var lists' := lists[q := lists[q] + [h]];
    var init, k := keys[..|keys| - 1], keys[|keys| - 1];
    if k == q {
      assert q !in init;
      FlattenFrame(init, lists, lists');
      assert Tag(q, lists'[q]) == Tag(q, lists[q]) + [MatchResult(q, h.doc, h.score)];
    } else {
      assert q in init;
      FlattenGrow(init, lists, q, h);
    }
  }

  /** A new key with a one-entry list adds exactly that triple to the flat view. */
  lemma FlattenNewKey(keys: seq<string>, lists: map<string, seq<Hit>>, q: string, h: Hit)
    requires forall k :: k in keys ==> k in lists
    requires q !in keys
    ensures multiset(Flatten(keys + [q], lists[q := [h]])) ==
            multiset(Flatten(keys, lists)) + multiset{MatchResult(q, h.doc, h.score)}
  {
    var keys', lists' := keys + [q], lists[q := [h]];
    FlattenFrame(keys, lists, lists');
    assert keys'[..|keys|] == keys;
    assert Flatten(keys', lists') == Flatten(keys, lists') + Tag(q, [h]);
    assert Tag(q, [h]) == [MatchResult(q, h.doc, h.score)];
  }

  /** One append adds exactly its result to the flat view of the dictionary. */
  lemma FlattenAdd(g: Groups, r: MatchResult)
    requires WellFormed(g)
    ensures multiset(Flatten(Add(g, r).keys, Add(g, r).lists)) == multiset(Flatten(g.keys, g.lists)) + multiset{r}
  {
    var h := Hit(r.doc, r.score);
    assert MatchResult(r.query, h.doc, h.score) == r;
    if r.query in g.lists {
      assert Add(g, r) == Groups(g.keys, g.lists[r.query := g.lists[r.query] + [h]]);
      FlattenGrow(g.keys, g.lists, r.query, h);
    } else {
      assert Add(g, r) == Groups(g.keys + [r.query], g.lists[r.query := [h]]);
      FlattenNewKey(g.keys, g.lists, r.query, h);
    }
  }

  /**
   * The dictionary holds every collected result exactly once: its lists,
   * read key by key, are a rearrangement of the arrival sequence, so their
   * lengths sum to the number of results.
   */
  lemma {:induction false} GroupKeepsAll(rs: seq<MatchResult>)
    ensures multiset(Flatten(Group(rs).keys, Group(rs).lists)) == multiset(rs)
    ensures |Flatten(Group(rs).keys, Group(rs).lists)| == |rs|
    decreases |rs|
  {
    if rs != [] {
      var init, r := rs[..|rs| - 1], rs[|rs| - 1];
      assert rs == init + [r];
      GroupKeepsAll(init);
      assert Group(rs) == Add(Group(init), r);
      FlattenAdd(Group(init), r);
    }
    var f := Flatten(Group(rs).keys, Group(rs).lists);
    assert |f| == |multiset(f)| == |multiset(rs)| == |rs|;
  }

  /** How often `x` occurs among the results for `query`. */
  lemma {:induction false} ForQueryCount(rs: seq<MatchResult>, query: string, x: MatchResult)
    ensures multiset(ForQuery(rs, query))[x] == if x.query == query then multiset(rs)[x] else 0
    decreases |rs|
  {
    if rs != [] {
      var init := rs[..|rs| - 1];
      assert rs == init + [rs[|rs| - 1]];
      ForQueryCount(init, query, x);
    }
  }

  /** Rearranging the results rearranges each query's results and nothing more. */
  lemma ForQueryPerm(a: seq<MatchResult>, b: seq<MatchResult>, query: string)
    requires multiset(a) == multiset(b)
    ensures multiset(ForQuery(a, query)) == multiset(ForQuery(b, query))
  {
    forall x ensures multiset(ForQuery(a, query))[x] == multiset(ForQuery(b, query))[x] {
      ForQueryCount(a, query, x);
      ForQueryCount(b, query, x);
    }
  }

  /**
   * Two arrival orders of the same results give the same keys and, under
   * each key, the same entries; only their order can differ.
   */
  lemma GroupOrderFree(a: seq<MatchResult>, b: seq<MatchResult>)
    requires multiset(a) == multiset(b)
    ensures Group(a).lists.Keys == Group(b).lists.Keys
    ensures forall q :: q in Group(a).lists ==>
              multiset(Tag(q, Group(a).lists[q])) == multiset(Tag(q, Group(b).lists[q]))
  {
    GroupLists(a);
    GroupLists(b);
    forall q ensures multiset(ForQuery(a, q)) == multiset(ForQuery(b, q)) {
      ForQueryPerm(a, b, q);
    }
    forall q ensures q in Group(a).lists <==> q in Group(b).lists {
      assert |ForQuery(a, q)| == |multiset(ForQuery(a, q))| == |multiset(ForQuery(b, q))| == |ForQuery(b, q)|;
    }
  }

  /** The score of one result. */
  function ScoreOf(r: MatchResult): real
  {
    r.score
  }

  /** The `scores` list: the score of every result, in arrival order. */
  function Scores(rs: seq<MatchResult>): (r: seq<real>)
    ensures |r| == |rs|
    ensures forall i :: 0 <= i < |rs| ==> r[i] == rs[i].score
  {
    MapSeq(rs, ScoreOf)
  }

  /** One turn of the collection loop, on the dictionary and on the scores. */
  lemma CollectStep(done: seq<MatchResult>, r: MatchResult)
    ensures var g := Group(done);
            Group(done + [r]) ==
              if r.query in g.lists then Groups(g.keys, g.lists[r.query := g.lists[r.query] + [Hit(r.doc, r.score)]])
              else Groups(g.keys + [r.query], g.lists[r.query := [Hit(r.doc, r.score)]])
    ensures Scores(done + [r]) == Scores(done) + [r.score]
  {
    assert (done + [r])[..|done|] == done;
    assert Group(done + [r]) == Add(Group(done), r);
    MapSeqAppend(done, [r], ScoreOf);
  }

  /**
   * The `as_completed` collection loop, with the futures finishing in the
   * order `arrival`: the dictionary and the score list it leaves are those
   * of the results in that order.
   */
  method CollectResults<F>(dtw: (F, F) -> real, jobs: seq<Job<F>>, arrival: seq<nat>)
    returns (keys: seq<string>, results: map<string, seq<Hit>>, scores: seq<real>)
    requires forall i :: 0 <= i < |arrival| ==> arrival[i] < |jobs|
    ensures Groups(keys, results) == Group(Completed(dtw, jobs, arrival))
    ensures scores == Scores(Completed(dtw, jobs, arrival))
  {
    keys, results, scores := [], map[], [];
    for i := 0 to |arrival|
      invariant Groups(keys, results) == Group(Completed(dtw, jobs, arrival[..i]))
      invariant scores == Scores(Completed(dtw, jobs, arrival[..i]))
    {
      ghost var done := Completed(dtw, jobs, arrival[..i]);
      var r := RunJob(dtw, jobs[arrival[i]]);
      var queryName, docName, score := r.query, r.doc, r.score;
      if queryName in results {
        results := results[queryName := results[queryName] + [Hit(docName, score)]];
      } else {
        keys := keys + [queryName];
        results := results[queryName := [Hit(docName, score)]];
      }
      scores := scores + [score];
      CollectStep(done, r);
      CompletedSnoc(dtw, jobs, arrival, i);
    }
    assert arrival[..|arrival|] == arrival;
  }

  /**
   * After the collection loop the lists of `results` hold as many entries
   * together as `scores` has, and that is the number of submitted pairs.
   */
  lemma CollectedSizes<F>(dtw: (F, F) -> real, jobs: seq<Job<F>>, arrival: seq<nat>)
    requires IsArrivalOrder(arrival, |jobs|)
    ensures var rs := Completed(dtw, jobs, arrival);
            |Flatten(Group(rs).keys, Group(rs).lists)| == |Scores(rs)| == |jobs|
  {
    GroupKeepsAll(Completed(dtw, jobs, arrival));
  }
}
