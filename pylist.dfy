/**
 * Python list slicing and `zip`, as `log_records` uses them to split the
 * collected records into queries and documents.
 */
module PyList {

  /** `xs[:n]`: Python clamps an index past the end to the length. */
  function Prefix<T>(xs: seq<T>, n: nat): (r: seq<T>)
    ensures |r| == if n <= |xs| then n else |xs|
    ensures forall i :: 0 <= i < |r| ==> r[i] == xs[i]
  {
    if n <= |xs| then xs[..n] else xs
  }

  /** `xs[n:]`: empty when `n` is past the end. */
  function Suffix<T>(xs: seq<T>, n: nat): (r: seq<T>)
    ensures |r| == if n <= |xs| then |xs| - n else 0
    ensures forall i :: 0 <= i < |r| ==> r[i] == xs[n + i]
  {
    if n <= |xs| then xs[n..] else []
  }

  /** Splitting at any `n` loses nothing and reorders nothing. */
  lemma SplitJoins<T>(xs: seq<T>, n: nat)
    ensures Prefix(xs, n) + Suffix(xs, n) == xs
  {
    if n <= |xs| {
      assert xs[..n] + xs[n..] == xs;
    }
  }

  /** `zip(xs, ys)`: pairs up to the shorter of the two lists. */
  function Zip<A, B>(xs: seq<A>, ys: seq<B>): (r: seq<(A, B)>)
    ensures |r| == if |xs| <= |ys| then |xs| else |ys|
    ensures forall i :: 0 <= i < |r| ==> r[i] == (xs[i], ys[i])
  {
    var n := if |xs| <= |ys| then |xs| else |ys|;
    seq(n, i requires 0 <= i < n => (xs[i], ys[i]))
  }

  /**
   * When features and names are as long as each other (as `forward` keeps
   * them), splitting both at the same `n` and zipping the query side keeps
   * every feature next to its own name.
   */
  lemma PrefixAligned<A, B>(xs: seq<A>, ys: seq<B>, n: nat)
    requires |xs| == |ys|
    ensures |Zip(Prefix(xs, n), Prefix(ys, n))| == |Prefix(xs, n)|
    ensures forall i :: 0 <= i < |Prefix(xs, n)| ==>
              Zip(Prefix(xs, n), Prefix(ys, n))[i] == (xs[i], ys[i])
  {
    var p, q := Prefix(xs, n), Prefix(ys, n);
    assert |p| == |q|;
    forall i | 0 <= i < |p|
      ensures Zip(p, q)[i] == (xs[i], ys[i])
    {
      assert Zip(p, q)[i] == (p[i], q[i]);
    }
  }

  /** The same on the document side: the pair at `i` is the record at `|Prefix| + i`. */
  lemma SuffixAligned<A, B>(xs: seq<A>, ys: seq<B>, n: nat)
    requires |xs| == |ys|
    ensures |Prefix(xs, n)| + |Suffix(xs, n)| == |xs|
    ensures |Zip(Suffix(xs, n), Suffix(ys, n))| == |Suffix(xs, n)|
    ensures forall i :: 0 <= i < |Suffix(xs, n)| ==>
              Zip(Suffix(xs, n), Suffix(ys, n))[i] == (xs[|Prefix(xs, n)| + i], ys[|Prefix(xs, n)| + i])
  {
    var p, s, t := Prefix(xs, n), Suffix(xs, n), Suffix(ys, n);
    assert |s| == |t|;
    forall i | 0 <= i < |s|
      ensures Zip(s, t)[i] == (xs[|p| + i], ys[|p| + i])
    {
      assert n <= |xs| && |p| == n;
      assert Zip(s, t)[i] == (s[i], t[i]);
    }
  }
}
