/** Wrappers and sequence helpers shared by the modules of the model. */
module Base {

  datatype Option<T> = None | Some(value: T)

  datatype Result<T, E> = Ok(value: T) | Err(error: E)

  /** The list 0, 1, ..., n - 1 (Python's `range(n)`). */
  function Range(n: nat): (r: seq<nat>)
    ensures |r| == n
    ensures forall i :: 0 <= i < n ==> r[i] == i
  {
    seq(n, i requires 0 <= i => i)
  }

  /** `[f(x) for x in s]`. */
  function MapSeq<T, U>(s: seq<T>, f: T -> U): (r: seq<U>)
    ensures |r| == |s|
    ensures forall i :: 0 <= i < |s| ==> r[i] == f(s[i])
  {
    seq(|s|, i requires 0 <= i < |s| => f(s[i]))
  }

  lemma MapSeqAppend<T, U>(a: seq<T>, b: seq<T>, f: T -> U)
    ensures MapSeq(a + b, f) == MapSeq(a, f) + MapSeq(b, f)
  {
  }

  /**
   * Finds an element of `b` equal to the head of `a`, for two lists with
   * the same elements, and what remains of `b` without it.
   */
  lemma PickFirst<T>(a: seq<T>, b: seq<T>) returns (j: nat, rest: seq<T>)
    requires a != [] && multiset(a) == multiset(b)
    ensures j < |b| && b[j] == a[0]
    ensures rest == b[..j] + b[j + 1..]
    ensures multiset(a[1..]) == multiset(rest)
  {
    var x := a[0];
    assert x in multiset(a);
    assert x in multiset(b);
    j :| 0 <= j < |b| && b[j] == x;
    var left, right := b[..j], b[j + 1..];
    rest := left + right;
    assert b == left + [x] + right;
    assert multiset(b) == multiset(left) + multiset{x} + multiset(right);
    assert multiset(rest) == multiset(left) + multiset(right);
    assert multiset(rest) == multiset(b) - multiset{x};
    assert a == [x] + a[1..];
    assert multiset(a) == multiset{x} + multiset(a[1..]);
    assert multiset(a[1..]) == multiset(a) - multiset{x};
  }

  lemma MultisetMoveOne<T>(a: seq<T>, b: seq<T>, left: seq<T>, right: seq<T>, tail: seq<T>, r: T)
    requires a == [r] + tail && b == left + [r] + right
    requires multiset(tail) == multiset(left + right)
    ensures multiset(a) == multiset(b)
  {
  }

  /** Mapping two rearrangements of one list gives rearrangements of one list. */
  lemma {:induction false} MapPerm<T, U>(a: seq<T>, b: seq<T>, f: T -> U)
    requires multiset(a) == multiset(b)
    ensures multiset(MapSeq(a, f)) == multiset(MapSeq(b, f))
    decreases |a|
  {
    if a == [] {
      assert |b| == |multiset(b)| == 0;
    } else {
      var j, rest := PickFirst(a, b);
      MapPerm(a[1..], rest, f);
      assert MapSeq(a, f) == [f(a[0])] + MapSeq(a[1..], f);
      assert b == b[..j] + [b[j]] + b[j + 1..];
      MapSeqAppend(b[..j] + [b[j]], b[j + 1..], f);
      MapSeqAppend(b[..j], [b[j]], f);
      MapSeqAppend(b[..j], b[j + 1..], f);
      MultisetMoveOne(MapSeq(a, f), MapSeq(b, f), MapSeq(b[..j], f), MapSeq(b[j + 1..], f),
        MapSeq(a[1..], f), f(a[0]));
    }
  }
}
