/**
 * Python's `str.replace(pattern, "")`, as `log_records` applies it to every
 * query and document name to drop the ".wav" extension.
 */
module PyStr {

  /** The extension `log_records` removes from audio names. */
  const Wav: string := ".wav"

  /** `pat` occurs in `s` starting at index `i`. */
  predicate OccursAt(s: string, pat: string, i: nat)
  {
    i + |pat| <= |s| && s[i..i + |pat|] == pat
  }

  /** Python's `pat in s`. */
  predicate Contains(s: string, pat: string)
  {
    exists i: nat | i <= |s| :: OccursAt(s, pat, i)
  }

  /**
   * `s.replace(pat, "")` for a non-empty `pat`: scanning left to right,
   * every occurrence that does not overlap an earlier removed one is
   * dropped, everything else is kept in order.
   */
  function RemoveAll(s: string, pat: string): (r: string)
    requires pat != []
    ensures |r| <= |s|
    decreases |s|
  {
    if |s| < |pat| then s
    else if s[..|pat|] == pat then RemoveAll(s[|pat|..], pat)
    else [s[0]] + RemoveAll(s[1..], pat)
  }

  /** `name.replace(".wav", "")`. */
  function StripWav(name: string): (r: string)
    ensures |r| <= |name|
    ensures r == name <==> !Contains(name, Wav)
  {
    UnchangedIffAbsent(name, Wav);
    RemoveAll(name, Wav)
  }

  /** Without an occurrence at the front, `s` and `s[1..]` contain `pat` alike. */
  lemma ContainsShift(s: string, pat: string)
    requires |s| >= 1 && !OccursAt(s, pat, 0)
    ensures Contains(s, pat) <==> Contains(s[1..], pat)
  {
    if Contains(s, pat) {
      var i: nat :| i <= |s| && OccursAt(s, pat, i);
      assert i >= 1;
      assert s[1..][i - 1..i - 1 + |pat|] == s[i..i + |pat|];
      assert OccursAt(s[1..], pat, i - 1);
    }
    if Contains(s[1..], pat) {
      var j: nat :| j <= |s[1..]| && OccursAt(s[1..], pat, j);
      assert s[1..][j..j + |pat|] == s[j + 1..j + 1 + |pat|];
      assert OccursAt(s, pat, j + 1);
    }
  }

  /**
   * Removal changes a string exactly when the pattern occurs in it: a name
   * without ".wav" passes through unchanged, and one with it never does.
   */
  lemma {:induction false} UnchangedIffAbsent(s: string, pat: string)
    requires pat != []
    ensures RemoveAll(s, pat) == s <==> !Contains(s, pat)
    decreases |s|
  {
    if |s| < |pat| {
      assert !Contains(s, pat);
    } else if s[..|pat|] == pat {
      assert OccursAt(s, pat, 0);
      assert |RemoveAll(s, pat)| < |s|;
    } else {
      assert !OccursAt(s, pat, 0);
      ContainsShift(s, pat);
      UnchangedIffAbsent(s[1..], pat);
      var t := RemoveAll(s[1..], pat);
      assert RemoveAll(s, pat) == [s[0]] + t;
      assert s == [s[0]] + s[1..];
      assert [s[0]] + t == [s[0]] + s[1..] <==> t == s[1..] by {
        if [s[0]] + t == [s[0]] + s[1..] {
          assert t == ([s[0]] + t)[1..];
        }
      }
    }
  }

  /** A stem free of ".wav" keeps that property when its first character goes. */
  lemma AbsentInTail(s: string, pat: string)
    requires |s| >= 1 && !Contains(s, pat)
    ensures !Contains(s[1..], pat)
  {
    if Contains(s[1..], pat) {
      var j: nat :| j <= |s[1..]| && OccursAt(s[1..], pat, j);
      assert s[1..][j..j + |pat|] == s[j + 1..j + 1 + |pat|];
      assert OccursAt(s, pat, j + 1);
    }
  }

  /**
   * ".wav" cannot overlap itself, so `stem + ".wav"` loses exactly its
   * extension when `stem` has no ".wav" of its own.
   */
  lemma {:induction false} StripsExtension(stem: string)
    requires !Contains(stem, Wav)
    ensures StripWav(stem + Wav) == stem
    decreases |stem|
  {
    var s := stem + Wav;
    if stem == [] {
      assert s == Wav;
      assert s[4..] == [];
    } else {
      assert s[..4] != Wav by {
        if |stem| >= 4 {
          assert s[..4] == stem[..4];
          assert !OccursAt(stem, Wav, 0);
        } else {
          assert s[|stem|] == '.';
          assert Wav[|stem|] != '.';
        }
      }
      assert s[1..] == stem[1..] + Wav;
      AbsentInTail(stem, Wav);
      StripsExtension(stem[1..]);
    }
  }

  /**
   * Removal scans left to right: the part before the first ".wav" is kept,
   * that occurrence goes, and the rest is stripped in turn. With
   * `UnchangedIffAbsent` this fixes the result on every name.
   */
  lemma StripsLeftmost(s: string, t: string)
    requires !Contains(s, Wav)
    ensures StripWav(s + Wav + t) == s + StripWav(t)
  {
    RemoveLeftmost(s, t);
  }

  /** `StripsLeftmost`, by induction on the part before the occurrence. */
  lemma {:induction false} RemoveLeftmost(s: string, t: string)
    requires !Contains(s, Wav)
    ensures RemoveAll(s + Wav + t, Wav) == s + RemoveAll(t, Wav)
    decreases |s|
  {
    var w := s + Wav + t;
    if s == [] {
      assert w == Wav + t;
      RemoveAtFront(t);
    } else {
      NoWavAtFront(s, t);
      KeepsFront(w);
      assert w[0] == s[0] && w[1..] == s[1..] + Wav + t;
      AbsentInTail(s, Wav);
      RemoveLeftmost(s[1..], t);
      assert [s[0]] + s[1..] == s;
    }
  }

  /** An occurrence at the front is dropped. */
  lemma RemoveAtFront(t: string)
    ensures RemoveAll(Wav + t, Wav) == RemoveAll(t, Wav)
  {
    assert (Wav + t)[..4] == Wav && (Wav + t)[4..] == t;
  }

  /** Without an occurrence at the front, the first character is kept. */
  lemma KeepsFront(w: string)
    requires |w| >= 4 && w[..4] != Wav
    ensures RemoveAll(w, Wav) == [w[0]] + RemoveAll(w[1..], Wav)
  {
  }

  /** A non-empty prefix free of ".wav" cannot start an occurrence. */
  lemma NoWavAtFront(s: string, t: string)
    requires s != [] && !Contains(s, Wav)
    ensures (s + Wav + t)[..4] != Wav
  {
    var w := s + Wav + t;
    if |s| >= 4 {
      assert w[..4] == s[..4];
      assert !OccursAt(s, Wav, 0);
    } else {
      assert w[|s|] == '.';
      assert Wav[|s|] != '.';
    }
  }

  /** Two extensions in a row both go: "a.wav.wav" becomes "a", not "a.wav". */
  lemma StripsEveryOccurrence(s: string, u: string)
    requires !Contains(s, Wav) && !Contains(u, Wav)
    ensures StripWav(s + Wav + u + Wav) == s + u
  {
    assert s + Wav + u + Wav == s + Wav + (u + Wav);
    StripsLeftmost(s, u + Wav);
    StripsExtension(u);
  }

  /** Every occurrence goes, not only a trailing extension. */
  lemma StripsInnerOccurrence()
    ensures StripWav("a.wav.b") == "a.b"
  {
  }

  /** One pass can join pieces into a new ".wav", so stripping is not idempotent. */
  lemma StripNotIdempotent()
    ensures StripWav("x.w.wavav") == "x.wav"
    ensures StripWav(StripWav("x.w.wavav")) == "x"
  {
    JoinedOccurrence();
    assert RemoveAll(".wav", Wav) == [];
    assert RemoveAll("x.wav", Wav) == "x";
  }

  /** Removing the inner ".wav" of ".w.wavav" joins ".w" and "av" into ".wav". */
  lemma JoinedOccurrence()
    ensures RemoveAll("x.w.wavav", Wav) == "x.wav"
  {
    assert RemoveAll(".wavav", Wav) == "av";
    assert RemoveAll("w.wavav", Wav) == "wav";
    assert RemoveAll(".w.wavav", Wav) == ".wav";
  }
}
