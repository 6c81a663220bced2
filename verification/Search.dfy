/**
 Finding a marker in a stream that arrives in pieces: the first occurrence, and the longest end
 of the text that could still grow into the marker.
 */
module Search {
  import opened Basics

  predicate At<T(==)>(s: seq<T>, marker: seq<T>, i: nat) {
    i + |marker| <= |s| && s[i..i + |marker|] == marker
  }

  ghost predicate Absent<T>(s: seq<T>, marker: seq<T>) {
    forall i: nat :: !At(s, marker, i)
  }

  ghost predicate FirstAt<T>(s: seq<T>, marker: seq<T>, i: nat) {
    At(s, marker, i) && forall j: nat | j < i :: !At(s, marker, j)
  }

  /** JavaScript's indexOf. */
  function IndexOf<T(==)>(s: seq<T>, marker: seq<T>): (r: Option<nat>)
    ensures r.None? ==> Absent(s, marker)
    ensures r.Some? ==> FirstAt(s, marker, r.value)
  {
    IndexFrom(s, marker, 0)
  }

  function IndexFrom<T(==)>(s: seq<T>, marker: seq<T>, from: nat): (r: Option<nat>)
    requires forall j: nat | j < from :: !At(s, marker, j)
    ensures r.None? ==> Absent(s, marker)
    ensures r.Some? ==> FirstAt(s, marker, r.value)
    decreases |s| - from
  {
    if |s| < from + |marker| then None
    else if At(s, marker, from) then Some(from)
    else if from == |s| then None
    else IndexFrom(s, marker, from + 1)
  }

  predicate EndsWithPrefix<T(==)>(s: seq<T>, marker: seq<T>, k: nat) {
    k <= |s| && k < |marker| && s[|s| - k..] == marker[..k]
  }

  /** k is the length of the longest end of s that is a proper prefix of the marker. */
  ghost predicate IsTail<T>(s: seq<T>, marker: seq<T>, k: nat) {
    EndsWithPrefix(s, marker, k) && forall j: nat | k < j :: !EndsWithPrefix(s, marker, j)
  }

  /** The shrinking loop that both stream scanners run on their last piece. */
  method LongestTail<T(==)>(s: seq<T>, marker: seq<T>) returns (keep: nat)
    requires |marker| > 0
    ensures IsTail(s, marker, keep) && keep <= |s| && keep < |marker|
  {
    keep := if |marker| - 1 < |s| then |marker| - 1 else |s|;
    while keep > 0 && s[|s| - keep..] != marker[..keep]
      invariant keep <= |s| && keep < |marker|
      invariant forall j: nat | keep < j :: !EndsWithPrefix(s, marker, j)
    {
      keep := keep - 1;
    }
  }

  /** Nothing before the kept tail matters for what comes next: an occurrence never starts there. */
  lemma TailFindsOccurrence<T>(s: seq<T>, marker: seq<T>, k: nat, more: seq<T>, i: nat)
    requires |marker| > 0 && Absent(s, marker) && IsTail(s, marker, k)
    ensures At(s + more, marker, i) <==> i >= |s| - k && At(s[|s| - k..] + more, marker, i - (|s| - k))
  {
    var base := |s| - k;
    var whole, part := s + more, s[base..] + more;
    if i >= base {
      WindowBehind(s, more, base, i, |marker|);
    } else if i + |marker| <= |s| {
      WindowInFront(s, more, i, |marker|);
      assert !At(s, marker, i);
    } else {
      EndsInside(s, marker, more, i);
      assert !EndsWithPrefix(s, marker, |s| - i);
    }
  }

  lemma WindowBehind<T>(s: seq<T>, more: seq<T>, base: nat, i: nat, n: nat)
    requires base <= |s| && base <= i
    ensures var whole, part := s + more, s[base..] + more;
            && (i + n <= |whole| <==> i - base + n <= |part|)
            && (i + n <= |whole| ==> whole[i..i + n] == part[i - base..i - base + n])
  {
    assert (s + more)[base..] == s[base..] + more;
  }

  lemma WindowInFront<T>(s: seq<T>, more: seq<T>, i: nat, n: nat)
    requires i + n <= |s|
    ensures (s + more)[i..i + n] == s[i..i + n]
  {
  }

  /** An occurrence that reaches beyond the text shows its beginning at the text's end. */
  lemma EndsInside<T>(s: seq<T>, marker: seq<T>, more: seq<T>, i: nat)
    requires i <= |s| < i + |marker|
    ensures At(s + more, marker, i) ==> EndsWithPrefix(s, marker, |s| - i)
  {
    var n := |s| - i;
    if i + |marker| <= |s + more| { assert (s + more)[i..i + |marker|][..n] == s[i..]; }
  }

  lemma TailFindsFirst<T>(s: seq<T>, marker: seq<T>, k: nat, more: seq<T>)
    requires |marker| > 0 && Absent(s, marker) && IsTail(s, marker, k)
    ensures IndexOf(s[|s| - k..] + more, marker).None? <==> IndexOf(s + more, marker).None?
    ensures IndexOf(s[|s| - k..] + more, marker).Some? ==>
              IndexOf(s + more, marker) == Some(|s| - k + IndexOf(s[|s| - k..] + more, marker).value)
  {
    var base := |s| - k;
    forall i: nat ensures At(s + more, marker, i) <==> i >= base && At(s[base..] + more, marker, i - base) {
      TailFindsOccurrence(s, marker, k, more, i);
    }
    var part := IndexOf(s[base..] + more, marker);
    if part.Some? {
      assert At(s + more, marker, base + part.value);
    }
    var whole := IndexOf(s + more, marker);
    if whole.Some? {
      assert At(s[base..] + more, marker, whole.value - base);
    }
  }

  /** The tail of the longer text is found in the kept part too. */
  lemma TailOfTail<T>(s: seq<T>, marker: seq<T>, k: nat, more: seq<T>, n: nat)
    requires IsTail(s, marker, k)
    requires IsTail(s[|s| - k..] + more, marker, n)
    ensures IsTail(s + more, marker, n)
    ensures (s + more)[|s| + |more| - n..] == (s[|s| - k..] + more)[k + |more| - n..]
  {
    var part, whole := s[|s| - k..] + more, s + more;
    assert whole[|s| - k..] == part;
    assert whole[|whole| - n..] == part[|part| - n..];
    forall j: nat | n < j ensures !EndsWithPrefix(whole, marker, j) {
      if j <= |part| {
        assert whole[|whole| - j..] == part[|part| - j..];
        assert !EndsWithPrefix(part, marker, j);
      } else if j <= |whole| && j < |marker| {
        var inner := j - |more|;
        assert s[|s| - inner..] == whole[|whole| - j..][..inner];
        assert marker[..j][..inner] == marker[..inner];
        assert !EndsWithPrefix(s, marker, inner);
      }
    }
  }

  /** A marker whose first symbol does not recur in it is found right after text that lacks it. */
  lemma FirstAfterNoise<T>(noise: seq<T>, marker: seq<T>, rest: seq<T>)
    requires |marker| > 0 && (forall p | 0 < p < |marker| :: marker[p] != marker[0])
    requires Absent(noise, marker)
    ensures IndexOf(noise + marker + rest, marker) == Some(|noise|)
  {
    var s := noise + marker + rest;
    assert s[|noise|..|noise| + |marker|] == marker;
    assert At(s, marker, |noise|);
    forall j: nat | j < |noise| ensures !At(s, marker, j) {
      if j + |marker| <= |noise| {
        assert s[j..j + |marker|] == noise[j..j + |marker|];
        assert !At(noise, marker, j);
      } else {
        NoOverlap(s, marker, j, |noise|);
      }
    }
  }

  lemma NoOverlap<T>(s: seq<T>, marker: seq<T>, j: nat, i: nat)
    requires forall p | 0 < p < |marker| :: marker[p] != marker[0]
    requires At(s, marker, i) && j < i < j + |marker|
    ensures !At(s, marker, j)
  {
    assert s[i..i + |marker|][0] == s[i];
    if j + |marker| <= |s| {
      var window := s[j..j + |marker|];
      assert window[i - j] == s[i] && marker[i - j] != marker[0];
      assert window != marker;
    }
  }

  /** Text that stops inside the marker, or before it, has no occurrence. */
  lemma AbsentBeforeMarkerEnds<T>(noise: seq<T>, marker: seq<T>, rest: seq<T>, part: seq<T>)
    requires |marker| > 0 && (forall p | 0 < p < |marker| :: marker[p] != marker[0])
    requires Absent(noise, marker)
    requires part <= noise + marker + rest
    ensures |part| < |noise| + |marker| ==> Absent(part, marker)
    ensures |part| >= |noise| + |marker| ==> IndexOf(part, marker) == Some(|noise|)
  {
    var s := noise + marker + rest;
    FirstAfterNoise(noise, marker, rest);
    forall j: nat | At(part, marker, j) ensures At(s, marker, j) {
      assert part[j..j + |marker|] == s[j..j + |marker|];
    }
    if |part| >= |noise| + |marker| {
      assert part[|noise|..|noise| + |marker|] == s[|noise|..|noise| + |marker|];
      assert At(part, marker, |noise|);
    }
  }
}
