/** The match `preg_match('/urn:lex:(.+)$/', $name, $m)` and its capture
    `$m[1]`, under PCRE's default options: `.` matches any character except a
    line feed, `$` matches at the very end of the subject or just before a
    line feed that is its last character, and the pattern is not anchored at
    the start, so the engine reports the leftmost position where it matches.
    PHP strings are byte strings; here each character stands for one byte,
    which changes nothing for this all-ASCII pattern. */
module UrnLex {
  import opened Wrappers

  /** Joining two texts without line feeds gives one without line feeds. */
  lemma NoNewlineConcat(a: string, b: string)
    requires NoNewline(a) && NoNewline(b)
    ensures NoNewline(a + b)
  {
    forall k | 0 <= k < |a + b| ensures (a + b)[k] != '\n' {
      if k < |a| { assert (a + b)[k] == a[k]; } else { assert (a + b)[k] == b[k - |a|]; }
    }
  }

  /** The literal part of the pattern. */
  const Marker: string := "urn:lex:"

  predicate NoNewline(t: string) {
    forall k :: 0 <= k < |t| ==> t[k] != '\n'
  }

  /** The literal `urn:lex:` occurs in `s` starting at position `i`. */
  predicate MarkerAt(s: string, i: nat) {
    i + |Marker| <= |s| && s[i..i + |Marker|] == Marker
  }

  /** `urn:lex:` occurs nowhere in `t`. */
  predicate MarkerFree(t: string) {
    forall i :: 0 <= i <= |t| ==> !MarkerAt(t, i)
  }

  /** The whole pattern matches when the attempt starts at `i`: the marker is
      there, and after it `(.+)$` can match, that is, the rest is non-empty
      and without a line feed, or it is at least one character followed by a
      single final line feed. */
  predicate MatchesAt(s: string, i: nat) {
    MarkerAt(s, i) &&
    var rest := s[i + |Marker|..];
    (rest != [] && NoNewline(rest)) ||
    (|rest| >= 2 && rest[|rest| - 1] == '\n' && NoNewline(rest[..|rest| - 1]))
  }

  /** What the greedy group `(.+)` captures in a match that starts at `i`:
      everything after the marker, less the final line feed that `$` stands
      before. */
  function CaptureAt(s: string, i: nat): (c: string)
    requires MatchesAt(s, i)
    ensures c != [] && NoNewline(c)
    ensures s == s[..i] + Marker + c || s == s[..i] + Marker + c + "\n"
  {
    var rest := s[i + |Marker|..];
    assert s == s[..i] + Marker + rest;
    if NoNewline(rest) then rest
    else
      assert rest == rest[..|rest| - 1] + "\n";
      rest[..|rest| - 1]
  }

  /** The leftmost start position, from `i` on, at which the pattern
      matches, as PCRE's search tries them one after another. */
  function LeftmostFrom(s: string, i: nat): (r: Option<nat>)
    requires i <= |s|
    ensures r.Some? ==> i <= r.value <= |s| && MatchesAt(s, r.value)
    ensures r.Some? ==> forall q :: i <= q < r.value ==> !MatchesAt(s, q)
    ensures r.None? ==> forall q :: i <= q <= |s| ==> !MatchesAt(s, q)
    decreases |s| - i
  {
    if MatchesAt(s, i) then Some(i)
    else if i == |s| then None
    else LeftmostFrom(s, i + 1)
  }

  /** `$m[1]` when `preg_match` succeeds, None when it finds no match. */
  function UrnMatch(s: string): (r: Option<string>)
    ensures r.Some? <==> exists p :: 0 <= p <= |s| && MatchesAt(s, p)
    ensures r.Some? ==> r.value != [] && NoNewline(r.value)
    ensures MarkerFree(s) ==> r.None?
  {
    match LeftmostFrom(s, 0)
    case Some(p) => Some(CaptureAt(s, p))
    case None => None
  }

  /** On input without line feeds the pattern reduces to: take the first
      occurrence of `urn:lex:`; if something follows it, that is the
      capture, and otherwise there is no match. */
  lemma NewlineFreeMatch(s: string, i: nat)
    requires NoNewline(s)
    requires MarkerAt(s, i)
    requires forall q :: 0 <= q < i ==> !MarkerAt(s, q)
    ensures UrnMatch(s) == if i + |Marker| < |s| then Some(s[i + |Marker|..]) else None
  {
    var rest := s[i + |Marker|..];
    assert NoNewline(rest) by {
      assert forall k :: 0 <= k < |rest| ==> rest[k] == s[i + |Marker| + k];
    }
    if i + |Marker| < |s| {
      assert MatchesAt(s, i);
      assert LeftmostFrom(s, 0) == Some(i);
    } else {
      assert !MatchesAt(s, i);
      assert forall q :: 0 <= q <= |s| ==> !MatchesAt(s, q);
    }
  }

  /** The letter `u` opens the marker and occurs nowhere else in it, so an
      occurrence of the marker cannot start inside another one. */
  lemma MarkerStartsAtU(s: string, q: nat, m: nat)
    requires MarkerAt(s, q) && q < m < q + |Marker|
    ensures s[m] != 'u'
  {
    assert s[m] == s[q..q + |Marker|][m - q] == Marker[m - q];
  }

  /** Text before `urn:lex:` is ignored when it holds no occurrence of the
      marker itself: the capture is exactly what follows the marker. */
  lemma {:induction false} MatchAfterPrefix(p: string, k: string)
    requires MarkerFree(p)
    requires k != [] && NoNewline(k)
    ensures UrnMatch(p + Marker + k) == Some(k)
  {
    var s := p + Marker + k;
    assert s[|p|..|p| + |Marker|] == Marker;
    assert s[|p| + |Marker|..] == k;
    assert MatchesAt(s, |p|);
    forall q | 0 <= q < |p| ensures !MarkerAt(s, q) {
      if MarkerAt(s, q) {
        if q + |Marker| <= |p| {
          assert p[q..q + |Marker|] == s[q..q + |Marker|];
          assert MarkerAt(p, q);
        } else {
          assert s[|p|] == 'u';
          MarkerStartsAtU(s, q, |p|);
        }
      }
    }
    assert LeftmostFrom(s, 0) == Some(|p|);
  }

  /** A slice of marker-free text is marker-free. */
  lemma MarkerFreeSlice(s: string, i: nat, j: nat)
    requires i <= j <= |s| && MarkerFree(s)
    ensures MarkerFree(s[i..j])
  {
    forall q | 0 <= q <= j - i ensures !MarkerAt(s[i..j], q) {
      if q + |Marker| <= j - i {
        var w := s[i..j][q..q + |Marker|];
        assert forall k :: 0 <= k < |Marker| ==> w[k] == s[i + q..i + q + |Marker|][k];
        assert w == s[i + q..i + q + |Marker|];
        assert !MarkerAt(s, i + q);
      }
    }
  }

  /** Text without the letter `u` holds no marker. */
  lemma MarkerFreeWithoutU(t: string)
    requires forall k :: 0 <= k < |t| ==> t[k] != 'u'
    ensures MarkerFree(t)
  {
    forall q | 0 <= q <= |t| ensures !MarkerAt(t, q) {
      if q + |Marker| <= |t| {
        assert t[q..q + |Marker|][0] == t[q] && Marker[0] == 'u';
      }
    }
  }
}
