/** PHP's `trim($s, '/')`: remove every leading and every trailing slash,
    and nothing else. */
module SlashTrim {

  /** Every character of `t` is a slash (true of the empty string). */
  predicate AllSlashes(t: string) {
    forall k :: 0 <= k < |t| ==> t[k] == '/'
  }

  /** Every position of `s` from `lo` up to (not including) `hi` holds a
      slash. */
  predicate SlashesIn(s: string, lo: int, hi: int) {
    forall k :: lo <= k < hi && 0 <= k < |s| ==> s[k] == '/'
  }

  /** `t` neither starts nor ends with a slash. */
  predicate NoEdgeSlash(t: string) {
    t == [] || (t[0] != '/' && t[|t| - 1] != '/')
  }

  /** The number of slashes `s` starts with. */
  function Leading(s: string): (n: nat)
    ensures n <= |s|
    ensures SlashesIn(s, 0, n)
    ensures n < |s| ==> s[n] != '/'
  {
    if s != [] && s[0] == '/' then 1 + Leading(s[1..]) else 0
  }

  /** The number of slashes `s` ends with. */
  function Trailing(s: string): (n: nat)
    ensures n <= |s|
    ensures SlashesIn(s, |s| - n, |s|)
    ensures n < |s| ==> s[|s| - 1 - n] != '/'
  {
    if s != [] && s[|s| - 1] == '/' then 1 + Trailing(s[..|s| - 1]) else 0
  }

  /** `trim($s, '/')`: the text between the leading and the trailing run of
      slashes, or nothing when `s` is all slashes. */
  function Trim(s: string): (r: string)
    ensures |r| <= |s|
    ensures NoEdgeSlash(r)
  {
    var i := Leading(s);
    if i == |s| then []
    else
      var j := |s| - Trailing(s);
      NotInSlashSuffix(s, j, i);
      s[i..j]
  }

  /** A non-slash character lies at or after the end of a slash prefix. */
  lemma NotInSlashPrefix(s: string, i: nat, m: nat)
    requires m < |s|
    requires SlashesIn(s, 0, i) && s[m] != '/'
    ensures i <= m
  {
  }

  /** A non-slash character lies before the start of a slash suffix. */
  lemma NotInSlashSuffix(s: string, j: nat, m: nat)
    requires m < |s|
    requires SlashesIn(s, j, |s|) && s[m] != '/'
    ensures m < j
  {
  }

  /** The slice Trim keeps is the only one that has only slashes around it
      and no slash at its own edges: Trim removes the longest slash prefix
      and the longest slash suffix, and nothing else. */
  lemma TrimUnique(s: string, i: nat, j: nat)
    requires i <= j <= |s|
    requires SlashesIn(s, 0, i) && SlashesIn(s, j, |s|)
    requires NoEdgeSlash(s[i..j])
    ensures Trim(s) == s[i..j]
  {
    var lead, trail := Leading(s), Trailing(s);
    if i < j {
      assert s[i] == s[i..j][0] && s[j - 1] == s[i..j][j - 1 - i];
      NotInSlashPrefix(s, lead, i);
      NotInSlashPrefix(s, i, lead);
      NotInSlashSuffix(s, |s| - trail, j - 1);
      NotInSlashSuffix(s, j, |s| - 1 - trail);
      assert lead == i && |s| - trail == j;
    } else if lead < |s| {
      NotInSlashPrefix(s, i, lead);
      NotInSlashSuffix(s, j, lead);
      assert false;
    }
  }

  /** Trimming twice is trimming once. */
  lemma TrimIdempotent(s: string)
    ensures Trim(Trim(s)) == Trim(s)
  {
    var r := Trim(s);
    assert r[0..|r|] == r;
    TrimUnique(r, 0, |r|);
  }

  /** Trim removes the leading slashes of `p` and a run of trailing slashes,
      and nothing of the text `q` between them, when `q` neither starts nor
      ends with a slash. */
  lemma TrimAroundText(p: string, q: string, tail: string)
    requires q != [] && q[0] != '/' && q[|q| - 1] != '/'
    requires AllSlashes(tail)
    ensures Trim(p + q + tail) == p[Leading(p)..] + q
  {
    var s := p + q + tail;
    var n := Leading(p);
    var m := |p| + |q|;
    assert SlashesIn(s, 0, n) by {
      forall k | 0 <= k < n ensures s[k] == '/' { assert s[k] == p[k]; }
    }
    assert SlashesIn(s, m, |s|) by {
      forall k | m <= k < |s| ensures s[k] == '/' { assert s[k] == tail[k - m]; }
    }
    assert s[n..m] == p[n..] + q;
    var r := p[n..] + q;
    assert r[|r| - 1] == q[|q| - 1];
    assert r[0] != '/' by {
      if n == |p| { assert r[0] == q[0]; } else { assert r[0] == p[n]; }
    }
    TrimUnique(s, n, m);
  }
}
