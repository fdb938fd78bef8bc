/** The identity parser: the Authorization header is searched for `Identity=([^;]+)`, the
    captured run is stripped of surrounding whitespace, and a header without a match stands
    for the identity "default". */
module Identity {
  import opened Common

  const Marker: string := "Identity="
  const Default: string := "default"

  /** Exactly the characters for which Python's str.isspace holds; str.strip removes these. */
  predicate IsSpace(c: char) {
    || ('\t' <= c <= '\r')
    || ('\U{1C}' <= c <= '\U{1F}')
    || c == ' '
    || c == '\U{85}'
    || c == '\U{A0}'
    || c == '\U{1680}'
    || ('\U{2000}' <= c <= '\U{200A}')
    || c == '\U{2028}'
    || c == '\U{2029}'
    || c == '\U{202F}'
    || c == '\U{205F}'
    || c == '\U{3000}'
  }

  /** The regular expression matches at `i`: the marker, then at least one character that
      is not ';' (the `+` of `[^;]+`). */
  predicate MatchAt(s: string, i: nat) {
    i + |Marker| < |s| && s[i..i + |Marker|] == Marker && s[i + |Marker|] != ';'
  }

  /** re.search: the leftmost position at or after `from` where the pattern matches. */
  function FindFrom(s: string, from: nat): (r: Option<nat>)
    decreases |s| - from
    ensures r.Some? ==> from <= r.value && MatchAt(s, r.value)
    ensures r.Some? ==> forall i :: from <= i < r.value ==> !MatchAt(s, i)
    ensures r.None? ==> forall i :: from <= i ==> !MatchAt(s, i)
  {
    if from + |Marker| >= |s| then None
    else if MatchAt(s, from) then Some(from)
    else FindFrom(s, from + 1)
  }

  /** The greedy capture `[^;]+` starting at `j`: every character up to the next ';' or
      the end of the header. */
  function RunFrom(s: string, j: nat): (r: string)
    requires j <= |s|
    decreases |s| - j
    ensures j + |r| <= |s| && r == s[j..j + |r|]
    ensures ';' !in r
    ensures j + |r| == |s| || s[j + |r|] == ';'
  {
    if j == |s| || s[j] == ';' then [] else [s[j]] + RunFrom(s, j + 1)
  }

  /** The end of the whitespace run starting at `i`. */
  function SpaceRunEnd(s: string, i: nat): (k: nat)
    requires i <= |s|
    decreases |s| - i
    ensures i <= k <= |s|
    ensures forall j :: i <= j < k ==> IsSpace(s[j])
    ensures k < |s| ==> !IsSpace(s[k])
  {
    if i < |s| && IsSpace(s[i]) then SpaceRunEnd(s, i + 1) else i
  }

  /** The start of the whitespace run ending at `k`, going no further left than `lo`. */
  function SpaceRunStart(s: string, lo: nat, k: nat): (e: nat)
    requires lo <= k <= |s|
    decreases k
    ensures lo <= e <= k
    ensures forall j :: e <= j < k ==> IsSpace(s[j])
    ensures e > lo ==> !IsSpace(s[e - 1])
  {
    if k > lo && IsSpace(s[k - 1]) then SpaceRunStart(s, lo, k - 1) else k
  }

  /** `r` is `s[a..a + |r|]` and everything outside that range is whitespace. */
  predicate StrippedAt(s: string, r: string, a: int) {
    && 0 <= a <= |s| - |r|
    && r == s[a..a + |r|]
    && (forall i :: 0 <= i < a ==> IsSpace(s[i]))
    && (forall i :: a + |r| <= i < |s| ==> IsSpace(s[i]))
  }

  /** str.strip(): the leading whitespace and then the trailing whitespace are dropped. The
      result is a contiguous part of `s` with no whitespace at either end, and everything
      cut off is whitespace. */
  function Strip(s: string): (r: string)
    ensures r != [] ==> !IsSpace(r[0]) && !IsSpace(r[|r| - 1])
    ensures StrippedAt(s, r, SpaceRunEnd(s, 0))
  {
    var a := SpaceRunEnd(s, 0);
    s[a..SpaceRunStart(s, a, |s|)]
  }

  /** get_identity: the stripped capture of the leftmost match, or "default". */
  function GetIdentity(authorization: Option<string>): (r: string)
    ensures ';' !in r
    ensures r != [] ==> !IsSpace(r[0]) && !IsSpace(r[|r| - 1])
  {
    var auth := authorization.GetOr("");
    match FindFrom(auth, 0)
    case None => Default
    case Some(i) =>
      Strip(RunFrom(auth, i + |Marker|))
  }

  /** With a match at `i` and none before it, the identity is the stripped maximal
      non-';' run after the marker. */
  lemma MatchedIdentity(h: string, i: nat)
    requires MatchAt(h, i)
    requires forall j :: 0 <= j < i ==> !MatchAt(h, j)
    ensures i + |Marker| < |h|
    ensures GetIdentity(Some(h)) == Strip(RunFrom(h, i + |Marker|))
  {
    var found := FindFrom(h, 0);
    assert found == Some(i) by {
      if found.Some? {
        assert !(found.value < i) && !(i < found.value);
      }
    }
  }

  /** Without any match, and for a missing header, the identity is "default". */
  lemma UnmatchedIdentity(h: string)
    requires forall j :: !MatchAt(h, j)
    ensures GetIdentity(Some(h)) == Default
    ensures GetIdentity(None) == Default
  {
    assert FindFrom("", 0) == None;
  }

  /** A value made only of whitespace yields the empty identity, not "default". */
  lemma {:induction false} BlankValueIsEmpty(h: string, i: nat)
    requires MatchAt(h, i)
    requires forall j :: 0 <= j < i ==> !MatchAt(h, j)
    requires forall k :: i + |Marker| <= k < |h| && h[k] != ';' ==> IsSpace(h[k])
    ensures GetIdentity(Some(h)) == ""
  {
    MatchedIdentity(h, i);
    var run := RunFrom(h, i + |Marker|);
    assert forall k :: 0 <= k < |run| ==> IsSpace(run[k]) by {
      forall k | 0 <= k < |run| ensures IsSpace(run[k]) {
        assert run[k] == h[i + |Marker| + k];
      }
    }
  }

  /** A match in `t` at `k` is a match in `p + t` at `|p| + k`, and conversely. */
  lemma ShiftMatch(p: string, t: string, k: nat)
    ensures MatchAt(p + t, |p| + k) <==> MatchAt(t, k)
  {
    if |p| + k + |Marker| < |p + t| {
      assert (p + t)[|p| + k..|p| + k + |Marker|] == t[k..k + |Marker|];
    }
  }

  /** Searching `p + t` from `|p|` is searching `t` from 0, shifted by `|p|`. */
  lemma {:induction false} ShiftSearch(p: string, t: string, k: nat)
    requires k <= |t|
    decreases |t| - k
    ensures FindFrom(p + t, |p| + k) == (match FindFrom(t, k)
                                        case None => None
                                        case Some(j) => Some(|p| + j))
  {
    ShiftMatch(p, t, k);
    if k + |Marker| >= |t| {
      assert FindFrom(p + t, |p| + k) == None && FindFrom(t, k) == None;
    } else if MatchAt(t, k) {
      assert FindFrom(p + t, |p| + k) == Some(|p| + k) && FindFrom(t, k) == Some(k);
    } else {
      ShiftSearch(p, t, k + 1);
      assert FindFrom(p + t, |p| + k) == FindFrom(p + t, |p| + (k + 1));
    }
  }

  /** The capture must be non-empty, so `Identity=;` is not a match: the search goes on,
      and the identity is the one the rest of the header gives. */
  lemma EmptyCaptureSkipped(t: string)
    ensures GetIdentity(Some(Marker + ";" + t)) == GetIdentity(Some(t))
  {
    var p := Marker + ";";
    var s := p + t;
    assert Marker + ";" + t == s;
    PrefixHasNoMatch(t);
    ShiftSearch(p, t, 0);
    assert FindFrom(s, 0) == FindFrom(s, |p|) by {
      FindSkips(s, 0, |p|);
    }
    match FindFrom(t, 0)
    case None =>
    case Some(j) =>
      assert RunFrom(s, |p| + j + |Marker|) == RunFrom(t, j + |Marker|) by {
        RunShift(p, t, j + |Marker|);
      }
  }

  /** No match starts inside `Identity=;`: at 0 the capture would be empty, and any later
      start would need the ';' to be part of the marker. */
  lemma PrefixHasNoMatch(t: string)
    ensures forall j :: 0 <= j < |Marker| + 1 ==> !MatchAt(Marker + ";" + t, j)
  {
    var s := Marker + ";" + t;
    assert s[|Marker|] == ';';
    forall j | 0 <= j < |Marker| + 1
      ensures !MatchAt(s, j)
    {
      if j + |Marker| < |s| && j > 0 {
        assert s[j..j + |Marker|][|Marker| - j] == ';';
        assert Marker[|Marker| - j] != ';';
      }
    }
  }

  /** Positions that cannot match do not change the search result. */
  lemma {:induction false} FindSkips(s: string, lo: nat, hi: nat)
    requires lo <= hi
    requires forall j :: lo <= j < hi ==> !MatchAt(s, j)
    decreases hi - lo
    ensures FindFrom(s, lo) == FindFrom(s, hi)
  {
    if lo < hi && lo + |Marker| < |s| {
      FindSkips(s, lo + 1, hi);
    }
  }

  /** The capture after a prefix is the capture in the rest. */
  lemma {:induction false} RunShift(p: string, t: string, k: nat)
    requires k <= |t|
    decreases |t| - k
    ensures RunFrom(p + t, |p| + k) == RunFrom(t, k)
  {
    if k < |t| {
      assert (p + t)[|p| + k] == t[k];
      RunShift(p, t, k + 1);
    }
  }
}
