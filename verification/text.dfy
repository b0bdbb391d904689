/**
 * The string operations the validator relies on: Python's whitespace class,
 * `str.strip()`, `str.startswith()` and `str.split(sep, 1)`.
 */
module Text {
  import opened Wrappers

  /**
   * Python's whitespace: the characters for which `str.isspace()` holds. These
   * are the characters `str.strip()` removes and the ones `\s` matches in a
   * regular expression over `str`.
   */
  predicate IsWs(c: char) {
    var n := c as int;
    || (0x09 <= n <= 0x0D)
    || (0x1C <= n <= 0x20)
    || n == 0x85
    || n == 0xA0
    || n == 0x1680
    || (0x2000 <= n <= 0x200A)
    || n == 0x2028
    || n == 0x2029
    || n == 0x202F
    || n == 0x205F
    || n == 0x3000
  }

  predicate AllWs(s: string) {
    forall i :: 0 <= i < |s| ==> IsWs(s[i])
  }

  /** Every character of `s` before `i` and from `j` on is whitespace. */
  predicate WsOutside(s: string, i: int, j: int) {
    && (forall k :: 0 <= k < i && k < |s| ==> IsWs(s[k]))
    && (forall k :: 0 <= j <= k < |s| ==> IsWs(s[k]))
  }

  /** Neither end of `s` is whitespace: `s` is a fixed point of `strip()`. */
  predicate IsTrimmed(s: string) {
    |s| == 0 || (!IsWs(s[0]) && !IsWs(s[|s| - 1]))
  }

  /** Non-empty and with no surrounding whitespace: what a kept entry or option looks like. */
  predicate IsClean(s: string) {
    s != [] && IsTrimmed(s)
  }

  /** `s` holds `r` at position `i` and only whitespace around it. */
  predicate PaddedAt(s: string, r: string, i: int) {
    0 <= i <= |s| - |r| && s[i..i + |r|] == r && WsOutside(s, i, i + |r|)
  }

  /** `s` is `r` with some whitespace before it and some after it. */
  ghost predicate IsWsPadded(s: string, r: string) {
    exists i :: PaddedAt(s, r, i)
  }

  /** The first position at or after `i` that does not hold whitespace (or `|s|`). */
  function SkipWs(s: string, i: nat): (j: nat)
    requires i <= |s|
    ensures i <= j <= |s|
    ensures forall k :: i <= k < j ==> IsWs(s[k])
    ensures j < |s| ==> !IsWs(s[j])
    decreases |s| - i
  {
    if i < |s| && IsWs(s[i]) then SkipWs(s, i + 1) else i
  }

  /** The end of `s[lo..j]` once its trailing whitespace is removed. */
  function SkipWsBack(s: string, lo: nat, j: nat): (e: nat)
    requires lo <= j <= |s|
    ensures lo <= e <= j
    ensures forall k :: e <= k < j ==> IsWs(s[k])
    ensures lo < e ==> !IsWs(s[e - 1])
    decreases j - lo
  {
    if lo < j && IsWs(s[j - 1]) then SkipWsBack(s, lo, j - 1) else j
  }

  /** Python's `s.strip()`: leading whitespace is removed, then trailing whitespace. */
  function Trim(s: string): (r: string)
    ensures IsTrimmed(r)
    ensures |r| <= |s|
  {
    var lo := SkipWs(s, 0);
    s[lo..SkipWsBack(s, lo, |s|)]
  }

  /** `strip()` removes only whitespace, and only from the two ends. */
  lemma TrimPads(s: string)
    ensures IsWsPadded(s, Trim(s))
  {
    var lo := SkipWs(s, 0);
    var hi := SkipWsBack(s, lo, |s|);
    assert s[lo..lo + |Trim(s)|] == Trim(s);
    assert PaddedAt(s, Trim(s), lo);
  }

  /** A string whose only characters are whitespace strips to the empty string and nothing else does. */
  lemma TrimEmptyIffAllWs(s: string)
    ensures Trim(s) == [] <==> AllWs(s)
  {
    var lo := SkipWs(s, 0);
    var hi := SkipWsBack(s, lo, |s|);
    if hi == lo {
      assert lo == |s|;
    } else {
      assert !IsWs(s[lo]);
    }
  }

  /** Two non-empty trimmed strings that `s` pads are the same string. */
  lemma SamePadding(s: string, r: string, i: int, t: string, j: int)
    requires |r| > 0 && IsTrimmed(r) && |t| > 0 && IsTrimmed(t)
    requires PaddedAt(s, r, i) && PaddedAt(s, t, j)
    ensures r == t
  {
    assert s[i] == r[0] && s[j] == t[0];
    assert s[i + |r| - 1] == r[|r| - 1] && s[j + |t| - 1] == t[|t| - 1];
    assert i == j;
    assert |r| == |t|;
  }

  /** `strip()` is determined by its contract: the only trimmed string `s` pads is `Trim(s)`. */
  lemma TrimUnique(s: string, r: string)
    requires IsTrimmed(r) && IsWsPadded(s, r)
    ensures Trim(s) == r
  {
    var t := Trim(s);
    TrimEmptyIffAllWs(s);
    TrimPads(s);
    var i :| PaddedAt(s, r, i);
    if |r| == 0 {
      assert AllWs(s) by {
        forall k | 0 <= k < |s| ensures IsWs(s[k]) {
          if k >= i { assert i + |r| <= k; }
        }
      }
    } else {
      assert !IsWs(s[i]) by { assert s[i] == r[0]; }
      assert |t| > 0;
      var j :| PaddedAt(s, t, j);
      SamePadding(s, r, i, t, j);
    }
  }

  /** A trimmed string is left unchanged by `strip()`. */
  lemma TrimTrimmed(s: string)
    requires IsTrimmed(s)
    ensures Trim(s) == s
  {
    assert s[0..0 + |s|] == s;
    assert PaddedAt(s, s, 0);
    TrimUnique(s, s);
  }

  /** `strip()` is idempotent. */
  lemma TrimIdempotent(s: string)
    ensures Trim(Trim(s)) == Trim(s)
  {
    TrimTrimmed(Trim(s));
  }

  /** Python's `s.startswith(p)`. */
  predicate StartsWith(s: string, p: string) {
    |p| <= |s| && s[..|p|] == p
  }

  predicate OccursAt(s: string, sep: string, k: nat) {
    k + |sep| <= |s| && s[k..k + |sep|] == sep
  }

  /** The first position at or after `from` where `sep` occurs in `s`. */
  function FindFrom(s: string, sep: string, from: nat): (r: Option<nat>)
    ensures r.Some? ==> from <= r.value && OccursAt(s, sep, r.value)
    ensures r.Some? ==> forall k :: from <= k < r.value ==> !OccursAt(s, sep, k)
    ensures r.None? ==> forall k :: from <= k ==> !OccursAt(s, sep, k)
    decreases |s| - from
  {
    if from + |sep| > |s| then None
    else if OccursAt(s, sep, from) then Some(from)
    else FindFrom(s, sep, from + 1)
  }

  /** `sep` occurs in `s` at `k` and nowhere before. */
  predicate IsFirstOccurrence(s: string, sep: string, k: nat) {
    OccursAt(s, sep, k) && forall j :: 0 <= j < k ==> !OccursAt(s, sep, j)
  }

  /** Python's `s.split(sep, 1)[1]`: the text after the first occurrence of `sep`, if there is one. */
  function SplitAfterFirst(s: string, sep: string): (r: Option<string>)
    ensures r.None? <==> forall k :: 0 <= k ==> !OccursAt(s, sep, k)
    ensures forall k: nat :: IsFirstOccurrence(s, sep, k) ==> r == Some(s[k + |sep|..])
    ensures r.Some? ==> |r.value| + |sep| <= |s| && r.value == s[|s| - |r.value|..]
    ensures StartsWith(s, sep) ==> r == Some(s[|sep|..])
  {
    match FindFrom(s, sep, 0)
    case None => None
    case Some(k) =>
      assert StartsWith(s, sep) ==> OccursAt(s, sep, 0);
      Some(s[k + |sep|..])
  }
}
