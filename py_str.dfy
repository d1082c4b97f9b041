/**
 * The Python `str` operations the utilities are built from, on strings as
 * sequences of code points: `find`, slicing `s[i:j]`, `strip()` and
 * `endswith`, each with CPython's semantics.
 */
module PyStr {

  /** `c.isspace()`: the code points CPython treats as whitespace. */
  predicate IsSpace(c: char) {
    || ('\t' <= c <= '\r')
    || ('\U{1C}' <= c <= ' ')
    || c == '\U{85}' || c == '\U{A0}' || c == '\U{1680}'
    || ('\U{2000}' <= c <= '\U{200A}')
    || c == '\U{2028}' || c == '\U{2029}' || c == '\U{202F}'
    || c == '\U{205F}' || c == '\U{3000}'
  }

  ghost predicate AllSpace(s: string) {
    forall k :: 0 <= k < |s| ==> IsSpace(s[k])
  }

  /** `sub` occurs in `s` starting at index `k`. */
  predicate OccursAt(s: string, sub: string, k: int) {
    0 <= k && k + |sub| <= |s| && s[k..k + |sub|] == sub
  }

  /** `sub in s`. */
  ghost predicate Contains(s: string, sub: string) {
    exists k :: OccursAt(s, sub, k)
  }

  /**
   * `s.find(sub, start)` for a non-negative `start`: the lowest index at or
   * after `start` where `sub` occurs, or -1 when there is none (FindSpec).
   */
  function Find(s: string, sub: string, start: nat): (r: int)
    decreases |s| - start
    ensures r == -1 || (start <= r && r + |sub| <= |s|)
  {
    if start + |sub| > |s| then -1
    else if s[start..start + |sub|] == sub then start
    else Find(s, sub, start + 1)
  }

  /** What `find` promises: an occurrence at the index it returns and none before it. */
  lemma {:induction false} FindSpec(s: string, sub: string, start: nat)
    decreases |s| - start
    ensures var r := Find(s, sub, start);
      && (r == -1 || OccursAt(s, sub, r))
      && (r == -1 ==> forall k :: start <= k ==> !OccursAt(s, sub, k))
      && (r != -1 ==> forall k :: start <= k < r ==> !OccursAt(s, sub, k))
  {
    if start + |sub| <= |s| && s[start..start + |sub|] != sub {
      FindSpec(s, sub, start + 1);
    }
  }

  /** Conversely, the first occurrence at or after `start` is what `find` returns. */
  lemma FindIsFirst(s: string, sub: string, start: nat, i: int)
    requires start <= i && OccursAt(s, sub, i)
    requires forall k :: start <= k < i ==> !OccursAt(s, sub, k)
    ensures Find(s, sub, start) == i
  {
    FindSpec(s, sub, start);
  }

  /** With no occurrence at or after `start`, `find` returns -1. */
  lemma FindAbsent(s: string, sub: string, start: nat)
    requires forall k :: start <= k ==> !OccursAt(s, sub, k)
    ensures Find(s, sub, start) == -1
  {
    FindSpec(s, sub, start);
  }

  /** A slice bound normalised against the length `n`, as `s[i:j]` does. */
  function SliceIndex(i: int, n: nat): (r: nat)
    ensures r <= n
    ensures 0 <= i <= n ==> r == i
    ensures i < 0 && 0 <= i + n ==> r == i + n
    ensures i + n < 0 ==> r == 0
    ensures i > n ==> r == n
  {
    if i < 0 then (if i + n < 0 then 0 else i + n)
    else if i > n then n
    else i
  }

  /** `s[i:j]`: out-of-range bounds are clamped, negative ones count from the end. */
  function Slice(s: string, i: int, j: int): (r: string)
    ensures |r| <= |s|
    ensures 0 <= i <= j <= |s| ==> r == s[i..j]
  {
    var lo, hi := SliceIndex(i, |s|), SliceIndex(j, |s|);
    if lo <= hi then s[lo..hi] else []
  }

  /** A slice that ends at -1 stops just before the last character. */
  lemma SliceToMinusOne(s: string, i: int)
    requires 0 <= i
    ensures Slice(s, i, -1) == if i < |s| then s[i..|s| - 1] else []
  {
  }

  /** The first index at or after `i` that holds no whitespace, or `|s|`. */
  function FirstNonSpace(s: string, i: nat): (r: nat)
    requires i <= |s|
    decreases |s| - i
    ensures i <= r <= |s|
    ensures forall k :: i <= k < r ==> IsSpace(s[k])
    ensures r < |s| ==> !IsSpace(s[r])
  {
    if i == |s| || !IsSpace(s[i]) then i else FirstNonSpace(s, i + 1)
  }

  /** The end of `s[lo..j]` once its trailing whitespace is dropped. */
  function EndOfNonSpace(s: string, lo: nat, j: nat): (r: nat)
    requires lo <= j <= |s|
    ensures lo <= r <= j
    ensures forall k :: r <= k < j ==> IsSpace(s[k])
    ensures lo < r ==> !IsSpace(s[r - 1])
  {
    if j == lo || !IsSpace(s[j - 1]) then j else EndOfNonSpace(s, lo, j - 1)
  }

  /**
   * `s[a..b]` is what is left of `s` once its leading and trailing
   * whitespace is gone.
   */
  ghost predicate Trims(s: string, a: int, b: int) {
    && 0 <= a <= b <= |s|
    && AllSpace(s[..a])
    && AllSpace(s[b..])
    && (a < b ==> !IsSpace(s[a]) && !IsSpace(s[b - 1]))
  }

  /** `s.strip()`. */
  function Strip(s: string): (r: string)
    ensures |r| <= |s|
    ensures r == [] || (!IsSpace(r[0]) && !IsSpace(r[|r| - 1]))
  {
    var a := FirstNonSpace(s, 0);
    s[a..EndOfNonSpace(s, a, |s|)]
  }

  /** `strip()` keeps a window of `s` and drops only whitespace around it. */
  lemma StripSpan(s: string) returns (a: nat, b: nat)
    ensures Trims(s, a, b) && Strip(s) == s[a..b]
  {
    a := FirstNonSpace(s, 0);
    b := EndOfNonSpace(s, a, |s|);
    assert forall k :: 0 <= k < |s[..a]| ==> IsSpace(s[..a][k]);
    assert forall k :: 0 <= k < |s[b..]| ==> IsSpace(s[b..][k]) by {
      forall k | 0 <= k < |s[b..]| ensures IsSpace(s[b..][k]) { assert s[b..][k] == s[b + k]; }
    }
  }

  /** Stripping has exactly one possible outcome: any trimmed window is it. */
  lemma StripUnique(s: string, a: int, b: int)
    requires Trims(s, a, b)
    ensures Strip(s) == s[a..b]
  {
    var i := FirstNonSpace(s, 0);
    var j := EndOfNonSpace(s, i, |s|);
    assert forall k :: 0 <= k < a ==> IsSpace(s[k]) by {
      forall k | 0 <= k < a ensures IsSpace(s[k]) { assert s[..a][k] == s[k]; }
    }
    assert forall k :: b <= k < |s| ==> IsSpace(s[k]) by {
      forall k | b <= k < |s| ensures IsSpace(s[k]) { assert s[b..][k - b] == s[k]; }
    }
    if a < b {
      assert i == a;
      assert j == b;
    } else {
      assert i == |s|;
    }
  }

  /** Whitespace padding around a string with no whitespace at its ends is exactly what `strip()` removes. */
  lemma StripPadded(pre: string, t: string, post: string)
    requires AllSpace(pre) && AllSpace(post)
    requires t == [] || (!IsSpace(t[0]) && !IsSpace(t[|t| - 1]))
    ensures Strip(pre + t + post) == t
  {
    var s := pre + t + post;
    assert s[..|pre|] == pre;
    assert s[|pre| + |t|..] == post;
    assert s[|pre|..|pre| + |t|] == t;
    if t == [] {
      assert forall k :: 0 <= k < |s| ==> IsSpace(s[k]) by {
        forall k | 0 <= k < |s| ensures IsSpace(s[k]) {
          if k < |pre| { assert s[k] == pre[k]; } else { assert s[k] == post[k - |pre|]; }
        }
      }
      assert s[..|s|] == s && s[|s|..] == [];
      StripUnique(s, |s|, |s|);
    } else {
      assert s[|pre|] == t[0] && s[|pre| + |t| - 1] == t[|t| - 1];
      StripUnique(s, |pre|, |pre| + |t|);
    }
  }

  /** Stripping a stripped string changes nothing. */
  lemma StripIdempotent(s: string)
    ensures Strip(Strip(s)) == Strip(s)
  {
    StripTrimmed(Strip(s));
  }

  /** A whitespace character followed by one that is not strips to the second. */
  lemma StripAfterSpace(t: string)
    requires |t| == 2 && IsSpace(t[0]) && !IsSpace(t[1])
    ensures Strip(t) == t[1..]
  {
    assert t[..1] == [t[0]] && t[2..] == [];
    StripUnique(t, 1, 2);
  }

  /** A string with no whitespace at either end is its own `strip()`. */
  lemma StripTrimmed(t: string)
    requires t == [] || (!IsSpace(t[0]) && !IsSpace(t[|t| - 1]))
    ensures Strip(t) == t
  {
    assert t[..0] == [] && t[|t|..] == [];
    assert Trims(t, 0, |t|);
    StripUnique(t, 0, |t|);
    assert t[0..|t|] == t;
  }

  /** `s.endswith(suffix)`. */
  function EndsWith(s: string, suffix: string): (r: bool)
  {
    |suffix| <= |s| && s[|s| - |suffix|..] == suffix
  }

  /** `s.endswith(suffix)` holds exactly when `s` is some prefix followed by `suffix`. */
  lemma EndsWithSpec(s: string, suffix: string)
    ensures EndsWith(s, suffix) <==> exists pre :: s == pre + suffix
  {
    if EndsWith(s, suffix) {
      var pre := s[..|s| - |suffix|];
      assert s == pre + suffix;
    }
    if pre :| s == pre + suffix {
      assert s[|s| - |suffix|..] == suffix;
    }
  }

  /** A window of a window is a window of the whole string. */
  lemma SliceOfSlice(s: string, lo: int, hi: int, k: int, m: int)
    requires 0 <= lo <= hi <= |s| && 0 <= k <= m <= hi - lo
    ensures s[lo..hi][k..m] == s[lo + k..lo + m]
  {
    var u, v := s[lo..hi][k..m], s[lo + k..lo + m];
    assert forall i :: 0 <= i < |u| ==> u[i] == v[i];
  }

  /** Stripping a window of `s` leaves a window of `s` inside it. */
  lemma StripWindow(s: string, lo: int, hi: int) returns (p: nat, q: nat)
    requires 0 <= lo <= hi <= |s|
    ensures lo <= p <= q <= hi && Strip(s[lo..hi]) == s[p..q]
  {
    var a, b := StripSpan(s[lo..hi]);
    SliceOfSlice(s, lo, hi, a, b);
    p, q := lo + a, lo + b;
  }

  /** No occurrence of `sub` starts inside `s[lo..hi]`, so `s[lo..hi]` does not contain it. */
  lemma NoOccurrenceInSlice(s: string, sub: string, lo: int, hi: int)
    requires 0 <= lo <= hi <= |s|
    requires forall k :: lo <= k && k + |sub| <= hi ==> !OccursAt(s, sub, k)
    ensures !Contains(s[lo..hi], sub)
  {
    var t := s[lo..hi];
    forall k ensures !OccursAt(t, sub, k) {
      if 0 <= k && k + |sub| <= |t| {
        SliceOfSlice(s, lo, hi, k, k + |sub|);
        assert !OccursAt(s, sub, lo + k);
      }
    }
  }
}
