/**
 * The part of JavaScript's string semantics the chat client relies on:
 * `String.prototype.trim` and the truthiness test `!s.trim()` used to
 * reject blank input.
 */
module JsString {

  /** The WhiteSpace and LineTerminator code points of ECMA-262
      (sections 12.2 and 12.3), which `trim` strips from both ends. */
  predicate IsWs(c: char) {
    var n := c as int;
    || n == 0x09 || n == 0x0A || n == 0x0B || n == 0x0C || n == 0x0D
    || n == 0x20 || n == 0xA0 || n == 0x1680
    || (0x2000 <= n <= 0x200A)
    || n == 0x2028 || n == 0x2029 || n == 0x202F || n == 0x205F
    || n == 0x3000 || n == 0xFEFF
  }

  /** Every character of `s` in positions `lo` to `hi - 1` is white space. */
  predicate WsBetween(s: string, lo: int, hi: int)
    requires 0 <= lo <= hi <= |s|
  {
    forall k :: lo <= k < hi ==> IsWs(s[k])
  }

  /** Every character of `s` is white space (vacuously true of ""). */
  predicate AllWs(s: string) {
    WsBetween(s, 0, |s|)
  }

  /** Number of white-space characters at the front of `s`. */
  function LeadingWs(s: string): (n: nat)
    ensures n <= |s|
    ensures WsBetween(s, 0, n)
    ensures n < |s| ==> !IsWs(s[n])
  {
    if |s| > 0 && IsWs(s[0]) then
      var m := LeadingWs(s[1..]);
      assert forall k :: 1 <= k < 1 + m ==> s[1..][k - 1] == s[k];
      1 + m
    else
      0
  }

  /** Number of white-space characters at the back of `s`. */
  function TrailingWs(s: string): (n: nat)
    ensures n <= |s|
    ensures WsBetween(s, |s| - n, |s|)
    ensures n < |s| ==> !IsWs(s[|s| - n - 1])
  {
    if |s| > 0 && IsWs(s[|s| - 1]) then
      1 + TrailingWs(s[..|s| - 1])
    else
      0
  }

  /** The leading white-space run is the unique split point with white
      space before it and a non-white-space character (or the end) at it. */
  lemma LeadingWsUnique(s: string, i: nat)
    requires i <= |s|
    requires WsBetween(s, 0, i)
    requires i < |s| ==> !IsWs(s[i])
    ensures LeadingWs(s) == i
  {
  }

  /** Mirror image of `LeadingWsUnique` for the trailing run. */
  lemma TrailingWsUnique(s: string, i: nat)
    requires i <= |s|
    requires WsBetween(s, |s| - i, |s|)
    requires i < |s| ==> !IsWs(s[|s| - i - 1])
    ensures TrailingWs(s) == i
  {
  }

  /** `s.trim()`: `s` with its leading and its trailing white-space runs
      removed. */
  function Trim(s: string): (r: string)
    ensures |r| <= |s|
    ensures r != [] ==> !IsWs(r[0]) && !IsWs(r[|r| - 1])
  {
    var t := s[LeadingWs(s)..];
    t[..|t| - TrailingWs(t)]
  }


  /** JavaScript's `!s.trim()`: the trimmed string is empty, hence falsy. */
  predicate IsBlank(s: string) {
    Trim(s) == []
  }

  /** The trimmed string is a slice of `s` with nothing but white space
      outside it. */
  lemma TrimIsWsBoundedSlice(s: string)
    ensures exists i, j :: 0 <= i <= j <= |s| && Trim(s) == s[i..j] && WsBetween(s, 0, i) && WsBetween(s, j, |s|)
  {
    var i := LeadingWs(s);
    var t := s[i..];
    var j := |s| - TrailingWs(t);
    assert forall k :: j <= k < |s| ==> t[k - i] == s[k];
    assert Trim(s) == s[i..j];
  }

  /** A string is blank exactly when it consists of white space only,
      the empty string included. */
  lemma BlankIffAllWs(s: string)
    ensures IsBlank(s) <==> AllWs(s)
  {
    var i := LeadingWs(s);
    var t := s[i..];
    if AllWs(s) {
      LeadingWsUnique(s, |s|);
    } else {
      assert i < |s|;
      assert !IsWs(t[0]);
    }
  }

  /** The trimmed string is the ONLY slice of `s` with white space alone
      outside it and non-white-space characters at both of its ends, so
      `Trim` is pinned down by that description. */
  lemma TrimIsUniqueSlice(s: string, i: nat, j: nat)
    requires i <= j <= |s|
    requires WsBetween(s, 0, i) && WsBetween(s, j, |s|)
    requires i < j ==> !IsWs(s[i]) && !IsWs(s[j - 1])
    ensures Trim(s) == s[i..j]
  {
    if i == j {
      BlankIffAllWs(s);
    } else {
      LeadingWsUnique(s, i);
      var t := s[i..];
      assert forall k :: j <= k < |s| ==> t[k - i] == s[k];
      TrailingWsUnique(t, |s| - j);
    }
  }

  /** Trimming twice is the same as trimming once. */
  lemma TrimIdempotent(s: string)
    ensures Trim(Trim(s)) == Trim(s)
  {
    var r := Trim(s);
    if r == [] {
    } else {
      TrimIsUniqueSlice(r, 0, |r|);
    }
  }

  /** A non-empty word without white space is its own trim. */
  lemma TrimOfWord(w: string)
    requires |w| > 0
    requires forall k :: 0 <= k < |w| ==> !IsWs(w[k])
    ensures Trim(w) == w && !IsBlank(w)
  {
    TrimIsUniqueSlice(w, 0, |w|);
    assert w[0..|w|] == w;
  }
}
