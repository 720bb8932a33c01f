/**
  String handling the endpoint relies on: Java's `String.trim` (which drops
  every leading and trailing character at or below U+0020), `trimToNone`
  built on it, and the mandatory-parameter test of `run` (non-null and
  non-empty, which is weaker than non-blank).
 */
module Text {
  import opened Domain

  /** The characters `String.trim` removes. */
  predicate IsTrimmed(c: char) {
    c <= ' '
  }

  /** Every character of `s` is one that `trim` removes. */
  predicate Blank(s: string) {
    forall i :: 0 <= i < |s| ==> IsTrimmed(s[i])
  }

  /** `s` without its leading trimmable characters. */
  function TrimStart(s: string): (r: string)
    ensures |r| <= |s| && r == s[|s| - |r|..]
    ensures r != [] ==> !IsTrimmed(r[0])
    ensures forall i :: 0 <= i < |s| - |r| ==> IsTrimmed(s[i])
    decreases |s|
  {
    if s != [] && IsTrimmed(s[0]) then TrimStart(s[1..]) else s
  }

  /** `s` without its trailing trimmable characters. */
  function TrimEnd(s: string): (r: string)
    ensures |r| <= |s| && r == s[..|r|]
    ensures r != [] ==> !IsTrimmed(r[|r| - 1])
    ensures forall i :: |r| <= i < |s| ==> IsTrimmed(s[i])
    decreases |s|
  {
    if s != [] && IsTrimmed(s[|s| - 1]) then TrimEnd(s[..|s| - 1]) else s
  }

  /** Java's `String.trim`: a piece of `s` with no trimmable character at either end. */
  function Trim(s: string): (r: string)
    ensures |r| <= |s|
    ensures r != [] ==> !IsTrimmed(r[0]) && !IsTrimmed(r[|r| - 1])
  {
    var t := TrimStart(s);
    var r := TrimEnd(t);
    assert r != [] ==> r[0] == t[0];
    r
  }

  /**
    `trimToNone`: none for a null or blank string, otherwise the trimmed
    string.
   */
  function TrimToNone(s: Option<string>): (r: Option<string>)
  {
    if s.None? || Trim(s.value) == [] then None else Some(Trim(s.value))
  }

  /**
    The trimmed string is the contiguous piece `s[i..j]` of `s`: what is cut
    off at either end is blank, and what is kept has no trimmable character
    at either end, so the cut is the largest one.
   */
  lemma {:induction false} TrimIsInnerSlice(s: string) returns (i: nat, j: nat)
    ensures i <= j <= |s| && Trim(s) == s[i..j]
    ensures Blank(s[..i]) && Blank(s[j..])
    ensures var r := Trim(s); r != [] ==> !IsTrimmed(r[0]) && !IsTrimmed(r[|r| - 1])
  {
    var n;
    i := TrimStartCut(s);
    var t := TrimStart(s);
    n := TrimEndCut(t);
    j := i + n;
    SliceOfSuffix(s, i, n);
    assert Trim(s) == t[..n];
    if n > 0 {
      assert t[..n][0] == t[0];
    }
  }

  /** Cutting the suffix `s[i..]` at `n` is cutting `s` at `i + n`. */
  lemma SliceOfSuffix(s: string, i: nat, n: nat)
    requires i + n <= |s|
    ensures s[i..][..n] == s[i..i + n] && s[i..][n..] == s[i + n..]
  {
  }

  /** `TrimStart` cuts off a blank prefix `s[..i]` and keeps `s[i..]`. */
  lemma TrimStartCut(s: string) returns (i: nat)
    ensures i <= |s| && TrimStart(s) == s[i..] && Blank(s[..i])
  {
    i := |s| - |TrimStart(s)|;
    assert forall k :: 0 <= k < i ==> s[..i][k] == s[k];
  }

  /** `TrimEnd` cuts off a blank suffix `t[n..]` and keeps `t[..n]`. */
  lemma TrimEndCut(t: string) returns (n: nat)
    ensures n <= |t| && TrimEnd(t) == t[..n] && Blank(t[n..])
  {
    n := |TrimEnd(t)|;
    assert forall k :: 0 <= k < |t| - n ==> t[n..][k] == t[n + k];
  }

  /** Trimming twice is trimming once. */
  lemma TrimIdempotent(s: string)
    ensures Trim(Trim(s)) == Trim(s)
  {
    var r := Trim(s);
    var i, j := TrimIsInnerSlice(s);
    if r != [] {
      assert TrimStart(r) == r;
      assert TrimEnd(r) == r;
    }
  }

  /** `trim` yields the empty string exactly for blank input. */
  lemma {:induction false} TrimEmptyIffBlank(s: string)
    ensures Trim(s) == [] <==> Blank(s)
  {
    var t := TrimStart(s);
    if t == [] {
      assert Blank(s);
    } else {
      assert !IsTrimmed(s[|s| - |t|]);
      assert TrimEnd(t) != [];
    }
  }

  /**
    `trimToNone` is none exactly for null or blank input, and otherwise holds
    the trimmed string, which is non-empty with no trimmable character at
    either end.
   */
  lemma TrimToNoneSpec(s: Option<string>)
    ensures TrimToNone(s).None? <==> s.None? || Blank(s.value)
    ensures TrimToNone(s).Some? ==> TrimToNone(s).value == Trim(s.value)
    ensures TrimToNone(s).Some? ==>
      var r := TrimToNone(s).value;
      r != [] && !IsTrimmed(r[0]) && !IsTrimmed(r[|r| - 1])
  {
    if s.Some? {
      TrimEmptyIffBlank(s.value);
      var i, j := TrimIsInnerSlice(s.value);
    }
  }

  /**
    `run`'s test of a mandatory parameter: it is not null and its string form
    is not empty. A string of blanks passes.
   */
  predicate Present(p: Option<string>) {
    p.Some? && |p.value| > 0
  }
}
