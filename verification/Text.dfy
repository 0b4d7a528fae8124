/**
 The string operations of the C++ and Boost libraries that the modelled code relies on,
 with the laws the other modules need. A search that finds nothing returns NPOS.
 */
module Text {

  datatype Option<+T> = None | Some(value: T)

  datatype Result<+T, +E> = Ok(value: T) | Error(error: E)

  const NPOS: int := -1

  /** Whether `pat` occurs in `s` at index `i`. */
  predicate At(s: string, pat: string, i: nat) {
    i + |pat| <= |s| && s[i..i + |pat|] == pat
  }

  /** The first index, from `from` on, at which `pat` occurs in `s`. */
  function Find(s: string, pat: string, from: nat): (r: int)
    ensures r == NPOS || (from <= r && At(s, pat, r))
    ensures forall i: nat :: from <= i && (r == NPOS || i < r) ==> !At(s, pat, i)
    decreases |s| - from
  {
    if |s| < from + |pat| then NPOS
    else if At(s, pat, from) then from
    else Find(s, pat, from + 1)
  }

  /** The first index, from `from` on, at which `s` holds the character `c`. */
  function FindChar(s: string, c: char, from: nat): (r: int)
    ensures r == NPOS || (from <= r < |s| && s[r] == c)
    decreases |s| - from
  {
    if from >= |s| then NPOS else if s[from] == c then from else FindChar(s, c, from + 1)
  }

  /** The last index, up to `upTo`, at which `s` holds the character `c`. */
  function RFind(s: string, c: char, upTo: nat): (r: int)
    ensures r == NPOS || (0 <= r < |s| && r <= upTo && s[r] == c)
    ensures forall i: nat :: r < i <= upTo && i < |s| ==> s[i] != c
    decreases upTo
  {
    if upTo < |s| && s[upTo] == c then upTo
    else if upTo == 0 then NPOS
    else RFind(s, c, upTo - 1)
  }

  predicate StartsWith(s: string, pat: string) {
    At(s, pat, 0)
  }

  predicate Contains(s: string, pat: string) {
    Find(s, pat, 0) != NPOS
  }

  /** The pieces between the leftmost, non-overlapping occurrences of `pat`. */
  function Split(s: string, pat: string): (r: seq<string>)
    requires pat != ""
    ensures |r| >= 1
    decreases |s|
  {
    var p := Find(s, pat, 0);
    if p == NPOS then [s] else [s[..p]] + Split(s[p + |pat|..], pat)
  }

  function Join(parts: seq<string>, sep: string): string {
    if parts == [] then ""
    else if |parts| == 1 then parts[0]
    else parts[0] + sep + Join(parts[1..], sep)
  }

  /** C++ `substr`: the requested length is clamped to what is left. */
  function Substr(s: string, pos: nat, len: nat): (r: string)
    requires pos <= |s|
    ensures r <= s[pos..] && |r| == if len <= |s| - pos then len else |s| - pos
  {
    if len <= |s| - pos then s[pos..pos + len] else s[pos..]
  }

  /** The part of `s` that a NUL-terminated reading of it sees. */
  function CStr(s: string): (r: string)
    ensures r <= s && '\0' !in r
    ensures |r| < |s| ==> s[|r|] == '\0'
  {
    if s == "" || s[0] == '\0' then "" else [s[0]] + CStr(s[1..])
  }

  function Reverse<T>(s: seq<T>): (r: seq<T>)
    ensures |r| == |s|
  {
    if s == [] then [] else Reverse(s[1..]) + [s[0]]
  }

  // ---- Laws ---------------------------------------------------------------------------

  /** Where the first occurrence is known, so is the search. */
  lemma FindIs(s: string, pat: string, from: nat, p: nat)
    requires from <= p && At(s, pat, p)
    requires forall i: nat :: from <= i < p ==> !At(s, pat, i)
    ensures Find(s, pat, from) == p
  {
  }

  lemma FindNone(s: string, pat: string, from: nat)
    requires forall i: nat :: from <= i ==> !At(s, pat, i)
    ensures Find(s, pat, from) == NPOS
  {
  }

  lemma AtHead(s: string, pat: string, i: nat)
    requires pat != ""
    ensures At(s, pat, i) ==> s[i] == pat[0]
  {
    if At(s, pat, i) {
      assert s[i] == s[i..i + |pat|][0];
    }
  }

  /** A prefix without the pattern's first character holds no start of an occurrence. */
  lemma FindAfterClean(a: string, rest: string, pat: string)
    requires pat != "" && pat[0] !in a
    requires StartsWith(rest, pat)
    ensures Find(a + rest, pat, 0) == |a|
  {
    var s := a + rest;
    assert s[|a|..|a| + |pat|] == rest[0..|pat|];
    forall i: nat | i < |a| ensures !At(s, pat, i) {
      AtHead(s, pat, i);
      assert s[i] == a[i];
    }
    FindIs(s, pat, 0, |a|);
  }

  lemma FindInClean(a: string, pat: string)
    requires pat != "" && pat[0] !in a
    ensures Find(a, pat, 0) == NPOS
  {
    forall i: nat ensures !At(a, pat, i) {
      AtHead(a, pat, i);
      assert i < |a| ==> a[i] in a;
    }
    FindNone(a, pat, 0);
  }

  lemma SplitAt(s: string, pat: string, a: string, b: string)
    requires pat != "" && s == a + pat + b
    requires Find(s, pat, 0) == |a|
    ensures Split(s, pat) == [a] + Split(b, pat)
  {
    assert s[..|a|] == a;
    assert s[|a| + |pat|..] == b;
  }

  lemma SplitAtStart(s: string, pat: string)
    requires pat != "" && Find(s, pat, 0) == 0
    ensures |pat| <= |s| && Split(s, pat) == [""] + Split(s[|pat|..], pat)
  {
    assert s[..0] == "";
  }

  /** The pieces of a string, put together again. */
  lemma {:induction false} JoinSplit(s: string, pat: string)
    requires pat != ""
    ensures Join(Split(s, pat), pat) == s
    decreases |s|
  {
    var p := Find(s, pat, 0);
    if p != NPOS {
      JoinSplit(s[p + |pat|..], pat);
      assert Split(s, pat)[1..] == Split(s[p + |pat|..], pat);
      assert s == s[..p] + s[p..p + |pat|] + s[p + |pat|..];
    }
  }

  lemma {:induction false} ReverseConcat<T>(a: seq<T>, b: seq<T>)
    ensures Reverse(a + b) == Reverse(b) + Reverse(a)
  {
    if a == [] {
      assert a + b == b;
    } else {
      assert (a + b)[1..] == a[1..] + b;
      ReverseConcat(a[1..], b);
    }
  }
}
