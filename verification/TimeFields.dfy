/**
 Splitting a time such as `day:hour:minute` into its fields, the last one first. The loop
 searches backwards from just before the separator it last found, in unsigned arithmetic.
 */
module TimeFields {
  import opened Text

  const SIZE_T: nat := 0x1_0000_0000_0000_0000

  /** The fields of a time, from the right. */
  function Tokens(time: string, separator: char): seq<string> {
    Reverse(Split(time, [separator]))
  }

  method GetTimeTokens(timeFormat: string, separator: char) returns (timeTokens: seq<string>)
    requires timeFormat == "" || timeFormat[0] != separator
    ensures timeTokens == Tokens(timeFormat, separator)
  {
    timeTokens := [];
    var s := timeFormat;
    var begin := RFind(s, separator, |s|);
    var end := |s| - 1;
    if begin == NPOS {
      timeTokens := [s];
      NoSeparator(s, separator);
    } else {
      assert begin == RFind(s, separator, end);
      assert s[..end + 1] == s && [] + Tokens(s, separator) == Tokens(s, separator);
    }
    while begin != NPOS
      invariant begin == NPOS ==> timeTokens == Tokens(s, separator)
      invariant begin != NPOS ==> 0 < begin <= end < |s| && begin == RFind(s, separator, end)
      invariant begin != NPOS ==> Tokens(s, separator) == timeTokens + Tokens(s[..end + 1], separator)
      decreases begin
    {
      TokensStep(s, begin, end, separator, timeTokens);
      timeTokens := timeTokens + [s[begin + 1..end + 1]];
      end := begin - 1;
      begin := RFind(s, separator, end);
      if begin == NPOS {
        NoneLeft(s, end, separator);
        timeTokens := timeTokens + [s[..end + 1]];
      }
    }
  }

  lemma NoneLeft(s: string, end: nat, c: char)
    requires end < |s| && RFind(s, c, end) == NPOS
    ensures Tokens(s[..end + 1], c) == [s[..end + 1]]
  {
    NoSeparator(s[..end + 1], c);
  }

  lemma TokensStep(s: string, begin: nat, end: nat, c: char, done: seq<string>)
    requires begin <= end < |s| && begin == RFind(s, c, end)
    ensures done + Tokens(s[..end + 1], c) == done + [s[begin + 1..end + 1]] + Tokens(s[..begin], c)
  {
    LastField(s, begin, end, c);
    var field, rest := s[begin + 1..end + 1], Tokens(s[..begin], c);
    assert done + ([field] + rest) == done + [field] + rest;
  }

  lemma LastField(s: string, begin: nat, end: nat, c: char)
    requires begin <= end < |s| && s[begin] == c
    requires forall j | begin < j <= end :: s[j] != c
    ensures Tokens(s[..end + 1], c) == [s[begin + 1..end + 1]] + Tokens(s[..begin], c)
  {
    var field := s[begin + 1..end + 1];
    assert s[..end + 1] == s[..begin] + [c] + field;
    SplitLast(s[..begin], field, c);
    ReverseConcat(Split(s[..begin], [c]), [field]);
    assert Reverse([field]) == [field];
  }

  lemma NoSeparator(s: string, c: char)
    requires c !in s
    ensures Split(s, [c]) == [s] && Tokens(s, c) == [s]
  {
    FindInClean(s, [c]);
    assert Reverse([s]) == [s];
  }

  lemma SplitFirst(head: string, tail: string, c: char)
    requires c !in head
    ensures Split(head + [c] + tail, [c]) == [head] + Split(tail, [c])
  {
    assert head + [c] + tail == head + ([c] + tail);
    FindAfterClean(head, [c] + tail, [c]);
    SplitAt(head + [c] + tail, [c], head, tail);
  }

  /** A field after the last separator is the last piece. */
  lemma {:induction false} SplitLast(a: string, field: string, c: char)
    requires c !in field
    ensures Split(a + [c] + field, [c]) == Split(a, [c]) + [field]
    decreases |a|
  {
    if c !in a {
      NoSeparator(a, c);
      NoSeparator(field, c);
      SplitFirst(a, field, c);
    } else {
      var p := Find(a, [c], 0);
      CharFound(a, c);
      var head, tail := a[..p], a[p + 1..];
      assert a == head + [c] + tail;
      assert a + [c] + field == head + [c] + (tail + [c] + field);
      SplitFirst(head, tail + [c] + field, c);
      SplitFirst(head, tail, c);
      SplitLast(tail, field, c);
    }
  }

  lemma {:induction false} CharFound(a: string, c: char)
    requires c in a
    ensures var p := Find(a, [c], 0); 0 <= p < |a| && a[p] == c && c !in a[..p]
  {
    var i :| 0 <= i < |a| && a[i] == c;
    assert a[i..i + 1] == [c] && At(a, [c], i);
    var p := Find(a, [c], 0);
    assert a[p] == a[p..p + 1][0];
    forall j | 0 <= j < p ensures a[j] != c {
      assert !At(a, [c], j) && a[j..j + 1] == [a[j]];
    }
  }

  // ---- Written times -------------------------------------------------------------------

  predicate FreeOf(parts: seq<string>, c: char) {
    parts == [] || (c !in parts[0] && FreeOf(parts[1..], c))
  }

  /** Fields joined by the separator are split into themselves. */
  lemma {:induction false} SplitJoin(parts: seq<string>, c: char)
    requires parts != [] && FreeOf(parts, c)
    ensures Split(Join(parts, [c]), [c]) == parts
  {
    if |parts| == 1 {
      NoSeparator(parts[0], c);
      assert parts == [parts[0]];
    } else {
      SplitJoin(parts[1..], c);
      SplitFirst(parts[0], Join(parts[1..], [c]), c);
      assert [parts[0]] + parts[1..] == parts;
    }
  }

  // ---- When the loop ends --------------------------------------------------------------

  /** `beginPosToken` after n rounds of the loop, as long as the loop goes on. */
  function Begin(s: string, c: char, n: nat): int {
    if n == 0 then RFind(s, c, SIZE_T - 1)
    else
      var begin := Begin(s, c, n - 1);
      if begin == NPOS then NPOS else RFind(s, c, (begin - 1) % SIZE_T)
  }

  lemma {:induction false} NeverLeaves(s: string, c: char, n: nat)
    requires s != "" && s[0] == c
    ensures Begin(s, c, n) != NPOS
  {
    if n > 0 { NeverLeaves(s, c, n - 1); }
  }

  lemma {:induction false} MovesLeft(s: string, c: char, n: nat)
    requires s == "" || s[0] != c
    ensures Begin(s, c, n) == NPOS || (0 < Begin(s, c, n) <= |s| - 1 - n)
  {
    if n > 0 {
      MovesLeft(s, c, n - 1);
      var begin := Begin(s, c, n - 1);
      if begin != NPOS {
        SmallMod(begin - 1);
      }
    }
  }

  lemma SmallMod(n: nat)
    ensures n < SIZE_T ==> n % SIZE_T == n
    ensures n % SIZE_T <= n
  {
  }

  /** The splitting loop ends exactly for the times that do not start with a separator. */
  lemma EndsUnlessLeadingSeparator(s: string, c: char)
    ensures (exists n: nat :: Begin(s, c, n) == NPOS) <==> (s == "" || s[0] != c)
  {
    if s != "" && s[0] == c {
      forall n: nat ensures Begin(s, c, n) != NPOS {
        NeverLeaves(s, c, n);
      }
    } else {
      MovesLeft(s, c, |s|);
      assert Begin(s, c, |s|) == NPOS;
    }
  }
}
