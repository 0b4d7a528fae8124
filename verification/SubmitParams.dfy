/**
 Printing the parameters of a job submission: one option for each, cut from a text that
 holds them with a space between.
 */
module SubmitParams {
  import opened Text
  import TimeFields

  /** Each part behind the option's flag, as in ` -v `. */
  function Listed(parts: seq<string>, flag: string): string {
    if parts == [] then "" else flag + parts[0] + Listed(parts[1..], flag)
  }

  lemma {:induction false} FindFrom(s: string, pat: string, from: nat, i: nat)
    requires from <= i <= |s|
    ensures Find(s[from..], pat, i - from) == if Find(s, pat, i) == NPOS then NPOS else Find(s, pat, i) - from
    decreases |s| - i
  {
    if i + |pat| <= |s| {
      assert s[from..][i - from..i - from + |pat|] == s[i..i + |pat|];
      if i < |s| { FindFrom(s, pat, from, i + 1); }
    }
  }

  /** The pieces from a position on: the next one, and those after its space. */
  lemma NextPiece(s: string, from: nat)
    requires from <= |s|
    ensures var pos := Find(s, " ", from);
            Split(s[from..], " ") == if pos == NPOS then [s[from..]] else [s[from..pos]] + Split(s[pos + 1..], " ")
  {
    FindFrom(s, " ", from, from);
    var pos := Find(s, " ", from);
    if pos != NPOS {
      assert s[from..][..pos - from] == s[from..pos] && s[from..][pos - from + 1..] == s[pos + 1..];
    }
  }

  lemma ListedCons(before: string, part: string, parts: seq<string>, flag: string)
    ensures before + Listed([part] + parts, flag) == before + (flag + part) + Listed(parts, flag)
  {
    assert ([part] + parts)[1..] == parts;
    assert before + (flag + part + Listed(parts, flag)) == before + (flag + part) + Listed(parts, flag);
  }

  lemma OneMore(res: string, s: string, from: nat, flag: string)
    requires from <= |s|
    ensures var pos := Find(s, " ", from);
            res + Listed(Split(s[from..], " "), flag)
            == if pos == NPOS then res + (flag + s[from..])
               else res + (flag + s[from..pos]) + Listed(Split(s[pos + 1..], " "), flag)
  {
    NextPiece(s, from);
    var pos := Find(s, " ", from);
    if pos == NPOS {
      ListedCons(res, s[from..], [], flag);
      assert [s[from..]] + [] == [s[from..]];
      assert res + (flag + s[from..]) + "" == res + (flag + s[from..]);
    } else {
      ListedCons(res, s[from..pos], Split(s[pos + 1..], " "), flag);
    }
  }

  method AppendParams(before: string, u: string, flag: string) returns (res: string)
    ensures res == if u == "" then before else before + Listed(Split(u, " "), flag)
  {
    res := before;
    if u == "" {
      return;
    }
    var lastPos := 0;
    var pos := Find(u, " ", lastPos);
    assert u[0..] == u;
    while pos != NPOS
      invariant lastPos <= |u| && pos == Find(u, " ", lastPos)
      invariant before + Listed(Split(u, " "), flag) == res + Listed(Split(u[lastPos..], " "), flag)
      decreases |u| - lastPos
    {
      OneMore(res, u, lastPos, flag);
      res := res + (flag + u[lastPos..pos]);
      lastPos := pos + 1;
      pos := Find(u, " ", lastPos);
    }
    OneMore(res, u, lastPos, flag);
    res := res + (flag + u[lastPos..]);
  }

  /** Parameters without spaces are printed as they are, in order, each behind its flag. */
  lemma EveryParameterIsPrinted(parts: seq<string>, flag: string)
    requires TimeFields.FreeOf(parts, ' ') && Join(parts, " ") != ""
    ensures Listed(Split(Join(parts, " "), " "), flag) == Listed(parts, flag)
  {
    assert [' '] == " ";
    TimeFields.SplitJoin(parts, ' ');
  }

  /** Each parameter behind the flag, as it is, one after the other. */
  lemma {:induction false} ListedInOrder(a: seq<string>, b: seq<string>, part: string, flag: string)
    ensures Listed(a + b, flag) == Listed(a, flag) + Listed(b, flag)
    ensures Listed([part], flag) == flag + part
  {
    assert [part][1..] == [] && flag + part + "" == flag + part;
    if a == [] {
      assert a + b == b && "" + Listed(b, flag) == Listed(b, flag);
    } else {
      ListedInOrder(a[1..], b, part, flag);
      assert (a + b)[1..] == a[1..] + b;
      var first, rest, last := flag + a[0], Listed(a[1..], flag), Listed(b, flag);
      assert first + (rest + last) == first + rest + last;
    }
  }
}
