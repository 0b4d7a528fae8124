/**
 Which scripts the lexer refuses, and on which line: the quotes that do not pair up, and the
 `#` right behind a directive's keyword, where the position in front of it wraps around.
 */
module ScriptErrors {
  import opened Text
  import opened ScriptLexer
  import opened ScriptRoundTrip

  // ---- One line ------------------------------------------------------------------------

  /** A line that is taken for a directive. */
  predicate IsDirective(line: string, prefix: string) {
    Find(StripSpaces(line), "#", 0) != NPOS && StartsWith(EraseSpaces(line), prefix)
  }

  /** What follows the keyword of a directive. */
  function DirectiveText(line: string, prefix: string): string
    requires IsPrefix(prefix) && IsDirective(line, prefix)
  {
    EraseStripped(line);
    PrefixFits(StripSpaces(line), prefix);
    AfterPrefix(StripSpaces(line), prefix)
  }

  predicate HashBehindKeyword(line: string, prefix: string)
    requires IsPrefix(prefix)
  {
    IsDirective(line, prefix) && StartsWith(DirectiveText(line, prefix), "#")
  }

  lemma HashFirst(text: string)
    ensures Find(text, "#", 0) == 0 <==> StartsWith(text, "#")
  {
  }

  /** A comment right behind the keyword, and nothing else, reads out of range. */
  lemma HashBehindKeywordThrows(line: string, prefix: string)
    requires IsPrefix(prefix)
    ensures ReadDirective(line, prefix) == Bad(OutOfRange) <==> HashBehindKeyword(line, prefix)
  {
    EraseStripped(line);
    if IsDirective(line, prefix) {
      PrefixFits(StripSpaces(line), prefix);
      HashFirst(DirectiveText(line, prefix));
    }
  }

  /** So does every comment that is not set apart from its keyword, whatever it says. */
  lemma CommentAtKeywordThrows(prefix: string, comment: string)
    requires IsPrefix(prefix)
    ensures ReadDirective(prefix + ("#" + comment), prefix) == Bad(OutOfRange)
  {
    var line := prefix + ("#" + comment);
    PrefixSeen(prefix, "#" + comment);
    FindKeyword(prefix, "#" + comment);
    assert StripSpaces(line) == line;
    assert ("#" + comment)[0..1] == "#";
    HashBehindKeywordThrows(line, prefix);
  }

  // ---- A script ------------------------------------------------------------------------

  /** The lines of a script once continued ones are joined; a last continued one is lost. */
  function Logical(lines: seq<string>, carried: string): seq<string> {
    if lines == [] then []
    else if EndsWithBackslash(lines[0]) then Logical(lines[1..], carried + BeforeBackslash(lines[0]))
    else [carried + lines[0]] + Logical(lines[1..], "")
  }

  function Readings(logical: seq<string>, prefix: string): (r: seq<Reading>)
    requires IsPrefix(prefix)
    ensures |r| == |logical|
    ensures forall i | 0 <= i < |r| :: r[i] == ReadDirective(logical[i], prefix)
  {
    if logical == [] then [] else [ReadDirective(logical[0], prefix)] + Readings(logical[1..], prefix)
  }

  /** The n-th is the first that is refused. */
  predicate FirstBad(readings: seq<Reading>, n: nat) {
    && n < |readings| && readings[n].Bad?
    && forall i | 0 <= i < n :: !readings[i].Bad?
  }

  ghost predicate RefusedWith(readings: seq<Reading>, e: LexError) {
    exists n: nat :: FirstBad(readings, n) && readings[n] == Bad(e)
  }

  lemma RefusedCons(first: Reading, rest: seq<Reading>, e: LexError)
    ensures RefusedWith([first] + rest, e) <==> if first.Bad? then first == Bad(e) else RefusedWith(rest, e)
  {
    var all := [first] + rest;
    if first.Bad? {
      assert FirstBad(all, 0);
    } else {
      assert forall i | 1 <= i < |all| :: all[i] == rest[i - 1];
      assert forall i | 0 <= i < |rest| :: rest[i] == all[i + 1];
      if RefusedWith(rest, e) {
        var n: nat :| FirstBad(rest, n) && rest[n] == Bad(e);
        assert FirstBad(all, n + 1) && all[n + 1] == rest[n];
      }
      if RefusedWith(all, e) {
        var n: nat :| FirstBad(all, n) && all[n] == Bad(e);
        assert FirstBad(rest, n - 1) && rest[n - 1] == all[n];
      }
    }
  }

  lemma {:induction false} GatherFails(lines: seq<string>, carried: string, prefix: string, e: LexError)
    requires IsPrefix(prefix)
    ensures Gather(lines, carried, prefix) == Error(e) <==>
            RefusedWith(Readings(Logical(lines, carried), prefix), e)
  {
    if lines != [] {
      if EndsWithBackslash(lines[0]) {
        GatherFails(lines[1..], carried + BeforeBackslash(lines[0]), prefix, e);
      } else {
        GatherFails(lines[1..], "", prefix, e);
        var line, rest := carried + lines[0], Logical(lines[1..], "");
        assert Logical(lines, carried)[1..] == rest;
        RefusedCons(ReadDirective(line, prefix), Readings(rest, prefix), e);
      }
    }
  }

  lemma {:induction false} RegroupFailsOnQuotes(tokens: seq<string>)
    requires AllTokens(tokens) && Regroup(tokens).Error?
    ensures Regroup(tokens).error == UnclosedQuote
    decreases |tokens|
  {
    if tokens != [] {
      var j := match QuoteOf(tokens[0]) case None => 0 case Some(q) => FindEnd(tokens, q);
      if j < |tokens| {
        GroupIsCleanable(tokens, j);
        if Regroup(tokens[j + 1..]).Error? { RegroupFailsOnQuotes(tokens[j + 1..]); }
      }
    }
  }

  /**
   A script is refused with one of the two line errors exactly if its first line to be refused,
   continued lines joined, is refused with that error.
   */
  lemma LexFailsOnFirstBadLine(lines: seq<string>, prefix: string, e: LexError)
    requires IsPrefix(prefix) && e != UnclosedQuote
    ensures Lex(lines, prefix) == Error(e) <==> RefusedWith(Readings(Logical(lines, ""), prefix), e)
  {
    GatherFails(lines, "", prefix, e);
    match Gather(lines, "", prefix)
    case Error(_) =>
    case Ok(cmd) =>
      TokensAreTokens(cmd);
      if Regroup(Tokens(cmd)).Error? { RegroupFailsOnQuotes(Tokens(cmd)); }
  }

  /**
   The lexer throws out of range exactly for the scripts with a `#` right behind the keyword of
   a directive, and no refused line before it.
   */
  lemma ScriptThrowsIff(lines: seq<string>, prefix: string)
    requires IsPrefix(prefix)
    ensures var logical := Logical(lines, "");
            Lex(lines, prefix) == Error(OutOfRange) <==>
            exists n: nat :: FirstBad(Readings(logical, prefix), n) && HashBehindKeyword(logical[n], prefix)
  {
    var logical := Logical(lines, "");
    LexFailsOnFirstBadLine(lines, prefix, OutOfRange);
    forall n: nat | n < |logical|
      ensures Readings(logical, prefix)[n] == Bad(OutOfRange) <==> HashBehindKeyword(logical[n], prefix)
    {
      HashBehindKeywordThrows(logical[n], prefix);
    }
  }

  const BSUB := "#BSUB"

  /** A script of one such line. */
  lemma OneLineThrows(comment: string)
    requires !EndsWithBackslash(comment)
    ensures IsPrefix(BSUB) && Lex([BSUB + ("#" + comment)], BSUB) == Error(OutOfRange)
  {
    var line := BSUB + ("#" + comment);
    CommentAtKeywordThrows(BSUB, comment);
    EraseConcat("#", comment);
    EndIsTheEnd(BSUB, "#" + comment);
    assert "" + line == line;
    assert Gather([line], "", BSUB) == Error(OutOfRange);
  }
}
