/**
 Turning the directives of a batch script into an argument list: joining continued lines,
 recognising directives, dropping comments, splitting at blanks, and putting quoted
 arguments together again.
 */
module ScriptLexer {
  import opened Text

  datatype LexError = OddQuotes | UnclosedQuote | OutOfRange

  // ---- Lines ---------------------------------------------------------------------------

  function EraseSpaces(s: string): (r: string)
    ensures |r| <= |s| && ' ' !in r
  {
    if s == "" then ""
    else if s[0] == ' ' then EraseSpaces(s[1..])
    else [s[0]] + EraseSpaces(s[1..])
  }

  function StripSpaces(s: string): (r: string)
    ensures |r| <= |s| && (r == "" || r[0] != ' ')
  {
    if s != "" && s[0] == ' ' then StripSpaces(s[1..]) else s
  }

  /** The last character other than a space is a backslash. */
  predicate EndsWithBackslash(line: string) {
    var dense := EraseSpaces(line);
    dense != "" && dense[|dense| - 1] == '\\'
  }

  /** The text before the last backslash. */
  function BeforeBackslash(line: string): string {
    var p := RFind(line, '\\', |line|);
    if p == NPOS then "" else line[..p]
  }

  // ---- One directive -------------------------------------------------------------------

  datatype Reading = Skipped | Directive(text: string) | Bad(error: LexError)

  function CountFrom(s: string, c: char, from: nat): nat
    decreases |s| - from
  {
    if from >= |s| then 0 else (if s[from] == c then 1 else 0) + CountFrom(s, c, from + 1)
  }

  function Count(s: string, c: char): nat {
    CountFrom(s, c, 0)
  }

  /** A directive's prefix: a `#`, then a keyword. */
  predicate IsPrefix(prefix: string) {
    |prefix| >= 2 && prefix[0] == '#' && prefix[1] != '#' && ' ' !in prefix && '\\' !in prefix
  }

  /** The directive's text up to a comment; a `#` right after the prefix is out of range. */
  function CutComment(text: string): Result<string, LexError> {
    var pos := Find(text, "#", 0);
    if pos == NPOS then Ok(text)
    else if pos == 0 then Error(OutOfRange)
    else if StartsWith(EraseSpaces(text[pos - 1..]), "#") then Ok(text[..pos])
    else Ok(text)
  }

  /** What follows the keyword, wherever it is first found; spaces inside it hide it. */
  function AfterPrefix(line: string, prefix: string): string
    requires IsPrefix(prefix) && |line| >= |prefix|
  {
    line[Find(line, prefix[1..], 0) + |prefix| - 1..]
  }

  lemma PrefixFits(line: string, prefix: string)
    ensures StartsWith(EraseSpaces(line), prefix) ==> |line| >= |prefix|
  {
  }

  function ReadDirective(line: string, prefix: string): Reading
    requires IsPrefix(prefix)
  {
    var stripped := StripSpaces(line);
    if Find(stripped, "#", 0) == NPOS || !StartsWith(EraseSpaces(stripped), prefix) then Skipped
    else
      PrefixFits(stripped, prefix);
      match CutComment(AfterPrefix(stripped, prefix))
      case Error(e) => Bad(e)
      case Ok(text) =>
        if Count(text, '\"') % 2 == 0 && Count(text, '\'') % 2 == 0 then Directive(text) else Bad(OddQuotes)
  }

  method VerifyQuotaCharacter(str: string, quote: char) returns (closed: bool)
    ensures closed <==> Count(str, quote) % 2 == 0
  {
    ghost var from, pairs: nat := 0, 0;
    var pos := FindChar(str, quote, 0);
    while pos != NPOS
      invariant from <= |str| && pos == FindChar(str, quote, from)
      invariant Count(str, quote) == 2 * pairs + CountFrom(str, quote, from)
      decreases |str| - from
    {
      CountFound(str, quote, from, pos);
      var next := FindChar(str, quote, pos + 1);
      CountFound(str, quote, pos + 1, next);
      if next == NPOS {
        return false;
      }
      pos := FindChar(str, quote, next + 1);
      from, pairs := next + 1, pairs + 1;
    }
    CountFound(str, quote, from, pos);
    closed := true;
  }

  lemma {:induction false} CountFound(s: string, c: char, from: nat, p: int)
    requires from <= |s| && p == FindChar(s, c, from)
    ensures p == NPOS ==> CountFrom(s, c, from) == 0
    ensures p != NPOS ==> from <= p < |s| && CountFrom(s, c, from) == 1 + CountFrom(s, c, p + 1)
    decreases |s| - from
  {
    if from < |s| && s[from] != c {
      CountFound(s, c, from + 1, p);
    }
  }

  // ---- The command line the directives make --------------------------------------------

  function Prepend(text: string, r: Result<string, LexError>): Result<string, LexError> {
    if r.Ok? then Ok(text + r.value) else r
  }

  /**
   All directives' texts from these lines on, each after a space. `carried` is the text of
   the lines before that end in a backslash, waiting for the rest of their line.
   */
  function Gather(lines: seq<string>, carried: string, prefix: string): Result<string, LexError>
    requires IsPrefix(prefix)
  {
    if lines == [] then Ok("")
    else if EndsWithBackslash(lines[0]) then Gather(lines[1..], carried + BeforeBackslash(lines[0]), prefix)
    else
      match ReadDirective(carried + lines[0], prefix)
      case Skipped => Gather(lines[1..], "", prefix)
      case Directive(text) => Prepend(" " + text, Gather(lines[1..], "", prefix))
      case Bad(e) => Error(e)
  }

  predicate IsSpace(c: char) {
    c in {' ', '\t', '\n', '\r', '\U{0B}', '\U{0C}'}
  }

  function WordLength(s: string): (n: nat)
    ensures n <= |s| && (forall i | 0 <= i < n :: !IsSpace(s[i])) && (n < |s| ==> IsSpace(s[n]))
  {
    if s == "" || IsSpace(s[0]) then 0 else 1 + WordLength(s[1..])
  }

  predicate IsToken(t: string) {
    t != "" && WordLength(t) == |t|
  }

  function Tokens(s: string): seq<string> {
    if s == "" then []
    else if IsSpace(s[0]) then Tokens(s[1..])
    else
      var n := WordLength(s);
      [s[..n]] + Tokens(s[n..])
  }

  predicate AllTokens(tokens: seq<string>) {
    forall i | 0 <= i < |tokens| :: IsToken(tokens[i])
  }

  lemma {:induction false} WordLengthOfPrefix(s: string, n: nat)
    requires n == WordLength(s)
    ensures WordLength(s[..n]) == n
  {
    if n > 0 {
      WordLengthOfPrefix(s[1..], n - 1);
      assert s[..n][1..] == s[1..][..n - 1];
    }
  }

  lemma {:induction false} TokensAreTokens(s: string)
    ensures AllTokens(Tokens(s))
    decreases |s|
  {
    if s != "" {
      if IsSpace(s[0]) {
        TokensAreTokens(s[1..]);
      } else {
        var n := WordLength(s);
        TokensAreTokens(s[n..]);
        WordLengthOfPrefix(s, n);
        assert IsToken(s[..n]);
      }
    }
  }

  // ---- Quoted arguments ----------------------------------------------------------------

  /** Stripping a quote at either end, then leading spaces; whether there was one at both. */
  function CleanString(str: string, quote: char): (string, bool)
    requires str != [quote]
  {
    if str == "" then ("", false)
    else
      var begins := str[0] == quote;
      var s1 := if begins then str[1..] else str;
      var ends := s1[|s1| - 1] == quote;
      var s2 := if ends then s1[..|s1| - 1] else s1;
      (StripSpaces(s2), begins && ends)
  }

  function QuoteOf(token: string): Option<char> {
    if token != "" && token[0] in {'\"', '\''} then Some(token[0]) else None
  }

  predicate EndsByQuote(token: string, quote: char) {
    |token| > 1 && token[|token| - 1] == quote
  }

  function FindEnd(tokens: seq<string>, quote: char): (j: nat)
    ensures j <= |tokens| && (j < |tokens| ==> EndsByQuote(tokens[j], quote))
  {
    if tokens == [] || EndsByQuote(tokens[0], quote) then 0 else 1 + FindEnd(tokens[1..], quote)
  }

  /** What the regrouping loop cleans: unquoted at the start, or quoted at both ends. */
  predicate Cleanable(arg: string) {
    && arg != "" && arg[0] != ' '
    && (QuoteOf(arg).Some? ==> EndsByQuote(arg, arg[0]))
  }

  function Clean(arg: string): string
    requires Cleanable(arg)
  {
    var (once, both) := CleanString(arg, '\"');
    if both then once else CleanString(once, '\'').0
  }

  lemma {:induction false} JoinEnds(tokens: seq<string>)
    requires tokens != [] && AllTokens(tokens)
    ensures var s, first, last := Join(tokens, " "), tokens[0], tokens[|tokens| - 1];
            && first != "" && last != "" && |s| >= |last|
            && s[0] == first[0] && s[|s| - 1] == last[|last| - 1]
  {
    assert IsToken(tokens[0]) && IsToken(tokens[|tokens| - 1]);
    if |tokens| > 1 {
      JoinEnds(tokens[1..]);
      assert tokens[1..][|tokens| - 2] == tokens[|tokens| - 1];
    }
  }

  lemma GroupIsCleanable(tokens: seq<string>, j: nat)
    requires AllTokens(tokens) && j < |tokens|
    requires QuoteOf(tokens[0]).Some? ==> EndsByQuote(tokens[j], tokens[0][0])
    ensures Cleanable(Join(tokens[..j + 1], " "))
    ensures AllTokens(tokens[j + 1..])
  {
    JoinEnds(tokens[..j + 1]);
    assert IsToken(tokens[0]);
  }

  function Regroup(tokens: seq<string>): Result<seq<string>, LexError>
    requires AllTokens(tokens)
    decreases |tokens|
  {
    if tokens == [] then Ok([])
    else
      var j := match QuoteOf(tokens[0]) case None => 0 case Some(q) => FindEnd(tokens, q);
      if j == |tokens| then Error(UnclosedQuote)
      else
        GroupIsCleanable(tokens, j);
        match Regroup(tokens[j + 1..])
        case Error(e) => Error(e)
        case Ok(args) => Ok([Clean(Join(tokens[..j + 1], " "))] + args)
  }

  /** The argument list of a script. */
  function Lex(lines: seq<string>, prefix: string): Result<seq<string>, LexError>
    requires IsPrefix(prefix)
  {
    match Gather(lines, "", prefix)
    case Error(e) => Error(e)
    case Ok(cmd) => TokensAreTokens(cmd); Regroup(Tokens(cmd))
  }

  // ---- The loops -----------------------------------------------------------------------

  function PrependAll(args: seq<string>, r: Result<seq<string>, LexError>): Result<seq<string>, LexError> {
    if r.Ok? then Ok(args + r.value) else r
  }

  lemma PrependAllTwice(a: seq<string>, arg: string, r: Result<seq<string>, LexError>)
    ensures PrependAll(a, PrependAll([arg], r)) == PrependAll(a + [arg], r)
  {
    if r.Ok? { assert a + ([arg] + r.value) == a + [arg] + r.value; }
  }

  lemma PrependTwice(a: string, b: string, r: Result<string, LexError>)
    ensures Prepend(a, Prepend(b, r)) == Prepend(a + b, r)
  {
    if r.Ok? { assert a + (b + r.value) == a + b + r.value; }
  }

  lemma HasBackslash(line: string)
    requires EndsWithBackslash(line)
    ensures RFind(line, '\\', |line|) != NPOS
  {
    KeptBySpaces(line, '\\');
  }

  lemma {:induction false} KeptBySpaces(s: string, c: char)
    ensures c in EraseSpaces(s) ==> c in s
  {
    if s != "" { KeptBySpaces(s[1..], c); }
  }

  /** The directive reader as the source has it, on one logical line. */
  method ReadLogicalLine(logical: string, prefix: string) returns (r: Reading)
    requires IsPrefix(prefix)
    ensures r == ReadDirective(logical, prefix)
  {
    var line := logical;
    while line != "" && line[0] == ' '
      invariant StripSpaces(line) == StripSpaces(logical)
      decreases |line|
    {
      line := line[1..];
    }
    var pos := Find(line, "#", 0);
    if pos == NPOS || !StartsWith(EraseSpaces(line), prefix) {
      return Skipped;
    }
    PrefixFits(line, prefix);
    pos := Find(line, prefix[1..], 0);
    line := line[pos + |prefix| - 1..];
    pos := Find(line, "#", 0);
    if pos != NPOS {
      if pos == 0 {
        return Bad(OutOfRange);
      }
      if StartsWith(EraseSpaces(line[pos - 1..]), "#") {
        line := line[..pos];
      }
    }
    var doubles := VerifyQuotaCharacter(line, '\"');
    if !doubles {
      return Bad(OddQuotes);
    }
    var singles := VerifyQuotaCharacter(line, '\'');
    if !singles {
      return Bad(OddQuotes);
    }
    return Directive(line);
  }

  /** `lines` are the script's lines as `getline` gives them; none where it cannot be opened. */
  method ConvertScriptIntoArgv(lines: seq<string>, prefix: string) returns (r: Result<seq<string>, LexError>)
    requires IsPrefix(prefix)
    ensures r == Lex(lines, prefix)
  {
    var cmd, tmpLine, escapeFound := "", "", false;
    var i := 0;
    assert lines[0..] == lines;
    PrependNothing(Gather(lines, "", prefix));
    while i < |lines|
      invariant i <= |lines| && (!escapeFound ==> tmpLine == "")
      invariant Gather(lines, "", prefix) == Prepend(cmd, Gather(lines[i..], tmpLine, prefix))
    {
      var line := lines[i];
      assert lines[i..][1..] == lines[i + 1..];
      i := i + 1;
      if EndsWithBackslash(line) {
        HasBackslash(line);
        var escapePos := RFind(line, '\\', |line|);
        tmpLine := tmpLine + line[..escapePos];
        escapeFound := true;
        continue;
      }
      if escapeFound {
        line := tmpLine + line;
        escapeFound := false;
        tmpLine := "";
      }
      assert line == "" + line;
      var reading := ReadLogicalLine(line, prefix);
      match reading
      case Skipped =>
      case Bad(e) => return Error(e);
      case Directive(text) =>
        PrependTwice(cmd, " " + text, Gather(lines[i..], "", prefix));
        assert cmd + " " + text == cmd + (" " + text);
        cmd := cmd + " " + text;
    }
    assert lines[i..] == [] && cmd + "" == cmd;
    TokensAreTokens(cmd);
    r := RegroupTokens(Tokens(cmd));
  }

  lemma PrependNothing(r: Result<string, LexError>)
    ensures Prepend("", r) == r
  {
    if r.Ok? { assert "" + r.value == r.value; }
  }

  /** One round of the loop: the group from `iter` up to its closing token becomes an argument. */
  lemma {:induction false} RegroupStep(rest: seq<string>, found: nat, done: seq<string>)
    requires AllTokens(rest) && rest != []
    requires found == match QuoteOf(rest[0]) case None => 0 case Some(q) => FindEnd(rest, q)
    requires found < |rest|
    ensures Cleanable(Join(rest[..found + 1], " ")) && AllTokens(rest[found + 1..])
    ensures PrependAll(done, Regroup(rest))
         == PrependAll(done + [Clean(Join(rest[..found + 1], " "))], Regroup(rest[found + 1..]))
  {
    GroupIsCleanable(rest, found);
    PrependAllTwice(done, Clean(Join(rest[..found + 1], " ")), Regroup(rest[found + 1..]));
  }

  method RegroupTokens(tokens: seq<string>) returns (r: Result<seq<string>, LexError>)
    requires AllTokens(tokens)
    ensures r == Regroup(tokens)
  {
    var tokensArgs: seq<string> := [];
    var iter := 0;
    assert tokens[0..] == tokens;
    PrependAllNothing(Regroup(tokens));
    while iter < |tokens|
      invariant iter <= |tokens| && AllTokens(tokens[iter..])
      invariant Regroup(tokens) == PrependAll(tokensArgs, Regroup(tokens[iter..]))
    {
      var rest := tokens[iter..];
      var argvStr := rest[0];
      var found := 0;
      match QuoteOf(argvStr) {
        case None =>
        case Some(quote) =>
          found := FindEnd(rest, quote);
          if found == |rest| {
            return Error(UnclosedQuote);
          }
      }
      RegroupStep(rest, found, tokensArgs);
      argvStr := Clean(Join(rest[..found + 1], " "));
      tokensArgs := tokensArgs + [argvStr];
      iter := iter + found + 1;
      assert rest[found + 1..] == tokens[iter..];
    }
    assert tokens[iter..] == [] && tokensArgs + [] == tokensArgs;
    return Ok(tokensArgs);
  }

  lemma PrependAllNothing(r: Result<seq<string>, LexError>)
    ensures PrependAll([], r) == r
  {
    if r.Ok? { assert [] + r.value == r.value; }
  }
}
