/**
 What the script lexer is for: arguments written on directive lines come back as they were,
 whatever the layout, and a line may be cut anywhere by a trailing backslash.
 */
module ScriptRoundTrip {
  import opened Text
  import opened ScriptLexer

  // ---- Written arguments ---------------------------------------------------------------

  const QUOTES := ['\"', '\'']

  /** A character that means nothing to the lexer inside a word. */
  predicate Bare(c: char) {
    !IsSpace(c) && c !in {'\"', '\'', '\\'}
  }

  predicate AllBare(w: string) {
    w == "" || (Bare(w[0]) && AllBare(w[1..]))
  }

  predicate IsWord(w: string) {
    w != "" && AllBare(w)
  }

  predicate AllWords(words: seq<string>) {
    words == [] || (IsWord(words[0]) && AllWords(words[1..]))
  }

  datatype Arg = Plain(word: string) | Quoted(words: seq<string>, quote: char)

  predicate ValidArg(a: Arg) {
    match a
    case Plain(w) => IsWord(w)
    case Quoted(words, q) => words != [] && AllWords(words) && q in QUOTES
  }

  predicate ValidArgs(args: seq<Arg>) {
    args == [] || (ValidArg(args[0]) && ValidArgs(args[1..]))
  }

  function ArgText(a: Arg): string {
    match a
    case Plain(w) => w
    case Quoted(words, _) => Join(words, " ")
  }

  function Texts(args: seq<Arg>): seq<string> {
    if args == [] then [] else [ArgText(args[0])] + Texts(args[1..])
  }

  function Close(words: seq<string>, quote: char): seq<string>
    requires words != []
  {
    words[..|words| - 1] + [words[|words| - 1] + [quote]]
  }

  /** The blank-separated pieces of an argument as written. */
  function ArgTokens(a: Arg): seq<string>
    requires ValidArg(a)
  {
    match a
    case Plain(w) => [w]
    case Quoted(words, q) => Close([[q] + words[0]] + words[1..], q)
  }

  function Flatten(args: seq<Arg>): seq<string>
    requires ValidArgs(args)
  {
    if args == [] then [] else ArgTokens(args[0]) + Flatten(args[1..])
  }

  // ---- Regrouping ----------------------------------------------------------------------

  lemma {:induction false} BareAt(w: string, i: nat)
    requires AllBare(w) && i < |w|
    ensures Bare(w[i])
  {
    if i > 0 { BareAt(w[1..], i - 1); }
  }

  lemma {:induction false} WordAt(words: seq<string>, i: nat)
    requires AllWords(words) && i < |words|
    ensures IsWord(words[i])
  {
    if i > 0 { WordAt(words[1..], i - 1); }
  }

  lemma {:induction false} NoSpacesIsToken(t: string)
    requires t != "" && forall i | 0 <= i < |t| :: !IsSpace(t[i])
    ensures IsToken(t)
  {
    assert WordLength(t) == |t|;
  }

  lemma WordIsToken(w: string, before: string, after: string)
    requires IsWord(w) && before in {"", "\"", "\'"} && after in {"", "\"", "\'"}
    ensures IsToken(before + w + after)
  {
    var t := before + w + after;
    forall i | 0 <= i < |t| ensures !IsSpace(t[i]) {
      if |before| <= i < |before| + |w| { BareAt(w, i - |before|); }
    }
    NoSpacesIsToken(t);
  }

  lemma {:induction false} JoinOpen(words: seq<string>, quote: char)
    requires words != []
    ensures Join([[quote] + words[0]] + words[1..], " ") == [quote] + Join(words, " ")
  {
    if |words| > 1 {
      assert ([[quote] + words[0]] + words[1..])[1..] == words[1..];
    }
  }

  lemma {:induction false} JoinClose(words: seq<string>, quote: char)
    requires words != []
    ensures Join(Close(words, quote), " ") == Join(words, " ") + [quote]
  {
    if |words| > 1 {
      JoinClose(words[1..], quote);
      assert Close(words, quote)[1..] == Close(words[1..], quote);
    }
  }

  lemma {:induction false} NoEndBefore(tokens: seq<string>, n: nat, quote: char)
    requires n < |tokens| && EndsByQuote(tokens[n], quote)
    requires forall i | 0 <= i < n :: !EndsByQuote(tokens[i], quote)
    ensures FindEnd(tokens, quote) == n
  {
    if n > 0 { NoEndBefore(tokens[1..], n - 1, quote); }
  }

  lemma {:induction false} JoinOfWords(words: seq<string>)
    requires words != [] && AllWords(words)
    ensures var s := Join(words, " "); s != "" && Bare(s[0]) && Bare(s[|s| - 1])
  {
    BareAt(words[0], 0);
    BareAt(words[0], |words[0]| - 1);
    if |words| > 1 { JoinOfWords(words[1..]); }
  }

  lemma CleanPlain(w: string)
    requires IsWord(w)
    ensures Cleanable(w) && Clean(w) == w
  {
    BareAt(w, 0);
    BareAt(w, |w| - 1);
  }

  lemma CleanQuoted(s: string, quote: char)
    requires s != "" && Bare(s[0]) && quote in QUOTES
    ensures var t := [quote] + s + [quote]; Cleanable(t) && Clean(t) == s
  {
    var t := [quote] + s + [quote];
    assert t[1..][..|s|] == s && t[1..][|s|] == quote;
    assert CleanString(t, quote) == (s, true);
    if quote == '\'' {
      assert CleanString(t, '\"') == (t, false);
    }
  }

  function QuoteIf(here: bool, quote: char): string {
    if here then [quote] else ""
  }

  lemma PieceShape(words: seq<string>, quote: char, i: nat)
    requires i < |words|
    ensures Close([[quote] + words[0]] + words[1..], quote)[i]
         == QuoteIf(i == 0, quote) + words[i] + QuoteIf(i == |words| - 1, quote)
  {
  }

  lemma PieceEnds(w: string, quote: char, first: bool, last: bool)
    requires IsWord(w) && quote in QUOTES
    ensures var t := QuoteIf(first, quote) + w + QuoteIf(last, quote);
            IsToken(t) && (first ==> QuoteOf(t) == Some(quote)) && (EndsByQuote(t, quote) <==> last)
  {
    WordIsToken(w, QuoteIf(first, quote), QuoteIf(last, quote));
    BareAt(w, |w| - 1);
  }

  lemma QuotedTokens(words: seq<string>, quote: char, i: nat)
    requires words != [] && AllWords(words) && quote in QUOTES && i < |words|
    ensures var ts := ArgTokens(Quoted(words, quote));
            && |ts| == |words| && IsToken(ts[i])
            && (i == 0 ==> QuoteOf(ts[i]) == Some(quote))
            && (EndsByQuote(ts[i], quote) <==> i == |words| - 1)
  {
    WordAt(words, i);
    PieceShape(words, quote, i);
    PieceEnds(words[i], quote, i == 0, i == |words| - 1);
  }

  lemma QuotedGroup(words: seq<string>, quote: char, rest: seq<string>)
    requires words != [] && AllWords(words) && quote in QUOTES
    ensures var ts := ArgTokens(Quoted(words, quote));
            && ts != [] && AllTokens(ts) && QuoteOf(ts[0]) == Some(quote)
            && FindEnd(ts + rest, quote) == |ts| - 1
  {
    var ts := ArgTokens(Quoted(words, quote));
    forall i | 0 <= i < |ts|
      ensures IsToken(ts[i]) && (EndsByQuote(ts[i], quote) <==> i == |ts| - 1)
    {
      QuotedTokens(words, quote, i);
    }
    QuotedTokens(words, quote, 0);
    NoEndBefore(ts + rest, |ts| - 1, quote);
  }

  lemma QuotedText(words: seq<string>, quote: char)
    requires words != [] && AllWords(words) && quote in QUOTES
    ensures var s := Join(ArgTokens(Quoted(words, quote)), " "); Cleanable(s) && Clean(s) == Join(words, " ")
  {
    JoinOpen(words, quote);
    JoinClose([[quote] + words[0]] + words[1..], quote);
    JoinOfWords(words);
    CleanQuoted(Join(words, " "), quote);
  }

  lemma PlainGroup(w: string)
    requires IsWord(w)
    ensures AllTokens([w]) && QuoteOf(w) == None
  {
    WordIsToken(w, "", "");
    assert "" + w + "" == w;
    BareAt(w, 0);
  }

  /** One written argument, whatever follows it, becomes one argument. */
  lemma RegroupArg(a: Arg, rest: seq<string>)
    requires ValidArg(a) && AllTokens(rest)
    ensures AllTokens(ArgTokens(a) + rest)
    ensures Regroup(ArgTokens(a) + rest) == PrependAll([ArgText(a)], Regroup(rest))
  {
    var ts := ArgTokens(a);
    match a {
      case Plain(w) =>
        PlainGroup(w);
        CleanPlain(w);
      case Quoted(words, q) =>
        QuotedGroup(words, q, rest);
        QuotedText(words, q);
    }
    var all := ts + rest;
    assert all[..|ts|] == ts && all[|ts|..] == rest && all[0] == ts[0];
    RegroupStep(all, |ts| - 1, []);
    PrependAllNothing(Regroup(all));
  }

  lemma {:induction false} RegroupFlatten(args: seq<Arg>)
    requires ValidArgs(args)
    ensures AllTokens(Flatten(args)) && Regroup(Flatten(args)) == Ok(Texts(args))
  {
    if args != [] {
      RegroupFlatten(args[1..]);
      RegroupArg(args[0], Flatten(args[1..]));
    }
  }

  // ---- Blanks --------------------------------------------------------------------------

  lemma {:induction false} WordLengthAt(s: string, n: nat)
    requires n <= |s| && (forall i | 0 <= i < n :: !IsSpace(s[i])) && (n < |s| ==> IsSpace(s[n]))
    ensures WordLength(s) == n
  {
    if n > 0 { WordLengthAt(s[1..], n - 1); }
  }

  lemma WordOfConcat(a: string, b: string)
    requires b == "" || IsSpace(b[0])
    ensures var n := WordLength(a); WordLength(a + b) == n && (a + b)[n..] == a[n..] + b && (a + b)[..n] == a[..n]
  {
    WordLengthAt(a + b, WordLength(a));
  }

  /** Splitting at blanks can be done apart on either side of a blank. */
  lemma {:induction false} TokensConcat(a: string, b: string)
    requires b == "" || IsSpace(b[0])
    ensures Tokens(a + b) == Tokens(a) + Tokens(b)
    decreases |a|
  {
    if a == "" {
      assert a + b == b;
    } else if IsSpace(a[0]) {
      TokensConcat(a[1..], b);
      assert (a + b)[1..] == a[1..] + b;
    } else {
      WordOfConcat(a, b);
      TokensConcat(a[WordLength(a)..], b);
    }
  }

  lemma {:induction false} CountShift(s: string, c: char, k: nat, i: nat)
    requires k + i <= |s|
    ensures CountFrom(s[k..], c, i) == CountFrom(s, c, k + i)
    decreases |s| - k - i
  {
    if k + i < |s| { CountShift(s, c, k, i + 1); }
  }

  lemma CountCons(s: string, c: char)
    requires s != ""
    ensures Count(s, c) == (if s[0] == c then 1 else 0) + Count(s[1..], c)
  {
    CountShift(s, c, 1, 0);
  }

  lemma {:induction false} CountConcat(a: string, b: string, c: char)
    ensures Count(a + b, c) == Count(a, c) + Count(b, c)
  {
    if a == "" {
      assert a + b == b;
    } else {
      CountCons(a, c);
      CountCons(a + b, c);
      CountConcat(a[1..], b, c);
      assert (a + b)[1..] == a[1..] + b;
    }
  }

  function SumCount(tokens: seq<string>, c: char): nat {
    if tokens == [] then 0 else Count(tokens[0], c) + SumCount(tokens[1..], c)
  }

  lemma {:induction false} SumConcat(a: seq<string>, b: seq<string>, c: char)
    ensures SumCount(a + b, c) == SumCount(a, c) + SumCount(b, c)
  {
    if a == [] {
      assert a + b == b;
    } else {
      SumConcat(a[1..], b, c);
      assert (a + b)[1..] == a[1..] + b;
    }
  }

  /** No character but blanks is lost by splitting at blanks. */
  lemma {:induction false} CountTokens(s: string, c: char)
    requires !IsSpace(c)
    ensures Count(s, c) == SumCount(Tokens(s), c)
    decreases |s|
  {
    if s != "" {
      if IsSpace(s[0]) {
        CountCons(s, c);
        CountTokens(s[1..], c);
      } else {
        var n := WordLength(s);
        CountTokens(s[n..], c);
        CountConcat(s[..n], s[n..], c);
        assert s == s[..n] + s[n..];
      }
    }
  }

  lemma {:induction false} CountBare(w: string, c: char)
    requires AllBare(w) && !Bare(c)
    ensures Count(w, c) == 0
  {
    if w != "" {
      CountCons(w, c);
      CountBare(w[1..], c);
    }
  }

  lemma {:induction false} CountWords(words: seq<string>, c: char)
    requires AllWords(words) && !Bare(c)
    ensures SumCount(words, c) == 0
  {
    if words != [] {
      CountBare(words[0], c);
      CountWords(words[1..], c);
    }
  }

  lemma SumClose(ts: seq<string>, quote: char, c: char)
    requires ts != []
    ensures SumCount(Close(ts, quote), c) == SumCount(ts, c) + Count([quote], c)
  {
    var last := ts[|ts| - 1];
    assert ts == ts[..|ts| - 1] + [last];
    SumConcat(ts[..|ts| - 1], [last], c);
    SumConcat(ts[..|ts| - 1], [last + [quote]], c);
    CountConcat(last, [quote], c);
  }

  lemma CountArg(a: Arg, c: char)
    requires ValidArg(a) && !Bare(c)
    ensures SumCount(ArgTokens(a), c) == if a.Quoted? && a.quote == c then 2 else 0
  {
    match a
    case Plain(w) => CountBare(w, c);
    case Quoted(words, q) =>
      CountWords(words, c);
      CountConcat([q], words[0], c);
      assert ([[q] + words[0]] + words[1..])[1..] == words[1..];
      SumClose([[q] + words[0]] + words[1..], q, c);
      CountCons([q], c);
  }

  function QuotedBy(args: seq<Arg>, c: char): nat {
    if args == [] then 0
    else (if args[0].Quoted? && args[0].quote == c then 1 else 0) + QuotedBy(args[1..], c)
  }

  /** Each quoted argument brings two quotes; nothing else is there that the lexer reads. */
  lemma {:induction false} CountArgs(args: seq<Arg>, c: char)
    requires ValidArgs(args) && !Bare(c)
    ensures SumCount(Flatten(args), c) == 2 * QuotedBy(args, c)
    ensures c !in QUOTES ==> QuotedBy(args, c) == 0
  {
    if args != [] {
      CountArg(args[0], c);
      CountArgs(args[1..], c);
      SumConcat(ArgTokens(args[0]), Flatten(args[1..]), c);
    }
  }

  lemma {:induction false} CountZero(s: string, c: char)
    requires Count(s, c) == 0
    ensures c !in s
  {
    if s != "" {
      CountCons(s, c);
      CountZero(s[1..], c);
    }
  }

  /** Text laid out from arguments: any blanks between their pieces. */
  predicate Lays(body: string, args: seq<Arg>)
    requires ValidArgs(args)
  {
    Tokens(body) == Flatten(args)
  }

  lemma LaidOut(body: string, args: seq<Arg>)
    requires ValidArgs(args) && Lays(body, args)
    ensures '\\' !in body
    ensures Count(body, '\"') % 2 == 0 && Count(body, '\'') % 2 == 0
  {
    CountTokens(body, '\\');
    CountTokens(body, '\"');
    CountTokens(body, '\'');
    CountArgs(args, '\\');
    CountArgs(args, '\"');
    CountArgs(args, '\'');
    CountZero(body, '\\');
  }

  // ---- Script lines --------------------------------------------------------------------

  function Spaces(n: nat): (r: string)
    ensures |r| == n && forall i | 0 <= i < n :: r[i] == ' '
  {
    if n == 0 then "" else " " + Spaces(n - 1)
  }

  lemma {:induction false} StripIndent(n: nat, s: string)
    requires s == "" || s[0] != ' '
    ensures StripSpaces(Spaces(n) + s) == s
  {
    if n > 0 {
      assert (Spaces(n) + s)[1..] == Spaces(n - 1) + s;
      StripIndent(n - 1, s);
    } else {
      assert Spaces(n) + s == s;
    }
  }

  lemma {:induction false} EraseConcat(a: string, b: string)
    ensures EraseSpaces(a + b) == EraseSpaces(a) + EraseSpaces(b)
  {
    if a == "" {
      assert a + b == b;
    } else {
      assert (a + b)[1..] == a[1..] + b;
      EraseConcat(a[1..], b);
    }
  }

  lemma {:induction false} EraseNothing(s: string)
    requires ' ' !in s
    ensures EraseSpaces(s) == s
  {
    if s != "" { EraseNothing(s[1..]); }
  }

  lemma {:induction false} EraseAll(n: nat)
    ensures EraseSpaces(Spaces(n)) == ""
  {
    if n > 0 { EraseAll(n - 1); }
  }

  lemma {:induction false} EraseStripped(s: string)
    ensures EraseSpaces(StripSpaces(s)) == EraseSpaces(s)
  {
    if s != "" && s[0] == ' ' { EraseStripped(s[1..]); }
  }

  /** A directive's text after the keyword: its body, then perhaps a comment. */
  function Tail(body: string, comment: Option<string>): string {
    if comment.Some? then body + "#" + comment.value else body
  }

  /** The first `#` of the text, if any, is inside a word: neither first nor behind a space. */
  predicate HashInside(text: string) {
    var p := Find(text, "#", 0);
    p == NPOS || (p > 0 && text[p - 1] != ' ')
  }

  /** A comment is set apart by a space, and no word before it holds a `#`. */
  predicate Apart(body: string, comment: Option<string>) {
    if comment.Some? then '#' !in body && body != "" && body[|body| - 1] == ' ' else HashInside(body)
  }

  /** Where nothing but a space is in front of the first `#`, the text is cut there. */
  lemma CutAtComment(body: string, comment: string)
    requires '#' !in body && body != "" && body[|body| - 1] == ' '
    ensures CutComment(body + ("#" + comment)) == Ok(body)
  {
    var rest := "#" + comment;
    var text := body + rest;
    assert rest[0..1] == "#" && StartsWith(rest, "#");
    FindAfterClean(body, rest, "#");
    assert text[|body| - 1..] == " " + rest;
    EraseConcat(" " + "#", comment);
    assert " " + rest == " " + "#" + comment && EraseSpaces(" " + "#") == "#";
    assert text[..|body|] == body;
  }

  /** Where the first `#` is inside a word, nothing is cut, whatever comes after it. */
  lemma KeptInsideWord(a: string, b: string)
    requires '#' !in a && a != "" && a[|a| - 1] != ' '
    ensures CutComment(a + ("#" + b)) == Ok(a + ("#" + b))
  {
    var rest := "#" + b;
    var text := a + rest;
    assert rest[0..1] == "#" && StartsWith(rest, "#");
    FindAfterClean(a, rest, "#");
    var tail := text[|a| - 1..];
    assert tail[0] == a[|a| - 1] && a[|a| - 1] in a;
    assert EraseSpaces(tail)[0] == tail[0];
    AtHead(EraseSpaces(tail), "#", 0);
  }

  lemma HashSplits(text: string)
    requires HashInside(text) && Find(text, "#", 0) != NPOS
    ensures var p := Find(text, "#", 0);
            && '#' !in text[..p] && text[..p] != "" && text[..p][p - 1] != ' '
            && text == text[..p] + ("#" + text[p + 1..])
  {
    var p := Find(text, "#", 0);
    assert text[p..p + 1] == "#" && text[p] == '#';
    forall k | 0 <= k < p ensures text[k] != '#' {
      assert !At(text, "#", k) && text[k..k + 1] == [text[k]];
    }
  }

  lemma CutTail(body: string, comment: Option<string>)
    requires Apart(body, comment)
    ensures CutComment(Tail(body, comment)) == Ok(body)
  {
    if comment.Some? {
      assert Tail(body, comment) == body + ("#" + comment.value);
      CutAtComment(body, comment.value);
    } else if Find(body, "#", 0) != NPOS {
      HashSplits(body);
      var p := Find(body, "#", 0);
      KeptInsideWord(body[..p], body[p + 1..]);
    }
  }

  lemma FindKeyword(prefix: string, tail: string)
    requires IsPrefix(prefix)
    ensures AfterPrefix(prefix + tail, prefix) == tail
  {
    var line, keyword := prefix + tail, prefix[1..];
    assert line[1..1 + |keyword|] == keyword && At(line, keyword, 1);
    AtHead(line, keyword, 0);
    FindIs(line, keyword, 0, 1);
  }

  lemma PrefixSeen(prefix: string, tail: string)
    requires IsPrefix(prefix)
    ensures StartsWith(EraseSpaces(prefix + tail), prefix)
    ensures Find(prefix + tail, "#", 0) != NPOS
  {
    EraseConcat(prefix, tail);
    EraseNothing(prefix);
    assert (prefix + tail)[0..1] == "#" && At(prefix + tail, "#", 0);
  }

  /** A directive line, however indented, is read as its body. */
  lemma DirectiveIsRead(prefix: string, indent: nat, args: seq<Arg>, body: string, comment: Option<string>)
    requires IsPrefix(prefix) && ValidArgs(args) && Lays(body, args) && Apart(body, comment)
    ensures ReadDirective(Spaces(indent) + (prefix + Tail(body, comment)), prefix) == Directive(body)
  {
    var stripped := prefix + Tail(body, comment);
    StripIndent(indent, stripped);
    PrefixSeen(prefix, Tail(body, comment));
    FindKeyword(prefix, Tail(body, comment));
    LaidOut(body, args);
    CutTail(body, comment);
  }

  datatype Line =
    | Options(indent: nat, args: seq<Arg>, body: string, comment: Option<string>)
    | Other(text: string)

  function Render(l: Line, prefix: string): string {
    match l
    case Options(indent, _, body, comment) => Spaces(indent) + (prefix + Tail(body, comment))
    case Other(text) => text
  }

  /** Lines that are not continued; those that are no directive do not begin like one. */
  predicate ValidLine(l: Line, prefix: string) {
    match l
    case Options(_, args, body, comment) =>
      && ValidArgs(args) && Lays(body, args) && Apart(body, comment)
      && (comment.Some? ==> !EndsWithBackslash(comment.value))
    case Other(text) => !EndsWithBackslash(text) && !StartsWith(EraseSpaces(text), prefix)
  }

  predicate ValidLines(script: seq<Line>, prefix: string) {
    script == [] || (ValidLine(script[0], prefix) && ValidLines(script[1..], prefix))
  }

  function Rendered(script: seq<Line>, prefix: string): seq<string> {
    if script == [] then [] else [Render(script[0], prefix)] + Rendered(script[1..], prefix)
  }

  /** The arguments of all directive lines, in order. */
  function Written(script: seq<Line>): seq<Arg> {
    if script == [] then []
    else (if script[0].Options? then script[0].args else []) + Written(script[1..])
  }

  lemma NoBackslashEnd(line: string)
    requires '\\' !in line
    ensures !EndsWithBackslash(line)
  {
    KeptBySpaces(line, '\\');
  }

  lemma EndIsTheEnd(a: string, b: string)
    requires EraseSpaces(b) != ""
    ensures EndsWithBackslash(a + b) <==> EndsWithBackslash(b)
  {
    EraseConcat(a, b);
  }

  lemma NotContinued(l: Line, prefix: string)
    requires IsPrefix(prefix) && ValidLine(l, prefix)
    ensures !EndsWithBackslash(Render(l, prefix))
  {
    match l
    case Other(_) =>
    case Options(indent, args, body, comment) =>
      LaidOut(body, args);
      var head := Spaces(indent) + (prefix + body);
      if comment.Some? {
        var c := comment.value;
        assert Render(l, prefix) == head + ("#" + c);
        EraseConcat("#", c);
        EndIsTheEnd(head, "#" + c);
      } else {
        NoBackslashEnd(head);
      }
  }

  lemma OtherIsSkipped(text: string, prefix: string)
    requires IsPrefix(prefix) && !StartsWith(EraseSpaces(text), prefix)
    ensures ReadDirective(text, prefix) == Skipped
  {
    EraseStripped(text);
  }

  /** The command line that the directives add up to. */
  function Command(script: seq<Line>): string {
    if script == [] then ""
    else (if script[0].Options? then " " + script[0].body else "") + Command(script[1..])
  }

  lemma LineIsRead(l: Line, prefix: string)
    requires IsPrefix(prefix) && ValidLine(l, prefix)
    ensures ReadDirective(Render(l, prefix), prefix) == if l.Options? then Directive(l.body) else Skipped
  {
    match l
    case Options(indent, args, body, comment) => DirectiveIsRead(prefix, indent, args, body, comment);
    case Other(text) => OtherIsSkipped(text, prefix);
  }

  lemma GatherOne(line: string, lines: seq<string>, cmd: string, prefix: string)
    requires IsPrefix(prefix) && !EndsWithBackslash(line) && !ReadDirective(line, prefix).Bad?
    requires Gather(lines, "", prefix) == Ok(cmd)
    ensures var r := ReadDirective(line, prefix);
            Gather([line] + lines, "", prefix) == Ok((if r.Directive? then " " + r.text else "") + cmd)
  {
    assert ([line] + lines)[1..] == lines;
    assert "" + line == line && "" + cmd == cmd;
  }

  lemma {:induction false} GatherRendered(script: seq<Line>, prefix: string)
    requires IsPrefix(prefix) && ValidLines(script, prefix)
    ensures Gather(Rendered(script, prefix), "", prefix) == Ok(Command(script))
  {
    if script != [] {
      NotContinued(script[0], prefix);
      LineIsRead(script[0], prefix);
      GatherRendered(script[1..], prefix);
      GatherOne(Render(script[0], prefix), Rendered(script[1..], prefix), Command(script[1..]), prefix);
    }
  }

  lemma {:induction false} ConcatArgs(a: seq<Arg>, b: seq<Arg>)
    requires ValidArgs(a) && ValidArgs(b)
    ensures ValidArgs(a + b) && Flatten(a + b) == Flatten(a) + Flatten(b)
  {
    if a == [] {
      assert a + b == b;
    } else {
      assert (a + b)[1..] == a[1..] + b;
      ConcatArgs(a[1..], b);
    }
  }

  lemma CommandStart(script: seq<Line>)
    ensures Command(script) == "" || IsSpace(Command(script)[0])
  {
    if script != [] && script[0].Other? { CommandStart(script[1..]); }
  }

  lemma {:induction false} CommandTokens(script: seq<Line>, prefix: string)
    requires ValidLines(script, prefix)
    ensures ValidArgs(Written(script)) && Tokens(Command(script)) == Flatten(Written(script))
  {
    if script != [] {
      CommandTokens(script[1..], prefix);
      CommandStart(script[1..]);
      match script[0]
      case Other(_) =>
        assert "" + Command(script[1..]) == Command(script[1..]);
        assert Written(script) == Written(script[1..]);
      case Options(_, args, body, _) =>
        TokensConcat(" " + body, Command(script[1..]));
        assert (" " + body)[1..] == body;
        ConcatArgs(args, Written(script[1..]));
    }
  }

  /** Lexing a script gives back exactly the arguments written in it, in order. */
  lemma LexerRoundTrip(script: seq<Line>, prefix: string)
    requires IsPrefix(prefix) && ValidLines(script, prefix)
    ensures ValidArgs(Written(script))
    ensures Lex(Rendered(script, prefix), prefix) == Ok(Texts(Written(script)))
  {
    GatherRendered(script, prefix);
    CommandTokens(script, prefix);
    RegroupFlatten(Written(script));
  }

  // ---- One plain way to write arguments ------------------------------------------------

  function Spaced(tokens: seq<string>): string {
    if tokens == [] then "" else " " + tokens[0] + Spaced(tokens[1..])
  }

  lemma OneToken(t: string)
    requires IsToken(t)
    ensures Tokens(" " + t) == [t]
  {
    assert (" " + t)[1..] == t && t[|t|..] == "" && t[..|t|] == t;
    assert Tokens(t) == [t] + Tokens("");
  }

  lemma {:induction false} SpacedTokens(tokens: seq<string>)
    requires AllTokens(tokens)
    ensures Tokens(Spaced(tokens)) == tokens
  {
    if tokens != [] {
      var t, rest := tokens[0], Spaced(tokens[1..]);
      assert IsToken(t);
      SpacedTokens(tokens[1..]);
      TokensConcat(" " + t, rest);
      OneToken(t);
      assert [t] + tokens[1..] == tokens;
    }
  }

  /** No string of the list holds a `#`. */
  predicate HashFree(list: seq<string>) {
    list == [] || ('#' !in list[0] && HashFree(list[1..]))
  }

  lemma {:induction false} HashFreeConcat(a: seq<string>, b: seq<string>)
    ensures HashFree(a + b) <==> HashFree(a) && HashFree(b)
  {
    if a == [] {
      assert a + b == b;
    } else {
      assert (a + b)[1..] == a[1..] + b;
      HashFreeConcat(a[1..], b);
    }
  }

  lemma {:induction false} HashFreeJoin(words: seq<string>)
    ensures HashFree(words) <==> '#' !in Join(words, " ")
  {
    if |words| == 1 {
      assert words[1..] == [];
    } else if words != [] {
      HashFreeJoin(words[1..]);
      var s := Join(words, " ");
      assert s == words[0] + " " + Join(words[1..], " ");
    }
  }

  lemma {:induction false} HashFreeSpaced(tokens: seq<string>)
    ensures HashFree(tokens) <==> '#' !in Spaced(tokens)
  {
    if tokens != [] { HashFreeSpaced(tokens[1..]); }
  }

  lemma HashFreeClose(ts: seq<string>, quote: char)
    requires ts != [] && quote != '#'
    ensures HashFree(Close(ts, quote)) <==> HashFree(ts)
  {
    var last := ts[|ts| - 1];
    assert ts == ts[..|ts| - 1] + [last];
    HashFreeConcat(ts[..|ts| - 1], [last]);
    HashFreeConcat(ts[..|ts| - 1], [last + [quote]]);
    assert [last][1..] == [] && [last + [quote]][1..] == [];
  }

  lemma HashFreeArg(a: Arg)
    requires ValidArg(a)
    ensures HashFree(ArgTokens(a)) <==> '#' !in ArgText(a)
  {
    match a
    case Plain(w) => assert [w][1..] == [];
    case Quoted(words, q) =>
      var quoted := [[q] + words[0]] + words[1..];
      assert quoted[1..] == words[1..];
      HashFreeClose(quoted, q);
      HashFreeJoin(words);
  }

  lemma {:induction false} HashFreeArgs(args: seq<Arg>)
    requires ValidArgs(args)
    ensures HashFree(Flatten(args)) <==> HashFree(Texts(args))
  {
    if args != [] {
      HashFreeArg(args[0]);
      HashFreeArgs(args[1..]);
      HashFreeConcat(ArgTokens(args[0]), Flatten(args[1..]));
    }
  }

  lemma {:induction false} StrippedIsFree(s: string)
    requires '#' !in s
    ensures '#' !in StripSpaces(s)
  {
    if s != "" && s[0] == ' ' { StrippedIsFree(s[1..]); }
  }

  lemma CleanIsFree(arg: string)
    requires Cleanable(arg) && '#' !in arg
    ensures '#' !in Clean(arg)
  {
    var once := CleanString(arg, '\"').0;
    CleanStringIsFree(arg, '\"');
    if !CleanString(arg, '\"').1 {
      assert once != "\'";
      CleanStringIsFree(once, '\'');
    }
  }

  lemma CleanStringIsFree(s: string, quote: char)
    requires s != [quote] && '#' !in s
    ensures '#' !in CleanString(s, quote).0
  {
    if s != "" {
      var s1 := if s[0] == quote then s[1..] else s;
      var s2 := if s1[|s1| - 1] == quote then s1[..|s1| - 1] else s1;
      StrippedIsFree(s2);
    }
  }

  lemma {:induction false} RegroupIsFree(tokens: seq<string>)
    requires AllTokens(tokens) && HashFree(tokens) && Regroup(tokens).Ok?
    ensures HashFree(Regroup(tokens).value)
    decreases |tokens|
  {
    if tokens != [] {
      var j := match QuoteOf(tokens[0]) case None => 0 case Some(q) => FindEnd(tokens, q);
      GroupIsCleanable(tokens, j);
      assert tokens == tokens[..j + 1] + tokens[j + 1..];
      HashFreeConcat(tokens[..j + 1], tokens[j + 1..]);
      HashFreeJoin(tokens[..j + 1]);
      CleanIsFree(Join(tokens[..j + 1], " "));
      RegroupIsFree(tokens[j + 1..]);
      var first, rest := Clean(Join(tokens[..j + 1], " ")), Regroup(tokens[j + 1..]).value;
      assert ([first] + rest)[1..] == rest;
    }
  }

  lemma {:induction false} TokensAreFree(s: string)
    requires '#' !in s
    ensures HashFree(Tokens(s))
    decreases |s|
  {
    if s != "" {
      if IsSpace(s[0]) {
        TokensAreFree(s[1..]);
      } else {
        var n := WordLength(s);
        TokensAreFree(s[n..]);
        assert ([s[..n]] + Tokens(s[n..]))[1..] == Tokens(s[n..]);
      }
    }
  }

  /** A line of one directive, by what the directive is read as. */
  lemma OneDirective(line: string, prefix: string, text: string)
    requires IsPrefix(prefix) && !EndsWithBackslash(line) && ReadDirective(line, prefix) == Directive(text)
    ensures Gather([line], "", prefix) == Ok(" " + text) && Tokens(" " + text) == Tokens(text)
  {
    assert "" + line == line && [line][1..] == [] && " " + text + "" == " " + text;
    assert (" " + text)[1..] == text;
  }

  lemma WrittenLine(args: seq<Arg>, prefix: string)
    requires IsPrefix(prefix) && ValidArgs(args)
    ensures var body := Spaced(Flatten(args));
            AllTokens(Flatten(args)) && Lays(body, args) && !EndsWithBackslash(prefix + body)
  {
    RegroupFlatten(args);
    SpacedTokens(Flatten(args));
    LaidOut(Spaced(Flatten(args)), args);
    NoBackslashEnd(prefix + Spaced(Flatten(args)));
  }

  lemma LineComesBack(args: seq<Arg>, prefix: string)
    requires IsPrefix(prefix) && ValidArgs(args) && HashInside(Spaced(Flatten(args)))
    ensures Lex([prefix + Spaced(Flatten(args))], prefix) == Ok(Texts(args))
  {
    var body := Spaced(Flatten(args));
    WrittenLine(args, prefix);
    DirectiveIsRead(prefix, 0, args, body, None);
    assert Spaces(0) + (prefix + body) == prefix + body;
    OneDirective(prefix + body, prefix, body);
    RegroupFlatten(args);
  }

  /** Reading a directive's text, by what is left of it after the comment. */
  lemma TextIsRead(prefix: string, text: string, cut: string)
    requires IsPrefix(prefix) && CutComment(text) == Ok(cut)
    ensures ReadDirective(prefix + text, prefix)
         == if Count(cut, '\"') % 2 == 0 && Count(cut, '\'') % 2 == 0 then Directive(cut) else Bad(OddQuotes)
  {
    assert StripSpaces(prefix + text) == prefix + text;
    PrefixSeen(prefix, text);
    FindKeyword(prefix, text);
  }

  lemma HashBehindSpace(tokens: seq<string>)
    requires !HashInside(Spaced(tokens))
    ensures var body := Spaced(tokens); var p := Find(body, "#", 0);
            && 0 < p < |body| && '#' !in body[..p] && CutComment(body) == Ok(body[..p])
  {
    var body := Spaced(tokens);
    var p := Find(body, "#", 0);
    assert body[p..p + 1] == "#" && body[p] == '#';
    assert body[0] == ' ';
    forall k | 0 <= k < p ensures body[k] != '#' {
      assert !At(body, "#", k) && body[k..k + 1] == [body[k]];
    }
    assert body == body[..p] + ("#" + body[p + 1..]);
    CutAtComment(body[..p], body[p + 1..]);
  }

  lemma LineIsCut(args: seq<Arg>, prefix: string)
    requires IsPrefix(prefix) && ValidArgs(args) && !HashInside(Spaced(Flatten(args)))
    ensures Lex([prefix + Spaced(Flatten(args))], prefix) != Ok(Texts(args))
  {
    var body := Spaced(Flatten(args));
    WrittenLine(args, prefix);
    HashBehindSpace(Flatten(args));
    var cut := body[..Find(body, "#", 0)];
    TextIsRead(prefix, body, cut);
    assert body[Find(body, "#", 0)..Find(body, "#", 0) + 1] == "#";
    assert '#' in body;
    HashFreeSpaced(Flatten(args));
    HashFreeArgs(args);
    if ReadDirective(prefix + body, prefix) == Directive(cut) {
      OneDirective(prefix + body, prefix, cut);
      TokensAreFree(cut);
      TokensAreTokens(cut);
      if Regroup(Tokens(cut)).Ok? { RegroupIsFree(Tokens(cut)); }
    } else {
      assert "" + (prefix + body) == prefix + body;
    }
  }

  /**
   Any arguments can be written on one line and come back, exactly if the first word that
   holds a `#` does not start with it.
   */
  lemma OneLineRoundTrip(args: seq<Arg>, prefix: string)
    requires IsPrefix(prefix) && ValidArgs(args)
    ensures Lex([prefix + Spaced(Flatten(args))], prefix) == Ok(Texts(args)) <==> HashInside(Spaced(Flatten(args)))
  {
    if HashInside(Spaced(Flatten(args))) { LineComesBack(args, prefix); } else { LineIsCut(args, prefix); }
  }

  // ---- Continued lines -----------------------------------------------------------------

  /** A piece of a line on a physical line of its own, and the spaces after its backslash. */
  datatype Piece = Piece(text: string, padding: nat)

  function Physical(p: Piece): string {
    p.text + "\\" + Spaces(p.padding)
  }

  /** The physical lines of a line cut into pieces; `last` ends it. */
  function CutLines(pieces: seq<Piece>, last: string): seq<string> {
    if pieces == [] then [last] else [Physical(pieces[0])] + CutLines(pieces[1..], last)
  }

  function Whole(pieces: seq<Piece>, last: string): string {
    if pieces == [] then last else pieces[0].text + Whole(pieces[1..], last)
  }

  lemma PhysicalIsContinued(p: Piece)
    ensures EndsWithBackslash(Physical(p)) && BeforeBackslash(Physical(p)) == p.text
  {
    var line := Physical(p);
    EraseConcat(p.text + "\\", Spaces(p.padding));
    EraseConcat(p.text, "\\");
    EraseAll(p.padding);
    assert EraseSpaces("\\") == "\\";
    assert line[|p.text|] == '\\';
    assert line[..|p.text|] == p.text;
  }

  lemma OneCarried(p: Piece, lines: seq<string>, carried: string, prefix: string)
    requires IsPrefix(prefix)
    ensures Gather([Physical(p)] + lines, carried, prefix) == Gather(lines, carried + p.text, prefix)
  {
    PhysicalIsContinued(p);
    assert ([Physical(p)] + lines)[1..] == lines;
  }

  lemma CutStep(pieces: seq<Piece>, last: string, rest: seq<string>, carried: string)
    requires pieces != []
    ensures CutLines(pieces, last) + rest == [Physical(pieces[0])] + (CutLines(pieces[1..], last) + rest)
    ensures carried + pieces[0].text + Heads(pieces[1..]) == carried + Heads(pieces)
  {
  }

  /** The pieces pile up in front of the last line. */
  lemma {:induction false} CutGathers(
    pieces: seq<Piece>, last: string, rest: seq<string>, carried: string, prefix: string)
    requires IsPrefix(prefix)
    ensures Gather(CutLines(pieces, last) + rest, carried, prefix)
         == Gather([last] + rest, carried + Heads(pieces), prefix)
  {
    if pieces == [] {
      assert carried + "" == carried;
    } else {
      var p := pieces[0];
      CutStep(pieces, last, rest, carried);
      OneCarried(p, CutLines(pieces[1..], last) + rest, carried, prefix);
      CutGathers(pieces[1..], last, rest, carried + p.text, prefix);
    }
  }

  function Heads(pieces: seq<Piece>): string {
    if pieces == [] then "" else pieces[0].text + Heads(pieces[1..])
  }

  lemma {:induction false} WholeIsHeads(pieces: seq<Piece>, last: string)
    ensures Whole(pieces, last) == Heads(pieces) + last
  {
    if pieces == [] {
      assert "" + last == last;
    } else {
      WholeIsHeads(pieces[1..], last);
      var p := pieces[0].text;
      assert p + (Heads(pieces[1..]) + last) == p + Heads(pieces[1..]) + last;
    }
  }

  lemma BackslashBefore(a: string, b: string)
    requires EndsWithBackslash(b)
    ensures EndsWithBackslash(a + b) && BeforeBackslash(a + b) == a + BeforeBackslash(b)
  {
    EndIsTheEnd(a, b);
    HasBackslash(b);
    var p := RFind(b, '\\', |b|);
    assert (a + b)[|a| + p] == '\\';
    var q := RFind(a + b, '\\', |a + b|);
    assert b[q - |a|] == '\\';
    assert q == |a| + p;
    assert (a + b)[..|a| + p] == a + b[..p];
  }

  /** The same text in front of a line, carried or written on it. */
  lemma CarryIsText(text: string, last: string, rest: seq<string>, carried: string, prefix: string)
    requires IsPrefix(prefix)
    requires EndsWithBackslash(last) == EndsWithBackslash(text + last)
    ensures Gather([last] + rest, carried + text, prefix) == Gather([text + last] + rest, carried, prefix)
  {
    assert ([last] + rest)[1..] == rest && ([text + last] + rest)[1..] == rest;
    assert carried + (text + last) == carried + text + last;
    if EndsWithBackslash(last) {
      BackslashBefore(text, last);
      assert carried + (text + BeforeBackslash(last)) == carried + text + BeforeBackslash(last);
    }
  }

  lemma CutIsWhole(pieces: seq<Piece>, last: string, rest: seq<string>, carried: string, prefix: string)
    requires IsPrefix(prefix)
    requires EndsWithBackslash(last) == EndsWithBackslash(Whole(pieces, last))
    ensures Gather(CutLines(pieces, last) + rest, carried, prefix)
         == Gather([Whole(pieces, last)] + rest, carried, prefix)
  {
    CutGathers(pieces, last, rest, carried, prefix);
    WholeIsHeads(pieces, last);
    CarryIsText(Heads(pieces), last, rest, carried, prefix);
  }

  /** What comes before does not tell apart what comes after. */
  lemma {:induction false} GatherAfter(
    before: seq<string>, a: seq<string>, b: seq<string>, carried: string, prefix: string)
    requires IsPrefix(prefix)
    requires forall c: string :: Gather(a, c, prefix) == Gather(b, c, prefix)
    ensures Gather(before + a, carried, prefix) == Gather(before + b, carried, prefix)
  {
    if before == [] {
      assert before + a == a && before + b == b;
    } else {
      assert (before + a)[1..] == before[1..] + a && (before + b)[1..] == before[1..] + b;
      var next := if EndsWithBackslash(before[0]) then carried + BeforeBackslash(before[0]) else "";
      GatherAfter(before[1..], a, b, next, prefix);
    }
  }

  /** Cutting a line leaves every script's arguments alone. */
  ghost predicate CutIsTransparent(pieces: seq<Piece>, last: string, prefix: string)
    requires IsPrefix(prefix)
  {
    forall before: seq<string>, rest: seq<string> ::
      Lex(before + (CutLines(pieces, last) + rest), prefix) == Lex(before + ([Whole(pieces, last)] + rest), prefix)
  }

  lemma CutLeavesArguments(pieces: seq<Piece>, last: string, before: seq<string>, rest: seq<string>, prefix: string)
    requires IsPrefix(prefix)
    requires EndsWithBackslash(last) == EndsWithBackslash(Whole(pieces, last))
    ensures Lex(before + (CutLines(pieces, last) + rest), prefix)
         == Lex(before + ([Whole(pieces, last)] + rest), prefix)
  {
    var a, b := CutLines(pieces, last) + rest, [Whole(pieces, last)] + rest;
    forall c: string ensures Gather(a, c, prefix) == Gather(b, c, prefix) {
      CutIsWhole(pieces, last, rest, c, prefix);
    }
    GatherAfter(before, a, b, "", prefix);
  }

  /** An unfinished comment: what is joined to it is not read. */
  function Opening(prefix: string): string {
    prefix + " w #"
  }

  lemma OpeningSwallows(prefix: string, comment: string)
    requires IsPrefix(prefix)
    ensures ReadDirective(Opening(prefix) + comment, prefix) == Directive(" w ")
  {
    assert Opening(prefix) + comment == prefix + (" w " + "#" + comment)
        == Spaces(0) + (prefix + Tail(" w ", Some(comment)));
    WIsRead();
    DirectiveIsRead(prefix, 0, [Plain("w")], " w ", Some(comment));
  }

  /** After an unfinished comment, the uncut line is continued to the end of the script. */
  lemma UncutIsDropped(whole: string, prefix: string)
    requires IsPrefix(prefix) && EndsWithBackslash(whole)
    ensures Lex([Physical(Piece(Opening(prefix), 0))] + ([whole] + []), prefix) == Ok([])
  {
    OneCarried(Piece(Opening(prefix), 0), [whole] + [], "", prefix);
    assert ([whole] + [])[1..] == [];
    assert Gather([whole] + [], "" + Opening(prefix), prefix) == Ok("");
  }

  lemma LastLine(last: string, carried: string, text: string, prefix: string)
    requires IsPrefix(prefix) && !EndsWithBackslash(last)
    requires ReadDirective(carried + last, prefix) == Directive(text)
    ensures Gather([last] + [], carried, prefix) == Ok(" " + text)
  {
    assert ([last] + [])[1..] == [] && " " + text + "" == " " + text;
  }

  lemma CutAfter(first: Piece, pieces: seq<Piece>, last: string, text: string, prefix: string)
    requires IsPrefix(prefix) && !EndsWithBackslash(last)
    requires ReadDirective(first.text + Heads(pieces) + last, prefix) == Directive(text)
    ensures Gather([Physical(first)] + (CutLines(pieces, last) + []), "", prefix) == Ok(" " + text)
  {
    var lines := CutLines(pieces, last) + [];
    OneCarried(first, lines, "", prefix);
    assert "" + first.text == first.text;
    CutGathers(pieces, last, [], first.text, prefix);
    LastLine(last, first.text + Heads(pieces), text, prefix);
  }

  /** The cut line is not, so the comment's directive is read. */
  lemma CutIsRead(pieces: seq<Piece>, last: string, prefix: string)
    requires IsPrefix(prefix) && !EndsWithBackslash(last)
    ensures Lex([Physical(Piece(Opening(prefix), 0))] + (CutLines(pieces, last) + []), prefix) == Ok(["w"])
  {
    OpeningSwallows(prefix, Heads(pieces) + last);
    assert Opening(prefix) + Heads(pieces) + last == Opening(prefix) + (Heads(pieces) + last);
    CutAfter(Piece(Opening(prefix), 0), pieces, last, " w ", prefix);
    WIsRead();
    RegroupFlatten([Plain("w")]);
  }

  lemma WIsRead()
    ensures ValidArgs([Plain("w")]) && Lays(" w ", [Plain("w")]) && Lays("  w ", [Plain("w")])
    ensures Texts([Plain("w")]) == ["w"]
  {
    assert Bare('w') && "w"[1..] == "";
    assert AllBare("w");
    assert Flatten([Plain("w")]) == ["w"];
    assert Tokens(" ") == [];
    assert "w "[1..] == " " && WordLength("w ") == 1 && "w "[..1] == "w";
    assert Tokens("w ") == ["w"];
    assert " w "[1..] == "w " && "  w "[1..] == " w ";
  }

  /**
   A line can be cut anywhere by trailing backslashes, any number of times and in any
   script, exactly when the cut does not separate a backslash that ends the line from its end.
   */
  lemma ContinuationIsTransparent(pieces: seq<Piece>, last: string, prefix: string)
    requires IsPrefix(prefix)
    ensures CutIsTransparent(pieces, last, prefix) <==>
            EndsWithBackslash(last) == EndsWithBackslash(Whole(pieces, last))
  {
    if EndsWithBackslash(last) == EndsWithBackslash(Whole(pieces, last)) {
      forall before: seq<string>, rest: seq<string>
        ensures Lex(before + (CutLines(pieces, last) + rest), prefix)
             == Lex(before + ([Whole(pieces, last)] + rest), prefix)
      {
        CutLeavesArguments(pieces, last, before, rest, prefix);
      }
    } else {
      WholeIsHeads(pieces, last);
      if EndsWithBackslash(last) { BackslashBefore(Heads(pieces), last); }
      var head := [Physical(Piece(Opening(prefix), 0))];
      CutIsRead(pieces, last, prefix);
      UncutIsDropped(Whole(pieces, last), prefix);
      assert Lex(head + (CutLines(pieces, last) + []), prefix) != Lex(head + ([Whole(pieces, last)] + []), prefix);
    }
  }
}
