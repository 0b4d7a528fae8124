/**
 The lexer on one line and one argument, case by case and character by character: what is cut,
 what is kept, and what is refused.
 */
module ScriptDetails {
  import opened Text
  import opened ScriptLexer
  import opened ScriptRoundTrip
  import opened ScriptErrors

  // ---- Blanks --------------------------------------------------------------------------

  /** A blank is a space or one of the characters from tab to carriage return. */
  lemma Blanks(c: char)
    ensures IsSpace(c) <==> c as int == 32 || 9 <= c as int <= 13
  {
  }

  /** Any blank separates two words. */
  lemma BlankSeparates(a: string, blank: char, b: string)
    requires IsToken(a) && IsToken(b) && (blank as int == 32 || 9 <= blank as int <= 13)
    ensures Tokens(a + ([blank] + b)) == [a, b]
  {
    Blanks(blank);
    TokensConcat(a, [blank] + b);
    assert ([blank] + b)[1..] == b;
    assert a[|a|..] == "" && b[|b|..] == "" && a[..|a|] == a && b[..|b|] == b;
    assert Tokens(a) == [a] + Tokens("") && Tokens(b) == [b] + Tokens("");
  }

  // ---- What a directive's text is ------------------------------------------------------

  predicate EvenQuotes(text: string) {
    Count(text, '\"') % 2 == 0 && Count(text, '\'') % 2 == 0
  }

  /** A `#` inside a word stays, and so does all that follows it. */
  lemma HashInsideIsRead(prefix: string, a: string, b: string)
    requires IsPrefix(prefix) && '#' !in a && a != "" && a[|a| - 1] != ' '
    ensures ReadDirective(prefix + (a + ("#" + b)), prefix)
         == if EvenQuotes(a + ("#" + b)) then Directive(a + ("#" + b)) else Bad(OddQuotes)
  {
    KeptInsideWord(a, b);
    TextIsRead(prefix, a + ("#" + b), a + ("#" + b));
  }

  /** A comment behind a space goes, with whatever quotes it holds. */
  lemma CommentIsCut(prefix: string, a: string, comment: string)
    requires IsPrefix(prefix) && '#' !in a && a != "" && a[|a| - 1] == ' '
    ensures ReadDirective(prefix + (a + ("#" + comment)), prefix)
         == if EvenQuotes(a) then Directive(a) else Bad(OddQuotes)
  {
    CutAtComment(a, comment);
    TextIsRead(prefix, a + ("#" + comment), a);
  }

  /** Without a `#` all of the text is read, and refused exactly for quotes that do not pair up. */
  lemma PlainTextIsRead(prefix: string, text: string)
    requires IsPrefix(prefix) && '#' !in text
    ensures ReadDirective(prefix + text, prefix) == if EvenQuotes(text) then Directive(text) else Bad(OddQuotes)
  {
    FindInClean(text, "#");
    TextIsRead(prefix, text, text);
  }

  lemma KeywordFound(head: string, keyword: string, text: string)
    requires keyword != "" && keyword[0] !in head
    ensures Find(head + (keyword + text), keyword, 0) == |head|
    ensures (head + (keyword + text))[|head| + |keyword|..] == text
  {
    assert (keyword + text)[0..|keyword|] == keyword;
    FindAfterClean(head, keyword + text, keyword);
  }

  lemma SpacedStart(spaces: nat, keyword: string, text: string)
    requires ' ' !in keyword
    ensures StartsWith(EraseSpaces("#" + Spaces(spaces) + (keyword + text)), "#" + keyword)
  {
    EraseConcat("#" + Spaces(spaces), keyword + text);
    EraseConcat("#", Spaces(spaces));
    EraseAll(spaces);
    EraseConcat(keyword, text);
    EraseNothing(keyword);
    assert EraseSpaces("#") == "#";
    var erased := "#" + "" + (keyword + EraseSpaces(text));
    assert erased[0..|"#" + keyword|] == "#" + keyword;
  }

  /** Spaces between the `#` and the keyword do not matter. */
  lemma SpacedKeyword(prefix: string, spaces: nat, text: string)
    requires IsPrefix(prefix)
    ensures var line := "#" + Spaces(spaces) + (prefix[1..] + text);
            IsDirective(line, prefix) && DirectiveText(line, prefix) == text
  {
    var keyword, head := prefix[1..], "#" + Spaces(spaces);
    var line := head + (keyword + text);
    KeywordFound(head, keyword, text);
    SpacedStart(spaces, keyword, text);
    assert prefix == "#" + keyword;
    assert line[0] == '#';
    StripNothing(line);
    assert line[0..1] == "#" && At(line, "#", 0);
  }

  /** Spaces inside the keyword hide it: the text then begins a fixed number of characters in. */
  lemma HiddenKeyword(line: string, prefix: string)
    requires IsPrefix(prefix) && IsDirective(line, prefix) && !Contains(StripSpaces(line), prefix[1..])
    ensures |StripSpaces(line)| >= |prefix|
    ensures DirectiveText(line, prefix) == StripSpaces(line)[|prefix| - 2..]
  {
    EraseStripped(line);
    PrefixFits(StripSpaces(line), prefix);
  }

  // ---- What cleaning an argument does --------------------------------------------------

  lemma StripNothing(s: string)
    requires s == "" || s[0] != ' '
    ensures StripSpaces(s) == s
  {
  }

  /** Blanks behind an opening quote are dropped with it. */
  lemma LeadingBlanksAreDropped(spaces: nat, s: string, quote: char)
    requires s != "" && Bare(s[0]) && quote in QUOTES
    ensures var t := [quote] + (Spaces(spaces) + s) + [quote]; Cleanable(t) && Clean(t) == s
  {
    var inner := Spaces(spaces) + s;
    var t := [quote] + inner + [quote];
    StripIndent(spaces, s);
    assert t[1..][..|inner|] == inner && t[1..][|inner|] == quote;
    assert CleanString(t, quote) == (s, true);
    if quote == '\'' {
      assert CleanString(t, '\"') == (t, false);
    }
  }

  /** A quote that only ends a word is dropped as well. */
  lemma TrailingQuoteIsDropped(w: string, quote: char)
    requires IsWord(w) && quote in QUOTES
    ensures Cleanable(w + [quote]) && Clean(w + [quote]) == w
  {
    BareAt(w, 0);
    BareAt(w, |w| - 1);
    var t := w + [quote];
    assert t[0] == w[0] && t[..|t| - 1] == w;
    StripNothing(w);
    StripNothing(t);
    assert CleanString(t, quote) == (w, false);
    assert CleanString(w, '\'') == (w, false);
    if quote == '\'' { assert CleanString(t, '\"') == (t, false); }
  }

  /** Inside a pair of double quotes single ones stay, and the other way round. */
  lemma OnePairIsCleaned(w: string)
    requires IsWord(w)
    ensures var t := "\"" + ("\'" + w + "\'") + "\""; Cleanable(t) && Clean(t) == "\'" + w + "\'"
    ensures var t := "\'" + ("\"" + w + "\"") + "\'"; Cleanable(t) && Clean(t) == "\"" + w + "\""
  {
    var single, double := "\'" + w + "\'", "\"" + w + "\"";
    var t, u := "\"" + single + "\"", "\'" + double + "\'";
    assert t[1..][..|single|] == single && u[1..][..|double|] == double;
    StripNothing(single);
    StripNothing(double);
    StripNothing(u);
    assert CleanString(t, '\"') == (single, true);
    assert CleanString(u, '\"') == (u, false) && CleanString(u, '\'') == (double, true);
  }

  /** A quote by itself opens an argument and closes none. */
  lemma LoneQuoteOpens(quote: char)
    requires quote in QUOTES
    ensures QuoteOf([quote]) == Some(quote) && !EndsByQuote([quote], quote)
  {
  }

  predicate NoneEnds(tokens: seq<string>, quote: char) {
    tokens == [] || (!EndsByQuote(tokens[0], quote) && NoneEnds(tokens[1..], quote))
  }

  lemma {:induction false} NoEndFound(tokens: seq<string>, quote: char)
    ensures FindEnd(tokens, quote) == |tokens| <==> NoneEnds(tokens, quote)
  {
    if tokens != [] { NoEndFound(tokens[1..], quote); }
  }

  lemma UnclosedHere(tokens: seq<string>, quote: char)
    requires AllTokens(tokens) && tokens != [] && QuoteOf(tokens[0]) == Some(quote) && NoneEnds(tokens, quote)
    ensures Regroup(tokens) == Error(UnclosedQuote)
  {
    NoEndFound(tokens, quote);
  }

  lemma ArgBefore(a: Arg, rest: seq<string>)
    requires ValidArg(a) && AllTokens(rest) && Regroup(rest) == Error(UnclosedQuote)
    ensures AllTokens(ArgTokens(a) + rest) && Regroup(ArgTokens(a) + rest) == Error(UnclosedQuote)
  {
    RegroupArg(a, rest);
  }

  lemma FlattenBefore(args: seq<Arg>, tokens: seq<string>)
    requires ValidArgs(args) && args != []
    ensures Flatten(args) + tokens == ArgTokens(args[0]) + (Flatten(args[1..]) + tokens)
  {
  }

  predicate Refused(tokens: seq<string>) {
    AllTokens(tokens) && Regroup(tokens) == Error(UnclosedQuote)
  }

  /** Arguments up to one whose quote no later token ends with are refused, all of them. */
  lemma {:induction false} UnclosedIsRefused(args: seq<Arg>, tokens: seq<string>, quote: char)
    requires ValidArgs(args) && AllTokens(tokens) && tokens != []
    requires QuoteOf(tokens[0]) == Some(quote) && NoneEnds(tokens, quote)
    ensures Refused(Flatten(args) + tokens)
  {
    if args == [] {
      assert Flatten(args) + tokens == tokens;
      UnclosedHere(tokens, quote);
    } else {
      UnclosedIsRefused(args[1..], tokens, quote);
      var rest := Flatten(args[1..]) + tokens;
      assert Refused(rest);
      ArgBefore(args[0], rest);
      FlattenBefore(args, tokens);
    }
  }
}
