/**
 * The rule table of the `CSSLexer` class: twenty-one rules in the order the class defines
 * them, the literal characters, the ignored characters, and what the table does on the
 * inputs whose classification depends on that order.
 */
module CssLexer {
  import opened Regex
  import opened Patterns
  import opened Scanner

  /** The one-character tokens (`,` is listed twice in the class; a set keeps one). */
  const Literals: set<char> :=
    {'|', '*', '[', ']', '=', '+', '>', '~', '.', ',', '-', ':', '{', '}', ';', '(', ')'}

  /** The two at-rule keywords with rules of their own. */
  const ImportWord: string := "@import"
  const NamespaceWord: string := "@namespace"

  /** `t_ignore`: space, tab, CR, LF and FF. */
  const IgnoreChars: set<char> := {' ', '\t', '\r', '\n', FF}

  /** The `t_*` rules in definition order; the comment rule, a string rule, comes last. */
  function RuleAt(k: nat): Rule {
    match k
    case 0 => Rule(Emit(Includes), Word("~="))
    case 1 => Rule(Emit(DashMatch), Word("|="))
    case 2 => Rule(Emit(PrefixMatch), Word("^="))
    case 3 => Rule(Emit(SuffixMatch), Word("$="))
    case 4 => Rule(Emit(SubstringMatch), Word("*="))
    case 5 => Rule(Emit(Dimension), Cat(NumRe, IdentRe))
    case 6 => Rule(Emit(Not), Word("not("))
    case 7 => Rule(Emit(Uri), Cat(Word("url("), Cat(Or(StringRe, UrlRe), Chr(Exactly(')')))))
    case 8 => Rule(Emit(Function), Cat(IdentRe, Chr(Exactly('('))))
    case 9 => Rule(Emit(Hash), Cat(Chr(Exactly('#')), NameRe))
    case 10 => Rule(Emit(Percentage), Cat(NumRe, Chr(Exactly('%'))))
    case 11 => Rule(Emit(ImportSym), Word(ImportWord))
    case 12 => Rule(Emit(NamespaceSym), Word(NamespaceWord))
    case 13 => Rule(Emit(AtKeyword), Cat(Chr(Exactly('@')), NameRe))
    case 14 => Rule(Emit(Cdo), Word("<!--"))
    case 15 => Rule(Emit(Cdc), Word("-->"))
    case 16 => Rule(Emit(Number), NumRe)
    case 17 => Rule(Emit(Str), StringRe)
    case 18 => Rule(Emit(Ident), IdentRe)
    case 19 => Rule(Discard, Plus(Chr(Exactly('\n'))))
    case _ => Rule(Discard, CommentRe)
  }

  /** The first `n` rules of the table. */
  function RuleList(n: nat): (rs: seq<Rule>)
    ensures |rs| == n && forall m :: 0 <= m < n ==> rs[m] == RuleAt(m)
  {
    if n == 0 then [] else RuleList(n - 1) + [RuleAt(n - 1)]
  }

  const Rules: seq<Rule> := RuleList(21)

  const Css: Lexer := Lexer(Rules, Literals, IgnoreChars)

  /** The characters rule `k` can begin with. */
  predicate RuleStartChar(k: nat, c: char) {
    match k
    case 0 => c == '~'
    case 1 => c == '|'
    case 2 => c == '^'
    case 3 => c == '$'
    case 4 => c == '*'
    case 5 => NumStart(c)
    case 6 => Lower(c) == 'n'
    case 7 => Lower(c) == 'u'
    case 8 => IdentStart(c)
    case 9 => c == '#'
    case 10 => NumStart(c)
    case 11 => c == '@'
    case 12 => c == '@'
    case 13 => c == '@'
    case 14 => c == '<'
    case 15 => c == '-'
    case 16 => NumStart(c)
    case 17 => c == '"' || c == '\''
    case 18 => IdentStart(c)
    case 19 => c == '\n'
    case 20 => c == '/'
    case _ => false
  }

  /** No rule matches the empty string, and each begins only with its start characters. */
  lemma RuleStart(k: nat, c: char)
    requires k < |Rules|
    ensures !Nullable(Rules[k].pattern)
    ensures MayStart(Rules[k].pattern, c) ==> RuleStartChar(k, c)
  {
    if k < 8 { RuleStartLow(k, c); } else { RuleStartHigh(k, c); }
  }

  lemma RuleStartLow(k: nat, c: char)
    requires k < 8
    ensures !Nullable(RuleAt(k).pattern)
    ensures MayStart(RuleAt(k).pattern, c) ==> RuleStartChar(k, c)
  {
    if k == 0 { WordStart("~=", c); }
    else if k == 1 { WordStart("|=", c); }
    else if k == 2 { WordStart("^=", c); }
    else if k == 3 { WordStart("$=", c); }
    else if k == 4 { WordStart("*=", c); }
    else if k == 5 { NumStartLemma(c); }
    else if k == 6 { WordStart("not(", c); }
    else { WordStart("url(", c); }
  }

  lemma RuleStartHigh(k: nat, c: char)
    requires 8 <= k < 21
    ensures !Nullable(RuleAt(k).pattern)
    ensures MayStart(RuleAt(k).pattern, c) ==> RuleStartChar(k, c)
  {
    if k < 14 { RuleStartMid(k, c); } else { RuleStartTop(k, c); }
  }

  lemma RuleStartMid(k: nat, c: char)
    requires 8 <= k < 14
    ensures !Nullable(RuleAt(k).pattern)
    ensures MayStart(RuleAt(k).pattern, c) ==> RuleStartChar(k, c)
  {
    if k == 8 { IdentStartLemma(c); }
    else if k == 9 { ChrFirst('#', NameRe, c); }
    else if k == 10 { NumStartLemma(c); }
    else if k == 11 { WordStart(ImportWord, c); }
    else if k == 12 { WordStart(NamespaceWord, c); }
    else { ChrFirst('@', NameRe, c); }
  }

  lemma RuleStartTop(k: nat, c: char)
    requires 14 <= k < 21
    ensures !Nullable(RuleAt(k).pattern)
    ensures MayStart(RuleAt(k).pattern, c) ==> RuleStartChar(k, c)
  {
    if k == 14 { WordStart("<!--", c); }
    else if k == 15 { WordStart("-->", c); }
    else if k == 16 { NumStartLemma(c); }
    else if k == 17 { StringStartLemma(c); }
    else if k == 18 { IdentStartLemma(c); }
    else if k == 19 { ChrFirst('\n', Star(Chr(Exactly('\n'))), c); }
    else { CommentStartLemma(c); }
  }

  /** A pattern that begins with one fixed character starts only with that character. */
  lemma ChrFirst(d: char, r: Re, c: char)
    requires !('A' <= d <= 'Z' || 'a' <= d <= 'z')
    ensures !Nullable(Cat(Chr(Exactly(d)), r))
    ensures MayStart(Cat(Chr(Exactly(d)), r), c) ==> c == d
  {
    assert MayStart(Cat(Chr(Exactly(d)), r), c) == (Lower(c) == Lower(d));
  }

  lemma CssWellFormed()
    ensures WellFormed(Css)
  {
    forall k | 0 <= k < |Rules| ensures !Nullable(Rules[k].pattern) { RuleStart(k, 'a'); }
  }

  /** One step of the lexer's `token()` on `s` at `i`. */
  function LexStep(s: string, i: nat): Step
    requires i < |s|
  {
    CssWellFormed();
    NextStep(Css, s, i)
  }

  /** The tokens and diagnostics of the whole input. */
  function Tokens(s: string): Scanned
  {
    TokensFrom(s, 0)
  }

  /** The tokens and diagnostics of the input from offset `i` on. */
  function TokensFrom(s: string, i: nat): Scanned
    requires i <= |s|
  {
    CssWellFormed();
    Scan(Css, s, i)
  }

  /** The token loop of `CSSLexer.debug`, without the logging. */
  method Tokenize(s: string) returns (tokens: seq<Token>, diagnostics: seq<Diagnostic>)
    ensures Scanned(tokens, diagnostics) == Tokens(s)
    ensures Faithful(s, 0, tokens)
  {
    CssWellFormed();
    tokens, diagnostics := Scanner.Tokenize(Css, s);
    ScanFaithful(Css, s, 0);
  }

  /** No rule of the table emits a literal token. */
  lemma CssNoLiteralRule()
    ensures NoLiteralRule(Css)
  {
    forall k | 0 <= k < |Css.rules| && Css.rules[k].action.Emit?
      ensures !Css.rules[k].action.kind.Literal?
    {
      assert Css.rules[k] == RuleAt(k);
    }
  }

  /** Every literal token of the scan is its own character. */
  lemma TokensPlain(s: string)
    ensures Plain(Tokens(s).tokens)
  {
    CssWellFormed();
    CssNoLiteralRule();
    ScanPlain(Css, s, 0);
  }

  // ---------------------------------------------------------------------------
  // Choosing a rule

  /** Rules `lo` to `hi - 1` all fail at `i`. */
  predicate Fail(s: string, i: nat, lo: nat, hi: nat)
    requires i <= |s|
  {
    forall m :: lo <= m < hi ==> Ends(RuleAt(m).pattern, s, i) == []
  }

  /** Rules `lo` to `hi - 1` fail where none of them can begin. */
  lemma NoRuleStarts(s: string, i: nat, lo: nat, hi: nat)
    requires i < |s| && lo <= hi <= 21
    requires forall k :: lo <= k < hi ==> !RuleStartChar(k, s[i])
    ensures Fail(s, i, lo, hi)
  {
    forall k | lo <= k < hi ensures Ends(RuleAt(k).pattern, s, i) == [] {
      RuleStart(k, s[i]);
      NoMatchAt(Rules[k].pattern, s, i);
    }
  }

  lemma FailJoin(s: string, i: nat, lo: nat, mid: nat, hi: nat)
    requires i <= |s| && lo <= mid <= hi && Fail(s, i, lo, mid) && Fail(s, i, mid, hi)
    ensures Fail(s, i, lo, hi)
  {
  }

  /** Rules 11 and 12 are the words of the two at-rules the grammar knows. */
  lemma AtWordRules()
    ensures RuleAt(11).pattern == Word(ImportWord) && RuleAt(12).pattern == Word(NamespaceWord)
  {
  }

  /** A rule that is one word fails where that word is not spelled. */
  lemma WordFails(s: string, i: nat, k: nat, w: string)
    requires i <= |s| && RuleAt(k).pattern == Word(w) && !HasPrefix(s, i, w)
    ensures Fail(s, i, k, k + 1)
  {
    WordAt(w, s, i);
  }

  lemma FailOne(s: string, i: nat, k: nat)
    requires i <= |s| && Ends(RuleAt(k).pattern, s, i) == []
    ensures Fail(s, i, k, k + 1)
  {
  }

  /** The step at `i` when rule `k` is the first to match, ending at `e`. */
  lemma Chosen(s: string, i: nat, k: nat, e: nat)
    requires i < |s| && s[i] !in IgnoreChars && k < 21 && Fail(s, i, 0, k)
    requires First(RuleAt(k).pattern, s, i) == Some(e)
    ensures RuleAt(k).action.Emit? ==>
              LexStep(s, i) == Produced(Token(RuleAt(k).action.kind, s[i..e], i), e)
    ensures RuleAt(k).action.Discard? ==> LexStep(s, i) == Ignored(e)
  {
    CssWellFormed();
    RuleChosen(Css, s, i, k, e);
  }

  // ---------------------------------------------------------------------------
  // Words

  /** A four-letter word ending in `(`, like `not(` or `url(`, spans a three-letter name. */
  lemma ParenWordRun(s: string, i: nat, w: string)
    requires |w| == 4 && 'a' <= w[1] <= 'z' && 'a' <= w[2] <= 'z' && w[3] == '('
    requires HasPrefix(s, i, w)
    ensures RunEnd(NmCharAscii, s, i + 1) == i + 3 && s[i + 3] == '('
  {
    PrefixChar(s, i, w, 1);
    PrefixChar(s, i, w, 2);
    PrefixChar(s, i, w, 3);
    assert RunEnd(NmCharAscii, s, i + 3) == i + 3;
  }

  // ---------------------------------------------------------------------------
  // Names

  /** A name start that is no digit, point or operator character starts none of rules 0-5. */
  lemma NameSkipsOperators(s: string, i: nat)
    requires i < |s| && In(NmStartAscii, s[i])
    ensures Fail(s, i, 0, 6)
  {
    NoRuleStarts(s, i, 0, 6);
  }

  /** `not(` and `url(` need a `(` right after a three-letter name. */
  lemma NameSkipsNotUrl(s: string, i: nat)
    requires i < |s| && In(NmStartAscii, s[i])
    requires RunEnd(NmCharAscii, s, i + 1) < |s| ==> s[RunEnd(NmCharAscii, s, i + 1)] != '('
    ensures Fail(s, i, 6, 8)
  {
    NoParenWord(s, i, "not(");
    NoParenWord(s, i, "url(");
    WordAt("not(", s, i);
    WordAt("url(", s, i);
    CatNoFirst(Word("url("), Cat(Or(StringRe, UrlRe), Chr(Exactly(')'))), s, i);
    FailOne(s, i, 6);
    FailOne(s, i, 7);
    FailJoin(s, i, 6, 7, 8);
  }

  /** A name that `(` does not follow is no three-letter word with its `(`. */
  lemma NoParenWord(s: string, i: nat, w: string)
    requires |w| == 4 && 'a' <= w[1] <= 'z' && 'a' <= w[2] <= 'z' && w[3] == '('
    requires i < |s| && In(NmStartAscii, s[i])
    requires RunEnd(NmCharAscii, s, i + 1) < |s| ==> s[RunEnd(NmCharAscii, s, i + 1)] != '('
    ensures !HasPrefix(s, i, w)
  {
    if HasPrefix(s, i, w) {
      ParenWordRun(s, i, w);
    }
  }

  /** FUNCTION needs a `(` right after the name. */
  lemma NameSkipsFunction(s: string, i: nat)
    requires i < |s| && In(NmStartAscii, s[i])
    requires AsciiStop(s, RunEnd(NmCharAscii, s, i + 1))
    requires RunEnd(NmCharAscii, s, i + 1) < |s| ==> s[RunEnd(NmCharAscii, s, i + 1)] != '('
    ensures Ends(RuleAt(8).pattern, s, i) == []
  {
    var r := RunEnd(NmCharAscii, s, i + 1);
    IdentAscii(s, i);
    forall x | x in Ends(IdentRe, s, i) ensures Ends(Chr(Exactly('(')), s, x) == [] {
      if x < r { assert In(NmCharAscii, s[x]); }
    }
    CatNoSecond(IdentRe, Chr(Exactly('(')), s, i);
  }

  /** A name start begins none of rules 9 to 17. */
  lemma NameSkipsMarkup(s: string, i: nat)
    requires i < |s| && In(NmStartAscii, s[i])
    ensures Fail(s, i, 9, 18)
  {
    NoRuleStarts(s, i, 9, 18);
  }

  /**
   * An ASCII name not followed by `(` is one IDENT token; NOT, URI and FUNCTION all need
   * a `(` right after the name.
   */
  lemma IdentToken(s: string, i: nat)
    requires i < |s| && In(NmStartAscii, s[i])
    requires AsciiStop(s, RunEnd(NmCharAscii, s, i + 1))
    requires RunEnd(NmCharAscii, s, i + 1) < |s| ==> s[RunEnd(NmCharAscii, s, i + 1)] != '('
    ensures LexStep(s, i) ==
              Produced(Token(Ident, s[i..RunEnd(NmCharAscii, s, i + 1)], i), RunEnd(NmCharAscii, s, i + 1))
  {
    NameSkipsOperators(s, i);
    NameSkipsNotUrl(s, i);
    NameSkipsFunction(s, i);
    FailOne(s, i, 8);
    NameSkipsMarkup(s, i);
    FailJoin(s, i, 0, 6, 8);
    FailJoin(s, i, 0, 8, 9);
    FailJoin(s, i, 0, 9, 18);
    IdentAscii(s, i);
    assert s[i] !in IgnoreChars;
    Chosen(s, i, 18, RunEnd(NmCharAscii, s, i + 1));
  }

  /** Neither `not(` nor `url(` is spelled at `i`. */
  lemma NotUrlAbsent(s: string, i: nat)
    requires i <= |s| && !HasPrefix(s, i, "not(") && !HasPrefix(s, i, "url(")
    ensures Fail(s, i, 6, 8)
  {
    WordAt("not(", s, i);
    WordAt("url(", s, i);
    CatNoFirst(Word("url("), Cat(Or(StringRe, UrlRe), Chr(Exactly(')'))), s, i);
  }

  /** An ASCII name directly followed by `(`: the FUNCTION pattern takes both. */
  lemma FunctionMatch(s: string, i: nat)
    requires i < |s| && In(NmStartAscii, s[i])
    requires RunEnd(NmCharAscii, s, i + 1) < |s| && s[RunEnd(NmCharAscii, s, i + 1)] == '('
    ensures First(RuleAt(8).pattern, s, i) == Some(RunEnd(NmCharAscii, s, i + 1) + 1)
  {
    var r := RunEnd(NmCharAscii, s, i + 1);
    IdentAscii(s, i);
    ChrAt(Exactly('('), s, r);
    FirstCat(IdentRe, Chr(Exactly('(')), s, i, r);
  }

  /** An ASCII name followed by `(` is one FUNCTION token, unless it is `not(` or `url(`. */
  lemma FunctionToken(s: string, i: nat)
    requires i < |s| && In(NmStartAscii, s[i])
    requires RunEnd(NmCharAscii, s, i + 1) < |s| && s[RunEnd(NmCharAscii, s, i + 1)] == '('
    requires !HasPrefix(s, i, "not(") && !HasPrefix(s, i, "url(")
    ensures LexStep(s, i) ==
              Produced(Token(Function, s[i..RunEnd(NmCharAscii, s, i + 1) + 1], i),
                       RunEnd(NmCharAscii, s, i + 1) + 1)
  {
    NameSkipsOperators(s, i);
    NotUrlAbsent(s, i);
    FailJoin(s, i, 0, 6, 8);
    FunctionMatch(s, i);
    assert s[i] !in IgnoreChars;
    Chosen(s, i, 8, RunEnd(NmCharAscii, s, i + 1) + 1);
  }

  /** A word's first letter, when it is an ASCII letter, is a name start. */
  lemma LetterStart(s: string, i: nat, w: string)
    requires HasPrefix(s, i, w) && |w| > 0 && 'a' <= w[0] <= 'z'
    ensures i < |s| && In(NmStartAscii, s[i])
  {
    PrefixChar(s, i, w, 0);
  }

  /** `not(` in any letter case is one NOT token, `(` included; never a FUNCTION. */
  lemma NotToken(s: string, i: nat)
    requires HasPrefix(s, i, "not(")
    ensures i < |s| && LexStep(s, i) == Produced(Token(Not, s[i..i + 4], i), i + 4)
  {
    LetterStart(s, i, "not(");
    NameSkipsOperators(s, i);
    WordAt("not(", s, i);
    assert s[i] !in IgnoreChars;
    Chosen(s, i, 6, i + 4);
  }

  /** `url(` is no `not(`: the first letters differ. */
  lemma UrlIsNotNot(s: string, i: nat)
    requires HasPrefix(s, i, "url(")
    ensures Fail(s, i, 6, 7)
  {
    PrefixChar(s, i, "url(", 0);
    OtherLetter(s, i, "not(", 0, 'u');
    WordAt("not(", s, i);
  }

  /** A run of unquoted URL characters is no string. */
  lemma UrlBodyMatch(s: string, j: nat)
    requires j < |s| && In(UrlAscii, s[j])
    requires RunEnd(UrlAscii, s, j) < |s| && s[RunEnd(UrlAscii, s, j)] == ')'
    ensures First(Or(StringRe, UrlRe), s, j) == Some(RunEnd(UrlAscii, s, j))
  {
    StringStartLemma(s[j]);
    NoMatchAt(StringRe, s, j);
    UrlAsciiRun(s, j);
    FirstOr(StringRe, UrlRe, s, j);
  }

  /** The body of a URI and its closing `)`. */
  lemma UrlCloseMatch(s: string, j: nat)
    requires j < |s| && In(UrlAscii, s[j])
    requires RunEnd(UrlAscii, s, j) < |s| && s[RunEnd(UrlAscii, s, j)] == ')'
    ensures First(Cat(Or(StringRe, UrlRe), Chr(Exactly(')'))), s, j) == Some(RunEnd(UrlAscii, s, j) + 1)
  {
    var r := RunEnd(UrlAscii, s, j);
    UrlBodyMatch(s, j);
    ChrAt(Exactly(')'), s, r);
    FirstCat(Or(StringRe, UrlRe), Chr(Exactly(')')), s, j, r);
  }

  /** `url(`, unquoted URL characters and `)`: the URI pattern takes all of it. */
  lemma UriMatch(s: string, i: nat)
    requires HasPrefix(s, i, "url(") && i + 4 < |s| && In(UrlAscii, s[i + 4])
    requires RunEnd(UrlAscii, s, i + 4) < |s| && s[RunEnd(UrlAscii, s, i + 4)] == ')'
    ensures First(RuleAt(7).pattern, s, i) == Some(RunEnd(UrlAscii, s, i + 4) + 1)
  {
    UrlCloseMatch(s, i + 4);
    WordAt("url(", s, i);
    FirstCat(Word("url("), Cat(Or(StringRe, UrlRe), Chr(Exactly(')'))), s, i, i + 4);
  }

  /** `url(`, a run of unquoted URL characters, then `)`: one URI token. */
  lemma UriToken(s: string, i: nat)
    requires HasPrefix(s, i, "url(") && i + 4 < |s| && In(UrlAscii, s[i + 4])
    requires RunEnd(UrlAscii, s, i + 4) < |s| && s[RunEnd(UrlAscii, s, i + 4)] == ')'
    ensures LexStep(s, i) ==
              Produced(Token(Uri, s[i..RunEnd(UrlAscii, s, i + 4) + 1], i), RunEnd(UrlAscii, s, i + 4) + 1)
  {
    LetterStart(s, i, "url(");
    NameSkipsOperators(s, i);
    UrlIsNotNot(s, i);
    FailJoin(s, i, 0, 6, 7);
    UriMatch(s, i);
    assert s[i] !in IgnoreChars;
    Chosen(s, i, 7, RunEnd(UrlAscii, s, i + 4) + 1);
  }

  /** Every URI match closes with a `)` after the `url(`. */
  lemma UriEndsClose(s: string, i: nat, x: nat)
    requires i <= |s| && x in Ends(RuleAt(7).pattern, s, i)
    ensures i + 4 < x <= |s| && s[x - 1] == ')'
  {
    WordThenClose("url(", Or(StringRe, UrlRe), ')', s, i, x);
  }

  /** Without a later `)`, the URI pattern fails. */
  lemma UnclosedUriFails(s: string, i: nat)
    requires i <= |s| && forall k :: i + 4 <= k < |s| ==> s[k] != ')'
    ensures Fail(s, i, 7, 8)
  {
    if Ends(RuleAt(7).pattern, s, i) != [] {
      UriEndsClose(s, i, Ends(RuleAt(7).pattern, s, i)[0]);
    }
  }

  /** An unclosed `url(` is no URI; the scan takes the FUNCTION `url(`. */
  lemma UnclosedUrl(s: string, i: nat)
    requires HasPrefix(s, i, "url(")
    requires forall k :: i + 4 <= k < |s| ==> s[k] != ')'
    ensures i < |s| && LexStep(s, i) == Produced(Token(Function, s[i..i + 4], i), i + 4)
  {
    LetterStart(s, i, "url(");
    NameSkipsOperators(s, i);
    UrlIsNotNot(s, i);
    UnclosedUriFails(s, i);
    FailJoin(s, i, 0, 6, 7);
    FailJoin(s, i, 0, 7, 8);
    ParenWordRun(s, i, "url(");
    FunctionMatch(s, i);
    assert s[i] !in IgnoreChars;
    Chosen(s, i, 8, i + 4);
  }

  // ---------------------------------------------------------------------------
  // Numbers

  /** Only DIMENSION, PERCENTAGE and NUMBER among the first seventeen rules begin at a digit or a point. */
  lemma NumberSkips(s: string, i: nat)
    requires i < |s| && (IsDigit(s[i]) || s[i] == '.')
    ensures Fail(s, i, 0, 5) && Fail(s, i, 6, 10) && Fail(s, i, 11, 16)
  {
    NoRuleStarts(s, i, 0, 5);
    NoRuleStarts(s, i, 6, 10);
    NoRuleStarts(s, i, 11, 16);
  }

  /** The number forms at `i` all end at or before `f`, on a digit or the point when before. */
  predicate NumberEndsBy(s: string, i: nat, f: nat)
    requires i <= |s|
  {
    forall x :: x in Ends(NumRe, s, i) ==> x <= f && (x < f ==> x < |s| && (IsDigit(s[x]) || s[x] == '.'))
  }

  /** At a digit the number forms end by the longest number. */
  lemma NumberEndsAtDigit(s: string, i: nat)
    requires i < |s| && IsDigit(s[i])
    ensures NumberEndsBy(s, i, NumSpan(s, i))
  {
    NumAtDigit(s, i);
  }

  /** At a point the number forms end by the digit run after it. */
  lemma NumberEndsAtPoint(s: string, i: nat)
    requires i + 1 < |s| && s[i] == '.' && IsDigit(s[i + 1])
    ensures NumberEndsBy(s, i, RunEnd(Digit, s, i + 1))
  {
    NumAtPoint(s, i);
  }

  /** DIMENSION fails when no identifier can begin after the longest number. */
  lemma DimensionFails(s: string, i: nat, f: nat)
    requires i <= |s| && NumberEndsBy(s, i, f)
    requires f < |s| ==> !IdentStart(s[f])
    ensures Fail(s, i, 5, 6)
  {
    forall x | x in Ends(NumRe, s, i) ensures Ends(IdentRe, s, x) == [] {
      if x < |s| { IdentStartLemma(s[x]); } else { IdentStartLemma('a'); }
      NoMatchAt(IdentRe, s, x);
    }
    CatNoSecond(NumRe, IdentRe, s, i);
  }

  /** PERCENTAGE fails when no `%` follows the longest number. */
  lemma PercentageFails(s: string, i: nat, f: nat)
    requires i <= |s| && NumberEndsBy(s, i, f)
    requires f < |s| ==> s[f] != '%'
    ensures Fail(s, i, 10, 11)
  {
    forall x | x in Ends(NumRe, s, i) ensures Ends(Chr(Exactly('%')), s, x) == [] {
      ChrAt(Exactly('%'), s, x);
    }
    CatNoSecond(NumRe, Chr(Exactly('%')), s, i);
  }

  /** A number and an ASCII name: DIMENSION takes the longest number and the whole name. */
  lemma DimensionMatch(s: string, i: nat)
    requires i < |s| && IsDigit(s[i]) && NumSpan(s, i) < |s| && In(NmStartAscii, s[NumSpan(s, i)])
    requires AsciiStop(s, RunEnd(NmCharAscii, s, NumSpan(s, i) + 1))
    ensures First(RuleAt(5).pattern, s, i) == Some(RunEnd(NmCharAscii, s, NumSpan(s, i) + 1))
  {
    var f := NumSpan(s, i);
    NumAtDigit(s, i);
    IdentAscii(s, f);
    forall x | x in Ends(NumRe, s, i) && x != f ensures Ends(IdentRe, s, x) == [] {
      IdentStartLemma(s[x]);
      NoMatchAt(IdentRe, s, x);
    }
    FirstCatOnly(NumRe, IdentRe, s, i, f);
  }

  /**
   * A number immediately followed by a name is one DIMENSION token, whatever the name
   * (`10px`, `10kg`, `1.5em`): DIMENSION comes before NUMBER in the table.
   */
  lemma DimensionToken(s: string, i: nat)
    requires i < |s| && IsDigit(s[i]) && NumSpan(s, i) < |s| && In(NmStartAscii, s[NumSpan(s, i)])
    requires AsciiStop(s, RunEnd(NmCharAscii, s, NumSpan(s, i) + 1))
    ensures LexStep(s, i) ==
              Produced(Token(Dimension, s[i..RunEnd(NmCharAscii, s, NumSpan(s, i) + 1)], i),
                       RunEnd(NmCharAscii, s, NumSpan(s, i) + 1))
  {
    NumberSkips(s, i);
    DimensionMatch(s, i);
    assert s[i] !in IgnoreChars;
    Chosen(s, i, 5, RunEnd(NmCharAscii, s, NumSpan(s, i) + 1));
  }

  /** A number and `%`: PERCENTAGE takes the longest number and the sign. */
  lemma PercentageMatch(s: string, i: nat)
    requires i < |s| && IsDigit(s[i]) && NumSpan(s, i) < |s| && s[NumSpan(s, i)] == '%'
    ensures First(RuleAt(10).pattern, s, i) == Some(NumSpan(s, i) + 1)
  {
    var f := NumSpan(s, i);
    NumAtDigit(s, i);
    ChrAt(Exactly('%'), s, f);
    forall x | x in Ends(NumRe, s, i) && x != f ensures Ends(Chr(Exactly('%')), s, x) == [] {
      ChrAt(Exactly('%'), s, x);
    }
    FirstCatOnly(NumRe, Chr(Exactly('%')), s, i, f);
  }

  /** A number followed by `%` is one PERCENTAGE token, `1.5%` included. */
  lemma PercentageToken(s: string, i: nat)
    requires i < |s| && IsDigit(s[i]) && NumSpan(s, i) < |s| && s[NumSpan(s, i)] == '%'
    ensures LexStep(s, i) ==
              Produced(Token(Percentage, s[i..NumSpan(s, i) + 1], i), NumSpan(s, i) + 1)
  {
    NumberSkips(s, i);
    NumberEndsAtDigit(s, i);
    DimensionFails(s, i, NumSpan(s, i));
    FailJoin(s, i, 0, 5, 6);
    FailJoin(s, i, 0, 6, 10);
    PercentageMatch(s, i);
    assert s[i] !in IgnoreChars;
    Chosen(s, i, 10, NumSpan(s, i) + 1);
  }

  /** Neither a name nor `%` follows the end `f` of the number at `i`: NUMBER is chosen. */
  lemma NumberChosen(s: string, i: nat, f: nat)
    requires i < |s| && (IsDigit(s[i]) || s[i] == '.') && NumberEndsBy(s, i, f)
    requires f < |s| ==> !IdentStart(s[f]) && s[f] != '%'
    requires First(NumRe, s, i).Some?
    ensures LexStep(s, i) ==
              Produced(Token(Number, s[i..First(NumRe, s, i).value], i), First(NumRe, s, i).value)
  {
    NumberSkips(s, i);
    DimensionFails(s, i, f);
    PercentageFails(s, i, f);
    FailJoin(s, i, 0, 5, 6);
    FailJoin(s, i, 0, 6, 10);
    FailJoin(s, i, 0, 10, 11);
    FailJoin(s, i, 0, 11, 16);
    assert s[i] !in IgnoreChars;
    Chosen(s, i, 16, First(NumRe, s, i).value);
  }

  /**
   * Where the number is followed by neither a name nor `%`, the NUMBER token is only the
   * digit run: the integer form of `num` is tried first.
   */
  lemma NumberToken(s: string, i: nat)
    requires i < |s| && IsDigit(s[i])
    requires NumSpan(s, i) < |s| ==> !IdentStart(s[NumSpan(s, i)]) && s[NumSpan(s, i)] != '%'
    ensures LexStep(s, i) ==
              Produced(Token(Number, s[i..RunEnd(Digit, s, i)], i), RunEnd(Digit, s, i))
  {
    NumberEndsAtDigit(s, i);
    NumAtDigit(s, i);
    NumberChosen(s, i, NumSpan(s, i));
  }

  /** A point and digits, followed by neither a name nor `%`, is one NUMBER token. */
  lemma FractionToken(s: string, i: nat)
    requires i + 1 < |s| && s[i] == '.' && IsDigit(s[i + 1])
    requires RunEnd(Digit, s, i + 1) < |s| ==>
               !IdentStart(s[RunEnd(Digit, s, i + 1)]) && s[RunEnd(Digit, s, i + 1)] != '%'
    ensures LexStep(s, i) ==
              Produced(Token(Number, s[i..RunEnd(Digit, s, i + 1)], i), RunEnd(Digit, s, i + 1))
  {
    NumberEndsAtPoint(s, i);
    NumAtPoint(s, i);
    NumberChosen(s, i, RunEnd(Digit, s, i + 1));
  }

  /**
   * A bare decimal such as `1.5` is two NUMBER tokens, the digits before the point and then
   * the point with the digits after it.
   */
  lemma DecimalSplits(s: string, i: nat)
    requires i < |s| && IsDigit(s[i])
    requires RunEnd(Digit, s, i) + 1 < |s| && s[RunEnd(Digit, s, i)] == '.'
    requires IsDigit(s[RunEnd(Digit, s, i) + 1])
    requires NumSpan(s, i) < |s| ==> !IdentStart(s[NumSpan(s, i)]) && s[NumSpan(s, i)] != '%'
    ensures LexStep(s, i) ==
              Produced(Token(Number, s[i..RunEnd(Digit, s, i)], i), RunEnd(Digit, s, i))
    ensures LexStep(s, RunEnd(Digit, s, i)) ==
              Produced(Token(Number, s[RunEnd(Digit, s, i)..NumSpan(s, i)], RunEnd(Digit, s, i)), NumSpan(s, i))
  {
    var d := RunEnd(Digit, s, i);
    assert NumSpan(s, i) == RunEnd(Digit, s, d + 1);
    NumberToken(s, i);
    FractionToken(s, d);
  }

  // ---------------------------------------------------------------------------
  // At-keywords and hashes

  /** A word's first character, when it is no letter, is that character exactly. */
  lemma SymbolStart(s: string, i: nat, w: string)
    requires HasPrefix(s, i, w) && |w| > 0 && !('A' <= w[0] <= 'Z' || 'a' <= w[0] <= 'z')
    ensures i < |s| && s[i] == w[0]
  {
    PrefixChar(s, i, w, 0);
  }

  /** `@import`, in any letter case, is one IMPORT_SYM token, even inside a longer name. */
  lemma ImportToken(s: string, i: nat)
    requires HasPrefix(s, i, ImportWord)
    ensures i < |s| && LexStep(s, i) == Produced(Token(ImportSym, s[i..i + 7], i), i + 7)
  {
    SymbolStart(s, i, ImportWord);
    NoRuleStarts(s, i, 0, 11);
    WordAt(ImportWord, s, i);
    assert s[i] !in IgnoreChars;
    Chosen(s, i, 11, i + 7);
  }

  /** `@namespace` is no `@import`: the second letters differ. */
  lemma NamespaceIsNotImport(s: string, i: nat)
    requires HasPrefix(s, i, NamespaceWord)
    ensures Fail(s, i, 11, 12)
  {
    PrefixChar(s, i, NamespaceWord, 1);
    OtherLetter(s, i, ImportWord, 1, 'n');
    WordAt(ImportWord, s, i);
  }

  /** `@namespace`, in any letter case, is one NAMESPACE_SYM token. */
  lemma NamespaceToken(s: string, i: nat)
    requires HasPrefix(s, i, NamespaceWord)
    ensures i < |s| && LexStep(s, i) == Produced(Token(NamespaceSym, s[i..i + 10], i), i + 10)
  {
    SymbolStart(s, i, NamespaceWord);
    NoRuleStarts(s, i, 0, 11);
    NamespaceIsNotImport(s, i);
    FailJoin(s, i, 0, 11, 12);
    WordAt(NamespaceWord, s, i);
    assert s[i] !in IgnoreChars;
    Chosen(s, i, 12, i + 10);
  }

  /** A character and a name of ASCII name characters after it. */
  lemma MarkedNameMatch(s: string, i: nat, mark: char)
    requires i + 1 < |s| && s[i] == mark && !('A' <= mark <= 'Z' || 'a' <= mark <= 'z')
    requires In(NmCharAscii, s[i + 1]) && AsciiStop(s, RunEnd(NmCharAscii, s, i + 1))
    ensures First(Cat(Chr(Exactly(mark)), NameRe), s, i) == Some(RunEnd(NmCharAscii, s, i + 1))
  {
    ChrAt(Exactly(mark), s, i);
    NameAscii(s, i + 1);
    FirstCat(Chr(Exactly(mark)), NameRe, s, i, i + 1);
  }

  /** A character and no name after it. */
  lemma MarkedNameFails(s: string, i: nat, mark: char)
    requires i < |s| && (i + 1 < |s| ==> !NmCharChar(s[i + 1]))
    ensures Ends(Cat(Chr(Exactly(mark)), NameRe), s, i) == []
  {
    ChrAt(Exactly(mark), s, i);
    if i + 1 < |s| { IdentStartLemma(s[i + 1]); } else { IdentStartLemma('a'); }
    NoMatchAt(NameRe, s, i + 1);
    CatNoSecond(Chr(Exactly(mark)), NameRe, s, i);
  }

  /** Neither `@import` nor `@namespace` is spelled at `i`. */
  lemma AtWordsAbsent(s: string, i: nat)
    requires i <= |s| && !HasPrefix(s, i, ImportWord) && !HasPrefix(s, i, NamespaceWord)
    ensures Fail(s, i, 11, 13)
  {
    AtWordRules();
    WordFails(s, i, 11, ImportWord);
    WordFails(s, i, 12, NamespaceWord);
    FailJoin(s, i, 11, 12, 13);
  }

  /** Any other `@` and name is one ATKEYWORD token. */
  lemma AtKeywordToken(s: string, i: nat)
    requires i + 1 < |s| && s[i] == '@' && In(NmCharAscii, s[i + 1])
    requires AsciiStop(s, RunEnd(NmCharAscii, s, i + 1))
    requires !HasPrefix(s, i, ImportWord) && !HasPrefix(s, i, NamespaceWord)
    ensures LexStep(s, i) ==
              Produced(Token(AtKeyword, s[i..RunEnd(NmCharAscii, s, i + 1)], i), RunEnd(NmCharAscii, s, i + 1))
  {
    NoRuleStarts(s, i, 0, 11);
    AtWordsAbsent(s, i);
    FailJoin(s, i, 0, 11, 13);
    MarkedNameMatch(s, i, '@');
    assert s[i] !in IgnoreChars;
    Chosen(s, i, 13, RunEnd(NmCharAscii, s, i + 1));
  }

  /** `#` and a name is one HASH token. */
  lemma HashToken(s: string, i: nat)
    requires i + 1 < |s| && s[i] == '#' && In(NmCharAscii, s[i + 1])
    requires AsciiStop(s, RunEnd(NmCharAscii, s, i + 1))
    ensures LexStep(s, i) ==
              Produced(Token(Hash, s[i..RunEnd(NmCharAscii, s, i + 1)], i), RunEnd(NmCharAscii, s, i + 1))
  {
    NoRuleStarts(s, i, 0, 9);
    MarkedNameMatch(s, i, '#');
    assert s[i] !in IgnoreChars;
    Chosen(s, i, 9, RunEnd(NmCharAscii, s, i + 1));
  }

  // ---------------------------------------------------------------------------
  // Steps without a rule

  /** When no rule matches, a literal character is its own token and any other is reported. */
  lemma Unmatched(s: string, i: nat)
    requires i < |s| && s[i] !in IgnoreChars && Fail(s, i, 0, 21)
    ensures s[i] in Literals ==> LexStep(s, i) == Produced(Token(Literal(s[i]), [s[i]], i), i + 1)
    ensures s[i] !in Literals ==> LexStep(s, i) == Reported(IllegalCharacter(i, s[i]), i + 1)
  {
    CssWellFormed();
    NoRuleMatches(Css, s, i);
  }

  /** A character no rule can begin with: a literal token, or a reported character. */
  lemma NoRuleChar(s: string, i: nat)
    requires i < |s| && s[i] !in IgnoreChars
    requires forall k :: 0 <= k < 21 ==> !RuleStartChar(k, s[i])
    ensures s[i] in Literals ==> LexStep(s, i) == Produced(Token(Literal(s[i]), [s[i]], i), i + 1)
    ensures s[i] !in Literals ==> LexStep(s, i) == Reported(IllegalCharacter(i, s[i]), i + 1)
  {
    NoRuleStarts(s, i, 0, 21);
    Unmatched(s, i);
  }

  /** `{`, `}`, `;`, `:`, `,`, `(`, `)`, `[`, `]`, `=` and `>` are always one-character tokens. */
  lemma PunctuationToken(s: string, i: nat)
    requires i < |s| && s[i] in {'{', '}', ';', ':', ',', '(', ')', '[', ']', '=', '>'}
    ensures LexStep(s, i) == Produced(Token(Literal(s[i]), [s[i]], i), i + 1)
  {
    NoRuleChar(s, i);
  }

  /** `~`, `|` and `*` not followed by `=` are one-character tokens. */
  lemma OperatorCharToken(s: string, i: nat)
    requires i < |s| && s[i] in {'~', '|', '*'} && (i + 1 < |s| ==> s[i + 1] != '=')
    ensures LexStep(s, i) == Produced(Token(Literal(s[i]), [s[i]], i), i + 1)
  {
    OperatorsAbsent(s, i);
    NoRuleStarts(s, i, 5, 21);
    FailJoin(s, i, 0, 5, 21);
    assert s[i] in Literals && s[i] !in IgnoreChars;
    Unmatched(s, i);
  }

  /** No two-character attribute operator is spelled where `=` does not follow. */
  lemma OperatorsAbsent(s: string, i: nat)
    requires i < |s| && (i + 1 < |s| ==> s[i + 1] != '=')
    ensures Fail(s, i, 0, 5)
  {
    OperatorAbsent(s, i, "~=");
    OperatorAbsent(s, i, "|=");
    OperatorAbsent(s, i, "^=");
    OperatorAbsent(s, i, "$=");
    OperatorAbsent(s, i, "*=");
  }

  lemma OperatorAbsent(s: string, i: nat, w: string)
    requires i < |s| && (i + 1 < |s| ==> s[i + 1] != '=')
    requires |w| == 2 && w[1] == '='
    ensures Ends(Word(w), s, i) == []
  {
    WordAt(w, s, i);
    if HasPrefix(s, i, w) { PrefixChar(s, i, w, 1); }
  }

  /** A `.` that no digit follows is a one-character token. */
  lemma PointToken(s: string, i: nat)
    requires i < |s| && s[i] == '.' && (i + 1 < |s| ==> !IsDigit(s[i + 1]))
    ensures LexStep(s, i) == Produced(Token(Literal('.'), ".", i), i + 1)
  {
    NumberSkips(s, i);
    NoNumAtPoint(s, i);
    CatNoFirst(NumRe, IdentRe, s, i);
    CatNoFirst(NumRe, Chr(Exactly('%')), s, i);
    FailOne(s, i, 5);
    FailOne(s, i, 10);
    FailOne(s, i, 16);
    NoRuleStarts(s, i, 17, 21);
    FailJoin(s, i, 0, 5, 6);
    FailJoin(s, i, 0, 6, 10);
    FailJoin(s, i, 0, 10, 11);
    FailJoin(s, i, 0, 11, 16);
    FailJoin(s, i, 0, 16, 17);
    FailJoin(s, i, 0, 17, 21);
    assert s[i] in Literals && s[i] !in IgnoreChars;
    Unmatched(s, i);
  }

  /** A word whose second character is a letter is not spelled where no name character follows. */
  lemma LetterWordAbsent(s: string, i: nat, w: string)
    requires i < |s| && (i + 1 < |s| ==> !NmCharChar(s[i + 1]))
    requires |w| > 1 && 'a' <= w[1] <= 'z'
    ensures !HasPrefix(s, i, w)
  {
    if HasPrefix(s, i, w) { PrefixChar(s, i, w, 1); }
  }

  /** `@` with no name after it matches nothing and is reported. */
  lemma LoneAtReported(s: string, i: nat)
    requires i < |s| && s[i] == '@' && (i + 1 < |s| ==> !NmCharChar(s[i + 1]))
    ensures LexStep(s, i) == Reported(IllegalCharacter(i, '@'), i + 1)
  {
    LoneAtFails(s, i);
    assert s[i] !in Literals && s[i] !in IgnoreChars;
    Unmatched(s, i);
  }

  lemma LoneAtFails(s: string, i: nat)
    requires i < |s| && s[i] == '@' && (i + 1 < |s| ==> !NmCharChar(s[i + 1]))
    ensures Fail(s, i, 0, 21)
  {
    LoneAtHeadFails(s, i);
    NoRuleStarts(s, i, 14, 21);
    FailJoin(s, i, 0, 14, 21);
  }

  lemma LoneAtHeadFails(s: string, i: nat)
    requires i < |s| && s[i] == '@' && (i + 1 < |s| ==> !NmCharChar(s[i + 1]))
    ensures Fail(s, i, 0, 14)
  {
    NoRuleStarts(s, i, 0, 11);
    LetterWordAbsent(s, i, ImportWord);
    LetterWordAbsent(s, i, NamespaceWord);
    AtWordsAbsent(s, i);
    MarkedNameFails(s, i, '@');
    FailOne(s, i, 13);
    FailJoin(s, i, 0, 11, 13);
    FailJoin(s, i, 0, 13, 14);
  }

  /** `#` with no name after it matches nothing and is reported. */
  lemma LoneHashReported(s: string, i: nat)
    requires i < |s| && s[i] == '#' && (i + 1 < |s| ==> !NmCharChar(s[i + 1]))
    ensures LexStep(s, i) == Reported(IllegalCharacter(i, '#'), i + 1)
  {
    LoneHashFails(s, i);
    assert s[i] !in Literals && s[i] !in IgnoreChars;
    Unmatched(s, i);
  }

  lemma LoneHashFails(s: string, i: nat)
    requires i < |s| && s[i] == '#' && (i + 1 < |s| ==> !NmCharChar(s[i + 1]))
    ensures Fail(s, i, 0, 21)
  {
    NoRuleStarts(s, i, 0, 9);
    MarkedNameFails(s, i, '#');
    FailOne(s, i, 9);
    FailJoin(s, i, 0, 9, 10);
    NoRuleStarts(s, i, 10, 21);
    FailJoin(s, i, 0, 10, 21);
  }

  // ---------------------------------------------------------------------------
  // Markup, comments and white space

  /** `<!--` is one CDO token. */
  lemma CdoToken(s: string, i: nat)
    requires HasPrefix(s, i, "<!--")
    ensures i < |s| && LexStep(s, i) == Produced(Token(Cdo, s[i..i + 4], i), i + 4)
  {
    SymbolStart(s, i, "<!--");
    NoRuleStarts(s, i, 0, 14);
    WordAt("<!--", s, i);
    assert s[i] !in IgnoreChars;
    Chosen(s, i, 14, i + 4);
  }

  /** The integer form at a sign needs a digit after it. */
  lemma NoIntegerAtSign(s: string, i: nat)
    requires i < |s| && (s[i] == '-' || s[i] == '+') && (i + 1 < |s| ==> !IsDigit(s[i + 1]))
    ensures Ends(IntegerRe, s, i) == []
  {
    var sign := Opt(Chr(Sign));
    var digits := Plus(Chr(Digit));
    ChrAt(Sign, s, i);
    assert Ends(sign, s, i) == [i + 1, i];
    PlusChr(Digit, s, i + 1);
    PlusChr(Digit, s, i);
    CatNoSecond(sign, digits, s, i);
  }

  /** The decimal form needs a digit or the point first. */
  lemma NoDecimalAt(s: string, i: nat)
    requires i < |s| && !IsDigit(s[i]) && s[i] != '.'
    ensures Ends(DecimalRe, s, i) == []
  {
    var frac := Cat(Chr(Exactly('.')), Plus(Chr(Digit)));
    forall e | e in Ends(Star(Chr(Digit)), s, i) ensures Ends(frac, s, e) == [] {
      StarChrEnds(Digit, s, i, e);
      FractionAt(s, e);
    }
    CatNoSecond(Star(Chr(Digit)), frac, s, i);
  }

  /** A sign that no digit follows begins no number. */
  lemma NoNumAtSign(s: string, i: nat)
    requires i < |s| && (s[i] == '-' || s[i] == '+') && (i + 1 < |s| ==> !IsDigit(s[i + 1]))
    ensures Ends(NumRe, s, i) == []
  {
    NoIntegerAtSign(s, i);
    NoDecimalAt(s, i);
  }

  /** A `-` that no name start follows begins no identifier. */
  lemma NoIdentAtDash(s: string, i: nat)
    requires i < |s| && s[i] == '-' && (i + 1 < |s| ==> !NmStartChar(s[i + 1]))
    ensures Ends(IdentRe, s, i) == []
  {
    var dash := Opt(Chr(Exactly('-')));
    var tail := Cat(NmStartRe, Star(NmCharRe));
    ChrAt(Exactly('-'), s, i);
    assert Ends(dash, s, i) == [i + 1, i];
    NmStartStart(s[i]);
    NoMatchAt(NmStartRe, s, i);
    CatNoFirst(NmStartRe, Star(NmCharRe), s, i);
    if i + 1 < |s| { NmStartStart(s[i + 1]); }
    NoMatchAt(NmStartRe, s, i + 1);
    CatNoFirst(NmStartRe, Star(NmCharRe), s, i + 1);
    CatNoSecond(dash, tail, s, i);
  }

  /** At `-` that is no number and no identifier, the rules before CDC all fail. */
  lemma DashSkips(s: string, i: nat)
    requires i < |s| && s[i] == '-'
    requires i + 1 < |s| ==> !IsDigit(s[i + 1]) && !NmStartChar(s[i + 1])
    ensures Fail(s, i, 0, 15)
  {
    NoNumAtSign(s, i);
    NoIdentAtDash(s, i);
    CatNoFirst(NumRe, IdentRe, s, i);
    CatNoFirst(IdentRe, Chr(Exactly('(')), s, i);
    CatNoFirst(NumRe, Chr(Exactly('%')), s, i);
    NoRuleStarts(s, i, 0, 5);
    FailOne(s, i, 5);
    NoRuleStarts(s, i, 6, 8);
    FailOne(s, i, 8);
    NoRuleStarts(s, i, 9, 10);
    FailOne(s, i, 10);
    NoRuleStarts(s, i, 11, 15);
    FailJoin(s, i, 0, 5, 6);
    FailJoin(s, i, 0, 6, 8);
    FailJoin(s, i, 0, 8, 9);
    FailJoin(s, i, 0, 9, 10);
    FailJoin(s, i, 0, 10, 11);
    FailJoin(s, i, 0, 11, 15);
  }

  lemma CdcSkips(s: string, i: nat)
    requires HasPrefix(s, i, "-->")
    ensures i < |s| && s[i] == '-' && Fail(s, i, 0, 15)
  {
    SymbolStart(s, i, "-->");
    PrefixChar(s, i, "-->", 1);
    DashSkips(s, i);
  }

  /** `-->` is one CDC token. */
  lemma CdcToken(s: string, i: nat)
    requires HasPrefix(s, i, "-->")
    ensures i < |s| && LexStep(s, i) == Produced(Token(Cdc, s[i..i + 3], i), i + 3)
  {
    CdcSkips(s, i);
    WordAt("-->", s, i);
    assert s[i] !in IgnoreChars;
    Chosen(s, i, 15, i + 3);
  }

  /** A `-` that begins no number, identifier or `-->` is a one-character token. */
  lemma DashToken(s: string, i: nat)
    requires i < |s| && s[i] == '-' && !HasPrefix(s, i, "-->")
    requires i + 1 < |s| ==> !IsDigit(s[i + 1]) && !NmStartChar(s[i + 1])
    ensures LexStep(s, i) == Produced(Token(Literal('-'), "-", i), i + 1)
  {
    DashSkips(s, i);
    WordAt("-->", s, i);
    FailOne(s, i, 15);
    NoNumAtSign(s, i);
    FailOne(s, i, 16);
    NoRuleStarts(s, i, 17, 18);
    NoIdentAtDash(s, i);
    FailOne(s, i, 18);
    NoRuleStarts(s, i, 19, 21);
    FailJoin(s, i, 0, 15, 16);
    FailJoin(s, i, 0, 16, 17);
    FailJoin(s, i, 0, 17, 18);
    FailJoin(s, i, 0, 18, 19);
    FailJoin(s, i, 0, 19, 21);
    assert s[i] in Literals && s[i] !in IgnoreChars;
    Unmatched(s, i);
  }

  /** A comment whose body holds no `*` is skipped whole, without a token. */
  lemma CommentSkipped(s: string, i: nat)
    requires CommentAt(s, i)
    ensures LexStep(s, i) == Ignored(RunEnd(NotStar, s, i + 2) + 2)
  {
    CommentOnly(s, i);
    PlainComment(s, i);
    Chosen(s, i, 20, RunEnd(NotStar, s, i + 2) + 2);
  }

  /** Only the comment rule can begin at a `/`, which is not ignored. */
  lemma CommentOnly(s: string, i: nat)
    requires i < |s| && s[i] == '/'
    ensures Fail(s, i, 0, 20) && s[i] !in IgnoreChars
  {
    NoRuleStarts(s, i, 0, 20);
  }

  /** Space, tab, CR, LF and FF are skipped one at a time; the newline rule never fires. */
  lemma WhiteSpaceSkipped(s: string, i: nat)
    requires i < |s| && s[i] in IgnoreChars
    ensures LexStep(s, i) == Ignored(i + 1)
  {
  }

  // ---------------------------------------------------------------------------
  // The whole scan

  /** A produced token heads the tokens of the rest of the input. */
  lemma ScanProduced(s: string, i: nat, t: Token, n: nat)
    requires i < |s| && LexStep(s, i) == Produced(t, n)
    ensures n <= |s|
    ensures TokensFrom(s, i) == Scanned([t] + TokensFrom(s, n).tokens, TokensFrom(s, n).diagnostics)
  {
  }

  /** Nothing is left at the end of the input. */
  lemma ScanEnd(s: string)
    ensures TokensFrom(s, |s|) == Scanned([], [])
  {
  }

  /** A skipped stretch leaves the tokens of the rest of the input unchanged. */
  lemma ScanIgnored(s: string, i: nat, n: nat)
    requires i < |s| && LexStep(s, i) == Ignored(n)
    ensures n <= |s| && TokensFrom(s, i) == TokensFrom(s, n)
  {
  }

  /** White space between tokens is invisible: the scan goes on as if it were not there. */
  lemma WhiteSpaceInvisible(s: string, i: nat)
    requires i < |s| && s[i] in IgnoreChars
    ensures TokensFrom(s, i) == TokensFrom(s, i + 1)
  {
    WhiteSpaceSkipped(s, i);
    ScanIgnored(s, i, i + 1);
  }

  /** A comment between tokens is invisible as well. */
  lemma CommentInvisible(s: string, i: nat)
    requires CommentAt(s, i)
    ensures TokensFrom(s, i) == TokensFrom(s, RunEnd(NotStar, s, i + 2) + 2)
  {
    CommentSkipped(s, i);
    ScanIgnored(s, i, RunEnd(NotStar, s, i + 2) + 2);
  }

  /** What a parser sees of a token: its kind and its text. */
  function Lexemes(ts: seq<Token>): (ls: seq<(Kind, string)>)
    ensures |ls| == |ts| && forall k :: 0 <= k < |ts| ==> ls[k] == (ts[k].kind, ts[k].text)
  {
    if ts == [] then [] else [(ts[0].kind, ts[0].text)] + Lexemes(ts[1..])
  }

  /** A non-empty run of lower-case ASCII letters. */
  predicate Letters(w: string) {
    |w| > 0 && forall k :: 0 <= k < |w| ==> 'a' <= w[k] <= 'z'
  }

  /** A name of letters at `i`, ended by `stop`, is one IDENT token. */
  lemma LettersIdent(s: string, i: nat, w: string)
    requires Letters(w) && i + |w| <= |s| && s[i..i + |w|] == w
    requires i + |w| < |s| ==> s[i + |w|] in {'.', ' '}
    ensures LexStep(s, i) == Produced(Token(Ident, w, i), i + |w|)
  {
    forall k | i + 1 <= k < i + |w| ensures In(NmCharAscii, s[k]) {
      assert s[k] == w[k - i];
    }
    assert s[i] == w[0];
    RunEndAt(NmCharAscii, s, i + 1, i + |w|);
    IdentToken(s, i);
  }

  /** The parts of a name, an optional space, a `.` and a name, laid out by offsets. */
  predicate NameClassAt(s: string, n1: string, n2: string, p: nat) {
    && Letters(n1) && Letters(n2)
    && |s| == p + 1 + |n2| && (p == |n1| || p == |n1| + 1) && |n1| <= |s|
    && s[..|n1|] == n1 && s[p] == '.' && s[p + 1..] == n2
    && (p == |n1| + 1 ==> s[|n1|] == ' ')
  }

  lemma FirstNameStep(s: string, n1: string, n2: string, p: nat)
    requires NameClassAt(s, n1, n2, p)
    ensures LexStep(s, 0) == Produced(Token(Ident, n1, 0), |n1|)
  {
    assert s[0..|n1|] == n1;
    LettersIdent(s, 0, n1);
  }

  lemma PointStep(s: string, n1: string, n2: string, p: nat)
    requires NameClassAt(s, n1, n2, p)
    ensures LexStep(s, p) == Produced(Token(Literal('.'), ".", p), p + 1)
  {
    assert s[p + 1] == n2[0];
    PointToken(s, p);
  }

  lemma LastNameStep(s: string, n1: string, n2: string, p: nat)
    requires NameClassAt(s, n1, n2, p)
    ensures LexStep(s, p + 1) == Produced(Token(Ident, n2, p + 1), |s|)
  {
    assert p + 1 + |n2| == |s|;
    assert s[p + 1..|s|] == n2;
    LettersIdent(s, p + 1, n2);
  }

  /** Three tokens, with at most one skipped character after the first, make up the input. */
  lemma ThreeTokens(s: string, t1: Token, a: nat, t2: Token, p: nat, t3: Token)
    requires 0 < |s| && LexStep(s, 0) == Produced(t1, a)
    requires a == p || (a < |s| && s[a] in IgnoreChars && p == a + 1)
    requires p + 1 < |s| && LexStep(s, p) == Produced(t2, p + 1)
    requires LexStep(s, p + 1) == Produced(t3, |s|)
    ensures Tokens(s).tokens == [t1, t2, t3]
  {
    CssWellFormed();
    if a < p { WhiteSpaceSkipped(s, a); }
    ScanThree(Css, s, t1, a, t2, p, t3);
  }

  /** A name, an optional space, a `.` and a name: three tokens. */
  lemma NameClassTokens(s: string, n1: string, n2: string, p: nat)
    requires NameClassAt(s, n1, n2, p)
    ensures Tokens(s).tokens == [Token(Ident, n1, 0), Token(Literal('.'), ".", p), Token(Ident, n2, p + 1)]
  {
    FirstNameStep(s, n1, n2, p);
    PointStep(s, n1, n2, p);
    LastNameStep(s, n1, n2, p);
    ThreeTokens(s, Token(Ident, n1, 0), |n1|, Token(Literal('.'), ".", p), p, Token(Ident, n2, p + 1));
  }

  /** What a parser sees of a name, an optional space, a `.` and a name. */
  lemma NameClassLexemes(s: string, n1: string, n2: string, p: nat)
    requires NameClassAt(s, n1, n2, p)
    ensures Lexemes(Tokens(s).tokens) == [(Ident, n1), (Literal('.'), "."), (Ident, n2)]
  {
    NameClassTokens(s, n1, n2, p);
  }

  /** Where the parts of `n1 + gap + "." + n2` sit. */
  lemma NameClassLayout(n1: string, gap: string, n2: string)
    requires gap == "" || gap == " "
    ensures var s := n1 + gap + "." + n2; var p := |n1| + |gap|;
            |s| == p + 1 + |n2| && s[..|n1|] == n1 && s[p] == '.' && s[p + 1..] == n2 &&
            (gap == " " ==> s[|n1|] == ' ')
  {
  }

  /**
   * A space before a class selector is invisible: `a .b` gives the same kinds and texts as
   * `a.b`, so a descendant combinator there cannot be told apart from a class on `a`.
   */
  lemma SpaceBeforeClassInvisible(n1: string, n2: string)
    requires Letters(n1) && Letters(n2)
    ensures Lexemes(Tokens(n1 + " ." + n2).tokens) == Lexemes(Tokens(n1 + "." + n2).tokens)
    ensures Lexemes(Tokens(n1 + "." + n2).tokens) == [(Ident, n1), (Literal('.'), "."), (Ident, n2)]
  {
    var spaced := n1 + " ." + n2;
    var tight := n1 + "." + n2;
    assert spaced == n1 + " " + "." + n2;
    assert tight == n1 + "" + "." + n2;
    NameClassLayout(n1, " ", n2);
    NameClassLayout(n1, "", n2);
    assert NameClassAt(spaced, n1, n2, |n1| + 1);
    assert NameClassAt(tight, n1, n2, |n1|);
    NameClassLexemes(spaced, n1, n2, |n1| + 1);
    NameClassLexemes(tight, n1, n2, |n1|);
  }
}
