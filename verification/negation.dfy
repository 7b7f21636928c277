/**
 * The `negation` production against the lexer. The NOT rule of `CSSLexer` takes `not(`
 * together with its parenthesis, while `negation` asks for a `(` token of its own after
 * NOT. So the usual spelling `:not(.y)` never makes a negation. Only a doubled
 * parenthesis, as in `:not((.y)`, gives the production the tokens it wants.
 */
module CssNegation {
  import opened Regex
  import opened Patterns
  import opened Scanner
  import opened TokenStream
  import opened CssGrammar
  import CssLexer
  import CssParsing

  /** After `:` and NOT, an `sss_type` fails unless a separate `(` token comes next. */
  lemma NegationNeedsParen(toks: seq<Token>, pos: nat)
    requires AtChar(toks, pos, ':') && At(toks, pos + 1, Not) && !AtChar(toks, pos + 2, '(')
    ensures ParseSimple(toks, pos) == Failed
  {
  }

  /** `negation_arg` admits `pseudo`: `:` and a name make a pseudo-class argument. */
  lemma PseudoNegationArg(toks: seq<Token>, pos: nat)
    requires AtChar(toks, pos, ':') && At(toks, pos + 1, Ident)
    ensures ParseNegationArg(toks, pos) == Parsed(NegSimple(PseudoSel(PseudoName(false, toks[pos + 1].text))), pos + 2)
  {
  }

  /** `:`, NOT, `(`, `.`, a name and `)`: a negation of a class. */
  lemma ClassNegation(toks: seq<Token>, pos: nat)
    requires AtChar(toks, pos, ':') && At(toks, pos + 1, Not) && AtChar(toks, pos + 2, '(')
    requires AtChar(toks, pos + 3, '.') && At(toks, pos + 4, Ident) && AtChar(toks, pos + 5, ')')
    ensures ParseSimple(toks, pos) == Parsed(Negation(toks[pos + 1].text, NegSimple(ClassSel(toks[pos + 4].text))), pos + 6)
  {
  }

  /**
   * A token list that opens with `:` and NOT, without a `(` token after them, is no
   * stylesheet: the first selector fails, and `parse` rejects the input having
   * appended nothing.
   */
  lemma LeadingNegationRejected(toks: seq<Token>)
    requires AtChar(toks, 0, ':') && At(toks, 1, Not) && !AtChar(toks, 2, '(')
    ensures ParseStylesheet(toks) == None
    ensures CssParsing.Run(toks) == CssParsing.Outcome(CssParsing.Rejected, [])
  {
    NegationNeedsParen(toks, 0);
    assert ParseTypes(toks, 0) == Failed;
    assert ParseHead(toks, 0) == Parsed(NoHead, 0);
    assert ParseSequence(toks, 0) == Failed;
    assert ParseGroup(toks, 0) == Failed;
    assert ParseOpening(toks, 0) == Failed;
  }

  /**
   * Every input that begins `:not(.`, with no digit after the point, is rejected: the
   * lexer makes `:`, the NOT token `not(` and `.` of it, and the grammar finds the `.`
   * where it wants `(`. The class negation `:not(.y)` is such an input.
   */
  lemma NotPointRejected(s: string)
    requires 6 <= |s| && s[0] == ':' && HasPrefix(s, 1, "not(") && s[5] == '.'
    requires 6 < |s| ==> !IsDigit(s[6])
    ensures 3 <= |CssParsing.Lex(s)| && CssParsing.Lex(s)[..3] == [Token(Literal(':'), ":", 0), Token(Not, s[1..5], 1), Token(Literal('.'), ".", 5)]
    ensures ParseStylesheet(CssParsing.Lex(s)) == None
    ensures CssParsing.Run(CssParsing.Lex(s)) == CssParsing.Outcome(CssParsing.Rejected, [])
  {
    NotPointTokens(s);
    LeadingNegationRejected(CssParsing.Lex(s));
  }

  /** The tokens `:`, `not(` and `.` open the token list of such an input. */
  lemma NotPointTokens(s: string)
    requires 6 <= |s| && s[0] == ':' && HasPrefix(s, 1, "not(") && s[5] == '.'
    requires 6 < |s| ==> !IsDigit(s[6])
    ensures 3 <= |CssParsing.Lex(s)| && CssParsing.Lex(s)[..3] == [Token(Literal(':'), ":", 0), Token(Not, s[1..5], 1), Token(Literal('.'), ".", 5)]
    ensures CssParsing.Lex(s)[0].kind == Literal(':') && CssParsing.Lex(s)[1].kind == Not
    ensures CssParsing.Lex(s)[2].kind == Literal('.')
  {
    var t0, t1, t2 := Token(Literal(':'), ":", 0), Token(Not, s[1..5], 1), Token(Literal('.'), ".", 5);
    ColonStep(s);
    CssLexer.NotToken(s, 1);
    PointStep(s);
    CssLexer.ScanProduced(s, 5, t2, 6);
    CssLexer.ScanProduced(s, 1, t1, 5);
    CssLexer.ScanProduced(s, 0, t0, 1);
    var rest := CssLexer.TokensFrom(s, 6).tokens;
    assert CssParsing.Lex(s) == [t0] + ([t1] + ([t2] + rest));
    FirstThree(t0, t1, t2, rest);
  }

  /** The lexer step at offset 0: the literal `:`. */
  lemma ColonStep(s: string)
    requires 0 < |s| && s[0] == ':'
    ensures CssLexer.LexStep(s, 0) == Produced(Token(Literal(':'), ":", 0), 1)
  {
    CssLexer.PunctuationToken(s, 0);
  }

  /** The lexer step at offset 5: the literal `.`, no digit following it. */
  lemma PointStep(s: string)
    requires 6 <= |s| && s[5] == '.' && (6 < |s| ==> !IsDigit(s[6]))
    ensures CssLexer.LexStep(s, 5) == Produced(Token(Literal('.'), ".", 5), 6)
  {
    CssLexer.PointToken(s, 5);
  }

  /** The first three tokens of a list built one token at a time. */
  lemma FirstThree(t0: Token, t1: Token, t2: Token, rest: seq<Token>)
    ensures |[t0] + ([t1] + ([t2] + rest))| >= 3
    ensures ([t0] + ([t1] + ([t2] + rest)))[..3] == [t0, t1, t2]
    ensures ([t0] + ([t1] + ([t2] + rest)))[0] == t0 && ([t0] + ([t1] + ([t2] + rest)))[1] == t1
    ensures ([t0] + ([t1] + ([t2] + rest)))[2] == t2
  {
    var u := [t0] + ([t1] + ([t2] + rest));
    assert u[..3][2] == t2;
  }

  /** `not(` spelled in lower case at offset `i`. */
  lemma NotAt(s: string, i: nat)
    requires i + 4 <= |s| && s[i] == 'n' && s[i + 1] == 'o' && s[i + 2] == 't' && s[i + 3] == '('
    ensures HasPrefix(s, i, "not(")
  {
    assert forall k :: 0 <= k < 4 ==> s[i..i + 4][k] == "not("[k];
  }

  /** `:not(.y){}`, a ruleset with the usual spelling of a class negation, is rejected. */
  lemma NotClassRejected()
    ensures ParseStylesheet(CssParsing.Lex(":not(.y){}")) == None
    ensures CssParsing.Run(CssParsing.Lex(":not(.y){}")) == CssParsing.Outcome(CssParsing.Rejected, [])
  {
    NotAt(":not(.y){}", 1);
    NotPointRejected(":not(.y){}");
  }
}
