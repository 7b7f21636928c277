/**
 * The scanning loop shared by both CSS lexers.  A lexer is an ordered rule table plus a
 * set of literal characters and a set of ignored characters.  At each position the scanner
 * skips an ignored character; otherwise it tries the rules in table order and takes the
 * first that matches (the master regex is an alternation of the rules, so the first
 * alternative that matches wins, not the longest); otherwise a literal character becomes
 * a one-character token; otherwise the character is reported as illegal and skipped.
 */
module Scanner {
  import opened Regex

  datatype Unit =
    | Em | Ex | Pixel | Centimeter | Millimeter | Inch | Point | Pc
    | Degree | Radian | Gradian | Millisecond | Second | Hertz | Kilohertz

  datatype Kind =
    | Includes | DashMatch | PrefixMatch | SuffixMatch | SubstringMatch
    | Dimension | Measure(unit: Unit) | Not | Uri | Function | Hash | Percentage
    | ImportSym | NamespaceSym | AtKeyword | Cdo | Cdc | Number | Str | Ident
    | Literal(c: char)

  /** A token: its kind, its text (`value`) and the offset where it starts (`lexpos`). */
  datatype Token = Token(kind: Kind, text: string, pos: nat)

  /** A rule either emits a token or discards what it matched (comments, newlines). */
  datatype Action = Emit(kind: Kind) | Discard

  datatype Rule = Rule(action: Action, pattern: Re)

  datatype Lexer = Lexer(rules: seq<Rule>, literals: set<char>, ignore: set<char>)

  datatype Diagnostic = IllegalCharacter(pos: nat, ch: char)

  datatype Step =
    | Ignored(next: nat)
    | Produced(token: Token, next: nat)
    | Reported(diagnostic: Diagnostic, next: nat)

  datatype Scanned = Scanned(tokens: seq<Token>, diagnostics: seq<Diagnostic>)

  /** The lexer generator refuses a rule whose pattern matches the empty string. */
  predicate WellFormed(lx: Lexer) {
    forall k :: 0 <= k < |lx.rules| ==> !Nullable(lx.rules[k].pattern)
  }

  /** The first rule at index `k` or later that matches at `i`, with the end of its match. */
  function MatchFrom(rules: seq<Rule>, s: string, i: nat, k: nat): (m: Option<(nat, nat)>)
    requires i <= |s| && k <= |rules|
    ensures m.Some? ==>
              && k <= m.value.0 < |rules|
              && First(rules[m.value.0].pattern, s, i) == Some(m.value.1)
              && forall j :: k <= j < m.value.0 ==> Ends(rules[j].pattern, s, i) == []
    ensures m.None? ==> forall j :: k <= j < |rules| ==> Ends(rules[j].pattern, s, i) == []
    decreases |rules| - k
  {
    if k == |rules| then None
    else if Ends(rules[k].pattern, s, i) != [] then Some((k, First(rules[k].pattern, s, i).value))
    else MatchFrom(rules, s, i, k + 1)
  }

  /** A rule's match in a well-formed table always consumes something. */
  lemma MatchAdvances(lx: Lexer, s: string, i: nat)
    requires WellFormed(lx) && i <= |s|
    requires MatchFrom(lx.rules, s, i, 0).Some?
    ensures MatchFrom(lx.rules, s, i, 0).value.1 > i
  {
    var (k, e) := MatchFrom(lx.rules, s, i, 0).value;
    if e == i { EmptyEndNullable(lx.rules[k].pattern, s, i); }
  }

  /** What the scanner does at position `i`. */
  function NextStep(lx: Lexer, s: string, i: nat): (st: Step)
    requires WellFormed(lx) && i < |s|
    ensures i < st.next <= |s|
    ensures st.Produced? ==> st.token.pos == i && st.token.text == s[i..st.next]
    ensures st.Reported? ==> st.diagnostic == IllegalCharacter(i, s[i]) && st.next == i + 1
  {
    if s[i] in lx.ignore then Ignored(i + 1)
    else
      match MatchFrom(lx.rules, s, i, 0)
      case Some((k, e)) =>
        MatchAdvances(lx, s, i);
        (match lx.rules[k].action
         case Emit(kind) => Produced(Token(kind, s[i..e], i), e)
         case Discard => Ignored(e))
      case None =>
        if s[i] in lx.literals then Produced(Token(Literal(s[i]), [s[i]], i), i + 1)
        else Reported(IllegalCharacter(i, s[i]), i + 1)
  }

  /** The scan takes rule `k` when every earlier rule fails and rule `k` matches. */
  lemma {:induction false} MatchFromChosen(rules: seq<Rule>, s: string, i: nat, j: nat, k: nat, e: nat)
    requires i <= |s| && j <= k < |rules|
    requires forall m :: j <= m < k ==> Ends(rules[m].pattern, s, i) == []
    requires First(rules[k].pattern, s, i) == Some(e)
    ensures MatchFrom(rules, s, i, j) == Some((k, e))
    decreases k - j
  {
    if j < k {
      MatchFromChosen(rules, s, i, j + 1, k, e);
    }
  }

  /**
   * At a character that is not ignored, the first rule that matches decides the step: it
   * emits its token over exactly the text `re` reports, or discards that text.
   */
  lemma RuleChosen(lx: Lexer, s: string, i: nat, k: nat, e: nat)
    requires WellFormed(lx) && i < |s| && s[i] !in lx.ignore && k < |lx.rules|
    requires forall m :: 0 <= m < k ==> Ends(lx.rules[m].pattern, s, i) == []
    requires First(lx.rules[k].pattern, s, i) == Some(e)
    ensures lx.rules[k].action.Emit? ==>
              NextStep(lx, s, i) == Produced(Token(lx.rules[k].action.kind, s[i..e], i), e)
    ensures lx.rules[k].action.Discard? ==> NextStep(lx, s, i) == Ignored(e)
  {
    MatchFromChosen(lx.rules, s, i, 0, k, e);
  }

  /** When no rule matches, a literal character is its own token and any other is reported. */
  lemma NoRuleMatches(lx: Lexer, s: string, i: nat)
    requires WellFormed(lx) && i < |s| && s[i] !in lx.ignore
    requires forall m :: 0 <= m < |lx.rules| ==> Ends(lx.rules[m].pattern, s, i) == []
    ensures s[i] in lx.literals ==> NextStep(lx, s, i) == Produced(Token(Literal(s[i]), [s[i]], i), i + 1)
    ensures s[i] !in lx.literals ==> NextStep(lx, s, i) == Reported(IllegalCharacter(i, s[i]), i + 1)
  {
    assert MatchFrom(lx.rules, s, i, 0).None?;
  }

  /** Every token lies inside the text, is non-empty, and is exactly the text at its offset. */
  ghost predicate Faithful(s: string, from: nat, ts: seq<Token>) {
    && (forall k :: 0 <= k < |ts| ==>
          && from <= ts[k].pos && 0 < |ts[k].text| && ts[k].pos + |ts[k].text| <= |s|
          && s[ts[k].pos..ts[k].pos + |ts[k].text|] == ts[k].text)
    && (forall k :: 0 <= k < |ts| - 1 ==> ts[k].pos + |ts[k].text| <= ts[k + 1].pos)
  }

  /** The whole scan from position `i`: tokens and diagnostics in order. */
  function Scan(lx: Lexer, s: string, i: nat): Scanned
    requires WellFormed(lx) && i <= |s|
    decreases |s| - i
  {
    if i == |s| then Scanned([], [])
    else
      var st := NextStep(lx, s, i);
      var rest := Scan(lx, s, st.next);
      match st
      case Ignored(_) => rest
      case Produced(t, _) => Scanned([t] + rest.tokens, rest.diagnostics)
      case Reported(d, _) => Scanned(rest.tokens, [d] + rest.diagnostics)
  }

  /** A token at `i` ending at `n`, then faithful tokens from `n` on: faithful from `i` on. */
  lemma FaithfulCons(s: string, i: nat, n: nat, t: Token, rest: seq<Token>)
    requires t.pos == i && i < n <= |s| && t.text == s[i..n] && Faithful(s, n, rest)
    ensures Faithful(s, i, [t] + rest)
  {
    var ts := [t] + rest;
    forall k | 0 <= k < |ts| - 1 ensures ts[k].pos + |ts[k].text| <= ts[k + 1].pos {
      if k > 0 { assert ts[k] == rest[k - 1] && ts[k + 1] == rest[k]; }
    }
  }

  /**
   * Every token is a non-empty slice of the input at its own offset, and tokens do not
   * overlap and come in input order.
   */
  lemma {:induction false} ScanFaithful(lx: Lexer, s: string, i: nat)
    requires WellFormed(lx) && i <= |s|
    ensures Faithful(s, i, Scan(lx, s, i).tokens)
    decreases |s| - i
  {
    if i < |s| {
      var st := NextStep(lx, s, i);
      ScanFaithful(lx, s, st.next);
      match st
      case Ignored(_) =>
      case Produced(t, n) =>
        FaithfulCons(s, i, n, t, Scan(lx, s, n).tokens);
      case Reported(d, n) =>
    }
  }

  /** Every diagnostic lies at or after `from` and names the character at its offset. */
  predicate Located(s: string, from: nat, ds: seq<Diagnostic>) {
    forall k :: 0 <= k < |ds| ==> from <= ds[k].pos < |s| && ds[k].ch == s[ds[k].pos]
  }

  /** A diagnostic at `i`, then located diagnostics from `n` on: located from `i` on. */
  lemma LocatedCons(s: string, i: nat, n: nat, d: Diagnostic, rest: seq<Diagnostic>)
    requires d.pos == i && i < n && i < |s| && d.ch == s[i] && Located(s, n, rest)
    ensures Located(s, i, [d] + rest)
  {
    var ds := [d] + rest;
    forall k | 0 <= k < |ds| ensures i <= ds[k].pos < |s| && ds[k].ch == s[ds[k].pos] {
      if k > 0 { assert ds[k] == rest[k - 1]; }
    }
  }

  /** Every diagnostic names the character at its offset. */
  lemma {:induction false} ScanDiagnostics(lx: Lexer, s: string, i: nat)
    requires WellFormed(lx) && i <= |s|
    ensures Located(s, i, Scan(lx, s, i).diagnostics)
    decreases |s| - i
  {
    if i < |s| {
      var st := NextStep(lx, s, i);
      ScanDiagnostics(lx, s, st.next);
      match st
      case Ignored(_) =>
      case Produced(t, n) =>
      case Reported(d, n) =>
        LocatedCons(s, i, n, d, Scan(lx, s, n).diagnostics);
    }
  }

  /** Three tokens, with at most one skipped stretch after the first, make up the whole input. */
  lemma ScanThree(lx: Lexer, s: string, t1: Token, a: nat, t2: Token, p: nat, t3: Token)
    requires WellFormed(lx) && 0 < |s| && NextStep(lx, s, 0) == Produced(t1, a)
    requires a == p || (a < |s| && NextStep(lx, s, a) == Ignored(p))
    requires p + 1 < |s| && NextStep(lx, s, p) == Produced(t2, p + 1)
    requires NextStep(lx, s, p + 1) == Produced(t3, |s|)
    ensures Scan(lx, s, 0).tokens == [t1, t2, t3]
  {
    assert Scan(lx, s, p + 1).tokens == [t3];
    assert Scan(lx, s, p).tokens == [t2, t3];
    assert Scan(lx, s, a).tokens == [t2, t3];
  }

  /** Every literal token spells its own character. */
  predicate Plain(ts: seq<Token>) {
    forall k :: 0 <= k < |ts| && ts[k].kind.Literal? ==> ts[k].text == [ts[k].kind.c]
  }

  /** No rule of the table emits a literal token: those come only from the fallback. */
  predicate NoLiteralRule(lx: Lexer) {
    forall k :: 0 <= k < |lx.rules| && lx.rules[k].action.Emit? ==> !lx.rules[k].action.kind.Literal?
  }

  /** A literal token the scanner produces is the one character it stands for. */
  lemma StepPlain(lx: Lexer, s: string, i: nat)
    requires WellFormed(lx) && NoLiteralRule(lx) && i < |s|
    ensures NextStep(lx, s, i).Produced? && NextStep(lx, s, i).token.kind.Literal? ==>
              NextStep(lx, s, i).token.text == [NextStep(lx, s, i).token.kind.c]
  {
    if s[i] !in lx.ignore && MatchFrom(lx.rules, s, i, 0).Some? {
      var k := MatchFrom(lx.rules, s, i, 0).value.0;
      assert lx.rules[k].action.Emit? ==> !lx.rules[k].action.kind.Literal?;
    }
  }

  /** So every literal token of the whole scan spells its character. */
  lemma {:induction false} ScanPlain(lx: Lexer, s: string, i: nat)
    requires WellFormed(lx) && NoLiteralRule(lx) && i <= |s|
    ensures Plain(Scan(lx, s, i).tokens)
    decreases |s| - i
  {
    if i < |s| {
      var st := NextStep(lx, s, i);
      StepPlain(lx, s, i);
      ScanPlain(lx, s, st.next);
      if st.Produced? {
        var ts := [st.token] + Scan(lx, s, st.next).tokens;
        assert Scan(lx, s, i).tokens == ts;
        forall k | 0 <= k < |ts| && ts[k].kind.Literal? ensures ts[k].text == [ts[k].kind.c] {
          if k > 0 { assert ts[k] == Scan(lx, s, st.next).tokens[k - 1]; }
        }
      }
    }
  }

  /** After scanning up to `pos`, `tokens` and `diagnostics` are what the whole scan has found so far. */
  ghost predicate ScannedUpTo(lx: Lexer, s: string, pos: nat, tokens: seq<Token>, diagnostics: seq<Diagnostic>)
    requires WellFormed(lx) && pos <= |s|
  {
    Scan(lx, s, 0) == Scanned(tokens + Scan(lx, s, pos).tokens, diagnostics + Scan(lx, s, pos).diagnostics)
  }

  /** Taking the step at `pos` keeps the scan's prefix in step with the whole scan. */
  lemma ScannedStep(lx: Lexer, s: string, pos: nat, tokens: seq<Token>, diagnostics: seq<Diagnostic>)
    requires WellFormed(lx) && pos < |s| && ScannedUpTo(lx, s, pos, tokens, diagnostics)
    ensures match NextStep(lx, s, pos)
            case Ignored(n) => ScannedUpTo(lx, s, n, tokens, diagnostics)
            case Produced(t, n) => ScannedUpTo(lx, s, n, tokens + [t], diagnostics)
            case Reported(d, n) => ScannedUpTo(lx, s, n, tokens, diagnostics + [d])
  {
    var rest := Scan(lx, s, NextStep(lx, s, pos).next);
    match NextStep(lx, s, pos)
    case Ignored(n) =>
    case Produced(t, n) =>
      assert tokens + ([t] + rest.tokens) == tokens + [t] + rest.tokens;
    case Reported(d, n) =>
      assert diagnostics + ([d] + rest.diagnostics) == diagnostics + [d] + rest.diagnostics;
  }

  /** The lexer's token loop: pull tokens until the input is exhausted. */
  method Tokenize(lx: Lexer, s: string) returns (tokens: seq<Token>, diagnostics: seq<Diagnostic>)
    requires WellFormed(lx)
    ensures Scanned(tokens, diagnostics) == Scan(lx, s, 0)
  {
    var pos := 0;
    tokens, diagnostics := [], [];
    assert ScannedUpTo(lx, s, 0, tokens, diagnostics);
    while pos < |s|
      invariant pos <= |s| && ScannedUpTo(lx, s, pos, tokens, diagnostics)
      decreases |s| - pos
    {
      ScannedStep(lx, s, pos, tokens, diagnostics);
      if s[pos] in lx.ignore {
        assert NextStep(lx, s, pos) == Ignored(pos + 1);
        pos := pos + 1;
        continue;
      }
      var m := MatchFrom(lx.rules, s, pos, 0);
      if m.Some? {
        var (k, e) := m.value;
        MatchAdvances(lx, s, pos);
        match lx.rules[k].action {
          case Emit(kind) =>
            assert NextStep(lx, s, pos) == Produced(Token(kind, s[pos..e], pos), e);
            tokens := tokens + [Token(kind, s[pos..e], pos)];
          case Discard =>
            assert NextStep(lx, s, pos) == Ignored(e);
        }
        pos := e;
      } else if s[pos] in lx.literals {
        assert NextStep(lx, s, pos) == Produced(Token(Literal(s[pos]), [s[pos]], pos), pos + 1);
        tokens := tokens + [Token(Literal(s[pos]), [s[pos]], pos)];
        pos := pos + 1;
      } else {
        assert NextStep(lx, s, pos) == Reported(IllegalCharacter(pos, s[pos]), pos + 1);
        diagnostics := diagnostics + [IllegalCharacter(pos, s[pos])];
        pos := pos + 1;
      }
    }
  }
}
