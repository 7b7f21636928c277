/**
 * Numbers in both rule tables, whichever way they begin.  The `num` macro has an integer
 * form that may carry a sign and a decimal form that may begin at the point, so a number
 * begins with a digit, with `+` or `-` followed by a digit, or with `.` followed by a
 * digit: `-10px`, `+5%` and `.5em` are numbers with a unit just as `10px` is.  A sign never
 * begins the decimal form: at `-1.5em` the number is `-1`, and `-.5em` begins no number.
 */
module NumberStarts {
  import opened Regex
  import opened Patterns
  import opened Scanner
  import CssLexer
  import UnitLexer

  predicate IsSign(c: char) { c == '+' || c == '-' }

  /** A number begins at `i`. */
  predicate NumberAt(s: string, i: nat) {
    && i < |s|
    && (IsDigit(s[i]) || ((IsSign(s[i]) || s[i] == '.') && i + 1 < |s| && IsDigit(s[i + 1])))
  }

  /** The end of the longest number at `i`; after a sign only digits follow. */
  function NumberEnd(s: string, i: nat): (e: nat)
    requires NumberAt(s, i)
    ensures i < e <= |s|
  {
    if IsDigit(s[i]) then NumSpan(s, i) else RunEnd(Digit, s, i + 1)
  }

  /** At a sign followed by a digit, `num` has only its integer form: the sign and the digit run. */
  lemma NumAtSign(s: string, i: nat)
    requires i + 1 < |s| && IsSign(s[i]) && IsDigit(s[i + 1])
    ensures First(NumRe, s, i) == Some(RunEnd(Digit, s, i + 1))
    ensures forall x :: x in Ends(NumRe, s, i) ==> i + 1 < x <= RunEnd(Digit, s, i + 1)
  {
    var sign := Opt(Chr(Sign));
    var digits := Plus(Chr(Digit));
    ChrAt(Sign, s, i);
    assert Ends(sign, s, i) == [i + 1, i];
    PlusChr(Digit, s, i + 1);
    PlusChr(Digit, s, i);
    assert ThenEnds(digits, s, i, [i]) == Ends(digits, s, i) + ThenEnds(digits, s, i, []);
    assert Ends(IntegerRe, s, i) == Ends(digits, s, i + 1) + ThenEnds(digits, s, i, [i]);
    CssLexer.NoDecimalAt(s, i);
    assert Ends(NumRe, s, i) == Ends(IntegerRe, s, i) + Ends(DecimalRe, s, i);
  }

  /**
   * `num` can end at the end of the longest number, and every other way it matches stops
   * before that end, on a digit or the point.
   */
  lemma NumberEnds(s: string, i: nat)
    requires NumberAt(s, i)
    ensures NumberEnd(s, i) in Ends(NumRe, s, i)
    ensures CssLexer.NumberEndsBy(s, i, NumberEnd(s, i))
  {
    var f := NumberEnd(s, i);
    if IsDigit(s[i]) {
      CssLexer.NumberEndsAtDigit(s, i);
      NumAtDigit(s, i);
    } else {
      if s[i] == '.' { NumAtPoint(s, i); } else { NumAtSign(s, i); }
      forall x | x in Ends(NumRe, s, i) ensures x <= f && (x < f ==> x < |s| && IsDigit(s[x])) {
      }
    }
  }

  /** No name can begin where `num` stops early. */
  lemma IdentOnlyAfterNumber(s: string, i: nat)
    requires NumberAt(s, i)
    ensures forall x :: x in Ends(NumRe, s, i) && x != NumberEnd(s, i) ==> Ends(IdentRe, s, x) == []
  {
    NumberEnds(s, i);
    forall x | x in Ends(NumRe, s, i) && x != NumberEnd(s, i) ensures Ends(IdentRe, s, x) == [] {
      IdentStartLemma(s[x]);
      NoMatchAt(IdentRe, s, x);
    }
  }

  // ---------------------------------------------------------------------------
  // The `CSSLexer` table

  /** At a number the rules that cannot hold one fail up to PERCENTAGE. */
  lemma CssSkips(s: string, i: nat)
    requires NumberAt(s, i)
    ensures CssLexer.Fail(s, i, 0, 5) && CssLexer.Fail(s, i, 6, 10)
  {
    CssLexer.NoRuleStarts(s, i, 0, 5);
    CssLexer.NoRuleStarts(s, i, 6, 8);
    CssLexer.NoRuleStarts(s, i, 9, 10);
    if s[i] == '-' {
      CssLexer.NoIdentAtDash(s, i);
      CatNoFirst(IdentRe, Chr(Exactly('(')), s, i);
      CssLexer.FailOne(s, i, 8);
    } else {
      CssLexer.NoRuleStarts(s, i, 8, 9);
    }
    CssLexer.FailJoin(s, i, 6, 8, 9);
    CssLexer.FailJoin(s, i, 6, 9, 10);
  }

  /** A number and an ASCII name: the DIMENSION pattern takes the longest number and the whole name. */
  lemma DimensionMatch(s: string, i: nat)
    requires NumberAt(s, i) && NumberEnd(s, i) < |s| && In(NmStartAscii, s[NumberEnd(s, i)])
    requires AsciiStop(s, RunEnd(NmCharAscii, s, NumberEnd(s, i) + 1))
    ensures First(CssLexer.RuleAt(5).pattern, s, i) == Some(RunEnd(NmCharAscii, s, NumberEnd(s, i) + 1))
  {
    var f := NumberEnd(s, i);
    NumberEnds(s, i);
    IdentOnlyAfterNumber(s, i);
    IdentAscii(s, f);
    FirstCatOnly(NumRe, IdentRe, s, i, f);
  }

  /**
   * Any number directly followed by an ASCII name is one DIMENSION token: `10px`, `1.5em`,
   * `-10px`, `+2em` and `.5em` alike.
   */
  lemma DimensionToken(s: string, i: nat)
    requires NumberAt(s, i) && NumberEnd(s, i) < |s| && In(NmStartAscii, s[NumberEnd(s, i)])
    requires AsciiStop(s, RunEnd(NmCharAscii, s, NumberEnd(s, i) + 1))
    ensures CssLexer.LexStep(s, i) ==
              Produced(Token(Dimension, s[i..RunEnd(NmCharAscii, s, NumberEnd(s, i) + 1)], i),
                       RunEnd(NmCharAscii, s, NumberEnd(s, i) + 1))
  {
    CssSkips(s, i);
    DimensionMatch(s, i);
    assert s[i] !in CssLexer.IgnoreChars;
    CssLexer.Chosen(s, i, 5, RunEnd(NmCharAscii, s, NumberEnd(s, i) + 1));
  }

  /** A number and `%`: the PERCENTAGE pattern takes the longest number and the sign. */
  lemma PercentageMatch(s: string, i: nat)
    requires NumberAt(s, i) && NumberEnd(s, i) < |s| && s[NumberEnd(s, i)] == '%'
    ensures First(CssLexer.RuleAt(10).pattern, s, i) == Some(NumberEnd(s, i) + 1)
  {
    var f := NumberEnd(s, i);
    NumberEnds(s, i);
    ChrAt(Exactly('%'), s, f);
    forall x | x in Ends(NumRe, s, i) && x != f ensures Ends(Chr(Exactly('%')), s, x) == [] {
      ChrAt(Exactly('%'), s, x);
    }
    FirstCatOnly(NumRe, Chr(Exactly('%')), s, i, f);
  }

  /** The DIMENSION token at `i`, for a number ending at `f` and a name ending at `e`. */
  lemma DimensionAt(s: string, i: nat, f: nat, e: nat)
    requires NumberAt(s, i) && f == NumberEnd(s, i) && f < |s| && In(NmStartAscii, s[f])
    requires e == RunEnd(NmCharAscii, s, f + 1) && AsciiStop(s, e)
    ensures CssLexer.LexStep(s, i) == Produced(Token(Dimension, s[i..e], i), e)
  {
    DimensionToken(s, i);
  }

  /** Any number followed by `%` is one PERCENTAGE token: `5%`, `1.5%`, `-5%` and `.5%` alike. */
  lemma PercentageToken(s: string, i: nat)
    requires NumberAt(s, i) && NumberEnd(s, i) < |s| && s[NumberEnd(s, i)] == '%'
    ensures CssLexer.LexStep(s, i) ==
              Produced(Token(Percentage, s[i..NumberEnd(s, i) + 1], i), NumberEnd(s, i) + 1)
  {
    CssSkips(s, i);
    NumberEnds(s, i);
    CssLexer.DimensionFails(s, i, NumberEnd(s, i));
    CssLexer.FailJoin(s, i, 0, 5, 6);
    CssLexer.FailJoin(s, i, 0, 6, 10);
    PercentageMatch(s, i);
    assert s[i] !in CssLexer.IgnoreChars;
    CssLexer.Chosen(s, i, 10, NumberEnd(s, i) + 1);
  }

  /** At a signed integer followed by neither a name nor `%`, every rule before NUMBER fails. */
  lemma SignedSkips(s: string, i: nat, f: nat)
    requires i + 1 < |s| && IsSign(s[i]) && IsDigit(s[i + 1]) && f == RunEnd(Digit, s, i + 1)
    requires f < |s| ==> !IdentStart(s[f]) && s[f] != '%'
    ensures CssLexer.Fail(s, i, 0, 16)
  {
    CssSkips(s, i);
    NumberEnds(s, i);
    CssLexer.DimensionFails(s, i, f);
    CssLexer.PercentageFails(s, i, f);
    CssLexer.NoRuleStarts(s, i, 11, 15);
    if s[i] == '-' {
      OtherLetter(s, i, "-->", 1, Lower(s[i + 1]));
      CssLexer.WordFails(s, i, 15, "-->");
    } else {
      CssLexer.NoRuleStarts(s, i, 15, 16);
    }
    CssLexer.FailJoin(s, i, 0, 5, 6);
    CssLexer.FailJoin(s, i, 0, 6, 10);
    CssLexer.FailJoin(s, i, 0, 10, 11);
    CssLexer.FailJoin(s, i, 0, 11, 15);
    CssLexer.FailJoin(s, i, 0, 15, 16);
  }

  /** A signed integer followed by neither a name nor `%` is one NUMBER token, sign included. */
  lemma SignedNumberToken(s: string, i: nat)
    requires i + 1 < |s| && IsSign(s[i]) && IsDigit(s[i + 1])
    requires RunEnd(Digit, s, i + 1) < |s| ==>
               !IdentStart(s[RunEnd(Digit, s, i + 1)]) && s[RunEnd(Digit, s, i + 1)] != '%'
    ensures CssLexer.LexStep(s, i) ==
              Produced(Token(Number, s[i..RunEnd(Digit, s, i + 1)], i), RunEnd(Digit, s, i + 1))
  {
    var f := RunEnd(Digit, s, i + 1);
    SignedSkips(s, i, f);
    NumAtSign(s, i);
    assert s[i] !in CssLexer.IgnoreChars;
    CssLexer.Chosen(s, i, 16, f);
  }

  /** A signed integer followed by the point is one NUMBER token that stops before the point. */
  lemma SignedNumberBeforePoint(s: string, i: nat, d: nat)
    requires i + 1 < |s| && IsSign(s[i]) && IsDigit(s[i + 1]) && d == RunEnd(Digit, s, i + 1)
    requires d < |s| && s[d] == '.'
    ensures CssLexer.LexStep(s, i) == Produced(Token(Number, s[i..d], i), d)
  {
    SignedNumberToken(s, i);
  }

  /**
   * A sign does not begin the decimal form: `-1.5em` is the NUMBER `-1` ending at the point
   * `d`, and then the DIMENSION `.5em` whose digits end at `f`.
   */
  lemma SignedDecimalSplits(s: string, i: nat, d: nat, f: nat, e: nat)
    requires i + 1 < |s| && IsSign(s[i]) && IsDigit(s[i + 1]) && d == RunEnd(Digit, s, i + 1)
    requires d + 1 < |s| && s[d] == '.' && IsDigit(s[d + 1]) && f == RunEnd(Digit, s, d + 1)
    requires f < |s| && In(NmStartAscii, s[f]) && e == RunEnd(NmCharAscii, s, f + 1) && AsciiStop(s, e)
    ensures CssLexer.LexStep(s, i) == Produced(Token(Number, s[i..d], i), d)
    ensures CssLexer.LexStep(s, d) == Produced(Token(Dimension, s[d..e], d), e)
  {
    SignedNumberBeforePoint(s, i, d);
    DimensionAt(s, d, f, e);
  }

  /**
   * `-.5em` is the character `-` and then the DIMENSION `.5em`, whose digits end at `f`: no
   * number begins at the sign.
   */
  lemma DashBeforePoint(s: string, i: nat, f: nat, e: nat)
    requires i + 2 < |s| && s[i] == '-' && s[i + 1] == '.' && IsDigit(s[i + 2]) && f == RunEnd(Digit, s, i + 2)
    requires f < |s| && In(NmStartAscii, s[f]) && e == RunEnd(NmCharAscii, s, f + 1) && AsciiStop(s, e)
    ensures CssLexer.LexStep(s, i) == Produced(Token(Literal('-'), "-", i), i + 1)
    ensures CssLexer.LexStep(s, i + 1) == Produced(Token(Dimension, s[i + 1..e], i + 1), e)
  {
    DashBeforeAnyPoint(s, i);
    DimensionAt(s, i + 1, f, e);
  }

  /** A `-` before a point is the character `-`, whatever follows the point. */
  lemma DashBeforeAnyPoint(s: string, i: nat)
    requires i + 1 < |s| && s[i] == '-' && s[i + 1] == '.'
    ensures CssLexer.LexStep(s, i) == Produced(Token(Literal('-'), "-", i), i + 1)
  {
    OtherLetter(s, i, "-->", 1, '.');
    CssLexer.DashToken(s, i);
  }

  // ---------------------------------------------------------------------------
  // The `properties.py` table

  /** A unit's letters can follow only the longest number. */
  lemma UnitOnlyAfterNumber(s: string, i: nat, w: string)
    requires NumberAt(s, i) && |w| > 0 && 'a' <= Lower(w[0]) <= 'z'
    ensures UnitLexer.OnlyAfter(NumRe, w, s, i, NumberEnd(s, i))
  {
    NumberEnds(s, i);
    forall x | x in Ends(NumRe, s, i) && x != NumberEnd(s, i) ensures Ends(Word(w), s, x) == [] {
      UnitLexer.WordNotAtNumber(s, x, w);
    }
  }

  /** The unit rules before the `j`-th fail when their letters do not follow the number. */
  lemma UnitsFail(s: string, i: nat, j: nat)
    requires NumberAt(s, i) && j <= 15
    requires forall m :: 0 <= m < j ==> !HasPrefix(s, NumberEnd(s, i), UnitLexer.UnitWord(UnitLexer.UnitAt(m)))
    ensures UnitLexer.Fail(s, i, 5, 5 + j)
  {
    forall k | 5 <= k < 5 + j ensures Ends(UnitLexer.PatternAt(k), s, i) == [] {
      var w := UnitLexer.UnitWord(UnitLexer.UnitAt(k - 5));
      UnitOnlyAfterNumber(s, i, w);
      WordAt(w, s, NumberEnd(s, i));
      CatNoSecond(NumRe, Word(w), s, i);
    }
  }

  /**
   * Any number followed by the letters of the `j`-th unit, and by those of no earlier unit:
   * every rule before that unit's rule fails, and that rule takes the number and the letters.
   */
  lemma UnitRuleFirst(s: string, i: nat, j: nat)
    requires NumberAt(s, i) && UnitLexer.ReadsUnit(s, NumberEnd(s, i), j)
    ensures UnitLexer.Fail(s, i, 0, 5 + j)
    ensures First(UnitLexer.PatternAt(5 + j), s, i) ==
              Some(NumberEnd(s, i) + |UnitLexer.UnitWord(UnitLexer.UnitAt(j))|)
  {
    UnitLexer.NoRuleStarts(s, i, 0, 5);
    UnitsFail(s, i, j);
    UnitLexer.FailJoin(s, i, 0, 5, 5 + j);
    UnitMatch(s, i, UnitLexer.UnitWord(UnitLexer.UnitAt(j)), NumberEnd(s, i));
  }

  /** A unit pattern whose letters follow the longest number takes the number and the letters. */
  lemma UnitMatch(s: string, i: nat, w: string, f: nat)
    requires NumberAt(s, i) && f == NumberEnd(s, i)
    requires |w| > 0 && 'a' <= Lower(w[0]) <= 'z' && HasPrefix(s, f, w)
    ensures First(Cat(NumRe, Word(w)), s, i) == Some(f + |w|)
  {
    NumberEnds(s, i);
    UnitOnlyAfterNumber(s, i, w);
    UnitLexer.WordAfterOnly(NumRe, w, s, i, f);
  }

  /** Any number followed by the letters of one unit, and of no earlier unit, is one token of that unit. */
  lemma UnitTokenAt(s: string, i: nat, j: nat, u: Unit, e: nat)
    requires NumberAt(s, i) && UnitLexer.ReadsUnit(s, NumberEnd(s, i), j)
    requires u == UnitLexer.UnitAt(j) && e == NumberEnd(s, i) + |UnitLexer.UnitWord(u)|
    ensures UnitLexer.LexStep(s, i) == Produced(Token(Measure(u), s[i..e], i), e)
  {
    UnitRuleFirst(s, i, j);
    assert s[i] !in CssLexer.IgnoreChars;
    UnitLexer.Chosen(s, i, 5 + j, e, Measure(u));
  }

  /** At a number that no unit follows, every rule before DIMENSION fails. */
  lemma UnitSkips(s: string, i: nat)
    requires NumberAt(s, i)
    requires forall m :: 0 <= m < 15 ==> !HasPrefix(s, NumberEnd(s, i), UnitLexer.UnitWord(UnitLexer.UnitAt(m)))
    ensures UnitLexer.Fail(s, i, 0, 24)
  {
    UnitLexer.NoRuleStarts(s, i, 0, 5);
    UnitsFail(s, i, 15);
    UnitLexer.NoRuleStarts(s, i, 20, 22);
    UnitLexer.NoRuleStarts(s, i, 23, 24);
    if s[i] == '-' {
      CssLexer.NoIdentAtDash(s, i);
      CatNoFirst(IdentRe, Chr(Exactly('(')), s, i);
      assert UnitLexer.PatternAt(22) == CssLexer.RuleAt(8).pattern;
    } else {
      UnitLexer.NoRuleStarts(s, i, 22, 23);
    }
    UnitLexer.FailJoin(s, i, 0, 5, 20);
    UnitLexer.FailJoin(s, i, 0, 20, 22);
    UnitLexer.FailJoin(s, i, 0, 22, 23);
    UnitLexer.FailJoin(s, i, 0, 23, 24);
  }

  /**
   * Any number followed by an ASCII name that begins with the letters of no unit is one
   * DIMENSION token in this table too.
   */
  lemma UnitDimensionToken(s: string, i: nat)
    requires NumberAt(s, i) && NumberEnd(s, i) < |s| && In(NmStartAscii, s[NumberEnd(s, i)])
    requires AsciiStop(s, RunEnd(NmCharAscii, s, NumberEnd(s, i) + 1))
    requires forall m :: 0 <= m < 15 ==> !HasPrefix(s, NumberEnd(s, i), UnitLexer.UnitWord(UnitLexer.UnitAt(m)))
    ensures UnitLexer.LexStep(s, i) ==
              Produced(Token(Dimension, s[i..RunEnd(NmCharAscii, s, NumberEnd(s, i) + 1)], i),
                       RunEnd(NmCharAscii, s, NumberEnd(s, i) + 1))
  {
    UnitSkips(s, i);
    UnitDimensionMatch(s, i, RunEnd(NmCharAscii, s, NumberEnd(s, i) + 1));
    assert s[i] !in CssLexer.IgnoreChars;
    UnitLexer.Chosen(s, i, 24, RunEnd(NmCharAscii, s, NumberEnd(s, i) + 1), Dimension);
  }

  lemma UnitDimensionMatch(s: string, i: nat, e: nat)
    requires NumberAt(s, i) && NumberEnd(s, i) < |s| && In(NmStartAscii, s[NumberEnd(s, i)])
    requires e == RunEnd(NmCharAscii, s, NumberEnd(s, i) + 1) && AsciiStop(s, e)
    ensures First(UnitLexer.PatternAt(24), s, i) == Some(e)
  {
    assert UnitLexer.PatternAt(24) == CssLexer.RuleAt(5).pattern;
    DimensionMatch(s, i);
  }
}
