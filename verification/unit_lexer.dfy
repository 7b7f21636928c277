/**
 * The rule table of `properties.py`: the same fragments as the `CSSLexer` table, with one
 * rule per unit of measure (EM to KILOHERTZ) placed after the attribute operators and before
 * NOT, URI, FUNCTION, HASH and DIMENSION.  The rules are built by two factory functions,
 * `make_simple` and `make_unit`, and the table is meant to be tried in the order it is
 * written down.
 *
 * The lexer generator does not use that order.  It sorts function rules by the line of
 * their definition, and every rule made by a factory is defined on the factory's own line:
 * all the `make_simple` rules (NUMBER and DIMENSION among them) come before all the
 * `make_unit` rules.  `Loaded` is that table; no unit token can come out of it.
 */
module UnitLexer {
  import opened Regex
  import opened Patterns
  import opened Scanner
  import CssLexer

  // ---------------------------------------------------------------------------
  // Units

  /** The units in the order the file defines their rules. */
  function UnitAt(j: nat): Unit {
    match j
    case 0 => Em
    case 1 => Ex
    case 2 => Pixel
    case 3 => Centimeter
    case 4 => Millimeter
    case 5 => Inch
    case 6 => Point
    case 7 => Pc
    case 8 => Degree
    case 9 => Radian
    case 10 => Gradian
    case 11 => Millisecond
    case 12 => Second
    case 13 => Hertz
    case _ => Kilohertz
  }

  /** The letters of each unit, as written in the file (matched in any case). */
  function UnitWord(u: Unit): (w: string)
    ensures |w| > 0 && 'a' <= Lower(w[0]) <= 'z'
  {
    match u
    case Em => "em"
    case Ex => "ex"
    case Pixel => "px"
    case Centimeter => "cm"
    case Millimeter => "mm"
    case Inch => "in"
    case Point => "pt"
    case Pc => "pc"
    case Degree => "deg"
    case Radian => "rad"
    case Gradian => "grad"
    case Millisecond => "ms"
    case Second => "s"
    case Hertz => "Hz"
    case Kilohertz => "kHz"
  }

  /** `make_unit`: a number directly followed by the unit's letters. */
  function UnitRule(u: Unit): Rule {
    Rule(Emit(Measure(u)), Cat(NumRe, Word(UnitWord(u))))
  }

  // ---------------------------------------------------------------------------
  // The table in definition order

  /**
   * Each `make_simple` rule of the file is a rule of the `CSSLexer` table with the same
   * pattern and token: the index of that rule for each position here.
   */
  function Shared(k: nat): nat {
    match k
    case 20 => 6   // NOT
    case 21 => 7   // URI
    case 22 => 8   // FUNCTION
    case 23 => 9   // HASH
    case 24 => 5   // DIMENSION
    case 25 => 10  // PERCENTAGE
    case 26 => 14  // CDO
    case 27 => 15  // CDC
    case 28 => 16  // NUMBER
    case 29 => 17  // STRING
    case 30 => 18  // IDENT
    case 31 => 20  // the comment rule, a string rule, last
    case _ => k    // INCLUDES to SUBSTRINGMATCH
  }

  /** The token each rule emits, in definition order: operators, fifteen units, the rest. */
  function ActionAt(k: nat): Action {
    if 5 <= k < 20 then Emit(Measure(UnitAt(k - 5)))
    else
      match k
      case 0 => Emit(Includes)
      case 1 => Emit(DashMatch)
      case 2 => Emit(PrefixMatch)
      case 3 => Emit(SuffixMatch)
      case 4 => Emit(SubstringMatch)
      case 20 => Emit(Not)
      case 21 => Emit(Uri)
      case 22 => Emit(Function)
      case 23 => Emit(Hash)
      case 24 => Emit(Dimension)
      case 25 => Emit(Percentage)
      case 26 => Emit(Cdo)
      case 27 => Emit(Cdc)
      case 28 => Emit(Number)
      case 29 => Emit(Str)
      case 30 => Emit(Ident)
      case _ => Discard
  }

  /** The pattern of each rule: a unit pattern, or the pattern of the shared rule. */
  function PatternAt(k: nat): Re {
    if 5 <= k < 20 then UnitRule(UnitAt(k - 5)).pattern else CssLexer.RuleAt(Shared(k)).pattern
  }

  function RuleAt(k: nat): Rule {
    Rule(ActionAt(k), PatternAt(k))
  }

  /** The shared rules emit the same tokens here as in the `CSSLexer` table. */
  lemma SharedAction(k: nat)
    requires k < 32 && !(5 <= k < 20)
    ensures ActionAt(k) == CssLexer.RuleAt(Shared(k)).action
  {
    match k
    case 0 => case 1 => case 2 => case 3 => case 4 =>
    case 20 => case 21 => case 22 => case 23 => case 24 => case 25 =>
    case 26 => case 27 => case 28 => case 29 => case 30 => case 31 =>
  }

  function RuleList(n: nat): (rs: seq<Rule>)
    ensures |rs| == n && forall m :: 0 <= m < n ==> rs[m] == RuleAt(m)
  {
    if n == 0 then [] else RuleList(n - 1) + [RuleAt(n - 1)]
  }

  const Rules: seq<Rule> := RuleList(32)

  /** The literals and ignored characters are those of the `CSSLexer` class. */
  const Props: Lexer := Lexer(Rules, CssLexer.Literals, CssLexer.IgnoreChars)

  /** The characters rule `k` can begin with. */
  predicate RuleStartChar(k: nat, c: char) {
    if 5 <= k < 20 then NumStart(c) else CssLexer.RuleStartChar(Shared(k), c)
  }

  lemma SharedStart(k: nat, c: char)
    requires k < 32 && !(5 <= k < 20)
    ensures !Nullable(PatternAt(k))
    ensures MayStart(PatternAt(k), c) ==> RuleStartChar(k, c)
  {
    var j := Shared(k);
    assert j < 21 && j != 19;
    if j < 8 { CssLexer.RuleStartLow(j, c); } else { CssLexer.RuleStartHigh(j, c); }
  }

  /** No rule matches the empty string, and each begins only with its start characters. */
  lemma RuleStart(k: nat, c: char)
    requires k < 32
    ensures !Nullable(PatternAt(k))
    ensures MayStart(PatternAt(k), c) ==> RuleStartChar(k, c)
  {
    if 5 <= k < 20 { NumStartLemma(c); } else { SharedStart(k, c); }
  }

  lemma PropsWellFormed()
    ensures WellFormed(Props)
  {
    forall k | 0 <= k < |Rules| ensures !Nullable(Rules[k].pattern) { RuleStart(k, 'a'); }
  }

  /** One step of the token loop over this table. */
  function LexStep(s: string, i: nat): Step
    requires i < |s|
  {
    PropsWellFormed();
    NextStep(Props, s, i)
  }

  /** The tokens and diagnostics of the whole input. */
  function Tokens(s: string): Scanned
  {
    PropsWellFormed();
    Scan(Props, s, 0)
  }

  /** The token loop of the file's driver, without the printing. */
  method Tokenize(s: string) returns (tokens: seq<Token>, diagnostics: seq<Diagnostic>)
    ensures Scanned(tokens, diagnostics) == Tokens(s)
    ensures Faithful(s, 0, tokens)
  {
    PropsWellFormed();
    tokens, diagnostics := Scanner.Tokenize(Props, s);
    ScanFaithful(Props, s, 0);
  }

  // ---------------------------------------------------------------------------
  // Choosing a rule

  /** Rules `lo` to `hi - 1` all fail at `i`. */
  predicate Fail(s: string, i: nat, lo: nat, hi: nat)
    requires i <= |s|
  {
    forall m :: lo <= m < hi ==> Ends(PatternAt(m), s, i) == []
  }

  lemma NoRuleStarts(s: string, i: nat, lo: nat, hi: nat)
    requires i < |s| && lo <= hi <= 32
    requires forall k :: lo <= k < hi ==> !RuleStartChar(k, s[i])
    ensures Fail(s, i, lo, hi)
  {
    forall k | lo <= k < hi ensures Ends(PatternAt(k), s, i) == [] {
      RuleStart(k, s[i]);
      NoMatchAt(PatternAt(k), s, i);
    }
  }

  lemma FailJoin(s: string, i: nat, lo: nat, mid: nat, hi: nat)
    requires i <= |s| && lo <= mid <= hi && Fail(s, i, lo, mid) && Fail(s, i, mid, hi)
    ensures Fail(s, i, lo, hi)
  {
  }

  /** The step at `i` when rule `k` is the first to match, ending at `e`. */
  lemma Chosen(s: string, i: nat, k: nat, e: nat, kind: Kind)
    requires i < |s| && s[i] !in CssLexer.IgnoreChars && k < 32 && Fail(s, i, 0, k)
    requires First(PatternAt(k), s, i) == Some(e) && ActionAt(k) == Emit(kind)
    ensures i < e <= |s| && LexStep(s, i) == Produced(Token(kind, s[i..e], i), e)
  {
    PropsWellFormed();
    RuleChosen(Props, s, i, k, e);
  }

  /** When no rule matches, a literal character is its own token and any other is reported. */
  lemma Unmatched(s: string, i: nat)
    requires i < |s| && s[i] !in CssLexer.IgnoreChars && Fail(s, i, 0, 32)
    ensures s[i] in CssLexer.Literals ==> LexStep(s, i) == Produced(Token(Literal(s[i]), [s[i]], i), i + 1)
    ensures s[i] !in CssLexer.Literals ==> LexStep(s, i) == Reported(IllegalCharacter(i, s[i]), i + 1)
  {
    PropsWellFormed();
    assert forall m :: 0 <= m < |Props.rules| ==> Props.rules[m] == RuleAt(m);
    NoRuleMatches(Props, s, i);
  }

  // ---------------------------------------------------------------------------
  // Units

  /** A word that begins with a letter is not read at a digit or a point. */
  lemma WordNotAtNumber(s: string, x: nat, w: string)
    requires x < |s| && (IsDigit(s[x]) || s[x] == '.') && |w| > 0 && 'a' <= Lower(w[0]) <= 'z'
    ensures Ends(Word(w), s, x) == []
  {
    WordAt(w, s, x);
  }

  /** The word `w` matches after no end of `a` from `i` other than `f`. */
  predicate OnlyAfter(a: Re, w: string, s: string, i: nat, f: nat)
    requires i <= |s|
  {
    forall x :: x in Ends(a, s, i) && x != f ==> Ends(Word(w), s, x) == []
  }

  /** Only the longest number at a digit can be followed by a word that begins with a letter. */
  lemma WordOnlyAfterNumber(s: string, i: nat, w: string)
    requires i < |s| && IsDigit(s[i]) && |w| > 0 && 'a' <= Lower(w[0]) <= 'z'
    ensures NumSpan(s, i) in Ends(NumRe, s, i)
    ensures OnlyAfter(NumRe, w, s, i, NumSpan(s, i))
  {
    NumAtDigit(s, i);
    forall x | x in Ends(NumRe, s, i) && x != NumSpan(s, i) ensures Ends(Word(w), s, x) == [] {
      WordNotAtNumber(s, x, w);
    }
  }

  /**
   * A unit pattern at a digit matches when the unit's letters follow the longest number,
   * and ends after them.
   */
  lemma UnitMatch(s: string, i: nat, w: string)
    requires i < |s| && IsDigit(s[i]) && |w| > 0 && 'a' <= Lower(w[0]) <= 'z'
    requires HasPrefix(s, NumSpan(s, i), w)
    ensures First(Cat(NumRe, Word(w)), s, i) == Some(NumSpan(s, i) + |w|)
  {
    WordOnlyAfterNumber(s, i, w);
    WordAfterOnly(NumRe, w, s, i, NumSpan(s, i));
  }

  /** A pattern followed by a word that can only follow the pattern's end `f`. */
  lemma WordAfterOnly(a: Re, w: string, s: string, i: nat, f: nat)
    requires i <= f <= |s| && f in Ends(a, s, i) && HasPrefix(s, f, w) && OnlyAfter(a, w, s, i, f)
    ensures First(Cat(a, Word(w)), s, i) == Some(f + |w|)
  {
    WordFirst(w, s, f);
    FirstCatOnly(a, Word(w), s, i, f);
  }

  /** Otherwise the unit pattern fails. */
  lemma UnitFails(s: string, i: nat, w: string)
    requires i < |s| && IsDigit(s[i]) && |w| > 0 && 'a' <= Lower(w[0]) <= 'z'
    requires !HasPrefix(s, NumSpan(s, i), w)
    ensures Ends(Cat(NumRe, Word(w)), s, i) == []
  {
    WordOnlyAfterNumber(s, i, w);
    WordAt(w, s, NumSpan(s, i));
    CatNoSecond(NumRe, Word(w), s, i);
  }

  /** The unit rules before the `j`-th all fail when their letters do not follow the number. */
  lemma EarlierUnitsFail(s: string, i: nat, j: nat)
    requires i < |s| && IsDigit(s[i]) && j <= 15
    requires forall m :: 0 <= m < j ==> !HasPrefix(s, NumSpan(s, i), UnitWord(UnitAt(m)))
    ensures Fail(s, i, 5, 5 + j)
  {
    forall k | 5 <= k < 5 + j ensures Ends(PatternAt(k), s, i) == [] {
      UnitFails(s, i, UnitWord(UnitAt(k - 5)));
    }
  }

  /** At a digit the attribute operators fail. */
  lemma OperatorsFailAtDigit(s: string, i: nat)
    requires i < |s| && IsDigit(s[i])
    ensures Fail(s, i, 0, 5)
  {
    NoRuleStarts(s, i, 0, 5);
  }

  /** The letters at `f` are those of the `j`-th unit and of no earlier one. */
  predicate ReadsUnit(s: string, f: nat, j: nat) {
    && j < 15
    && HasPrefix(s, f, UnitWord(UnitAt(j)))
    && forall m :: 0 <= m < j ==> !HasPrefix(s, f, UnitWord(UnitAt(m)))
  }

  /**
   * A number followed by the letters of the `j`-th unit, and by those of no earlier unit:
   * every rule before that unit's rule fails, and that rule takes the number and the
   * letters, whatever follows them.
   */
  lemma UnitRuleFirst(s: string, i: nat, j: nat)
    requires i < |s| && IsDigit(s[i]) && ReadsUnit(s, NumSpan(s, i), j)
    ensures Fail(s, i, 0, 5 + j)
    ensures First(PatternAt(5 + j), s, i) == Some(NumSpan(s, i) + |UnitWord(UnitAt(j))|)
  {
    OperatorsFailAtDigit(s, i);
    EarlierUnitsFail(s, i, j);
    FailJoin(s, i, 0, 5, 5 + j);
    UnitMatch(s, i, UnitWord(UnitAt(j)));
  }

  /** The first letter of each unit, folded. */
  function Initial(j: nat): char {
    match j
    case 0 => 'e'
    case 1 => 'e'
    case 2 => 'p'
    case 3 => 'c'
    case 4 => 'm'
    case 5 => 'i'
    case 6 => 'p'
    case 7 => 'p'
    case 8 => 'd'
    case 9 => 'r'
    case 10 => 'g'
    case 11 => 'm'
    case 12 => 's'
    case 13 => 'h'
    case _ => 'k'
  }

  lemma InitialOf(j: nat)
    requires j < 15
    ensures Lower(UnitWord(UnitAt(j))[0]) == Initial(j)
  {
  }

  /** No unit from `lo` to `hi - 1` has letters beginning with `c`. */
  predicate NoInitial(c: char, lo: nat, hi: nat)
    decreases hi
  {
    hi <= lo || (NoInitial(c, lo, hi - 1) && Initial(hi - 1) != c)
  }

  /** Where the letter at `f` is `c`, no unit from `lo` to `hi - 1` that begins otherwise is read. */
  lemma {:induction false} UnitsNotAt(s: string, f: nat, c: char, lo: nat, hi: nat)
    requires f < |s| && Lower(s[f]) == c && hi <= 15 && NoInitial(c, lo, hi)
    ensures forall m :: lo <= m < hi ==> !HasPrefix(s, f, UnitWord(UnitAt(m)))
    decreases hi
  {
    if lo < hi {
      UnitsNotAt(s, f, c, lo, hi - 1);
      InitialOf(hi - 1);
      OtherLetter(s, f, UnitWord(UnitAt(hi - 1)), 0, c);
    }
  }

  lemma PixelRead(s: string, f: nat)
    requires HasPrefix(s, f, "px")
    ensures ReadsUnit(s, f, 2)
  {
    PrefixChar(s, f, "px", 0);
    UnitsNotAt(s, f, 'p', 0, 2);
  }

  lemma MillisecondRead(s: string, f: nat)
    requires HasPrefix(s, f, "ms")
    ensures ReadsUnit(s, f, 11)
  {
    PrefixChar(s, f, "ms", 0);
    PrefixChar(s, f, "ms", 1);
    UnitsNotAt(s, f, 'm', 0, 4);
    OtherLetter(s, f, "mm", 1, 's');
    UnitsNotAt(s, f, 'm', 5, 11);
  }

  lemma HertzRead(s: string, f: nat)
    requires HasPrefix(s, f, "Hz")
    ensures ReadsUnit(s, f, 13)
  {
    PrefixChar(s, f, "Hz", 0);
    UnitsNotAt(s, f, 'h', 0, 13);
  }

  lemma KilohertzRead(s: string, f: nat)
    requires HasPrefix(s, f, "kHz")
    ensures ReadsUnit(s, f, 14)
  {
    PrefixChar(s, f, "kHz", 0);
    UnitsNotAt(s, f, 'k', 0, 14);
  }

  /** A number followed by the letters of the `j`-th unit, and of no earlier unit, is one token of that unit. */
  lemma UnitTokenAt(s: string, i: nat, j: nat, u: Unit, e: nat)
    requires i < |s| && IsDigit(s[i]) && ReadsUnit(s, NumSpan(s, i), j)
    requires u == UnitAt(j) && e == NumSpan(s, i) + |UnitWord(u)|
    ensures LexStep(s, i) == Produced(Token(Measure(u), s[i..e], i), e)
  {
    UnitRuleFirst(s, i, j);
    assert s[i] !in CssLexer.IgnoreChars;
    Chosen(s, i, 5 + j, e, Measure(u));
  }

  /** `10px` is one PIXEL token. */
  lemma PixelToken(s: string, i: nat)
    requires i < |s| && IsDigit(s[i]) && HasPrefix(s, NumSpan(s, i), "px")
    ensures LexStep(s, i) ==
              Produced(Token(Measure(Pixel), s[i..NumSpan(s, i) + 2], i), NumSpan(s, i) + 2)
  {
    PixelRead(s, NumSpan(s, i));
    UnitTokenAt(s, i, 2, Pixel, NumSpan(s, i) + 2);
  }

  /**
   * The unit rules need no word boundary: `10ems` is an EM token `10em` (EM is the first
   * unit), and the `s` that follows is scanned on its own.
   */
  lemma EmToken(s: string, i: nat)
    requires i < |s| && IsDigit(s[i]) && HasPrefix(s, NumSpan(s, i), "em")
    ensures LexStep(s, i) ==
              Produced(Token(Measure(Em), s[i..NumSpan(s, i) + 2], i), NumSpan(s, i) + 2)
  {
    assert ReadsUnit(s, NumSpan(s, i), 0);
    UnitTokenAt(s, i, 0, Em, NumSpan(s, i) + 2);
  }

  /** `10ms` is MILLISECOND, not MILLIMETER (whose letters are `mm`) nor SECOND. */
  lemma MillisecondToken(s: string, i: nat)
    requires i < |s| && IsDigit(s[i]) && HasPrefix(s, NumSpan(s, i), "ms")
    ensures LexStep(s, i) ==
              Produced(Token(Measure(Millisecond), s[i..NumSpan(s, i) + 2], i), NumSpan(s, i) + 2)
  {
    MillisecondRead(s, NumSpan(s, i));
    UnitTokenAt(s, i, 11, Millisecond, NumSpan(s, i) + 2);
  }

  /** `10Hz` is HERTZ, and so are `10hz` and `10HZ`: letters match in any case. */
  lemma HertzToken(s: string, i: nat)
    requires i < |s| && IsDigit(s[i]) && HasPrefix(s, NumSpan(s, i), "Hz")
    ensures LexStep(s, i) ==
              Produced(Token(Measure(Hertz), s[i..NumSpan(s, i) + 2], i), NumSpan(s, i) + 2)
  {
    HertzRead(s, NumSpan(s, i));
    UnitTokenAt(s, i, 13, Hertz, NumSpan(s, i) + 2);
  }

  /**
   * `10kHz` is KILOHERTZ: HERTZ, tried first, needs its letters right after the number, and
   * there the `k` stands.
   */
  lemma KilohertzToken(s: string, i: nat)
    requires i < |s| && IsDigit(s[i]) && HasPrefix(s, NumSpan(s, i), "kHz")
    ensures LexStep(s, i) ==
              Produced(Token(Measure(Kilohertz), s[i..NumSpan(s, i) + 3], i), NumSpan(s, i) + 3)
  {
    KilohertzRead(s, NumSpan(s, i));
    UnitTokenAt(s, i, 14, Kilohertz, NumSpan(s, i) + 3);
  }

  // ---------------------------------------------------------------------------
  // Numbers, names and characters without a unit

  /** NOT, URI and FUNCTION have the patterns of the `CSSLexer` rules of the same names. */
  lemma NotUrlFunctionShared()
    ensures PatternAt(20) == CssLexer.RuleAt(6).pattern && PatternAt(21) == CssLexer.RuleAt(7).pattern
    ensures PatternAt(22) == CssLexer.RuleAt(8).pattern
  {
  }

  /**
   * A number followed by a name that begins with the letters of no unit is one DIMENSION
   * token, as in the `CSSLexer` table.
   */
  lemma DimensionToken(s: string, i: nat)
    requires i < |s| && IsDigit(s[i]) && NumSpan(s, i) < |s| && In(NmStartAscii, s[NumSpan(s, i)])
    requires AsciiStop(s, RunEnd(NmCharAscii, s, NumSpan(s, i) + 1))
    requires forall m :: 0 <= m < 15 ==> !HasPrefix(s, NumSpan(s, i), UnitWord(UnitAt(m)))
    ensures LexStep(s, i) ==
              Produced(Token(Dimension, s[i..RunEnd(NmCharAscii, s, NumSpan(s, i) + 1)], i),
                       RunEnd(NmCharAscii, s, NumSpan(s, i) + 1))
  {
    DimensionSkips(s, i);
    DimensionRuleFirst(s, i);
    assert s[i] !in CssLexer.IgnoreChars;
    Chosen(s, i, 24, RunEnd(NmCharAscii, s, NumSpan(s, i) + 1), Dimension);
  }

  lemma DimensionRuleFirst(s: string, i: nat)
    requires i < |s| && IsDigit(s[i]) && NumSpan(s, i) < |s| && In(NmStartAscii, s[NumSpan(s, i)])
    requires AsciiStop(s, RunEnd(NmCharAscii, s, NumSpan(s, i) + 1))
    ensures First(PatternAt(24), s, i) == Some(RunEnd(NmCharAscii, s, NumSpan(s, i) + 1))
  {
    assert PatternAt(24) == CssLexer.RuleAt(5).pattern;
    CssLexer.DimensionMatch(s, i);
  }

  /** Every rule before DIMENSION fails at a number that no unit follows. */
  lemma DimensionSkips(s: string, i: nat)
    requires i < |s| && IsDigit(s[i])
    requires forall m :: 0 <= m < 15 ==> !HasPrefix(s, NumSpan(s, i), UnitWord(UnitAt(m)))
    ensures Fail(s, i, 0, 24)
  {
    OperatorsFailAtDigit(s, i);
    EarlierUnitsFail(s, i, 15);
    NoRuleStarts(s, i, 20, 24);
    FailJoin(s, i, 0, 5, 20);
    FailJoin(s, i, 0, 20, 24);
  }

  /** `kg` begins like no unit: `kHz` differs in its second letter. */
  lemma KilogramRead(s: string, f: nat)
    requires HasPrefix(s, f, "kg")
    ensures f < |s| && In(NmStartAscii, s[f])
    ensures forall m :: 0 <= m < 15 ==> !HasPrefix(s, f, UnitWord(UnitAt(m)))
  {
    PrefixChar(s, f, "kg", 0);
    PrefixChar(s, f, "kg", 1);
    UnitsNotAt(s, f, 'k', 0, 14);
    OtherLetter(s, f, "kHz", 1, 'g');
  }

  /** `10kg` is one DIMENSION token. */
  lemma KilogramDimension(s: string, i: nat)
    requires i < |s| && IsDigit(s[i]) && HasPrefix(s, NumSpan(s, i), "kg")
    requires AsciiStop(s, RunEnd(NmCharAscii, s, NumSpan(s, i) + 1))
    ensures LexStep(s, i) ==
              Produced(Token(Dimension, s[i..RunEnd(NmCharAscii, s, NumSpan(s, i) + 1)], i),
                       RunEnd(NmCharAscii, s, NumSpan(s, i) + 1))
  {
    KilogramRead(s, NumSpan(s, i));
    DimensionToken(s, i);
  }

  /** At a name start the rules before NOT all fail. */
  lemma NameSkipsUnits(s: string, i: nat)
    requires i < |s| && In(NmStartAscii, s[i])
    ensures Fail(s, i, 0, 20)
  {
    NoRuleStarts(s, i, 0, 20);
  }

  /** At a name start the rules from HASH to STRING all fail. */
  lemma NameSkipsMarkup(s: string, i: nat)
    requires i < |s| && In(NmStartAscii, s[i])
    ensures Fail(s, i, 23, 30)
  {
    NoRuleStarts(s, i, 23, 30);
  }

  /** An ASCII name not followed by `(` is one IDENT token. */
  lemma IdentToken(s: string, i: nat)
    requires i < |s| && In(NmStartAscii, s[i])
    requires AsciiStop(s, RunEnd(NmCharAscii, s, i + 1))
    requires RunEnd(NmCharAscii, s, i + 1) < |s| ==> s[RunEnd(NmCharAscii, s, i + 1)] != '('
    ensures LexStep(s, i) ==
              Produced(Token(Ident, s[i..RunEnd(NmCharAscii, s, i + 1)], i), RunEnd(NmCharAscii, s, i + 1))
  {
    IdentSkips(s, i);
    IdentRuleMatch(s, i);
    assert s[i] !in CssLexer.IgnoreChars;
    Chosen(s, i, 30, RunEnd(NmCharAscii, s, i + 1), Ident);
  }

  lemma IdentRuleMatch(s: string, i: nat)
    requires i < |s| && In(NmStartAscii, s[i])
    requires AsciiStop(s, RunEnd(NmCharAscii, s, i + 1))
    ensures First(PatternAt(30), s, i) == Some(RunEnd(NmCharAscii, s, i + 1))
  {
    IdentPattern();
    IdentAscii(s, i);
  }

  /** Rule 30 is the IDENT rule of the `CSSLexer` table. */
  lemma IdentPattern()
    ensures PatternAt(30) == IdentRe
  {
    assert PatternAt(30) == CssLexer.RuleAt(18).pattern;
  }

  /** Every rule before IDENT fails at such a name. */
  lemma IdentSkips(s: string, i: nat)
    requires i < |s| && In(NmStartAscii, s[i])
    requires AsciiStop(s, RunEnd(NmCharAscii, s, i + 1))
    requires RunEnd(NmCharAscii, s, i + 1) < |s| ==> s[RunEnd(NmCharAscii, s, i + 1)] != '('
    ensures Fail(s, i, 0, 30)
  {
    NameSkipsUnits(s, i);
    CssLexer.NameSkipsNotUrl(s, i);
    CssLexer.NameSkipsFunction(s, i);
    NotUrlFunctionShared();
    FailJoin(s, i, 0, 20, 23);
    NameSkipsMarkup(s, i);
    FailJoin(s, i, 0, 23, 30);
  }

  /**
   * An ASCII name directly followed by `(` is one FUNCTION token, unless it is `not(` or
   * `url(`: `rgb(` is a FUNCTION, never IDENT and `(`.
   */
  lemma FunctionToken(s: string, i: nat)
    requires i < |s| && In(NmStartAscii, s[i])
    requires RunEnd(NmCharAscii, s, i + 1) < |s| && s[RunEnd(NmCharAscii, s, i + 1)] == '('
    requires !HasPrefix(s, i, "not(") && !HasPrefix(s, i, "url(")
    ensures LexStep(s, i) ==
              Produced(Token(Function, s[i..RunEnd(NmCharAscii, s, i + 1) + 1], i),
                       RunEnd(NmCharAscii, s, i + 1) + 1)
  {
    FunctionRuleFirst(s, i);
    assert s[i] !in CssLexer.IgnoreChars;
    Chosen(s, i, 22, RunEnd(NmCharAscii, s, i + 1) + 1, Function);
  }

  lemma FunctionRuleFirst(s: string, i: nat)
    requires i < |s| && In(NmStartAscii, s[i])
    requires RunEnd(NmCharAscii, s, i + 1) < |s| && s[RunEnd(NmCharAscii, s, i + 1)] == '('
    requires !HasPrefix(s, i, "not(") && !HasPrefix(s, i, "url(")
    ensures Fail(s, i, 0, 22)
    ensures First(PatternAt(22), s, i) == Some(RunEnd(NmCharAscii, s, i + 1) + 1)
  {
    NameSkipsUnits(s, i);
    CssLexer.NotUrlAbsent(s, i);
    NotUrlFunctionShared();
    FailJoin(s, i, 0, 20, 22);
    CssLexer.FunctionMatch(s, i);
  }

  /**
   * This table has no at-rules: `@` is no literal and begins no rule, so it is reported
   * and skipped, and `@import` goes on as a name.
   */
  lemma AtReported(s: string, i: nat)
    requires i < |s| && s[i] == '@'
    ensures LexStep(s, i) == Reported(IllegalCharacter(i, '@'), i + 1)
  {
    NoRuleStarts(s, i, 0, 32);
    assert s[i] !in CssLexer.Literals && s[i] !in CssLexer.IgnoreChars;
    Unmatched(s, i);
  }

  // ---------------------------------------------------------------------------
  // The table as the lexer generator loads it

  /**
   * The order of the `make_simple` rules among themselves is not fixed by their shared line;
   * this is definition order.  What follows holds for any order of them.
   */
  function LoadedShared(k: nat): nat {
    match k
    case 5 => 6    // NOT
    case 6 => 7    // URI
    case 7 => 8    // FUNCTION
    case 8 => 9    // HASH
    case 9 => 5    // DIMENSION
    case 10 => 10  // PERCENTAGE
    case 11 => 14  // CDO
    case 12 => 15  // CDC
    case 13 => 16  // NUMBER
    case 14 => 17  // STRING
    case 15 => 18  // IDENT
    case 31 => 20  // the comment rule
    case _ => k    // INCLUDES to SUBSTRINGMATCH
  }

  /** Every `make_simple` rule, then every `make_unit` rule, then the comment rule. */
  function LoadedActionAt(k: nat): Action {
    if 16 <= k < 31 then Emit(Measure(UnitAt(k - 16)))
    else
      match k
      case 0 => Emit(Includes)
      case 1 => Emit(DashMatch)
      case 2 => Emit(PrefixMatch)
      case 3 => Emit(SuffixMatch)
      case 4 => Emit(SubstringMatch)
      case 5 => Emit(Not)
      case 6 => Emit(Uri)
      case 7 => Emit(Function)
      case 8 => Emit(Hash)
      case 9 => Emit(Dimension)
      case 10 => Emit(Percentage)
      case 11 => Emit(Cdo)
      case 12 => Emit(Cdc)
      case 13 => Emit(Number)
      case 14 => Emit(Str)
      case 15 => Emit(Ident)
      case _ => Discard
  }

  function LoadedPatternAt(k: nat): Re {
    if 16 <= k < 31 then UnitRule(UnitAt(k - 16)).pattern else CssLexer.RuleAt(LoadedShared(k)).pattern
  }

  function LoadedRuleAt(k: nat): Rule {
    Rule(LoadedActionAt(k), LoadedPatternAt(k))
  }

  /** Apart from the unit rules, the loaded table holds the `CSSLexer` rules. */
  lemma LoadedSharedAction(k: nat)
    requires k < 32 && !(16 <= k < 31)
    ensures LoadedActionAt(k) == CssLexer.RuleAt(LoadedShared(k)).action
  {
    match k
    case 0 => case 1 => case 2 => case 3 => case 4 => case 5 => case 6 => case 7 =>
    case 8 => case 9 => case 10 => case 11 => case 12 => case 13 => case 14 => case 15 =>
    case 31 =>
  }

  function LoadedList(n: nat): (rs: seq<Rule>)
    ensures |rs| == n && forall m :: 0 <= m < n ==> rs[m] == LoadedRuleAt(m)
  {
    if n == 0 then [] else LoadedList(n - 1) + [LoadedRuleAt(n - 1)]
  }

  const Loaded: Lexer := Lexer(LoadedList(32), CssLexer.Literals, CssLexer.IgnoreChars)

  lemma LoadedRuleNotEmpty(k: nat)
    requires k < 32
    ensures !Nullable(LoadedPatternAt(k))
  {
    if 16 <= k < 31 {
      NumStartLemma('a');
    } else {
      var j := LoadedShared(k);
      assert j < 21 && j != 19;
      if j < 8 { CssLexer.RuleStartLow(j, 'a'); } else { CssLexer.RuleStartHigh(j, 'a'); }
    }
  }

  lemma LoadedWellFormed()
    ensures WellFormed(Loaded)
  {
    forall k | 0 <= k < 32 ensures !Nullable(Loaded.rules[k].pattern) { LoadedRuleNotEmpty(k); }
  }

  function LoadedStep(s: string, i: nat): Step
    requires i < |s|
  {
    LoadedWellFormed();
    NextStep(Loaded, s, i)
  }

  function LoadedTokens(s: string): Scanned
  {
    LoadedWellFormed();
    Scan(Loaded, s, 0)
  }

  /**
   * A table in which a rule for the bare number comes before every unit rule, and every unit
   * rule begins with the number.
   */
  predicate NumberBeforeUnits(rules: seq<Rule>, n: nat) {
    && n < |rules| && rules[n].pattern == NumRe
    && forall k :: 0 <= k < |rules| && rules[k].action.Emit? && rules[k].action.kind.Measure? ==>
         n < k && rules[k].pattern.Cat? && rules[k].pattern.first == NumRe
  }

  /** In such a table a unit rule is never the first to match: no step yields a unit token. */
  lemma NoMeasureStep(lx: Lexer, s: string, i: nat, n: nat)
    requires WellFormed(lx) && i < |s| && NumberBeforeUnits(lx.rules, n)
    ensures NextStep(lx, s, i).Produced? ==> !NextStep(lx, s, i).token.kind.Measure?
  {
    var m := MatchFrom(lx.rules, s, i, 0);
    if s[i] !in lx.ignore && m.Some? {
      var (k, e) := m.value;
      var r := lx.rules[k];
      if r.action.Emit? && r.action.kind.Measure? {
        CatEndSplit(NumRe, r.pattern.second, s, i, e);
        assert false;
      }
    }
  }

  /** Nor does the whole scan, from any offset. */
  lemma {:induction false} NoMeasureScan(lx: Lexer, s: string, i: nat, n: nat)
    requires WellFormed(lx) && i <= |s| && NumberBeforeUnits(lx.rules, n)
    ensures forall t :: t in Scan(lx, s, i).tokens ==> !t.kind.Measure?
    decreases |s| - i
  {
    if i < |s| {
      NoMeasureStep(lx, s, i, n);
      NoMeasureScan(lx, s, NextStep(lx, s, i).next, n);
    }
  }

  /** Only rules 16 to 30 give unit tokens, and each begins with the number pattern. */
  lemma LoadedUnitRule(k: nat)
    requires k < 32 && LoadedActionAt(k).Emit? && LoadedActionAt(k).kind.Measure?
    ensures 16 <= k < 31 && LoadedPatternAt(k) == Cat(NumRe, Word(UnitWord(UnitAt(k - 16))))
  {
  }

  lemma LoadedNumberFirst()
    ensures NumberBeforeUnits(Loaded.rules, 13)
  {
    assert Loaded.rules[13] == LoadedRuleAt(13);
    assert LoadedPatternAt(13) == CssLexer.RuleAt(16).pattern;
    forall k | 0 <= k < 32 && Loaded.rules[k].action.Emit? && Loaded.rules[k].action.kind.Measure?
      ensures 13 < k && Loaded.rules[k].pattern.Cat? && Loaded.rules[k].pattern.first == NumRe
    {
      assert Loaded.rules[k] == LoadedRuleAt(k);
      LoadedUnitRule(k);
    }
  }

  /** The table as loaded never yields a unit token, whatever the input. */
  lemma LoadedNoMeasure(s: string)
    ensures forall t :: t in LoadedTokens(s).tokens ==> !t.kind.Measure?
  {
    LoadedWellFormed();
    LoadedNumberFirst();
    NoMeasureScan(Loaded, s, 0, 13);
  }

  /** Where the table in definition order reads `10px` as PIXEL, the loaded table yields no unit. */
  lemma LoadedLosesPixel(s: string, i: nat)
    requires i < |s| && IsDigit(s[i]) && HasPrefix(s, NumSpan(s, i), "px")
    ensures LexStep(s, i).Produced? && LexStep(s, i).token.kind == Measure(Pixel)
    ensures LoadedStep(s, i).Produced? ==> !LoadedStep(s, i).token.kind.Measure?
  {
    PixelToken(s, i);
    LoadedWellFormed();
    LoadedNumberFirst();
    NoMeasureStep(Loaded, s, i, 13);
  }
}
