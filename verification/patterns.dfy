/**
 * The lexical macros shared by both CSS lexers (the "regex helpers" of the lexer class and of
 * the module-level rule table), written as `Regex.Re` values with the same alternatives in the
 * same order, and the facts about them that the lexer proofs use.
 */
module Patterns {
  import opened Regex

  const Backslash: Re := Chr(Exactly('\\'))

  /** `[^\0-\177]` */
  const NonAsciiRe: Re := Chr(NonAscii)

  /** `\\[0-9a-f]{1,6}(\r\n|[ \n\r\t\f])?` */
  const UnicodeRe: Re :=
    Cat(Backslash, Cat(UpTo(Chr(HexDigit), 6), Opt(Or(Word("\r\n"), Chr(Space)))))

  /** `unicode|\\[^\n\r\f0-9a-f]` */
  const EscapeRe: Re := Or(UnicodeRe, Cat(Backslash, Chr(EscapedChar)))

  /**
   * The body of a quoted string.  The source splices the newline macro `\n|\r\n|\r|\f`
   * after `\\` without parentheses, so the alternatives are: an ordinary character,
   * a backslash-newline, a bare CR-LF, a bare CR, a bare FF, a non-ASCII character, an escape.
   */
  function StringBody(quote: char): Re {
    Or(Chr(StringChar(quote)),
    Or(Cat(Backslash, Chr(Exactly('\n'))),
    Or(Word("\r\n"),
    Or(Chr(Exactly('\r')),
    Or(Chr(Exactly(FF)),
    Or(NonAsciiRe, EscapeRe))))))
  }

  function Quoted(quote: char): Re {
    Cat(Chr(Exactly(quote)), Cat(Star(StringBody(quote)), Chr(Exactly(quote))))
  }

  /** `string1|string2`: double-quoted first. */
  const StringRe: Re := Or(Quoted('"'), Quoted('\''))

  /** `nonascii|escape`: the branches `nmstart`, `nmchar` and `url` share. */
  const SpecialRe: Re := Or(NonAsciiRe, EscapeRe)

  // `[_a-z]|nonascii|escape`
  const NmStartRe: Re := Or(Chr(NmStartAscii), SpecialRe)

  /** `[_a-z0-9-]|nonascii|escape` */
  const NmCharRe: Re := Or(Chr(NmCharAscii), SpecialRe)

  /** `[-]?nmstart nmchar*` */
  const IdentRe: Re := Cat(Opt(Chr(Exactly('-'))), Cat(NmStartRe, Star(NmCharRe)))

  /** `nmchar+` */
  const NameRe: Re := Plus(NmCharRe)

  /** `([!#$%&*-~]|nonascii|escape)+` */
  const UrlRe: Re := Plus(Or(Chr(UrlAscii), SpecialRe))

  /** `[+-]?[0-9]+|[0-9]*\.[0-9]+`: the integer form is tried first. */
  const IntegerRe: Re := Cat(Opt(Chr(Sign)), Plus(Chr(Digit)))
  const DecimalRe: Re := Cat(Star(Chr(Digit)), Cat(Chr(Exactly('.')), Plus(Chr(Digit))))
  const NumRe: Re := Or(IntegerRe, DecimalRe)

  // A comment: slash, star, a body without a star-slash, star(s), slash.
  const CommentRe: Re :=
    Cat(Word("/*"), Cat(Star(Chr(NotStar)), Cat(Plus(Chr(Exactly('*'))),
      Cat(Star(Cat(Chr(NotSlashOrStar), Cat(Star(Chr(NotStar)), Plus(Chr(Exactly('*')))))),
          Chr(Exactly('/'))))))

  // ---------------------------------------------------------------------------
  // Which characters can begin a match of each macro

  predicate NumStart(c: char) { c == '+' || c == '-' || c == '.' || IsDigit(c) }

  /** `nmstart`: an ASCII letter or `_`, a non-ASCII character, or the backslash of an escape. */
  predicate NmStartChar(c: char) { In(NmStartAscii, c) || c as int >= 128 || c == '\\' }

  /** `nmchar`, likewise. */
  predicate NmCharChar(c: char) { In(NmCharAscii, c) || c as int >= 128 || c == '\\' }

  predicate IdentStart(c: char) { c == '-' || NmStartChar(c) }

  lemma EscapeStart(c: char)
    ensures !Nullable(EscapeRe)
    ensures MayStart(EscapeRe, c) <==> c == '\\'
  {
    assert !Nullable(UnicodeRe);
    assert MayStart(UnicodeRe, c) <==> c == '\\';
  }

  lemma SpecialStart(c: char)
    ensures !Nullable(SpecialRe)
    ensures MayStart(SpecialRe, c) <==> c as int >= 128 || c == '\\'
  {
    EscapeStart(c);
  }

  lemma NmStartStart(c: char)
    ensures !Nullable(NmStartRe) && !Nullable(NmCharRe)
    ensures MayStart(NmStartRe, c) <==> NmStartChar(c)
    ensures MayStart(NmCharRe, c) <==> NmCharChar(c)
  {
    SpecialStart(c);
  }

  lemma IdentStartLemma(c: char)
    ensures !Nullable(IdentRe) && !Nullable(NameRe)
    ensures MayStart(IdentRe, c) <==> IdentStart(c)
    ensures MayStart(NameRe, c) <==> NmCharChar(c)
  {
    NmStartStart(c);
    assert Opt(Chr(Exactly('-'))) == Or(Chr(Exactly('-')), Eps);
    assert Nullable(Opt(Chr(Exactly('-'))));
    assert MayStart(Opt(Chr(Exactly('-'))), c) <==> c == '-';
    assert !Nullable(Cat(NmStartRe, Star(NmCharRe)));
    assert MayStart(Cat(NmStartRe, Star(NmCharRe)), c) <==> NmStartChar(c);
  }

  lemma NumStartLemma(c: char)
    ensures !Nullable(NumRe)
    ensures MayStart(NumRe, c) <==> NumStart(c)
  {
    assert Opt(Chr(Sign)) == Or(Chr(Sign), Eps);
    assert Plus(Chr(Digit)) == Cat(Chr(Digit), Star(Chr(Digit)));
    assert MayStart(Plus(Chr(Digit)), c) <==> IsDigit(c);
    assert Nullable(Opt(Chr(Sign))) && MayStart(Opt(Chr(Sign)), c) == In(Sign, c);
    assert !Nullable(IntegerRe);
    assert MayStart(IntegerRe, c) <==> In(Sign, c) || IsDigit(c);
    assert MayStart(Cat(Chr(Exactly('.')), Plus(Chr(Digit))), c) <==> c == '.';
    assert MayStart(DecimalRe, c) <==> c == '.' || IsDigit(c);
  }

  lemma StringStartLemma(c: char)
    ensures !Nullable(StringRe)
    ensures MayStart(StringRe, c) <==> c == '"' || c == '\''
  {
    assert MayStart(Quoted('"'), c) <==> c == '"';
    assert MayStart(Quoted('\''), c) <==> c == '\'';
  }

  lemma UrlStartLemma(c: char)
    ensures !Nullable(UrlRe)
    ensures MayStart(UrlRe, c) <==> In(UrlAscii, c) || c as int >= 128
  {
    SpecialStart(c);
    var u := Or(Chr(UrlAscii), SpecialRe);
    assert MayStart(u, c) <==> In(UrlAscii, c) || c as int >= 128;
    assert UrlRe == Cat(u, Star(u));
  }

  /** A word can only start with its first letter. */
  lemma {:induction false} WordStart(w: string, c: char)
    requires w != []
    ensures !Nullable(Word(w))
    ensures MayStart(Word(w), c) <==> Lower(c) == Lower(w[0])
  {
    assert Word(w) == Cat(Chr(Exactly(w[0])), Word(w[1..]));
  }

  lemma CommentStartLemma(c: char)
    ensures !Nullable(CommentRe)
    ensures MayStart(CommentRe, c) <==> c == '/'
  {
    WordStart("/*", c);
  }

  // ---------------------------------------------------------------------------
  // Where the macros stop on plain ASCII text

  /** `s` spells `w` at `i`, in any letter case. */
  predicate HasPrefix(s: string, i: nat, w: string) {
    i + |w| <= |s| && SameWord(s[i..i + |w|], w)
  }

  lemma WordAt(w: string, s: string, i: nat)
    requires i <= |s|
    ensures Ends(Word(w), s, i) == if HasPrefix(s, i, w) then [i + |w|] else []
  {
    WordEnds(w, s, i);
  }

  /** A match of a word, a middle part and a closing non-letter ends just after that character. */
  lemma WordThenClose(w: string, a: Re, d: char, s: string, i: nat, x: nat)
    requires !('A' <= d <= 'Z' || 'a' <= d <= 'z')
    requires i <= |s| && x in Ends(Cat(Word(w), Cat(a, Chr(Exactly(d)))), s, i)
    ensures i + |w| < x <= |s| && s[x - 1] == d
  {
    WordAt(w, s, i);
    CatEndsVia(Word(w), Cat(a, Chr(Exactly(d))), s, i, i + |w|, x);
    var e := CatEndPick(a, Chr(Exactly(d)), s, i + |w|, x);
    ChrEnd(d, s, e, x);
  }

  /** The `k`-th character of a prefix, folded. */
  lemma PrefixChar(s: string, i: nat, w: string, k: nat)
    requires HasPrefix(s, i, w) && k < |w|
    ensures Lower(s[i + k]) == Lower(w[k])
  {
    assert s[i..i + |w|][k] == s[i + k];
  }

  /** Letters that do not begin like `w` cannot be `w`. */
  lemma OtherLetter(s: string, f: nat, w: string, k: nat, c: char)
    requires k < |w| && f + k < |s| && Lower(s[f + k]) == c && Lower(w[k]) != c
    ensures !HasPrefix(s, f, w)
  {
    if HasPrefix(s, f, w) { PrefixChar(s, f, w, k); }
  }

  /** A word present at `i` is matched there, up to its end. */
  lemma WordFirst(w: string, s: string, i: nat)
    requires HasPrefix(s, i, w)
    ensures First(Word(w), s, i) == Some(i + |w|)
  {
    WordAt(w, s, i);
    assert Ends(Word(w), s, i)[0] == i + |w|;
  }

  /** Position `j` ends a run of ASCII name characters: nothing there can continue a name. */
  predicate AsciiStop(s: string, j: nat) {
    j < |s| ==> s[j] as int < 128 && s[j] != '\\'
  }

  /** `nmchar*` over ASCII name characters stops at the end of their run. */
  lemma NameCharsAscii(s: string, j: nat)
    requires j <= |s| && AsciiStop(s, RunEnd(NmCharAscii, s, j))
    ensures First(Star(NmCharRe), s, j) == Some(RunEnd(NmCharAscii, s, j))
    ensures forall x :: x in Ends(Star(NmCharRe), s, j) ==> j <= x <= RunEnd(NmCharAscii, s, j)
  {
    var r := RunEnd(NmCharAscii, s, j);
    SpecialStart('a');
    if r < |s| { SpecialStart(s[r]); }
    forall c | In(NmCharAscii, c) ensures !MayStart(SpecialRe, c) { SpecialStart(c); }
    StarOrFirst(NmCharAscii, SpecialRe, s, j);
    forall x | x in Ends(Star(NmCharRe), s, j) ensures j <= x <= r {
      StarOrEnds(NmCharAscii, SpecialRe, s, j, x);
    }
  }

  /** An ASCII letter or `_` is a whole `nmstart`, and no `-` precedes it. */
  lemma NmStartAsciiEnds(s: string, i: nat)
    requires i < |s| && In(NmStartAscii, s[i])
    ensures Ends(NmStartRe, s, i) == [i + 1]
    ensures Ends(Opt(Chr(Exactly('-'))), s, i) == [i]
  {
    SpecialStart(s[i]);
    NoMatchAt(SpecialRe, s, i);
    OptAbsent(Chr(Exactly('-')), s, i);
  }

  /** `nmstart nmchar*` at an ASCII letter or `_` takes the run of name characters after it. */
  lemma IdentTailFirst(s: string, i: nat)
    requires i < |s| && In(NmStartAscii, s[i])
    requires AsciiStop(s, RunEnd(NmCharAscii, s, i + 1))
    ensures First(Cat(NmStartRe, Star(NmCharRe)), s, i) == Some(RunEnd(NmCharAscii, s, i + 1))
  {
    NmStartAsciiEnds(s, i);
    NameCharsAscii(s, i + 1);
    FirstCat(NmStartRe, Star(NmCharRe), s, i, i + 1);
  }

  /** Every match of `nmstart nmchar*` at an ASCII letter or `_` ends inside that run. */
  lemma IdentTailEnds(s: string, i: nat)
    requires i < |s| && In(NmStartAscii, s[i])
    requires AsciiStop(s, RunEnd(NmCharAscii, s, i + 1))
    ensures forall x :: x in Ends(Cat(NmStartRe, Star(NmCharRe)), s, i) ==>
              i < x <= RunEnd(NmCharAscii, s, i + 1)
  {
    NmStartAsciiEnds(s, i);
    NameCharsAscii(s, i + 1);
    forall x | x in Ends(Cat(NmStartRe, Star(NmCharRe)), s, i)
      ensures i < x <= RunEnd(NmCharAscii, s, i + 1)
    {
      CatEndsVia(NmStartRe, Star(NmCharRe), s, i, i + 1, x);
    }
  }

  /**
   * An identifier that starts with an ASCII letter or `_` takes the run of ASCII name
   * characters after it, and no shorter or longer match ends outside that run.
   */
  lemma IdentAscii(s: string, i: nat)
    requires i < |s| && In(NmStartAscii, s[i])
    requires AsciiStop(s, RunEnd(NmCharAscii, s, i + 1))
    ensures First(IdentRe, s, i) == Some(RunEnd(NmCharAscii, s, i + 1))
    ensures forall x :: x in Ends(IdentRe, s, i) ==> i < x <= RunEnd(NmCharAscii, s, i + 1)
  {
    var dash := Opt(Chr(Exactly('-')));
    var tail := Cat(NmStartRe, Star(NmCharRe));
    NmStartAsciiEnds(s, i);
    IdentTailFirst(s, i);
    IdentTailEnds(s, i);
    FirstCat(dash, tail, s, i, i);
    forall x | x in Ends(IdentRe, s, i) ensures x in Ends(tail, s, i) {
      CatEndsVia(dash, tail, s, i, i, x);
    }
  }

  /** A name that starts with an ASCII name character takes their whole run. */
  lemma NameAscii(s: string, j: nat)
    requires j < |s| && In(NmCharAscii, s[j])
    requires AsciiStop(s, RunEnd(NmCharAscii, s, j))
    ensures First(NameRe, s, j) == Some(RunEnd(NmCharAscii, s, j))
  {
    SpecialStart(s[j]);
    assert Ends(NmCharRe, s, j) == [j + 1] + Ends(SpecialRe, s, j);
    NameCharsAscii(s, j + 1);
    FirstCat(NmCharRe, Star(NmCharRe), s, j, j + 1);
  }

  /** Unquoted URL characters are taken up to the first character outside the class. */
  lemma UrlAsciiRun(s: string, j: nat)
    requires j < |s| && In(UrlAscii, s[j])
    requires RunEnd(UrlAscii, s, j) < |s| ==> s[RunEnd(UrlAscii, s, j)] as int < 128
    ensures First(UrlRe, s, j) == Some(RunEnd(UrlAscii, s, j))
  {
    var u := Or(Chr(UrlAscii), SpecialRe);
    var r := RunEnd(UrlAscii, s, j);
    SpecialStart(s[j]);
    if r < |s| { SpecialStart(s[r]); }
    assert Ends(u, s, j) == [j + 1] + Ends(SpecialRe, s, j);
    StarOrFirst(UrlAscii, SpecialRe, s, j + 1);
    FirstCat(u, Star(u), s, j, j + 1);
  }

  /** The end of the longest number at `i`: digits, then `.` and digits if they follow. */
  function NumSpan(s: string, i: nat): nat
    requires i < |s|
  {
    var d := RunEnd(Digit, s, i);
    if d + 1 < |s| && s[d] == '.' && IsDigit(s[d + 1]) then RunEnd(Digit, s, d + 1) else d
  }

  /** The integer form at a digit: the digit run, or a shorter prefix of it. */
  lemma IntegerAtDigit(s: string, i: nat)
    requires i < |s| && IsDigit(s[i])
    ensures First(IntegerRe, s, i) == Some(RunEnd(Digit, s, i))
    ensures forall x :: x in Ends(IntegerRe, s, i) ==> i < x <= RunEnd(Digit, s, i)
  {
    var sign := Opt(Chr(Sign));
    var digits := Plus(Chr(Digit));
    OptAbsent(Chr(Sign), s, i);
    PlusChr(Digit, s, i);
    FirstCat(sign, digits, s, i, i);
    forall x | x in Ends(IntegerRe, s, i) ensures i < x <= RunEnd(Digit, s, i) {
      CatEndsVia(sign, digits, s, i, i, x);
    }
  }

  /** The fraction `.digits` at `j`. */
  lemma FractionAt(s: string, j: nat)
    requires j <= |s|
    ensures forall x :: x in Ends(Cat(Chr(Exactly('.')), Plus(Chr(Digit))), s, j) ==>
              j + 1 < |s| && s[j] == '.' && IsDigit(s[j + 1]) && j + 1 < x <= RunEnd(Digit, s, j + 1)
    ensures j + 1 < |s| && s[j] == '.' && IsDigit(s[j + 1]) ==>
              First(Cat(Chr(Exactly('.')), Plus(Chr(Digit))), s, j) == Some(RunEnd(Digit, s, j + 1))
    ensures !(j + 1 < |s| && s[j] == '.' && IsDigit(s[j + 1])) ==>
              Ends(Cat(Chr(Exactly('.')), Plus(Chr(Digit))), s, j) == []
  {
    var point := Chr(Exactly('.'));
    var digits := Plus(Chr(Digit));
    if j < |s| && s[j] == '.' {
      assert Ends(point, s, j) == [j + 1];
      PlusChr(Digit, s, j + 1);
      forall x | x in Ends(Cat(point, digits), s, j)
        ensures j + 1 < |s| && IsDigit(s[j + 1]) && j + 1 < x <= RunEnd(Digit, s, j + 1)
      {
        CatEndsVia(point, digits, s, j, j + 1, x);
        assert In(Digit, s[j + 1]);
      }
      if j + 1 < |s| && IsDigit(s[j + 1]) {
        FirstCat(point, digits, s, j, j + 1);
      } else {
        CatNoSecond(point, digits, s, j);
      }
    } else {
      assert Ends(point, s, j) == [];
      CatNoFirst(point, digits, s, j);
    }
  }

  /** The decimal form at a digit: digits, the point, digits. */
  lemma DecimalAtDigit(s: string, i: nat)
    requires i < |s| && IsDigit(s[i])
    ensures forall x :: x in Ends(DecimalRe, s, i) ==>
              NumSpan(s, i) != RunEnd(Digit, s, i) && RunEnd(Digit, s, i) + 1 < x <= NumSpan(s, i)
    ensures NumSpan(s, i) != RunEnd(Digit, s, i) ==> NumSpan(s, i) in Ends(DecimalRe, s, i)
  {
    var d := RunEnd(Digit, s, i);
    var frac := Cat(Chr(Exactly('.')), Plus(Chr(Digit)));
    forall x | x in Ends(DecimalRe, s, i)
      ensures NumSpan(s, i) != d && d + 1 < x <= NumSpan(s, i)
    {
      CatEndSplit(Star(Chr(Digit)), frac, s, i, x);
      var e :| e in Ends(Star(Chr(Digit)), s, i) && x in Ends(frac, s, e);
      StarChrEnds(Digit, s, i, e);
      FractionAt(s, e);
      assert e == d;
    }
    if NumSpan(s, i) != d {
      FirstStarChr(Digit, s, i);
      FractionAt(s, d);
      CatEndJoin(Star(Chr(Digit)), frac, s, i, d, NumSpan(s, i));
    }
  }

  /**
   * A number that starts with a digit: `re` reports the integer form (the digit run), and
   * every other way to match stops inside the longest number, on a digit or the point.
   */
  lemma NumAtDigit(s: string, i: nat)
    requires i < |s| && IsDigit(s[i])
    ensures First(NumRe, s, i) == Some(RunEnd(Digit, s, i))
    ensures NumSpan(s, i) in Ends(NumRe, s, i)
    ensures forall x :: x in Ends(NumRe, s, i) ==>
              i < x <= NumSpan(s, i) && (x < NumSpan(s, i) ==> IsDigit(s[x]) || s[x] == '.')
  {
    var d := RunEnd(Digit, s, i);
    IntegerAtDigit(s, i);
    DecimalAtDigit(s, i);
    assert Ends(NumRe, s, i) == Ends(IntegerRe, s, i) + Ends(DecimalRe, s, i);
    forall x | x in Ends(NumRe, s, i)
      ensures i < x <= NumSpan(s, i) && (x < NumSpan(s, i) ==> IsDigit(s[x]) || s[x] == '.')
    {
      if x in Ends(IntegerRe, s, i) {
        assert x <= d;
      } else {
        assert x in Ends(DecimalRe, s, i);
      }
    }
  }

  /** The forms of a number at a point: the integer form cannot start there. */
  lemma NumAtPointEnds(s: string, i: nat)
    requires i < |s| && s[i] == '.'
    ensures Ends(NumRe, s, i) == Ends(Cat(Chr(Exactly('.')), Plus(Chr(Digit))), s, i)
  {
    var sign := Opt(Chr(Sign));
    var digits := Plus(Chr(Digit));
    OptAbsent(Chr(Sign), s, i);
    PlusChr(Digit, s, i);
    CatNoSecond(sign, digits, s, i);
    assert Ends(Star(Chr(Digit)), s, i) == [i];
    var frac := Cat(Chr(Exactly('.')), digits);
    assert ThenEnds(frac, s, i, [i]) == Ends(frac, s, i) + ThenEnds(frac, s, i, []);
    assert Ends(DecimalRe, s, i) == Ends(frac, s, i);
    assert Ends(NumRe, s, i) == Ends(IntegerRe, s, i) + Ends(DecimalRe, s, i);
  }

  /** A number that starts with `.` is the point and the digit run after it. */
  lemma NumAtPoint(s: string, i: nat)
    requires i + 1 < |s| && s[i] == '.' && IsDigit(s[i + 1])
    ensures First(NumRe, s, i) == Some(RunEnd(Digit, s, i + 1))
    ensures forall x :: x in Ends(NumRe, s, i) ==> i + 1 < x <= RunEnd(Digit, s, i + 1)
  {
    NumAtPointEnds(s, i);
    FractionAt(s, i);
  }

  /** A point that no digit follows does not begin a number. */
  lemma NoNumAtPoint(s: string, i: nat)
    requires i < |s| && s[i] == '.' && (i + 1 < |s| ==> !IsDigit(s[i + 1]))
    ensures Ends(NumRe, s, i) == []
  {
    NumAtPointEnds(s, i);
    FractionAt(s, i);
  }

  /** The closing `*` run and `/` of a comment whose body holds no `*`. */
  lemma CommentClose(s: string, j: nat)
    requires j + 1 < |s| && s[j] == '*' && s[j + 1] == '/'
    ensures First(Cat(Plus(Chr(Exactly('*'))),
                  Cat(Star(Cat(Chr(NotSlashOrStar), Cat(Star(Chr(NotStar)), Plus(Chr(Exactly('*')))))),
                      Chr(Exactly('/')))), s, j) == Some(j + 2)
  {
    var stars := Plus(Chr(Exactly('*')));
    var again := Cat(Chr(NotSlashOrStar), Cat(Star(Chr(NotStar)), stars));
    var close := Chr(Exactly('/'));
    PlusChr(Exactly('*'), s, j);
    assert RunEnd(Exactly('*'), s, j + 1) == j + 1;
    assert Ends(Chr(NotSlashOrStar), s, j + 1) == [];
    CatNoFirst(Chr(NotSlashOrStar), Cat(Star(Chr(NotStar)), stars), s, j + 1);
    FirstStar(again, s, j + 1);
    assert Ends(close, s, j + 1) == [j + 2];
    FirstCat(Star(again), close, s, j + 1, j + 1);
    FirstCat(stars, Cat(Star(again), close), s, j, j + 1);
  }

  /** At `i`, a comment whose body holds no star: slash-star, other characters, then the first star-slash. */
  predicate CommentAt(s: string, i: nat) {
    && i + 1 < |s| && s[i] == '/' && s[i + 1] == '*'
    && RunEnd(NotStar, s, i + 2) + 1 < |s| && s[RunEnd(NotStar, s, i + 2) + 1] == '/'
  }

  /** A comment whose body holds no `*`: it ends at the first star-slash. */
  lemma PlainComment(s: string, i: nat)
    requires CommentAt(s, i)
    ensures First(CommentRe, s, i) == Some(RunEnd(NotStar, s, i + 2) + 2)
  {
    var j := RunEnd(NotStar, s, i + 2);
    var rest := Cat(Plus(Chr(Exactly('*'))),
                  Cat(Star(Cat(Chr(NotSlashOrStar), Cat(Star(Chr(NotStar)), Plus(Chr(Exactly('*')))))),
                      Chr(Exactly('/'))));
    WordAt("/*", s, i);
    assert s[i..i + 2] == "/*";
    FirstStarChr(NotStar, s, i + 2);
    assert Lower(s[j]) == '*';
    CommentClose(s, j);
    FirstCat(Star(Chr(NotStar)), rest, s, i + 2, j);
    FirstCat(Word("/*"), Cat(Star(Chr(NotStar)), rest), s, i, i + 2);
  }
}
