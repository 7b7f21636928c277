/**
 * A backtracking regular-expression matcher with the semantics of Python's `re.match`
 * under `re.IGNORECASE` on byte strings.  The token rules of the CSS lexers are written
 * as values of `Re`; `Ends(r, s, i)` lists every position where `r` can stop when started
 * at `i`, in the order a backtracking matcher tries them (alternatives left to right,
 * repetitions greedy).  The match Python reports is the first entry of that list.
 */
module Regex {

  /** Form feed, which Dafny has no escape for. */
  const FF: char := 12 as char

  /** ASCII-only case folding: the only folding `re.IGNORECASE` does on a byte string. */
  function Lower(c: char): (d: char)
    ensures 'A' <= c <= 'Z' ==> d as int == c as int + 32
    ensures !('A' <= c <= 'Z') ==> d == c
  {
    if 'A' <= c <= 'Z' then (c as int + 32) as char else c
  }

  /** The character classes the CSS patterns use. */
  datatype CharClass =
    | Exactly(c: char)          // one pattern character
    | Digit                     // [0-9]
    | HexDigit                  // [0-9a-f]
    | Sign                      // [+-]
    | NonAscii                  // [^\0-\177]
    | NmStartAscii              // [_a-z]
    | NmCharAscii               // [_a-z0-9-]
    | UrlAscii                  // [!#$%&*-~]
    | Space                     // [ \n\r\t\f]
    | EscapedChar               // [^\n\r\f0-9a-f]
    | StringChar(quote: char)   // [^\n\r\f\\"] and [^\n\r\f\\']
    | NotStar                   // [^*]
    | NotSlashOrStar            // [^/*]

  predicate IsDigit(c: char) { '0' <= c <= '9' }

  /** Membership under IGNORECASE: the subject character is folded before the test. */
  predicate In(cl: CharClass, c: char) {
    var d := Lower(c);
    match cl
    case Exactly(p) => d == Lower(p)
    case Digit => IsDigit(d)
    case HexDigit => IsDigit(d) || 'a' <= d <= 'f'
    case Sign => d == '+' || d == '-'
    case NonAscii => d as int >= 128
    case NmStartAscii => d == '_' || 'a' <= d <= 'z'
    case NmCharAscii => d == '_' || 'a' <= d <= 'z' || IsDigit(d) || d == '-'
    case UrlAscii => d == '!' || '#' <= d <= '&' || '*' <= d <= '~'
    case Space => d == ' ' || d == '\n' || d == '\r' || d == '\t' || d == FF
    case EscapedChar => !(d == '\n' || d == '\r' || d == FF || IsDigit(d) || 'a' <= d <= 'f')
    case StringChar(q) => !(d == '\n' || d == '\r' || d == FF || d == '\\' || d == q)
    case NotStar => d != '*'
    case NotSlashOrStar => d != '/' && d != '*'
  }

  datatype Re =
    | Eps                       // the empty pattern
    | Chr(cl: CharClass)        // one character of a class
    | Cat(first: Re, second: Re)
    | Or(left: Re, right: Re)   // `left|right`, left tried first
    | Star(body: Re)            // greedy `body*`

  function Opt(r: Re): Re { Or(r, Eps) }

  function Plus(r: Re): Re { Cat(r, Star(r)) }

  /** A literal word, matched case-insensitively. */
  function Word(w: string): Re
    decreases |w|
  {
    if w == [] then Eps else Cat(Chr(Exactly(w[0])), Word(w[1..]))
  }

  /** Greedy `r{1,n}`: one `r`, then up to `n - 1` more, longer runs tried first. */
  function UpTo(r: Re, n: nat): Re
    requires n >= 1
    decreases n
  {
    if n == 1 then r else Cat(r, Opt(UpTo(r, n - 1)))
  }

  /** Every end position of `r` started at `i`, in backtracking order. */
  function Ends(r: Re, s: string, i: nat): (es: seq<nat>)
    requires i <= |s|
    ensures forall k :: 0 <= k < |es| ==> i <= es[k] <= |s|
    decreases r, |s| - i, 1, 0
  {
    match r
    case Eps => [i]
    case Chr(cl) => if i < |s| && In(cl, s[i]) then [i + 1] else []
    case Cat(a, b) => ThenEnds(b, s, i, Ends(a, s, i))
    case Or(a, b) =>
      var left := Ends(a, s, i);
      var right := Ends(b, s, i);
      BoundsJoin(left, right, i, |s|);
      left + right
    case Star(a) =>
      var more := MoreEnds(a, s, i, Ends(a, s, i));
      BoundsJoin(more, [i], i, |s|);
      more + [i]
  }

  /** Two runs of positions between `lo` and `hi`, one after the other, stay between them. */
  lemma BoundsJoin(x: seq<nat>, y: seq<nat>, lo: nat, hi: nat)
    requires forall k :: 0 <= k < |x| ==> lo <= x[k] <= hi
    requires forall k :: 0 <= k < |y| ==> lo <= y[k] <= hi
    ensures forall k :: 0 <= k < |x + y| ==> lo <= (x + y)[k] <= hi
  {
  }

  /** The ends of `b` started from each end in `es`, in order. */
  function ThenEnds(b: Re, s: string, lo: nat, es: seq<nat>): (rs: seq<nat>)
    requires forall k :: 0 <= k < |es| ==> lo <= es[k] <= |s|
    ensures forall k :: 0 <= k < |rs| ==> lo <= rs[k] <= |s|
    decreases b, |s| + 1, 0, |es|
  {
    if es == [] then [] else Ends(b, s, es[0]) + ThenEnds(b, s, lo, es[1..])
  }

  /** One more iteration of `a*` from each end in `es` that made progress past `i`. */
  function MoreEnds(a: Re, s: string, i: nat, es: seq<nat>): (rs: seq<nat>)
    requires forall k :: 0 <= k < |es| ==> i <= es[k] <= |s|
    ensures forall k :: 0 <= k < |rs| ==> i < rs[k] <= |s|
    decreases Star(a), |s| - i, 0, |es|
  {
    if es == [] then []
    else (if es[0] > i then Ends(Star(a), s, es[0]) else []) + MoreEnds(a, s, i, es[1..])
  }

  /** The end of the match `re.match` reports, if any. */
  function First(r: Re, s: string, i: nat): (m: Option<nat>)
    requires i <= |s|
    ensures m.Some? <==> Ends(r, s, i) != []
    ensures m.Some? ==> i <= m.value <= |s| && m.value in Ends(r, s, i)
  {
    var es := Ends(r, s, i);
    if es == [] then None else Some(es[0])
  }

  datatype Option<T> = None | Some(value: T)

  /** Can `r` match without consuming anything? */
  predicate Nullable(r: Re) {
    match r
    case Eps => true
    case Chr(_) => false
    case Cat(a, b) => Nullable(a) && Nullable(b)
    case Or(a, b) => Nullable(a) || Nullable(b)
    case Star(_) => true
  }

  /** Can a non-empty match of `r` begin with `c`? */
  predicate MayStart(r: Re, c: char) {
    match r
    case Eps => false
    case Chr(cl) => In(cl, c)
    case Cat(a, b) => MayStart(a, c) || (Nullable(a) && MayStart(b, c))
    case Or(a, b) => MayStart(a, c) || MayStart(b, c)
    case Star(a) => MayStart(a, c)
  }

  /** The end of the longest run of `cl` characters from `i`. */
  function RunEnd(cl: CharClass, s: string, i: nat): (j: nat)
    requires i <= |s|
    ensures i <= j <= |s|
    ensures forall k :: i <= k < j ==> In(cl, s[k])
    ensures j < |s| ==> !In(cl, s[j])
    decreases |s| - i
  {
    if i < |s| && In(cl, s[i]) then RunEnd(cl, s, i + 1) else i
  }

  // ---------------------------------------------------------------------------
  // Membership in the end lists

  lemma {:induction false} ThenEndsMember(b: Re, s: string, lo: nat, es: seq<nat>, x: nat)
    requires forall k :: 0 <= k < |es| ==> lo <= es[k] <= |s|
    ensures x in ThenEnds(b, s, lo, es) <==> exists k :: 0 <= k < |es| && x in Ends(b, s, es[k])
    decreases |es|
  {
    if es != [] {
      ThenEndsMember(b, s, lo, es[1..], x);
      if x in ThenEnds(b, s, lo, es[1..]) {
        var k :| 0 <= k < |es[1..]| && x in Ends(b, s, es[1..][k]);
        assert x in Ends(b, s, es[k + 1]);
      }
      if exists k :: 0 <= k < |es| && x in Ends(b, s, es[k]) {
        var k :| 0 <= k < |es| && x in Ends(b, s, es[k]);
        if k > 0 { assert x in Ends(b, s, es[1..][k - 1]); }
      }
    }
  }

  lemma {:induction false} MoreEndsMember(a: Re, s: string, i: nat, es: seq<nat>, x: nat)
    requires forall k :: 0 <= k < |es| ==> i <= es[k] <= |s|
    ensures x in MoreEnds(a, s, i, es) <==>
            exists k :: 0 <= k < |es| && es[k] > i && x in Ends(Star(a), s, es[k])
    decreases |es|
  {
    if es != [] {
      MoreEndsMember(a, s, i, es[1..], x);
      if x in MoreEnds(a, s, i, es[1..]) {
        var k :| 0 <= k < |es[1..]| && es[1..][k] > i && x in Ends(Star(a), s, es[1..][k]);
        assert es[k + 1] > i && x in Ends(Star(a), s, es[k + 1]);
      }
      if exists k :: 0 <= k < |es| && es[k] > i && x in Ends(Star(a), s, es[k]) {
        var k :| 0 <= k < |es| && es[k] > i && x in Ends(Star(a), s, es[k]);
        if k > 0 { assert es[1..][k - 1] > i && x in Ends(Star(a), s, es[1..][k - 1]); }
      }
    }
  }

  /** Only a nullable pattern can stop where it started. */
  lemma {:induction false} EmptyEndNullable(r: Re, s: string, i: nat)
    requires i <= |s|
    requires i in Ends(r, s, i)
    ensures Nullable(r)
  {
    match r
    case Eps =>
    case Chr(_) =>
    case Or(a, b) =>
      if i in Ends(a, s, i) { EmptyEndNullable(a, s, i); } else { EmptyEndNullable(b, s, i); }
    case Star(_) =>
    case Cat(a, b) =>
      ThenEndsMember(b, s, i, Ends(a, s, i), i);
      var k :| 0 <= k < |Ends(a, s, i)| && i in Ends(b, s, Ends(a, s, i)[k]);
      var e := Ends(a, s, i)[k];
      assert e == i;
      EmptyEndNullable(a, s, i);
      EmptyEndNullable(b, s, i);
  }

  /** A match that consumes something begins with a character `MayStart` admits. */
  lemma {:induction false} StartsWith(r: Re, s: string, i: nat, x: nat)
    requires i <= |s|
    requires x in Ends(r, s, i) && x > i
    ensures i < |s| && MayStart(r, s[i])
    decreases r, 1
  {
    match r
    case Eps =>
    case Chr(_) =>
    case Or(a, b) =>
      if x in Ends(a, s, i) { StartsWith(a, s, i, x); } else { StartsWith(b, s, i, x); }
    case Star(a) =>
      StarStep(a, s, i, x);
      var e :| e in Ends(a, s, i) && e > i && x in Ends(Star(a), s, e);
      StartsWith(a, s, i, e);
    case Cat(a, b) =>
      StartsWithCat(a, b, s, i, x);
  }

  lemma {:induction false} StartsWithCat(a: Re, b: Re, s: string, i: nat, x: nat)
    requires i <= |s|
    requires x in Ends(Cat(a, b), s, i) && x > i
    ensures i < |s| && (MayStart(a, s[i]) || (Nullable(a) && MayStart(b, s[i])))
    decreases Cat(a, b), 0
  {
    CatEndSplit(a, b, s, i, x);
    var e :| e in Ends(a, s, i) && x in Ends(b, s, e);
    if e > i {
      StartsWith(a, s, i, e);
    } else {
      EmptyEndNullable(a, s, i);
      StartsWith(b, s, i, x);
    }
  }

  /** A pattern that is not nullable and cannot start with `s[i]` does not match at `i`. */
  lemma NoMatchAt(r: Re, s: string, i: nat)
    requires i <= |s|
    requires !Nullable(r)
    requires i < |s| ==> !MayStart(r, s[i])
    ensures Ends(r, s, i) == []
  {
    if Ends(r, s, i) != [] {
      var x := Ends(r, s, i)[0];
      if x == i { EmptyEndNullable(r, s, i); } else { StartsWith(r, s, i, x); }
    }
  }

  // ---------------------------------------------------------------------------
  // The first match of composite patterns

  /** When `a`'s preferred end lets `b` match, the sequence takes that path. */
  lemma FirstCat(a: Re, b: Re, s: string, i: nat, e: nat)
    requires i <= |s|
    requires First(a, s, i) == Some(e)
    requires First(b, s, e).Some?
    ensures First(Cat(a, b), s, i) == First(b, s, e)
  {
    var es := Ends(a, s, i);
    assert Ends(Cat(a, b), s, i) == Ends(b, s, e) + ThenEnds(b, s, i, es[1..]);
  }

  /** A sequence whose first part cannot match does not match. */
  lemma CatNoFirst(a: Re, b: Re, s: string, i: nat)
    requires i <= |s|
    requires Ends(a, s, i) == []
    ensures Ends(Cat(a, b), s, i) == []
  {
  }

  /** A sequence fails when its second part fails from every end of the first. */
  lemma CatNoSecond(a: Re, b: Re, s: string, i: nat)
    requires i <= |s|
    requires forall e :: e in Ends(a, s, i) ==> Ends(b, s, e) == []
    ensures Ends(Cat(a, b), s, i) == []
  {
    if Ends(Cat(a, b), s, i) != [] {
      CatEndSplit(a, b, s, i, Ends(Cat(a, b), s, i)[0]);
    }
  }

  /** Every end of a sequence is an end of its second part after some end of its first. */
  lemma CatEndSplit(a: Re, b: Re, s: string, i: nat, x: nat)
    requires i <= |s|
    requires x in Ends(Cat(a, b), s, i)
    ensures exists e :: e in Ends(a, s, i) && x in Ends(b, s, e)
  {
    ThenEndsMember(b, s, i, Ends(a, s, i), x);
    var k :| 0 <= k < |Ends(a, s, i)| && x in Ends(b, s, Ends(a, s, i)[k]);
    assert Ends(a, s, i)[k] in Ends(a, s, i);
  }

  /** The end of the first part that a given end of a sequence passes through. */
  lemma CatEndPick(a: Re, b: Re, s: string, i: nat, x: nat) returns (e: nat)
    requires i <= |s|
    requires x in Ends(Cat(a, b), s, i)
    ensures i <= e <= |s| && e in Ends(a, s, i) && x in Ends(b, s, e)
  {
    CatEndSplit(a, b, s, i, x);
    e :| e in Ends(a, s, i) && x in Ends(b, s, e);
  }

  /** The first alternative is preferred whenever it matches. */
  lemma FirstOr(a: Re, b: Re, s: string, i: nat)
    requires i <= |s|
    ensures First(Or(a, b), s, i) == if First(a, s, i).Some? then First(a, s, i) else First(b, s, i)
  {
  }

  /** A greedy star always matches; it iterates as long as its body makes progress. */
  lemma FirstStar(a: Re, s: string, i: nat)
    requires i <= |s|
    ensures First(Star(a), s, i).Some?
    ensures Ends(a, s, i) == [] ==> First(Star(a), s, i) == Some(i)
    ensures First(a, s, i).Some? && First(a, s, i).value > i ==>
              First(Star(a), s, i) == First(Star(a), s, First(a, s, i).value)
  {
    var es := Ends(a, s, i);
    assert Ends(Star(a), s, i) == MoreEnds(a, s, i, es) + [i];
    if es == [] {
      assert MoreEnds(a, s, i, es) == [];
    } else if es[0] > i {
      var head := Ends(Star(a), s, es[0]);
      assert head == MoreEnds(a, s, es[0], Ends(a, s, es[0])) + [es[0]];
      assert MoreEnds(a, s, i, es) == head + MoreEnds(a, s, i, es[1..]);
      assert Ends(Star(a), s, i)[0] == head[0];
    }
  }

  /** The star of a single character class stops at the end of the longest run. */
  lemma {:induction false} FirstStarChr(cl: CharClass, s: string, i: nat)
    requires i <= |s|
    ensures First(Star(Chr(cl)), s, i) == Some(RunEnd(cl, s, i))
    decreases |s| - i
  {
    FirstStar(Chr(cl), s, i);
    if i < |s| && In(cl, s[i]) {
      FirstStarChr(cl, s, i + 1);
    }
  }

  /** Every end of a star of a character class lies inside the run of that class. */
  lemma {:induction false} StarChrEnds(cl: CharClass, s: string, i: nat, x: nat)
    requires i <= |s|
    requires x in Ends(Star(Chr(cl)), s, i)
    ensures i <= x <= RunEnd(cl, s, i)
    decreases |s| - i
  {
    if x != i {
      StarStep(Chr(cl), s, i, x);
      var e :| e in Ends(Chr(cl), s, i) && e > i && x in Ends(Star(Chr(cl)), s, e);
      ChrAt(cl, s, i);
      StarChrEnds(cl, s, i + 1, x);
    }
  }

  /** Case-insensitive equality of a text with a word. */
  predicate SameWord(t: string, w: string) {
    |t| == |w| && forall k :: 0 <= k < |w| ==> Lower(t[k]) == Lower(w[k])
  }

  /** Dropping a matching first character from both sides preserves `SameWord`. */
  lemma SameWordTail(t: string, w: string)
    requires |t| == |w| > 0 && Lower(t[0]) == Lower(w[0])
    ensures SameWord(t, w) <==> SameWord(t[1..], w[1..])
  {
    if SameWord(t[1..], w[1..]) {
      forall k | 0 <= k < |w| ensures Lower(t[k]) == Lower(w[k]) {
        if k > 0 { assert t[k] == t[1..][k - 1] && w[k] == w[1..][k - 1]; }
      }
    }
  }

  lemma WordStep(w: string, s: string, i: nat)
    requires w != [] && i <= |s|
    ensures Ends(Word(w), s, i) ==
              if i < |s| && In(Exactly(w[0]), s[i]) then Ends(Word(w[1..]), s, i + 1) else []
  {
    assert Word(w) == Cat(Chr(Exactly(w[0])), Word(w[1..]));
    if i < |s| && In(Exactly(w[0]), s[i]) {
      assert ThenEnds(Word(w[1..]), s, i, [i + 1]) ==
             Ends(Word(w[1..]), s, i + 1) + ThenEnds(Word(w[1..]), s, i, []);
    }
  }

  /** A word matches exactly its own letters, in any letter case. */
  lemma {:induction false} WordEnds(w: string, s: string, i: nat)
    requires i <= |s|
    ensures Ends(Word(w), s, i) ==
              if i + |w| <= |s| && SameWord(s[i..i + |w|], w) then [i + |w|] else []
    decreases |w|
  {
    if w != [] {
      WordStep(w, s, i);
      if i < |s| && In(Exactly(w[0]), s[i]) { WordEnds(w[1..], s, i + 1); }
      if i + |w| <= |s| {
        var t := s[i..i + |w|];
        assert t[0] == s[i];
        if In(Exactly(w[0]), s[i]) {
          assert t[1..] == s[i + 1..i + 1 + |w[1..]|];
          SameWordTail(t, w);
        }
      }
    }
  }

  // ---------------------------------------------------------------------------
  // Stars of an alternation headed by a character class

  /**
   * `(c|rest)*` over a run of `c` characters stops at the end of the run when `rest`
   * cannot begin at the character that ends it.
   */
  lemma {:induction false} StarOrFirst(cl: CharClass, rest: Re, s: string, j: nat)
    requires j <= |s| && !Nullable(rest)
    requires RunEnd(cl, s, j) < |s| ==> !MayStart(rest, s[RunEnd(cl, s, j)])
    ensures First(Star(Or(Chr(cl), rest)), s, j) == Some(RunEnd(cl, s, j))
    decreases |s| - j
  {
    var u := Or(Chr(cl), rest);
    FirstStar(u, s, j);
    if j < |s| && In(cl, s[j]) {
      assert Ends(Chr(cl), s, j) == [j + 1];
      assert Ends(u, s, j) == [j + 1] + Ends(rest, s, j);
      StarOrFirst(cl, rest, s, j + 1);
    } else {
      NoMatchAt(rest, s, j);
      assert Ends(u, s, j) == [];
    }
  }

  /** An end of `(c|rest)*` past `j` continues from an end of one iteration. */
  lemma StarStep(u: Re, s: string, j: nat, x: nat)
    requires j <= |s| && x in Ends(Star(u), s, j) && x != j
    ensures exists e :: e in Ends(u, s, j) && e > j && x in Ends(Star(u), s, e)
  {
    var es := Ends(u, s, j);
    assert Ends(Star(u), s, j) == MoreEnds(u, s, j, es) + [j];
    MoreEndsMember(u, s, j, es, x);
    var k :| 0 <= k < |es| && es[k] > j && x in Ends(Star(u), s, es[k]);
    assert es[k] in es;
  }

  /** One iteration of `(c|rest)*` where `rest` cannot begin is one `c` character. */
  lemma OrChrStep(cl: CharClass, rest: Re, s: string, j: nat, e: nat)
    requires j <= |s| && !Nullable(rest) && e in Ends(Or(Chr(cl), rest), s, j) && e > j
    requires j < |s| && In(cl, s[j]) ==> !MayStart(rest, s[j])
    requires j < |s| && !In(cl, s[j]) ==> !MayStart(rest, s[j])
    ensures e == j + 1 && In(cl, s[j])
  {
    assert Ends(Or(Chr(cl), rest), s, j) == Ends(Chr(cl), s, j) + Ends(rest, s, j);
    if e in Ends(rest, s, j) {
      StartsWith(rest, s, j, e);
    }
  }

  /** When no `c` character can begin `rest`, no end of `(c|rest)*` lies past the run. */
  lemma {:induction false} StarOrEnds(cl: CharClass, rest: Re, s: string, j: nat, x: nat)
    requires j <= |s| && !Nullable(rest)
    requires forall c :: In(cl, c) ==> !MayStart(rest, c)
    requires RunEnd(cl, s, j) < |s| ==> !MayStart(rest, s[RunEnd(cl, s, j)])
    requires x in Ends(Star(Or(Chr(cl), rest)), s, j)
    ensures j <= x <= RunEnd(cl, s, j)
    decreases |s| - j
  {
    var u := Or(Chr(cl), rest);
    if x != j {
      StarStep(u, s, j, x);
      var e :| e in Ends(u, s, j) && e > j && x in Ends(Star(u), s, e);
      if j < |s| && !In(cl, s[j]) { assert RunEnd(cl, s, j) == j; }
      OrChrStep(cl, rest, s, j, e);
      assert RunEnd(cl, s, j) == RunEnd(cl, s, j + 1);
      StarOrEnds(cl, rest, s, j + 1, x);
    }
  }

  /** When the second part can continue from only one end of the first, the sequence goes there. */
  lemma FirstCatOnly(a: Re, b: Re, s: string, i: nat, e: nat)
    requires i <= |s| && e in Ends(a, s, i) && First(b, s, e).Some?
    requires forall x :: x in Ends(a, s, i) && x != e ==> Ends(b, s, x) == []
    ensures First(Cat(a, b), s, i) == First(b, s, e)
  {
    ThenEndsOnly(b, s, i, Ends(a, s, i), e);
  }

  lemma {:induction false} ThenEndsOnly(b: Re, s: string, lo: nat, es: seq<nat>, e: nat)
    requires forall k :: 0 <= k < |es| ==> lo <= es[k] <= |s|
    requires e in es && Ends(b, s, e) != []
    requires forall k :: 0 <= k < |es| && es[k] != e ==> Ends(b, s, es[k]) == []
    ensures ThenEnds(b, s, lo, es) != [] && ThenEnds(b, s, lo, es)[0] == Ends(b, s, e)[0]
    decreases |es|
  {
    if es[0] != e {
      assert e in es[1..];
      ThenEndsOnly(b, s, lo, es[1..], e);
    }
  }

  /** An end of the second part after an end of the first is an end of the sequence. */
  lemma CatEndJoin(a: Re, b: Re, s: string, i: nat, e: nat, x: nat)
    requires i <= |s| && e in Ends(a, s, i) && x in Ends(b, s, e)
    ensures x in Ends(Cat(a, b), s, i)
  {
    var es := Ends(a, s, i);
    var k :| 0 <= k < |es| && es[k] == e;
    ThenEndsMember(b, s, i, es, x);
  }

  /** `c+` takes the whole run of `c` characters, and never ends beyond it. */
  lemma PlusChr(cl: CharClass, s: string, j: nat)
    requires j <= |s|
    ensures j < |s| && In(cl, s[j]) ==> First(Plus(Chr(cl)), s, j) == Some(RunEnd(cl, s, j))
    ensures !(j < |s| && In(cl, s[j])) ==> Ends(Plus(Chr(cl)), s, j) == []
    ensures forall x :: x in Ends(Plus(Chr(cl)), s, j) ==> j < x <= RunEnd(cl, s, j)
  {
    var c := Chr(cl);
    if j < |s| && In(cl, s[j]) {
      assert Ends(c, s, j) == [j + 1];
      FirstStarChr(cl, s, j + 1);
      FirstCat(c, Star(c), s, j, j + 1);
      forall x | x in Ends(Plus(c), s, j) ensures j < x <= RunEnd(cl, s, j) {
        CatEndSplit(c, Star(c), s, j, x);
        StarChrEnds(cl, s, j + 1, x);
      }
    } else {
      CatNoFirst(c, Star(c), s, j);
    }
  }

  /** When the first part has a single end, every end of the sequence comes from it. */
  lemma CatEndsVia(a: Re, b: Re, s: string, i: nat, e: nat, x: nat)
    requires i <= |s| && e <= |s| && Ends(a, s, i) == [e]
    requires x in Ends(Cat(a, b), s, i)
    ensures x in Ends(b, s, e)
  {
    CatEndSplit(a, b, s, i, x);
  }

  /** A run of `cl` characters from `i` that stops at `j` ends there. */
  lemma {:induction false} RunEndAt(cl: CharClass, s: string, i: nat, j: nat)
    requires i <= j <= |s|
    requires forall k :: i <= k < j ==> In(cl, s[k])
    requires j < |s| ==> !In(cl, s[j])
    ensures RunEnd(cl, s, i) == j
    decreases j - i
  {
    if i < j { RunEndAt(cl, s, i + 1, j); }
  }

  /** A single character class matches one character or nothing. */
  lemma ChrAt(cl: CharClass, s: string, j: nat)
    requires j <= |s|
    ensures Ends(Chr(cl), s, j) == if j < |s| && In(cl, s[j]) then [j + 1] else []
  {
  }

  /** Matching ignores case only for letters: any other pattern character matches just itself. */
  lemma InExactly(d: char, c: char)
    requires !('A' <= d <= 'Z' || 'a' <= d <= 'z')
    ensures In(Exactly(d), c) <==> c == d
  {
  }

  /** A match of one non-letter character is that character. */
  lemma ChrEnd(d: char, s: string, e: nat, x: nat)
    requires !('A' <= d <= 'Z' || 'a' <= d <= 'z')
    requires e <= |s| && x in Ends(Chr(Exactly(d)), s, e)
    ensures e < |s| && x == e + 1 && s[e] == d
  {
    ChrAt(Exactly(d), s, e);
    InExactly(d, s[e]);
  }

  /** An optional part that cannot match is skipped. */
  lemma OptAbsent(r: Re, s: string, i: nat)
    requires i <= |s| && Ends(r, s, i) == []
    ensures Ends(Opt(r), s, i) == [i]
  {
  }
}
