/**
 * What the declaration grammar of `properties.py` guarantees: every recognised production
 * rebuilds exactly the text of the tokens it was recognised from, `anys` never hold a `,`,
 * which single tokens an `any` is, and how a name before `(` is read.
 */
module PropertyGrammarFacts {
  import opened Regex
  import opened Scanner
  import opened TokenStream
  import opened PropertyGrammar

  // ---------------------------------------------------------------------------
  // Runs of tokens

  lemma SpanOne(toks: seq<Token>, pos: nat)
    requires pos < |toks|
    ensures Span(toks, pos, pos + 1) == toks[pos].text
  {
    assert Span(toks, pos + 1, pos + 1) == [];
    assert toks[pos].text + [] == toks[pos].text;
  }

  /** A literal token spells its character. */
  lemma SpanChar(toks: seq<Token>, pos: nat, c: char)
    requires Plain(toks) && AtChar(toks, pos, c)
    ensures Span(toks, pos, pos + 1) == [c]
  {
    SpanOne(toks, pos);
  }

  lemma SpanThree(toks: seq<Token>, a: nat, b: nat, c: nat, d: nat)
    requires a <= b <= c <= d <= |toks|
    ensures Span(toks, a, d) == Span(toks, a, b) + Span(toks, b, c) + Span(toks, c, d)
  {
    SpanSplit(toks, a, b, d);
    SpanSplit(toks, b, c, d);
  }

  lemma Associative(x: string, y: string, z: string)
    ensures x + (y + z) == x + y + z
  {
  }

  /** No token from `a` to `b - 1` is the literal `,`. */
  predicate CommaFree(toks: seq<Token>, a: nat, b: nat) {
    forall j :: a <= j < b && j < |toks| ==> toks[j].kind != Literal(',')
  }

  lemma CommaFreeChar(toks: seq<Token>, pos: nat, c: char)
    requires AtChar(toks, pos, c) && c != ','
    ensures CommaFree(toks, pos, pos + 1)
  {
  }

  lemma CommaFreeJoin(toks: seq<Token>, a: nat, b: nat, c: nat)
    requires a <= b <= c && CommaFree(toks, a, b) && CommaFree(toks, b, c)
    ensures CommaFree(toks, a, c)
  {
  }

  // ---------------------------------------------------------------------------
  // How recognised productions are made

  /** `ParseAny` recognises `a` from `pos`, up to `n`. */
  predicate AnyParsed(toks: seq<Token>, pos: nat, a: Any, n: nat) {
    pos <= |toks| && ParseAny(toks, pos) == Parsed(a, n)
  }

  predicate ArgsParsed(toks: seq<Token>, pos: nat, close: char, xs: seq<Any>, n: nat) {
    pos <= |toks| && ParseArgs(toks, pos, close) == Parsed(xs, n)
  }

  predicate AnysParsed(toks: seq<Token>, pos: nat, xs: seq<Any>, n: nat) {
    pos <= |toks| && ParseAnys(toks, pos) == Parsed(xs, n)
  }

  predicate ValuesParsed(toks: seq<Token>, pos: nat, v: Values, n: nat) {
    pos <= |toks| && ParseValues(toks, pos) == Parsed(v, n)
  }

  predicate DeclarationParsed(toks: seq<Token>, pos: nat, d: Declaration, n: nat) {
    pos <= |toks| && ParseDeclaration(toks, pos) == Parsed(d, n)
  }

  predicate DeclarationsParsed(toks: seq<Token>, pos: nat, ds: Declarations, n: nat) {
    pos <= |toks| && ParseDeclarations(toks, pos) == Parsed(ds, n)
  }

  /** A recognised `any`: one admitted token, or a name and `(`, `(` or `[`, then what it encloses. */
  lemma AnyShape(toks: seq<Token>, pos: nat, a: Any, n: nat)
    requires AnyParsed(toks, pos, a, n)
    ensures pos < n <= |toks|
    ensures a.Atom? ==> AtomKind(toks[pos].kind) && a.text == toks[pos].text && n == pos + 1
    ensures a.Call? ==> At(toks, pos, Ident) && AtChar(toks, pos + 1, '(') && a.name == toks[pos].text
                        && ArgsParsed(toks, pos + 2, ')', a.args, n)
    ensures a.Paren? ==> AtChar(toks, pos, '(') && ArgsParsed(toks, pos + 1, ')', a.args, n)
    ensures a.Bracket? ==> AtChar(toks, pos, '[') && ArgsParsed(toks, pos + 1, ']', a.args, n)
  {
  }

  /** Recognised enclosed terms: the closing character alone, or `anys` and then it. */
  lemma ArgsShape(toks: seq<Token>, pos: nat, close: char, xs: seq<Any>, n: nat) returns (e: nat)
    requires ArgsParsed(toks, pos, close, xs, n)
    ensures pos <= e && AtChar(toks, e, close) && n == e + 1
    ensures xs == [] ==> e == pos
    ensures xs != [] ==> AnysParsed(toks, pos, xs, e)
  {
    e := if AtChar(toks, pos, close) then pos else ParseAnys(toks, pos).next;
  }

  /** A recognised `anys`: an `any`, and more of them when there is more than one. */
  lemma AnysShape(toks: seq<Token>, pos: nat, xs: seq<Any>, m: nat) returns (n: nat)
    requires AnysParsed(toks, pos, xs, m)
    ensures xs != [] && pos < n <= m <= |toks| && AnyParsed(toks, pos, xs[0], n)
    ensures |xs| == 1 ==> m == n
    ensures |xs| > 1 ==> AnysParsed(toks, n, xs[1..], m)
  {
    n := ParseAny(toks, pos).next;
    if StartsAny(toks, n) {
      assert xs[1..] == ParseAnys(toks, n).tree;
    }
  }

  /** A recognised `values`: a value, then the end, `,` and more values, or more values directly. */
  lemma ValuesShape(toks: seq<Token>, pos: nat, v: Values, m: nat) returns (n: nat)
    requires ValuesParsed(toks, pos, v, m)
    ensures pos < n <= m <= |toks| && AnyParsed(toks, pos, v.value, n)
    ensures v.Last? ==> m == n
    ensures v.Comma? ==> AtChar(toks, n, ',') && n + 1 < m && ValuesParsed(toks, n + 1, v.rest, m)
    ensures v.Juxt? ==> ValuesParsed(toks, n, v.rest, m)
  {
    n := ParseAny(toks, pos).next;
  }

  /** A recognised `declarations`: a declaration, then `;` and more, `;` and the end, or the end. */
  lemma DeclarationsShape(toks: seq<Token>, pos: nat, ds: Declarations, m: nat) returns (n: nat, q: nat, rest: Declarations)
    requires DeclarationsParsed(toks, pos, ds, m)
    ensures pos < n <= m <= |toks| && ds.items != [] && DeclarationParsed(toks, pos, ds.items[0], n)
    ensures |ds.items| > 1 ==> AtChar(toks, n, ';') && q == n + 1 && q < m && DeclarationsParsed(toks, q, rest, m)
                               && ds.items[1..] == rest.items && ds.terminated == rest.terminated
    ensures |ds.items| == 1 && ds.terminated ==> AtChar(toks, n, ';') && m == n + 1
    ensures |ds.items| == 1 && !ds.terminated ==> m == n
  {
    n := ParseDeclaration(toks, pos).next;
    q := n + 1;
    rest := ds;
    if AtChar(toks, n, ';') && At(toks, n + 1, Ident) {
      rest := ParseDeclarations(toks, n + 1).tree;
      assert ds.items[1..] == rest.items;
    }
  }

  // ---------------------------------------------------------------------------
  // Each action rebuilds the text of its tokens

  lemma CallGlue(toks: seq<Token>, pos: nat, n: nat, open: string, inner: string, close: char)
    requires pos + 1 <= n <= |toks|
    requires Span(toks, pos, pos + 1) == open && Span(toks, pos + 1, n) == inner + [close]
    ensures Span(toks, pos, n) == open + inner + [close]
  {
    SpanSplit(toks, pos, pos + 1, n);
    Associative(open, inner, [close]);
  }

  /**
   * An `any` spells its tokens, and holds no `,`: `anys` join by juxtaposition only, and no
   * token `any` admits is a `,`.
   */
  lemma {:induction false} AnySpells(toks: seq<Token>, pos: nat, a: Any, n: nat)
    requires Plain(toks) && AnyParsed(toks, pos, a, n)
    ensures pos < n <= |toks| && Span(toks, pos, n) == AnyText(a) && CommaFree(toks, pos, n)
    decreases |toks| - pos, 0
  {
    AnyShape(toks, pos, a, n);
    match a
    case Atom(_) =>
      SpanOne(toks, pos);
    case Call(name, args) =>
      ArgsSpell(toks, pos + 2, ')', args, n);
      SpanOne(toks, pos);
      SpanChar(toks, pos + 1, '(');
      CallGlue(toks, pos + 1, n, "(", AnysText(args), ')');
      CallGlue(toks, pos, n, name, "(" + AnysText(args), ')');
      Associative(name, "(", AnysText(args));
    case Paren(args) =>
      ArgsSpell(toks, pos + 1, ')', args, n);
      SpanChar(toks, pos, '(');
      CallGlue(toks, pos, n, "(", AnysText(args), ')');
    case Bracket(args) =>
      ArgsSpell(toks, pos + 1, ']', args, n);
      SpanChar(toks, pos, '[');
      CallGlue(toks, pos, n, "[", AnysText(args), ']');
  }

  lemma {:induction false} ArgsSpell(toks: seq<Token>, pos: nat, close: char, xs: seq<Any>, n: nat)
    requires Plain(toks) && ArgsParsed(toks, pos, close, xs, n)
    ensures pos < n <= |toks| && Span(toks, pos, n) == AnysText(xs) + [close]
    ensures close != ',' ==> CommaFree(toks, pos, n)
    decreases |toks| - pos, 2
  {
    var e := ArgsShape(toks, pos, close, xs, n);
    SpanChar(toks, e, close);
    if close != ',' {
      CommaFreeChar(toks, e, close);
    }
    if xs == [] {
      assert Span(toks, pos, n) == AnysText(xs) + [close];
    } else {
      AnysSpell(toks, pos, xs, e);
      SpanSplit(toks, pos, e, n);
      if close != ',' {
        CommaFreeJoin(toks, pos, e, n);
      }
    }
  }

  lemma {:induction false} AnysSpell(toks: seq<Token>, pos: nat, xs: seq<Any>, m: nat)
    requires Plain(toks) && AnysParsed(toks, pos, xs, m)
    ensures pos < m <= |toks| && Span(toks, pos, m) == AnysText(xs) && CommaFree(toks, pos, m)
    decreases |toks| - pos, 1
  {
    var n := AnysShape(toks, pos, xs, m);
    AnySpells(toks, pos, xs[0], n);
    if |xs| > 1 {
      AnysSpell(toks, n, xs[1..], m);
      SpanSplit(toks, pos, n, m);
      CommaFreeJoin(toks, pos, n, m);
    } else {
      assert AnysText(xs) == AnyText(xs[0]) + AnysText([]);
    }
  }

  lemma {:induction false} ValuesSpell(toks: seq<Token>, pos: nat, v: Values, m: nat)
    requires Plain(toks) && ValuesParsed(toks, pos, v, m)
    ensures pos < m <= |toks| && Span(toks, pos, m) == ValuesText(v)
    decreases |toks| - pos
  {
    var n := ValuesShape(toks, pos, v, m);
    AnySpells(toks, pos, v.value, n);
    if v.Comma? {
      ValuesSpell(toks, n + 1, v.rest, m);
      SpanChar(toks, n, ',');
      SpanThree(toks, pos, n, n + 1, m);
    } else if v.Juxt? {
      ValuesSpell(toks, n, v.rest, m);
      SpanSplit(toks, pos, n, m);
    }
  }

  /** A declaration spells its tokens: the property, `:` and the values. */
  lemma DeclarationSpells(toks: seq<Token>, pos: nat, d: Declaration, n: nat)
    requires Plain(toks) && DeclarationParsed(toks, pos, d, n)
    ensures pos + 2 < n <= |toks| && Span(toks, pos, n) == DeclarationText(d)
  {
    assert At(toks, pos, Ident) && AtChar(toks, pos + 1, ':') && d.property == toks[pos].text;
    assert ValuesParsed(toks, pos + 2, d.values, n);
    ValuesSpell(toks, pos + 2, d.values, n);
    SpanOne(toks, pos);
    SpanChar(toks, pos + 1, ':');
    SpanThree(toks, pos, pos + 1, pos + 2, n);
  }

  /** A declaration, `;` and the declarations after it spell the whole list. */
  lemma MoreGlue(toks: seq<Token>, pos: nat, n: nat, q: nat, m: nat, ds: Declarations, rest: Declarations)
    requires pos <= n && q == n + 1 && q <= m <= |toks| && |ds.items| > 1
    requires ds.items[1..] == rest.items && ds.terminated == rest.terminated
    requires Span(toks, pos, n) == DeclarationText(ds.items[0]) && Span(toks, n, q) == ";"
    requires Span(toks, q, m) == DeclarationsText(rest)
    ensures Span(toks, pos, m) == DeclarationsText(ds)
  {
    SpanThree(toks, pos, n, q, m);
    assert ItemsText(ds.items) == DeclarationText(ds.items[0]) + ";" + ItemsText(rest.items);
  }

  lemma {:induction false} DeclarationsSpell(toks: seq<Token>, pos: nat, ds: Declarations, m: nat)
    requires Plain(toks) && DeclarationsParsed(toks, pos, ds, m)
    ensures pos < m <= |toks| && Span(toks, pos, m) == DeclarationsText(ds)
    decreases |toks| - pos
  {
    var n, q, rest := DeclarationsShape(toks, pos, ds, m);
    DeclarationSpells(toks, pos, ds.items[0], n);
    if |ds.items| > 1 {
      DeclarationsSpell(toks, q, rest, m);
      SpanChar(toks, n, ';');
      MoreGlue(toks, pos, n, q, m, ds, rest);
    } else if ds.terminated {
      SpanChar(toks, n, ';');
      SpanSplit(toks, pos, n, m);
    } else {
      assert DeclarationsText(ds) == DeclarationText(ds.items[0]);
    }
  }

  /** What the start symbol accepts spells the whole token list: every action concatenates. */
  lemma PropertiesSpell(toks: seq<Token>)
    requires Plain(toks) && ParseProperties(toks).Some?
    ensures DeclarationsText(ParseProperties(toks).value) == Span(toks, 0, |toks|)
  {
    var r := ParseDeclarations(toks, 0);
    DeclarationsSpell(toks, 0, r.tree, r.next);
  }

  // ---------------------------------------------------------------------------
  // What `any` admits

  /**
   * One token is an `any` by itself exactly when it is one of the admitted kinds (the
   * fifteen units among them) and not a name directly before `(`.
   */
  lemma SingleTokenAny(toks: seq<Token>, pos: nat)
    requires pos < |toks|
    ensures ParseAny(toks, pos) == Parsed(Atom(toks[pos].text), pos + 1)
            <==> AtomKind(toks[pos].kind) && !(toks[pos].kind == Ident && AtChar(toks, pos + 1, '('))
  {
  }

  /** A name directly before `(` can only begin a call of that name. */
  lemma NameThenParen(toks: seq<Token>, pos: nat)
    requires At(toks, pos, Ident) && AtChar(toks, pos + 1, '(') && ParseAny(toks, pos).Parsed?
    ensures ParseAny(toks, pos).tree == Call(toks[pos].text, ParseAny(toks, pos).tree.args)
    ensures ParseAny(toks, pos).next > pos + 2
  {
  }

  /** A FUNCTION token (a name and `(` with nothing between) begins no `any`, so no value. */
  lemma FunctionRejected(toks: seq<Token>, pos: nat)
    requires At(toks, pos, Function)
    ensures ParseAny(toks, pos) == Failed && ParseValues(toks, pos) == Failed
  {
  }

  /** `a, b` is a comma-separated `values`. */
  lemma CommaSeparatedValues()
    ensures ParseValues([Token(Ident, "a", 0), Token(Literal(','), ",", 1), Token(Ident, "b", 2)], 0)
            == Parsed(Comma(Atom("a"), Last(Atom("b"))), 3)
  {
    var toks := [Token(Ident, "a", 0), Token(Literal(','), ",", 1), Token(Ident, "b", 2)];
    assert ParseValues(toks, 2) == Parsed(Last(Atom("b")), 3);
  }

  /** `(a, b)` is no `any`: within parentheses `anys` are juxtaposed only. */
  lemma CommaInParensRejected()
    ensures ParseAny([Token(Literal('('), "(", 0), Token(Ident, "a", 1), Token(Literal(','), ",", 2),
                      Token(Ident, "b", 3), Token(Literal(')'), ")", 4)], 0) == Failed
  {
    var toks := [Token(Literal('('), "(", 0), Token(Ident, "a", 1), Token(Literal(','), ",", 2),
                 Token(Ident, "b", 3), Token(Literal(')'), ")", 4)];
    assert ParseAnys(toks, 1) == Parsed([Atom("a")], 2);
  }

  /** `rgb (1)`, with a space before `(`, is IDENT, `(`, NUMBER, `)`: a call spelled `rgb(1)`. */
  lemma SpacedCall()
    ensures ParseAny([Token(Ident, "rgb", 0), Token(Literal('('), "(", 4), Token(Number, "1", 5),
                      Token(Literal(')'), ")", 6)], 0) == Parsed(Call("rgb", [Atom("1")]), 4)
    ensures AnyText(Call("rgb", [Atom("1")])) == "rgb(1)"
  {
    var toks := [Token(Ident, "rgb", 0), Token(Literal('('), "(", 4), Token(Number, "1", 5), Token(Literal(')'), ")", 6)];
    assert ParseAnys(toks, 2) == Parsed([Atom("1")], 3);
    assert AnysText([Atom("1")]) == "1";
  }
}
