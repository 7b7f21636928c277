/**
 * What the `CSSParser` actions rebuild. The productions below `selector` (prefixes, heads,
 * attributes, pseudo-classes, negations, `sss_types`, sequences) and the declaration side
 * (`any`, `values`, declarations) spell exactly the tokens they were recognised from; a
 * selector spells them with one space between its parts. For the selector group, the
 * ruleset, `statements` and the stylesheet only one thing is stated: they hold no token the
 * grammar has no place for.
 *
 * Each production has a shape lemma, which says how a recognised production is made of
 * smaller ones and where each begins, and a lemma that puts the texts of the parts together.
 */
module CssGrammarFacts {
  import opened Regex
  import opened Scanner
  import opened TokenStream
  import opened CssGrammar

  /** The tokens the grammar has a place for: not CDO, CDC or the at-rule tokens. */
  predicate Terminal(k: Kind) {
    match k
    case Measure(_) | ImportSym | NamespaceSym | AtKeyword | Cdo | Cdc => false
    case _ => true
  }

  /** Every token from `a` to `b - 1` is one the grammar has a place for. */
  predicate Within(toks: seq<Token>, a: nat, b: nat)
    requires a <= b <= |toks|
    decreases b - a
  {
    a == b || (Terminal(toks[a].kind) && Within(toks, a + 1, b))
  }

  /** Each token of a run within the grammar is a terminal. */
  lemma {:induction false} WithinAt(toks: seq<Token>, a: nat, b: nat, j: nat)
    requires a <= j < b <= |toks| && Within(toks, a, b)
    ensures Terminal(toks[j].kind)
    decreases j - a
  {
    if a < j {
      WithinAt(toks, a + 1, b, j);
    }
  }

  lemma {:induction false} WithinSplit(toks: seq<Token>, a: nat, b: nat, c: nat)
    requires a <= b <= c <= |toks| && Within(toks, a, b) && Within(toks, b, c)
    ensures Within(toks, a, c)
    decreases b - a
  {
    if a < b {
      WithinSplit(toks, a + 1, b, c);
    }
  }

  /** A literal token is one the grammar has a place for. */
  lemma CharWithin(toks: seq<Token>, a: nat, c: char)
    requires AtChar(toks, a, c)
    ensures Within(toks, a, a + 1)
  {
    assert Within(toks, a + 1, a + 1);
  }

  /** Runs within the grammar on either side of a literal token make one. */
  lemma CharBetween(toks: seq<Token>, a: nat, n: nat, q: nat, m: nat, c: char)
    requires a <= n && q == n + 1 && q <= m <= |toks| && AtChar(toks, n, c)
    requires Within(toks, a, n) && Within(toks, q, m)
    ensures Within(toks, a, m)
  {
    CharWithin(toks, n, c);
    WithinSplit(toks, a, n, q);
    WithinSplit(toks, a, q, m);
  }

  /** `text` is what tokens `a` to `b - 1` spell, and they are all terminals. */
  predicate Spells(toks: seq<Token>, a: nat, b: nat, text: string)
    requires a <= b <= |toks|
  {
    text == Span(toks, a, b) && Within(toks, a, b)
  }

  /** Spelled runs that meet spell the concatenation of their texts. */
  lemma SpellsJoin(toks: seq<Token>, a: nat, b: nat, c: nat, t1: string, t2: string)
    requires a <= b <= c <= |toks| && Spells(toks, a, b, t1) && Spells(toks, b, c, t2)
    ensures Spells(toks, a, c, t1 + t2)
  {
    SpanSplit(toks, a, b, c);
    WithinSplit(toks, a, b, c);
  }

  lemma SpellsJoin3(toks: seq<Token>, a: nat, b: nat, c: nat, d: nat, t1: string, t2: string, t3: string)
    requires a <= b <= c <= d <= |toks| && Spells(toks, a, b, t1) && Spells(toks, b, c, t2) && Spells(toks, c, d, t3)
    ensures Spells(toks, a, d, t1 + t2 + t3)
  {
    SpellsJoin(toks, a, b, c, t1, t2);
    SpellsJoin(toks, a, c, d, t1 + t2, t3);
  }

  lemma SpellsJoin4(toks: seq<Token>, a: nat, b: nat, c: nat, d: nat, f: nat, t1: string, t2: string, t3: string, t4: string)
    requires a <= b <= c <= d <= f <= |toks|
    requires Spells(toks, a, b, t1) && Spells(toks, b, c, t2) && Spells(toks, c, d, t3) && Spells(toks, d, f, t4)
    ensures Spells(toks, a, f, t1 + t2 + t3 + t4)
  {
    SpellsJoin3(toks, a, b, c, d, t1, t2, t3);
    SpellsJoin(toks, a, d, f, t1 + t2 + t3, t4);
  }

  lemma SpellsJoin5(toks: seq<Token>, a: nat, b: nat, c: nat, d: nat, f: nat, g: nat,
                    t1: string, t2: string, t3: string, t4: string, t5: string)
    requires a <= b <= c <= d <= f <= g <= |toks|
    requires Spells(toks, a, b, t1) && Spells(toks, b, c, t2) && Spells(toks, c, d, t3)
    requires Spells(toks, d, f, t4) && Spells(toks, f, g, t5)
    ensures Spells(toks, a, g, t1 + t2 + t3 + t4 + t5)
  {
    SpellsJoin4(toks, a, b, c, d, f, t1, t2, t3, t4);
    SpellsJoin(toks, a, f, g, t1 + t2 + t3 + t4, t5);
  }

  /** A single terminal spells its own text. */
  lemma SpellsOne(toks: seq<Token>, a: nat)
    requires a < |toks| && Terminal(toks[a].kind)
    ensures Spells(toks, a, a + 1, toks[a].text)
  {
    assert Span(toks, a + 1, a + 1) == [];
  }

  /** A token of a kind the grammar has a place for spells its own text. */
  lemma SpellsToken(toks: seq<Token>, a: nat, k: Kind)
    requires At(toks, a, k) && Terminal(k)
    ensures Spells(toks, a, a + 1, toks[a].text)
  {
    SpellsOne(toks, a);
  }

  /** An empty run spells nothing. */
  lemma SpellsNone(toks: seq<Token>, a: nat)
    requires a <= |toks|
    ensures Spells(toks, a, a, [])
  {
  }

  /** A literal token spells its character. */
  lemma SpellsChar(toks: seq<Token>, a: nat, c: char)
    requires Plain(toks) && AtChar(toks, a, c)
    ensures Spells(toks, a, a + 1, [c])
  {
    SpellsOne(toks, a);
  }

  lemma Associative(a: string, b: string, c: string)
    ensures a + (b + c) == a + b + c
  {
  }

  // ---------------------------------------------------------------------------
  // Simple selector sequences

  /** How a recognised namespace prefix is made: a name, `*` or nothing, then `|`; or nothing at all. */
  lemma PrefixShape(toks: seq<Token>, pos: nat, ns: Option<Namespace>, p: nat)
    requires pos <= |toks| && ParsePrefix(toks, pos) == Parsed(ns, p)
    ensures ns.None? ==> p == pos
    ensures ns.Some? && ns.value.Named? ==>
              At(toks, pos, Ident) && ns.value.name == toks[pos].text && AtChar(toks, pos + 1, '|') && p == pos + 2
    ensures ns.Some? && ns.value.AnySpace? ==> AtChar(toks, pos, '*') && AtChar(toks, pos + 1, '|') && p == pos + 2
    ensures ns.Some? && ns.value.NoSpace? ==> AtChar(toks, pos, '|') && p == pos + 1
  {
  }

  lemma NamedSpells(toks: seq<Token>, pos: nat, name: string)
    requires Plain(toks) && At(toks, pos, Ident) && name == toks[pos].text && AtChar(toks, pos + 1, '|')
    ensures Spells(toks, pos, pos + 2, PrefixText(Some(Named(name))))
  {
    SpellsToken(toks, pos, Ident);
    SpellsChar(toks, pos + 1, '|');
    SpellsJoin(toks, pos, pos + 1, pos + 2, name, "|");
  }

  lemma AnySpaceSpells(toks: seq<Token>, pos: nat)
    requires Plain(toks) && AtChar(toks, pos, '*') && AtChar(toks, pos + 1, '|')
    ensures Spells(toks, pos, pos + 2, PrefixText(Some(AnySpace)))
  {
    SpellsChar(toks, pos, '*');
    SpellsChar(toks, pos + 1, '|');
    SpellsJoin(toks, pos, pos + 1, pos + 2, "*", "|");
  }

  lemma PrefixSpells(toks: seq<Token>, pos: nat, ns: Option<Namespace>, p: nat)
    requires Plain(toks) && pos <= |toks| && ParsePrefix(toks, pos) == Parsed(ns, p)
    ensures Spells(toks, pos, p, PrefixText(ns))
  {
    PrefixShape(toks, pos, ns, p);
    match ns
    case None => SpellsNone(toks, pos);
    case Some(Named(name)) => NamedSpells(toks, pos, name);
    case Some(AnySpace) => AnySpaceSpells(toks, pos);
    case Some(NoSpace) => SpellsChar(toks, pos, '|');
  }

  /** How a recognised type or universal selector is made: a prefix, then a name or `*`. */
  lemma HeadShape(toks: seq<Token>, pos: nat, h: Head, n: nat) returns (p: nat)
    requires pos <= |toks| && ParseHead(toks, pos) == Parsed(h, n)
    ensures h.NoHead? ==> n == pos
    ensures !h.NoHead? ==> pos <= p && n == p + 1 && ParsePrefix(toks, pos) == Parsed(h.ns, p)
    ensures h.Element? ==> At(toks, p, Ident) && h.name == toks[p].text
    ensures h.Universal? ==> AtChar(toks, p, '*')
  {
    p := ParsePrefix(toks, pos).next;
  }

  lemma HeadGlue(toks: seq<Token>, pos: nat, p: nat, h: Head)
    requires pos <= p < |toks| && !h.NoHead? && Spells(toks, pos, p, PrefixText(h.ns))
    requires h.Element? ==> Spells(toks, p, p + 1, h.name)
    requires h.Universal? ==> Spells(toks, p, p + 1, "*")
    ensures Spells(toks, pos, p + 1, HeadText(h))
  {
    if h.Element? {
      SpellsJoin(toks, pos, p, p + 1, PrefixText(h.ns), h.name);
    } else {
      SpellsJoin(toks, pos, p, p + 1, PrefixText(h.ns), "*");
    }
  }

  lemma HeadSpells(toks: seq<Token>, pos: nat, h: Head, n: nat)
    requires Plain(toks) && pos <= |toks| && ParseHead(toks, pos) == Parsed(h, n)
    ensures Spells(toks, pos, n, HeadText(h))
  {
    var p := HeadShape(toks, pos, h, n);
    if h.NoHead? {
      SpellsNone(toks, pos);
    } else {
      PrefixSpells(toks, pos, h.ns, p);
      if h.Element? {
        SpellsToken(toks, p, Ident);
      } else {
        SpellsChar(toks, p, '*');
      }
      HeadGlue(toks, pos, p, h);
    }
  }

  /** The comparison of an attribute selector, from `q` up to `e`: an operator and an operand, or nothing. */
  predicate ComparisonAt(toks: seq<Token>, q: nat, value: Option<Comparison>, e: nat) {
    if value.None? then e == q
    else && e == q + 2 && e <= |toks| && Comparator(toks[q].kind) && (At(toks, q + 1, Ident) || At(toks, q + 1, Str))
         && value.value == Comparison(toks[q].text, toks[q + 1].text)
  }

  /** How a recognised attribute selector is made: `[`, a prefix, a name, a comparison or not, `]`. */
  lemma AttribShape(toks: seq<Token>, pos: nat, a: Attrib, n: nat) returns (p: nat, e: nat)
    requires AtChar(toks, pos, '[') && ParseAttrib(toks, pos) == Parsed(a, n)
    ensures pos + 1 <= p && p + 1 <= e && n == e + 1 && n <= |toks|
    ensures ParsePrefix(toks, pos + 1) == Parsed(a.ns, p) && At(toks, p, Ident) && a.name == toks[p].text
    ensures ComparisonAt(toks, p + 1, a.value, e) && AtChar(toks, e, ']')
  {
    p := ParsePrefix(toks, pos + 1).next;
    e := if a.value.Some? then p + 3 else p + 1;
  }

  /** An attribute's comparison, if any, spells its operator and operand. */
  lemma ComparisonSpells(toks: seq<Token>, q: nat, value: Option<Comparison>, e: nat)
    requires q <= |toks| && ComparisonAt(toks, q, value, e)
    ensures q <= e <= |toks| && Spells(toks, q, e, ComparisonText(value))
  {
    if value.Some? {
      SpellsOne(toks, q);
      SpellsOne(toks, q + 1);
      SpellsJoin(toks, q, q + 1, e, toks[q].text, toks[q + 1].text);
    } else {
      SpellsNone(toks, q);
    }
  }

  lemma AttribGlue(toks: seq<Token>, pos: nat, p: nat, e: nat, a: Attrib)
    requires pos + 1 <= p && p + 1 <= e < |toks|
    requires Spells(toks, pos, pos + 1, "[") && Spells(toks, pos + 1, p, PrefixText(a.ns))
    requires Spells(toks, p, p + 1, a.name) && Spells(toks, p + 1, e, ComparisonText(a.value))
    requires Spells(toks, e, e + 1, "]")
    ensures Spells(toks, pos, e + 1, AttribText(a))
  {
    SpellsJoin5(toks, pos, pos + 1, p, p + 1, e, e + 1, "[", PrefixText(a.ns), a.name, ComparisonText(a.value), "]");
  }

  lemma AttribSpells(toks: seq<Token>, pos: nat, a: Attrib, n: nat)
    requires Plain(toks) && AtChar(toks, pos, '[') && ParseAttrib(toks, pos) == Parsed(a, n)
    ensures Spells(toks, pos, n, AttribText(a))
  {
    var p, e := AttribShape(toks, pos, a, n);
    SpellsChar(toks, pos, '[');
    PrefixSpells(toks, pos + 1, a.ns, p);
    SpellsToken(toks, p, Ident);
    ComparisonSpells(toks, p + 1, a.value, e);
    SpellsChar(toks, e, ']');
    AttribGlue(toks, pos, p, e, a);
  }

  /** Every token of the run `ExpressionsEnd` finds is one `expression` admits. */
  lemma {:induction false} ExpressionsAll(toks: seq<Token>, pos: nat, j: nat)
    requires pos <= j && pos <= |toks| && j < ExpressionsEnd(toks, pos)
    ensures Expression(toks[j].kind)
    decreases |toks| - pos
  {
    if pos < j {
      ExpressionsAll(toks, pos + 1, j);
    }
  }

  /** A run of expression tokens spells itself. */
  lemma {:induction false} ExpressionsSpell(toks: seq<Token>, a: nat, e: nat)
    requires a <= |toks| && e == ExpressionsEnd(toks, a)
    ensures Spells(toks, a, e, Span(toks, a, e))
    decreases |toks| - a
  {
    if a < |toks| && Expression(toks[a].kind) {
      ExpressionsSpell(toks, a + 1, e);
    }
  }

  /** `ParsePseudo` recognises the pseudo-class `ps` from the `:` at `pos`, up to `n`. */
  predicate PseudoParsed(toks: seq<Token>, pos: nat, ps: Pseudo, n: nat) {
    AtChar(toks, pos, ':') && ParsePseudo(toks, pos) == Parsed(ps, n)
  }

  /** How a recognised pseudo-class is made: one colon or two, then a name or a parenthesised run. */
  lemma PseudoShape(toks: seq<Token>, pos: nat, ps: Pseudo, n: nat) returns (p: nat, e: nat)
    requires PseudoParsed(toks, pos, ps, n)
    ensures ps.double == AtChar(toks, pos + 1, ':') && p == (if ps.double then pos + 2 else pos + 1)
    ensures ps.PseudoName? ==> At(toks, p, Ident) && ps.name == toks[p].text && n == p + 1
    ensures ps.PseudoCall? ==>
              && AtChar(toks, p, '(') && p + 1 < e < |toks| && e == ExpressionsEnd(toks, p + 1)
              && AtChar(toks, e, ')') && ps.expressions == Span(toks, p + 1, e) && n == e + 1
  {
    p := if ps.double then pos + 2 else pos + 1;
    e := if ps.PseudoCall? then ExpressionsEnd(toks, p + 1) else 0;
  }

  /** One colon, or two, spell themselves. */
  lemma ColonsSpell(toks: seq<Token>, pos: nat, double: bool, p: nat)
    requires Plain(toks) && AtChar(toks, pos, ':') && double == AtChar(toks, pos + 1, ':')
    requires p == if double then pos + 2 else pos + 1
    ensures p <= |toks| && Spells(toks, pos, p, ColonsText(double))
  {
    SpellsChar(toks, pos, ':');
    if double {
      SpellsChar(toks, pos + 1, ':');
      SpellsJoin(toks, pos, pos + 1, pos + 2, ":", ":");
    }
  }

  lemma PseudoNameGlue(toks: seq<Token>, pos: nat, p: nat, ps: Pseudo)
    requires ps.PseudoName? && pos <= p < |toks|
    requires Spells(toks, pos, p, ColonsText(ps.double)) && Spells(toks, p, p + 1, ps.name)
    ensures Spells(toks, pos, p + 1, PseudoText(ps))
  {
    SpellsJoin(toks, pos, p, p + 1, ColonsText(ps.double), ps.name);
  }

  /** The colons and the name spell a pseudo-class. */
  lemma PseudoNameSpells(toks: seq<Token>, pos: nat, p: nat, ps: Pseudo, n: nat)
    requires Plain(toks) && ps.PseudoName? && pos <= p && At(toks, p, Ident) && ps.name == toks[p].text
    requires Spells(toks, pos, p, ColonsText(ps.double)) && n == p + 1
    ensures Spells(toks, pos, n, PseudoText(ps))
  {
    SpellsToken(toks, p, Ident);
    PseudoNameGlue(toks, pos, p, ps);
  }

  lemma PseudoCallGlue(toks: seq<Token>, pos: nat, p: nat, e: nat, ps: Pseudo)
    requires ps.PseudoCall? && pos <= p && p + 1 <= e < |toks|
    requires Spells(toks, pos, p, ColonsText(ps.double)) && Spells(toks, p, p + 1, "(")
    requires Spells(toks, p + 1, e, ps.expressions) && Spells(toks, e, e + 1, ")")
    ensures Spells(toks, pos, e + 1, PseudoText(ps))
  {
    SpellsJoin4(toks, pos, p, p + 1, e, e + 1, ColonsText(ps.double), "(", ps.expressions, ")");
  }

  lemma PseudoSpells(toks: seq<Token>, pos: nat, ps: Pseudo, n: nat)
    requires Plain(toks) && PseudoParsed(toks, pos, ps, n)
    ensures Spells(toks, pos, n, PseudoText(ps))
  {
    var p, e := PseudoShape(toks, pos, ps, n);
    ColonsSpell(toks, pos, ps.double, p);
    if ps.PseudoName? {
      PseudoNameSpells(toks, pos, p, ps, n);
    } else {
      PseudoCallSpells(toks, pos, p, e, ps, n);
    }
  }

  /** The colons, `(`, the run of expressions and `)` spell a functional pseudo-class. */
  lemma PseudoCallSpells(toks: seq<Token>, pos: nat, p: nat, e: nat, ps: Pseudo, n: nat)
    requires Plain(toks) && ps.PseudoCall? && pos <= p && AtChar(toks, p, '(') && p + 1 < e < |toks|
    requires e == ExpressionsEnd(toks, p + 1) && AtChar(toks, e, ')') && ps.expressions == Span(toks, p + 1, e)
    requires Spells(toks, pos, p, ColonsText(ps.double)) && n == e + 1
    ensures Spells(toks, pos, n, PseudoText(ps))
  {
    SpellsChar(toks, p, '(');
    ExpressionsSpell(toks, p + 1, e);
    SpellsChar(toks, e, ')');
    PseudoCallGlue(toks, pos, p, e, ps);
  }

  /** How a recognised hash, class, attribute or pseudo-class is made. */
  lemma PlainShape(toks: seq<Token>, pos: nat, t: SimpleType, n: nat)
    requires pos <= |toks| && ParsePlain(toks, pos) == Parsed(t, n)
    ensures !t.Negation?
    ensures t.HashSel? ==> At(toks, pos, Hash) && t.hash == toks[pos].text && n == pos + 1
    ensures t.ClassSel? ==> AtChar(toks, pos, '.') && At(toks, pos + 1, Ident) && t.name == toks[pos + 1].text && n == pos + 2
    ensures t.AttribSel? ==> AtChar(toks, pos, '[') && ParseAttrib(toks, pos) == Parsed(t.attrib, n)
    ensures t.PseudoSel? ==> PseudoParsed(toks, pos, t.pseudo, n)
  {
  }

  lemma ClassSpells(toks: seq<Token>, pos: nat, name: string)
    requires Plain(toks) && AtChar(toks, pos, '.') && At(toks, pos + 1, Ident) && name == toks[pos + 1].text
    ensures Spells(toks, pos, pos + 2, SimpleText(ClassSel(name)))
  {
    SpellsChar(toks, pos, '.');
    SpellsToken(toks, pos + 1, Ident);
    SpellsJoin(toks, pos, pos + 1, pos + 2, ".", name);
  }

  lemma PlainSpells(toks: seq<Token>, pos: nat, t: SimpleType, n: nat)
    requires Plain(toks) && pos <= |toks| && ParsePlain(toks, pos) == Parsed(t, n)
    ensures Spells(toks, pos, n, SimpleText(t))
  {
    PlainShape(toks, pos, t, n);
    match t
    case HashSel(_) => SpellsToken(toks, pos, Hash);
    case ClassSel(name) => ClassSpells(toks, pos, name);
    case AttribSel(a) => AttribSpells(toks, pos, a, n);
    case PseudoSel(ps) => PseudoSpells(toks, pos, ps, n);
  }

  /** How a recognised negation argument is made: a type or universal selector, or a plain `sss_type`. */
  lemma NegationArgShape(toks: seq<Token>, pos: nat, arg: NegationArg, n: nat)
    requires pos <= |toks| && ParseNegationArg(toks, pos) == Parsed(arg, n)
    ensures arg.NegHead? ==> ParseHead(toks, pos) == Parsed(arg.head, n)
    ensures arg.NegSimple? ==> ParsePlain(toks, pos) == Parsed(arg.simple, n)
  {
  }

  lemma NegationArgSpells(toks: seq<Token>, pos: nat, arg: NegationArg, n: nat)
    requires Plain(toks) && pos <= |toks| && ParseNegationArg(toks, pos) == Parsed(arg, n)
    ensures Spells(toks, pos, n, NegationArgText(arg))
  {
    NegationArgShape(toks, pos, arg, n);
    match arg
    case NegHead(h) => HeadSpells(toks, pos, h, n);
    case NegSimple(t) => PlainSpells(toks, pos, t, n);
  }

  /** How a recognised `sss_type` is made: `:`, NOT, `(`, an argument and `)`, or a plain one. */
  lemma SimpleShape(toks: seq<Token>, pos: nat, t: SimpleType, n: nat) returns (e: nat)
    requires pos <= |toks| && ParseSimple(toks, pos) == Parsed(t, n)
    ensures t.Negation? ==>
              && AtChar(toks, pos, ':') && At(toks, pos + 1, Not) && t.not == toks[pos + 1].text
              && AtChar(toks, pos + 2, '(') && pos + 3 <= e && ParseNegationArg(toks, pos + 3) == Parsed(t.arg, e)
              && AtChar(toks, e, ')') && n == e + 1
    ensures !t.Negation? ==> ParsePlain(toks, pos) == Parsed(t, n)
  {
    e := if t.Negation? then ParseNegationArg(toks, pos + 3).next else 0;
  }

  lemma NegationSpells(toks: seq<Token>, pos: nat, t: SimpleType, e: nat, n: nat)
    requires Plain(toks) && t.Negation? && pos + 3 <= e && n == e + 1
    requires AtChar(toks, pos, ':') && At(toks, pos + 1, Not) && t.not == toks[pos + 1].text
    requires AtChar(toks, pos + 2, '(') && AtChar(toks, e, ')') && Spells(toks, pos + 3, e, NegationArgText(t.arg))
    ensures Spells(toks, pos, n, SimpleText(t))
  {
    SpellsChar(toks, pos, ':');
    SpellsToken(toks, pos + 1, Not);
    SpellsChar(toks, pos + 2, '(');
    SpellsChar(toks, e, ')');
    SpellsJoin5(toks, pos, pos + 1, pos + 2, pos + 3, e, e + 1, ":", t.not, "(", NegationArgText(t.arg), ")");
  }

  lemma SimpleSpells(toks: seq<Token>, pos: nat, t: SimpleType, n: nat)
    requires Plain(toks) && pos <= |toks| && ParseSimple(toks, pos) == Parsed(t, n)
    ensures Spells(toks, pos, n, SimpleText(t))
  {
    var e := SimpleShape(toks, pos, t, n);
    if t.Negation? {
      NegationArgSpells(toks, pos + 3, t.arg, e);
      NegationSpells(toks, pos, t, e, n);
    } else {
      PlainSpells(toks, pos, t, n);
    }
  }

  /** How recognised `sss_types` are made: none, or one and then the rest. */
  lemma TypesShape(toks: seq<Token>, pos: nat, ts: seq<SimpleType>, m: nat) returns (t: SimpleType, n: nat, rest: seq<SimpleType>)
    requires pos <= |toks| && ParseTypes(toks, pos) == Parsed(ts, m)
    ensures ts == [] ==> m == pos
    ensures ts != [] ==>
              && pos < n <= |toks| && ts == [t] + rest
              && ParseSimple(toks, pos) == Parsed(t, n) && ParseTypes(toks, n) == Parsed(rest, m)
  {
    t, n, rest := HashSel([]), pos, [];
    if ts != [] {
      t := ParseSimple(toks, pos).tree;
      n := ParseSimple(toks, pos).next;
      rest := ParseTypes(toks, n).tree;
    }
  }

  lemma TypesGlue(toks: seq<Token>, pos: nat, n: nat, m: nat, t: SimpleType, rest: seq<SimpleType>)
    requires pos <= n <= m <= |toks| && Spells(toks, pos, n, SimpleText(t)) && Spells(toks, n, m, TypesText(rest))
    ensures Spells(toks, pos, m, TypesText([t] + rest))
  {
    SpellsJoin(toks, pos, n, m, SimpleText(t), TypesText(rest));
    assert ([t] + rest)[1..] == rest;
  }

  lemma TypesNone(toks: seq<Token>, pos: nat)
    requires pos <= |toks|
    ensures Spells(toks, pos, pos, TypesText([]))
  {
  }

  lemma {:induction false} TypesSpell(toks: seq<Token>, pos: nat, ts: seq<SimpleType>, m: nat)
    requires Plain(toks) && pos <= |toks| && ParseTypes(toks, pos) == Parsed(ts, m)
    ensures Spells(toks, pos, m, TypesText(ts))
    decreases |toks| - pos
  {
    var t, n, rest := TypesShape(toks, pos, ts, m);
    if ts == [] {
      TypesNone(toks, pos);
    } else {
      SimpleSpells(toks, pos, t, n);
      TypesSpell(toks, n, rest, m);
      TypesGlue(toks, pos, n, m, t, rest);
    }
  }

  /** How a recognised simple selector sequence is made: a head and the `sss_types` after it. */
  lemma SequenceShape(toks: seq<Token>, pos: nat, q: Sequence, m: nat) returns (n: nat)
    requires pos <= |toks| && ParseSequence(toks, pos) == Parsed(q, m)
    ensures pos <= n <= m <= |toks| && ParseHead(toks, pos) == Parsed(q.head, n) && ParseTypes(toks, n) == Parsed(q.types, m)
  {
    n := ParseHead(toks, pos).next;
  }

  /** A simple selector sequence spells its tokens: its parts meet with no separator. */
  lemma SequenceSpells(toks: seq<Token>, pos: nat, q: Sequence, m: nat)
    requires Plain(toks) && pos <= |toks| && ParseSequence(toks, pos) == Parsed(q, m)
    ensures Spells(toks, pos, m, SequenceText(q))
  {
    var n := SequenceShape(toks, pos, q, m);
    HeadSpells(toks, pos, q.head, n);
    TypesSpell(toks, n, q.types, m);
    SpellsJoin(toks, pos, n, m, HeadText(q.head), TypesText(q.types));
  }

  /**
   * The shift the parser prefers: a simple selector sequence takes every hash, class,
   * attribute and pseudo-class that follows it, so none can begin the next selector.
   */
  lemma {:induction false} TypesTakeAll(toks: seq<Token>, pos: nat)
    requires pos <= |toks|
    ensures ParseTypes(toks, pos).Parsed? ==> !StartsSimple(toks, ParseTypes(toks, pos).next)
    decreases |toks| - pos
  {
    if StartsSimple(toks, pos) {
      match ParseSimple(toks, pos)
      case Failed =>
      case Parsed(t, n) =>
        TypesTakeAll(toks, n);
    }
  }

  lemma SequenceTakesAll(toks: seq<Token>, pos: nat)
    requires pos <= |toks|
    ensures ParseSequence(toks, pos).Parsed? ==> !StartsSimple(toks, ParseSequence(toks, pos).next)
  {
    match ParseHead(toks, pos)
    case Failed =>
    case Parsed(h, n) =>
      TypesTakeAll(toks, n);
  }

  // ---------------------------------------------------------------------------
  // Selectors and groups

  /** The texts of a selector's sequences and combinators, in order. */
  function Parts(sel: Selector): (ps: seq<string>)
    ensures |ps| > 0
  {
    match sel
    case Compound(q) => [SequenceText(q)]
    case Combined(q, c, rest) => [SequenceText(q)] + ([[c]] + Parts(rest))
    case Descendant(q, rest) => [SequenceText(q)] + Parts(rest)
  }

  /** A selector's text is its parts with a single space between each two. */
  lemma {:induction false} SelectorJoins(sel: Selector)
    ensures SelectorText(sel) == Join(Parts(sel), " ")
  {
    match sel
    case Compound(q) =>
    case Combined(q, c, rest) =>
      var r := Join(Parts(rest), " ");
      SelectorJoins(rest);
      JoinCons([c], Parts(rest), " ");
      JoinCons(SequenceText(q), [[c]] + Parts(rest), " ");
      Associative(SequenceText(q) + " ", [c] + " ", r);
      Associative(SequenceText(q) + " ", [c], " ");
    case Descendant(q, rest) =>
      SelectorJoins(rest);
      JoinCons(SequenceText(q), Parts(rest), " ");
  }

  lemma CompoundSpells(toks: seq<Token>, pos: nat, n: nat, m: nat, sel: Selector)
    requires sel.Compound? && pos <= n <= |toks| && Spells(toks, pos, n, SequenceText(sel.first)) && m == n
    ensures Spells(toks, pos, m, Concat(Parts(sel)))
  {
    assert Concat(Parts(sel)) == SequenceText(sel.first) + [];
  }

  lemma CombinedSpells(toks: seq<Token>, pos: nat, n: nat, q: nat, m: nat, sel: Selector)
    requires Plain(toks) && sel.Combined? && pos <= n && q == n + 1 && q <= m <= |toks| && AtChar(toks, n, sel.combinator)
    requires Spells(toks, pos, n, SequenceText(sel.first)) && Spells(toks, q, m, Concat(Parts(sel.rest)))
    ensures Spells(toks, pos, m, Concat(Parts(sel)))
  {
    var c, rest := sel.combinator, sel.rest;
    SpellsChar(toks, n, c);
    SpellsJoin(toks, n, q, m, [c], Concat(Parts(rest)));
    SpellsJoin(toks, pos, n, m, SequenceText(sel.first), [c] + Concat(Parts(rest)));
    ConcatCons([c], Parts(rest));
    ConcatCons(SequenceText(sel.first), [[c]] + Parts(rest));
  }

  lemma DescendantSpells(toks: seq<Token>, pos: nat, n: nat, m: nat, sel: Selector)
    requires sel.Descendant? && pos <= n <= m <= |toks|
    requires Spells(toks, pos, n, SequenceText(sel.first)) && Spells(toks, n, m, Concat(Parts(sel.rest)))
    ensures Spells(toks, pos, m, Concat(Parts(sel)))
  {
    SpellsJoin(toks, pos, n, m, SequenceText(sel.first), Concat(Parts(sel.rest)));
    ConcatCons(SequenceText(sel.first), Parts(sel.rest));
  }

  /** `ParseSelector` recognises the selector `sel` from `pos`, up to `m`. */
  predicate SelectorParsed(toks: seq<Token>, pos: nat, sel: Selector, m: nat) {
    pos <= |toks| && ParseSelector(toks, pos) == Parsed(sel, m)
  }

  /**
   * How a recognised selector is made: its first sequence, then the end, a combinator and
   * the rest of the selector, or the rest of the selector directly.
   */
  lemma SelectorShape(toks: seq<Token>, pos: nat, sel: Selector, m: nat) returns (n: nat, q: nat)
    requires SelectorParsed(toks, pos, sel, m)
    ensures pos < n <= m <= |toks| && ParseSequence(toks, pos) == Parsed(sel.first, n)
    ensures sel.Compound? ==> m == n
    ensures sel.Combined? ==>
              q == n + 1 && n + 1 < m && AtChar(toks, n, sel.combinator) && SelectorParsed(toks, q, sel.rest, m)
    ensures sel.Descendant? ==> n < m && SelectorParsed(toks, n, sel.rest, m)
  {
    n := ParseSequence(toks, pos).next;
    q := n + 1;
  }

  /** Without the spaces, a selector's parts spell exactly the tokens it was recognised from. */
  lemma {:induction false} SelectorSpells(toks: seq<Token>, pos: nat, sel: Selector, m: nat)
    requires Plain(toks) && SelectorParsed(toks, pos, sel, m)
    ensures Spells(toks, pos, m, Concat(Parts(sel)))
    decreases |toks| - pos, 1
  {
    var n, q := SelectorShape(toks, pos, sel, m);
    SequenceSpells(toks, pos, sel.first, n);
    if sel.Compound? {
      CompoundSpells(toks, pos, n, m, sel);
    } else if sel.Combined? {
      CombinedRestSpells(toks, pos, n, q, m, sel);
    } else {
      DescendantRestSpells(toks, pos, n, m, sel);
    }
  }

  /** A first sequence, a combinator and a recognised selector after it. */
  lemma {:induction false} CombinedRestSpells(toks: seq<Token>, pos: nat, n: nat, q: nat, m: nat, sel: Selector)
    requires Plain(toks) && sel.Combined? && pos < n && n + 1 < m <= |toks| && AtChar(toks, n, sel.combinator)
    requires Spells(toks, pos, n, SequenceText(sel.first)) && q == n + 1 && SelectorParsed(toks, q, sel.rest, m)
    ensures Spells(toks, pos, m, Concat(Parts(sel)))
    decreases |toks| - pos, 0
  {
    SelectorSpells(toks, q, sel.rest, m);
    CombinedSpells(toks, pos, n, q, m, sel);
  }

  /** A first sequence and a recognised selector directly after it. */
  lemma {:induction false} DescendantRestSpells(toks: seq<Token>, pos: nat, n: nat, m: nat, sel: Selector)
    requires Plain(toks) && sel.Descendant? && pos < n < m <= |toks|
    requires Spells(toks, pos, n, SequenceText(sel.first)) && SelectorParsed(toks, n, sel.rest, m)
    ensures Spells(toks, pos, m, Concat(Parts(sel)))
    decreases |toks| - pos, 0
  {
    SelectorSpells(toks, n, sel.rest, m);
    DescendantSpells(toks, pos, n, m, sel);
  }

  lemma SelectorWithin(toks: seq<Token>, pos: nat, sel: Selector, m: nat)
    requires Plain(toks) && SelectorParsed(toks, pos, sel, m)
    ensures pos <= m <= |toks| && Within(toks, pos, m)
  {
    SelectorSpells(toks, pos, sel, m);
  }

  /** `ParseGroup` recognises the group `g` from `pos`, up to `m`. */
  predicate GroupParsed(toks: seq<Token>, pos: nat, g: seq<Selector>, m: nat) {
    pos <= |toks| && ParseGroup(toks, pos) == Parsed(g, m)
  }

  /** A recognised group is a selector, then either `,` and the rest of the group or the end. */
  lemma GroupStep(toks: seq<Token>, pos: nat, g: seq<Selector>, m: nat) returns (n: nat, q: nat, rest: seq<Selector>)
    requires GroupParsed(toks, pos, g, m)
    ensures pos < n <= m <= |toks| && SelectorParsed(toks, pos, g[0], n)
    ensures AtChar(toks, n, ',') ==> q == n + 1 && q < m && GroupParsed(toks, q, rest, m)
    ensures !AtChar(toks, n, ',') ==> m == n
  {
    n := ParseSelector(toks, pos).next;
    q := n + 1;
    rest := [];
    if AtChar(toks, n, ',') {
      rest := ParseGroup(toks, n + 1).tree;
    }
  }

  /** A selector group holds only the grammar's tokens. */
  lemma {:induction false} GroupWithin(toks: seq<Token>, pos: nat, g: seq<Selector>, m: nat)
    requires Plain(toks) && GroupParsed(toks, pos, g, m)
    ensures Within(toks, pos, m)
    decreases |toks| - pos
  {
    var n, q, rest := GroupStep(toks, pos, g, m);
    if AtChar(toks, n, ',') {
      SelectorWithin(toks, pos, g[0], n);
      GroupWithin(toks, q, rest, m);
      CharBetween(toks, pos, n, q, m, ',');
    } else {
      SelectorWithin(toks, pos, g[0], m);
    }
  }

  // ---------------------------------------------------------------------------
  // Declarations

  /** How a recognised `any` is made: one token, or a function, `(` or `[` and what it encloses. */
  lemma AnyShape(toks: seq<Token>, pos: nat, a: Any, n: nat)
    requires pos <= |toks| && ParseAny(toks, pos) == Parsed(a, n)
    ensures pos < |toks|
    ensures a.Atom? ==> AtomKind(toks[pos].kind) && a.text == toks[pos].text && n == pos + 1
    ensures a.Call? ==> At(toks, pos, Function) && a.name == toks[pos].text && ParseEnclosed(toks, pos + 1, ')') == Parsed(a.args, n)
    ensures a.Paren? ==> AtChar(toks, pos, '(') && ParseEnclosed(toks, pos + 1, ')') == Parsed(a.args, n)
    ensures a.Bracket? ==> AtChar(toks, pos, '[') && ParseEnclosed(toks, pos + 1, ']') == Parsed(a.args, n)
  {
  }

  /** A single token `any` admits spells itself. */
  lemma AtomSpells(toks: seq<Token>, pos: nat)
    requires pos < |toks| && AtomKind(toks[pos].kind)
    ensures Spells(toks, pos, pos + 1, toks[pos].text)
  {
    SpellsOne(toks, pos);
  }

  /** An opening token and the terms it encloses, up to the closing character. */
  lemma EnclosingGlue(toks: seq<Token>, pos: nat, n: nat, open: string, args: Option<Terms>, close: char)
    requires pos + 1 <= n <= |toks|
    requires Spells(toks, pos, pos + 1, open) && Spells(toks, pos + 1, n, ArgsText(args) + [close])
    ensures Spells(toks, pos, n, open + ArgsText(args) + [close])
  {
    SpellsJoin(toks, pos, pos + 1, n, open, ArgsText(args) + [close]);
    Associative(open, ArgsText(args), [close]);
  }

  lemma {:induction false} AnySpells(toks: seq<Token>, pos: nat, a: Any, n: nat)
    requires Plain(toks) && pos <= |toks| && ParseAny(toks, pos) == Parsed(a, n)
    ensures Spells(toks, pos, n, AnyText(a))
    decreases |toks| - pos, 0
  {
    AnyShape(toks, pos, a, n);
    match a
    case Atom(_) =>
      AtomSpells(toks, pos);
    case Call(name, args) =>
      SpellsToken(toks, pos, Function);
      EnclosedSpells(toks, pos + 1, ')', args, n);
      EnclosingGlue(toks, pos, n, name, args, ')');
    case Paren(args) =>
      SpellsChar(toks, pos, '(');
      EnclosedSpells(toks, pos + 1, ')', args, n);
      EnclosingGlue(toks, pos, n, "(", args, ')');
    case Bracket(args) =>
      SpellsChar(toks, pos, '[');
      EnclosedSpells(toks, pos + 1, ']', args, n);
      EnclosingGlue(toks, pos, n, "[", args, ']');
  }

  /** How recognised enclosed terms are made: the closing character alone, or terms and then it. */
  lemma EnclosedShape(toks: seq<Token>, pos: nat, close: char, args: Option<Terms>, n: nat) returns (e: nat)
    requires pos <= |toks| && ParseEnclosed(toks, pos, close) == Parsed(args, n)
    ensures pos <= e && AtChar(toks, e, close) && n == e + 1
    ensures args.None? ==> e == pos
    ensures args.Some? ==> ParseTerms(toks, pos) == Parsed(args.value, e)
  {
    e := if args.Some? then ParseTerms(toks, pos).next else pos;
  }

  lemma ArgsGlue(toks: seq<Token>, pos: nat, e: nat, close: char, args: Option<Terms>)
    requires pos <= e < |toks| && (args.None? ==> e == pos)
    requires args.Some? ==> Spells(toks, pos, e, TermsText(args.value))
    requires Spells(toks, e, e + 1, [close])
    ensures Spells(toks, pos, e + 1, ArgsText(args) + [close])
  {
    if args.Some? {
      SpellsJoin(toks, pos, e, e + 1, TermsText(args.value), [close]);
    } else {
      assert ArgsText(args) + [close] == [close];
    }
  }

  lemma {:induction false} EnclosedSpells(toks: seq<Token>, pos: nat, close: char, args: Option<Terms>, n: nat)
    requires Plain(toks) && pos <= |toks| && ParseEnclosed(toks, pos, close) == Parsed(args, n)
    ensures Spells(toks, pos, n, ArgsText(args) + [close])
    decreases |toks| - pos, 2
  {
    var e := EnclosedShape(toks, pos, close, args, n);
    if args.Some? {
      TermsSpell(toks, pos, args.value, e);
    }
    SpellsChar(toks, e, close);
    ArgsGlue(toks, pos, e, close, args);
  }

  /** A recognised list of terms begins with an `any`. */
  lemma TermsFirst(toks: seq<Token>, pos: nat, t: Terms, m: nat) returns (n: nat)
    requires pos <= |toks| && ParseTerms(toks, pos) == Parsed(t, m)
    ensures pos < n <= |toks| && ParseAny(toks, pos) == Parsed(t.term, n)
  {
    n := ParseAny(toks, pos).next;
  }

  /** After the first `any`: the end, `,` and more terms, or more terms with nothing between. */
  lemma TermsAfter(toks: seq<Token>, pos: nat, t: Terms, m: nat, n: nat)
    requires pos <= |toks| && ParseTerms(toks, pos) == Parsed(t, m) && ParseAny(toks, pos) == Parsed(t.term, n)
    ensures t.Last? ==> m == n
    ensures t.Comma? ==> n + 1 < m <= |toks| && AtChar(toks, n, ',') && ParseTerms(toks, n + 1) == Parsed(t.rest, m)
    ensures t.Juxt? ==> n < m <= |toks| && ParseTerms(toks, n) == Parsed(t.rest, m)
  {
  }

  lemma CommaGlue(toks: seq<Token>, pos: nat, n: nat, m: nat, t: Terms)
    requires t.Comma? && pos <= n && n + 1 <= m <= |toks|
    requires Spells(toks, pos, n, AnyText(t.term)) && Spells(toks, n, n + 1, [',']) && Spells(toks, n + 1, m, TermsText(t.rest))
    ensures Spells(toks, pos, m, TermsText(t))
  {
    SpellsJoin3(toks, pos, n, n + 1, m, AnyText(t.term), ",", TermsText(t.rest));
  }

  lemma JuxtGlue(toks: seq<Token>, pos: nat, n: nat, m: nat, t: Terms)
    requires t.Juxt? && pos <= n <= m <= |toks|
    requires Spells(toks, pos, n, AnyText(t.term)) && Spells(toks, n, m, TermsText(t.rest))
    ensures Spells(toks, pos, m, TermsText(t))
  {
    SpellsJoin(toks, pos, n, m, AnyText(t.term), TermsText(t.rest));
  }

  lemma {:induction false} TermsSpell(toks: seq<Token>, pos: nat, t: Terms, m: nat)
    requires Plain(toks) && pos <= |toks| && ParseTerms(toks, pos) == Parsed(t, m)
    ensures Spells(toks, pos, m, TermsText(t))
    decreases |toks| - pos, 1
  {
    var n := TermsFirst(toks, pos, t, m);
    TermsAfter(toks, pos, t, m, n);
    AnySpells(toks, pos, t.term, n);
    if t.Comma? {
      TermsSpell(toks, n + 1, t.rest, m);
      SpellsChar(toks, n, ',');
      CommaGlue(toks, pos, n, m, t);
    } else if t.Juxt? {
      TermsSpell(toks, n, t.rest, m);
      JuxtGlue(toks, pos, n, m, t);
    }
  }

  /** How a recognised declaration is made: a name, `:` and its values. */
  lemma DeclarationShape(toks: seq<Token>, pos: nat, d: Declaration, n: nat)
    requires pos <= |toks| && ParseDeclaration(toks, pos) == Parsed(d, n)
    ensures pos + 2 < n <= |toks| && At(toks, pos, Ident) && d.property == toks[pos].text && AtChar(toks, pos + 1, ':')
    ensures ParseTerms(toks, pos + 2) == Parsed(d.values, n)
  {
  }

  lemma DeclarationGlue(toks: seq<Token>, pos: nat, n: nat, d: Declaration)
    requires pos + 2 <= n <= |toks|
    requires Spells(toks, pos, pos + 1, d.property) && Spells(toks, pos + 1, pos + 2, [':'])
    requires Spells(toks, pos + 2, n, TermsText(d.values))
    ensures Spells(toks, pos, n, DeclarationText(d))
  {
    SpellsJoin3(toks, pos, pos + 1, pos + 2, n, d.property, ":", TermsText(d.values));
  }

  lemma DeclarationSpells(toks: seq<Token>, pos: nat, d: Declaration, n: nat)
    requires Plain(toks) && pos <= |toks| && ParseDeclaration(toks, pos) == Parsed(d, n)
    ensures Spells(toks, pos, n, DeclarationText(d))
  {
    DeclarationShape(toks, pos, d, n);
    TermsSpell(toks, pos + 2, d.values, n);
    SpellsToken(toks, pos, Ident);
    SpellsChar(toks, pos + 1, ':');
    DeclarationGlue(toks, pos, n, d);
  }

  /** A recognised list of declarations begins with a declaration. */
  lemma DeclarationsFirst(toks: seq<Token>, pos: nat, ds: Declarations, m: nat) returns (d: Declaration, n: nat)
    requires pos <= |toks| && ParseDeclarations(toks, pos) == Parsed(ds, m)
    ensures pos < n <= |toks| && ParseDeclaration(toks, pos) == Parsed(d, n) && ds.items[0] == d
  {
    d := ParseDeclaration(toks, pos).tree;
    n := ParseDeclaration(toks, pos).next;
  }

  /** `;` and a name after the first declaration: the rest of the list follows. */
  lemma DeclarationsMore(toks: seq<Token>, pos: nat, ds: Declarations, m: nat, d: Declaration, n: nat)
    returns (q: nat, rest: Declarations)
    requires pos <= |toks| && ParseDeclarations(toks, pos) == Parsed(ds, m)
    requires ParseDeclaration(toks, pos) == Parsed(d, n) && AtChar(toks, n, ';') && At(toks, n + 1, Ident)
    ensures q == n + 1 && q < m <= |toks| && ParseDeclarations(toks, q) == Parsed(rest, m) && rest.items != []
    ensures ds == Declarations([d] + rest.items, rest.terminated)
  {
    q := n + 1;
    rest := ParseDeclarations(toks, q).tree;
  }

  /** Otherwise the first declaration is the only one, with or without a `;` after it. */
  lemma DeclarationsOne(toks: seq<Token>, pos: nat, ds: Declarations, m: nat, d: Declaration, n: nat)
    requires pos <= |toks| && ParseDeclarations(toks, pos) == Parsed(ds, m)
    requires ParseDeclaration(toks, pos) == Parsed(d, n) && !(AtChar(toks, n, ';') && At(toks, n + 1, Ident))
    ensures ds == Declarations([d], ds.terminated) && ds.terminated == AtChar(toks, n, ';')
    ensures ds.terminated ==> m == n + 1
    ensures !ds.terminated ==> m == n
  {
  }

  lemma ItemsTextCons(d: Declaration, items: seq<Declaration>)
    requires items != []
    ensures ItemsText([d] + items) == DeclarationText(d) + ";" + ItemsText(items)
  {
    assert ([d] + items)[1..] == items;
  }

  /** A declaration, `;` and more declarations spell their tokens. */
  lemma MoreSpell(toks: seq<Token>, pos: nat, n: nat, q: nat, m: nat, d: Declaration, rest: Declarations, ds: Declarations)
    requires Plain(toks) && pos <= n && q == n + 1 && q <= m <= |toks| && AtChar(toks, n, ';') && rest.items != []
    requires Spells(toks, pos, n, DeclarationText(d)) && Spells(toks, q, m, DeclarationsText(rest))
    requires ds == Declarations([d] + rest.items, rest.terminated)
    ensures Spells(toks, pos, m, DeclarationsText(ds))
  {
    var t := TerminatorText(rest.terminated);
    SpellsChar(toks, n, ';');
    SpellsJoin3(toks, pos, n, q, m, DeclarationText(d), ";", ItemsText(rest.items) + t);
    ItemsTextCons(d, rest.items);
    Associative(DeclarationText(d) + ";", ItemsText(rest.items), t);
  }

  /** The last declaration spells its tokens, and so does the `;` after it, if there is one. */
  lemma LastSpell(toks: seq<Token>, pos: nat, n: nat, m: nat, d: Declaration, ds: Declarations)
    requires Plain(toks) && pos <= n <= |toks| && Spells(toks, pos, n, DeclarationText(d))
    requires ds == Declarations([d], ds.terminated)
    requires ds.terminated ==> AtChar(toks, n, ';') && m == n + 1
    requires !ds.terminated ==> m == n
    ensures m <= |toks| && Spells(toks, pos, m, DeclarationsText(ds))
  {
    if ds.terminated {
      SpellsChar(toks, n, ';');
      SpellsJoin(toks, pos, n, m, DeclarationText(d), ";");
    } else {
      assert DeclarationText(d) + [] == DeclarationText(d);
    }
  }

  /** Declarations spell their tokens: each declaration, with the `;` between and after them. */
  lemma {:induction false} DeclarationsSpell(toks: seq<Token>, pos: nat, ds: Declarations, m: nat)
    requires Plain(toks) && pos <= |toks| && ParseDeclarations(toks, pos) == Parsed(ds, m)
    ensures Spells(toks, pos, m, DeclarationsText(ds))
    decreases |toks| - pos
  {
    var d, n := DeclarationsFirst(toks, pos, ds, m);
    DeclarationSpells(toks, pos, d, n);
    if AtChar(toks, n, ';') && At(toks, n + 1, Ident) {
      var q, rest := DeclarationsMore(toks, pos, ds, m, d, n);
      DeclarationsSpell(toks, q, rest, m);
      MoreSpell(toks, pos, n, q, m, d, rest, ds);
    } else {
      DeclarationsOne(toks, pos, ds, m, d, n);
      LastSpell(toks, pos, n, m, d, ds);
    }
  }

  lemma DeclarationsWithin(toks: seq<Token>, pos: nat, ds: Declarations, m: nat)
    requires Plain(toks) && pos <= |toks| && ParseDeclarations(toks, pos) == Parsed(ds, m)
    ensures pos <= m <= |toks| && Within(toks, pos, m)
  {
    DeclarationsSpell(toks, pos, ds, m);
  }

  // ---------------------------------------------------------------------------
  // The stylesheet

  /** How a recognised ruleset opening is made: `{` alone, or a selector group and `{`. */
  lemma OpeningShape(toks: seq<Token>, pos: nat, g: seq<Selector>, n: nat) returns (e: nat)
    requires pos <= |toks| && ParseOpening(toks, pos) == Parsed(g, n)
    ensures pos <= e && n == e + 1 && AtChar(toks, e, '{')
    ensures e != pos ==> ParseGroup(toks, pos) == Parsed(g, e)
  {
    e := if AtChar(toks, pos, '{') then pos else ParseGroup(toks, pos).next;
  }

  /** A ruleset up to its `{` holds only the grammar's tokens. */
  lemma OpeningWithin(toks: seq<Token>, pos: nat, g: seq<Selector>, n: nat)
    requires Plain(toks) && pos <= |toks| && ParseOpening(toks, pos) == Parsed(g, n)
    ensures Within(toks, pos, n)
  {
    var e := OpeningShape(toks, pos, g, n);
    if e != pos {
      GroupWithin(toks, pos, g, e);
    }
    CharWithin(toks, e, '{');
    WithinSplit(toks, pos, e, n);
  }

  /** How the rest of a recognised ruleset is made: `}` alone, or declarations and `}`. */
  lemma ClosingShape(toks: seq<Token>, pos: nat, body: Option<Declarations>, n: nat) returns (e: nat)
    requires pos <= |toks| && ParseClosing(toks, pos) == Parsed(body, n)
    ensures pos <= e && n == e + 1 && AtChar(toks, e, '}')
    ensures body.None? ==> e == pos
    ensures body.Some? ==> ParseDeclarations(toks, pos) == Parsed(body.value, e)
  {
    e := if body.Some? then ParseDeclarations(toks, pos).next else pos;
  }

  /** The rest of a ruleset, after its `{`, holds only the grammar's tokens. */
  lemma ClosingWithin(toks: seq<Token>, pos: nat, body: Option<Declarations>, n: nat)
    requires Plain(toks) && pos <= |toks| && ParseClosing(toks, pos) == Parsed(body, n)
    ensures Within(toks, pos, n)
  {
    var e := ClosingShape(toks, pos, body, n);
    if body.Some? {
      DeclarationsWithin(toks, pos, body.value, e);
    }
    CharWithin(toks, e, '}');
    WithinSplit(toks, pos, e, n);
  }

  /** How a recognised ruleset is made: its opening and then its closing. */
  lemma RulesetShape(toks: seq<Token>, pos: nat, r: Ruleset, m: nat) returns (n: nat)
    requires pos <= |toks| && ParseRuleset(toks, pos) == Parsed(r, m)
    ensures pos < n < m <= |toks| && ParseOpening(toks, pos) == Parsed(r.group, n) && ParseClosing(toks, n) == Parsed(r.body, m)
  {
    n := ParseOpening(toks, pos).next;
  }

  lemma RulesetWithin(toks: seq<Token>, pos: nat, r: Ruleset, m: nat)
    requires Plain(toks) && pos <= |toks| && ParseRuleset(toks, pos) == Parsed(r, m)
    ensures pos <= m <= |toks| && Within(toks, pos, m)
  {
    var n := RulesetShape(toks, pos, r, m);
    OpeningWithin(toks, pos, r.group, n);
    ClosingWithin(toks, n, r.body, m);
    WithinSplit(toks, pos, n, m);
  }

  /** How recognised rulesets are made: a ruleset, and more of them unless the tokens end there. */
  lemma RulesetsShape(toks: seq<Token>, pos: nat, rs: seq<Ruleset>, m: nat) returns (n: nat, more: seq<Ruleset>)
    requires pos < |toks| && ParseRulesets(toks, pos) == Parsed(rs, m)
    ensures pos < n <= |toks| && ParseRuleset(toks, pos) == Parsed(rs[0], n)
    ensures n < |toks| ==> ParseRulesets(toks, n) == Parsed(more, |toks|)
  {
    n := ParseRuleset(toks, pos).next;
    more := [];
    if n < |toks| {
      more := ParseRulesets(toks, n).tree;
    }
  }

  lemma {:induction false} RulesetsWithin(toks: seq<Token>, pos: nat, rs: seq<Ruleset>, m: nat)
    requires Plain(toks) && pos < |toks| && ParseRulesets(toks, pos) == Parsed(rs, m)
    ensures Within(toks, pos, |toks|)
    decreases |toks| - pos
  {
    var n, more := RulesetsShape(toks, pos, rs, m);
    RulesetWithin(toks, pos, rs[0], n);
    if n < |toks| {
      RulesetsWithin(toks, n, more, |toks|);
      WithinSplit(toks, pos, n, |toks|);
    }
  }

  /**
   * The only statement is a ruleset: a stylesheet of rulesets holds no CDO, CDC or at-rule
   * token, so CDO and CDC are accepted only as the whole stylesheet.
   */
  lemma MarkupAlone(toks: seq<Token>, j: nat)
    requires Plain(toks) && ParseStylesheet(toks).Some? && j < |toks|
    requires toks[j].kind == Cdo || toks[j].kind == Cdc || toks[j].kind == ImportSym || toks[j].kind == NamespaceSym
             || toks[j].kind == AtKeyword
    ensures (toks[j].kind == Cdo || toks[j].kind == Cdc) && toks == [toks[j]]
  {
    if toks[0].kind != Cdo && toks[0].kind != Cdc {
      var r := ParseRulesets(toks, 0);
      RulesetsWithin(toks, 0, r.tree, r.next);
      WithinAt(toks, 0, |toks|, j);
    }
  }
}
