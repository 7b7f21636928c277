/**
 * The grammar of the `CSSParser` class: its productions as datatypes, each `p_*` action as
 * the text it rebuilds, and a recogniser over the lexer's tokens that settles every
 * shift/reduce choice the way the parser generator does by default, by shifting.
 */
module CssGrammar {
  import opened Regex
  import opened Scanner
  import opened TokenStream

  // ---------------------------------------------------------------------------
  // Productions

  /** `namespace_prefix`: a name, `*` or nothing before `|`. */
  datatype Namespace = Named(name: string) | AnySpace | NoSpace

  /** What a simple selector sequence begins with: `type_selector`, `universal_selector`, or neither. */
  datatype Head = Element(ns: Option<Namespace>, name: string) | Universal(ns: Option<Namespace>) | NoHead

  /** `attrib_value`: an operator and the IDENT or STRING it compares with. */
  datatype Comparison = Comparison(op: string, operand: string)

  /** `attrib`: `[`, an optional prefix, the name, an optional comparison, `]`. */
  datatype Attrib = Attrib(ns: Option<Namespace>, name: string, value: Option<Comparison>)

  /** `pseudo`: one or two colons, then a name or a nameless `functional_pseudo`. */
  datatype Pseudo =
    | PseudoName(double: bool, name: string)
    | PseudoCall(double: bool, expressions: string)

  /** `negation_arg`: a type or universal selector, or any `sss_type` but a negation. */
  datatype NegationArg = NegHead(head: Head) | NegSimple(simple: SimpleType)

  /** `sss_type`; a negation keeps the text of its NOT token. */
  datatype SimpleType =
    | HashSel(hash: string)
    | ClassSel(name: string)
    | AttribSel(attrib: Attrib)
    | PseudoSel(pseudo: Pseudo)
    | Negation(not: string, arg: NegationArg)

  /** `simple_selector_sequence` */
  datatype Sequence = Sequence(head: Head, types: seq<SimpleType>)

  /** `selector`: sequences joined by a combinator or by nothing (a descendant). */
  datatype Selector =
    | Compound(first: Sequence)
    | Combined(first: Sequence, combinator: char, rest: Selector)
    | Descendant(first: Sequence, rest: Selector)

  /** `any`: one token, or a function, parentheses or brackets around optional terms. */
  datatype Any =
    | Atom(text: string)
    | Call(name: string, args: Option<Terms>)
    | Paren(args: Option<Terms>)
    | Bracket(args: Option<Terms>)

  /** `values` and `anys`, which have the same shape: terms joined by `,` or by nothing. */
  datatype Terms = Last(term: Any) | Comma(term: Any, rest: Terms) | Juxt(term: Any, rest: Terms)

  /** `declaration`: `property ':' values`. */
  datatype Declaration = Declaration(property: string, values: Terms)

  /** `declarations`: one or more, separated by `;`, with an optional `;` after the last. */
  datatype Declarations = Declarations(items: seq<Declaration>, terminated: bool)

  /** `ruleset`: an optional selector group and optional declarations in braces. */
  datatype Ruleset = Ruleset(group: seq<Selector>, body: Option<Declarations>)

  /** `stylesheet`: a lone CDO or CDC token, or one or more rulesets. */
  datatype Stylesheet = Markup(text: string) | Rules(rulesets: seq<Ruleset>)

  // ---------------------------------------------------------------------------
  // The actions: the text each production rebuilds

  function NamespaceText(n: Namespace): string {
    match n
    case Named(name) => name + "|"
    case AnySpace => "*|"
    case NoSpace => "|"
  }

  function PrefixText(n: Option<Namespace>): string {
    if n.Some? then NamespaceText(n.value) else []
  }

  function HeadText(h: Head): string {
    match h
    case Element(ns, name) => PrefixText(ns) + name
    case Universal(ns) => PrefixText(ns) + "*"
    case NoHead => []
  }

  function ComparisonText(v: Option<Comparison>): string {
    if v.Some? then v.value.op + v.value.operand else []
  }

  function AttribText(a: Attrib): string {
    "[" + PrefixText(a.ns) + a.name + ComparisonText(a.value) + "]"
  }

  /** The colon or colons before a pseudo-class or pseudo-element. */
  function ColonsText(double: bool): string {
    if double then "::" else ":"
  }

  function PseudoText(p: Pseudo): string {
    match p
    case PseudoName(double, name) => ColonsText(double) + name
    case PseudoCall(double, expressions) => ColonsText(double) + "(" + expressions + ")"
  }

  function NegationArgText(a: NegationArg): string {
    match a
    case NegHead(h) => HeadText(h)
    case NegSimple(t) => SimpleText(t)
  }

  function SimpleText(t: SimpleType): string {
    match t
    case HashSel(hash) => hash
    case ClassSel(name) => "." + name
    case AttribSel(a) => AttribText(a)
    case PseudoSel(p) => PseudoText(p)
    case Negation(not, arg) => ":" + not + "(" + NegationArgText(arg) + ")"
  }

  function TypesText(ts: seq<SimpleType>): string {
    if ts == [] then [] else SimpleText(ts[0]) + TypesText(ts[1..])
  }

  function SequenceText(q: Sequence): string {
    HeadText(q.head) + TypesText(q.types)
  }

  /** `p_selector` joins the parts of a selector with a space. */
  function SelectorText(sel: Selector): string {
    match sel
    case Compound(q) => SequenceText(q)
    case Combined(q, c, rest) => SequenceText(q) + " " + [c] + " " + SelectorText(rest)
    case Descendant(q, rest) => SequenceText(q) + " " + SelectorText(rest)
  }

  /** `p_selector_group` joins the selectors with the `,` between them. */
  function GroupText(g: seq<Selector>): string {
    if g == [] then [] else if |g| == 1 then SelectorText(g[0]) else SelectorText(g[0]) + "," + GroupText(g[1..])
  }

  function AnyText(a: Any): string {
    match a
    case Atom(text) => text
    case Call(name, args) => name + ArgsText(args) + ")"
    case Paren(args) => "(" + ArgsText(args) + ")"
    case Bracket(args) => "[" + ArgsText(args) + "]"
  }

  function ArgsText(args: Option<Terms>): string {
    if args.Some? then TermsText(args.value) else []
  }

  function TermsText(t: Terms): string {
    match t
    case Last(a) => AnyText(a)
    case Comma(a, rest) => AnyText(a) + "," + TermsText(rest)
    case Juxt(a, rest) => AnyText(a) + TermsText(rest)
  }

  function DeclarationText(d: Declaration): string {
    d.property + ":" + TermsText(d.values)
  }

  function ItemsText(items: seq<Declaration>): string {
    if items == [] then [] else if |items| == 1 then DeclarationText(items[0])
    else DeclarationText(items[0]) + ";" + ItemsText(items[1..])
  }

  function DeclarationsText(ds: Declarations): string {
    ItemsText(ds.items) + TerminatorText(ds.terminated)
  }

  function TerminatorText(terminated: bool): string {
    if terminated then ";" else []
  }

  function BodyText(body: Option<Declarations>): string {
    if body.Some? then DeclarationsText(body.value) else []
  }

  function RulesetText(r: Ruleset): string {
    GroupText(r.group) + "{" + BodyText(r.body) + "}"
  }

  function RulesetsText(rs: seq<Ruleset>): string {
    if rs == [] then [] else RulesetText(rs[0]) + RulesetsText(rs[1..])
  }

  function StylesheetText(s: Stylesheet): string {
    match s
    case Markup(text) => text
    case Rules(rs) => RulesetsText(rs)
  }

  // ---------------------------------------------------------------------------
  // Selectors

  /** `namespace_prefix` where one begins; a name or `*` followed by `|` is always a prefix. */
  function ParsePrefix(toks: seq<Token>, pos: nat): (r: Parsed<Option<Namespace>>)
    requires pos <= |toks|
    ensures r.Parsed? && pos <= r.next <= |toks| && (r.tree.None? <==> r.next == pos)
  {
    if At(toks, pos, Ident) && AtChar(toks, pos + 1, '|') then Parsed(Some(Named(toks[pos].text)), pos + 2)
    else if AtChar(toks, pos, '*') && AtChar(toks, pos + 1, '|') then Parsed(Some(AnySpace), pos + 2)
    else if AtChar(toks, pos, '|') then Parsed(Some(NoSpace), pos + 1)
    else Parsed(None, pos)
  }

  /** A type or universal selector, or nothing at all when neither begins here. */
  function ParseHead(toks: seq<Token>, pos: nat): (r: Parsed<Head>)
    requires pos <= |toks|
    ensures r.Parsed? ==> pos <= r.next <= |toks| && (r.tree.NoHead? <==> r.next == pos)
  {
    var p := ParsePrefix(toks, pos);
    if At(toks, p.next, Ident) then Parsed(Element(p.tree, toks[p.next].text), p.next + 1)
    else if AtChar(toks, p.next, '*') then Parsed(Universal(p.tree), p.next + 1)
    else if p.tree.Some? then Failed
    else Parsed(NoHead, pos)
  }

  /** The operators `attrib_selector_op` admits. */
  predicate Comparator(k: Kind) {
    match k
    case PrefixMatch | SuffixMatch | SubstringMatch | Literal('=') | Includes | DashMatch => true
    case _ => false
  }

  function ParseAttrib(toks: seq<Token>, pos: nat): (r: Parsed<Attrib>)
    requires AtChar(toks, pos, '[')
    ensures r.Parsed? ==> pos < r.next <= |toks|
  {
    var p := ParsePrefix(toks, pos + 1);
    if !At(toks, p.next, Ident) then Failed
    else
      var q := p.next + 1;
      if q < |toks| && Comparator(toks[q].kind) then
        if (At(toks, q + 1, Ident) || At(toks, q + 1, Str)) && AtChar(toks, q + 2, ']') then
          Parsed(Attrib(p.tree, toks[p.next].text, Some(Comparison(toks[q].text, toks[q + 1].text))), q + 3)
        else Failed
      else if AtChar(toks, q, ']') then Parsed(Attrib(p.tree, toks[p.next].text, None), q + 1)
      else Failed
  }

  /** The tokens `expression` admits. */
  predicate Expression(k: Kind) {
    match k
    case Literal('+') | Literal('-') | Number | Str | Ident => true
    case _ => false
  }

  /** Where the longest run of expression tokens from `pos` on ends. */
  function ExpressionsEnd(toks: seq<Token>, pos: nat): (e: nat)
    requires pos <= |toks|
    ensures pos <= e <= |toks|
    ensures e < |toks| ==> !Expression(toks[e].kind)
    decreases |toks| - pos
  {
    if pos < |toks| && Expression(toks[pos].kind) then ExpressionsEnd(toks, pos + 1) else pos
  }

  function ParsePseudo(toks: seq<Token>, pos: nat): (r: Parsed<Pseudo>)
    requires AtChar(toks, pos, ':')
    ensures r.Parsed? ==> pos < r.next <= |toks|
  {
    var double := AtChar(toks, pos + 1, ':');
    var p := if double then pos + 2 else pos + 1;
    if At(toks, p, Ident) then Parsed(PseudoName(double, toks[p].text), p + 1)
    else if AtChar(toks, p, '(') then
      var e := ExpressionsEnd(toks, p + 1);
      if e > p + 1 && AtChar(toks, e, ')') then Parsed(PseudoCall(double, Span(toks, p + 1, e)), e + 1)
      else Failed
    else Failed
  }

  /** A hash, class, attribute or pseudo-class: an `sss_type` other than a negation. */
  function ParsePlain(toks: seq<Token>, pos: nat): (r: Parsed<SimpleType>)
    requires pos <= |toks|
    ensures r.Parsed? ==> pos < r.next <= |toks| && !r.tree.Negation?
  {
    if At(toks, pos, Hash) then Parsed(HashSel(toks[pos].text), pos + 1)
    else if AtChar(toks, pos, '.') then
      if At(toks, pos + 1, Ident) then Parsed(ClassSel(toks[pos + 1].text), pos + 2) else Failed
    else if AtChar(toks, pos, '[') then
      match ParseAttrib(toks, pos)
      case Failed => Failed
      case Parsed(a, n) => Parsed(AttribSel(a), n)
    else if AtChar(toks, pos, ':') then
      match ParsePseudo(toks, pos)
      case Failed => Failed
      case Parsed(p, n) => Parsed(PseudoSel(p), n)
    else Failed
  }

  function ParseNegationArg(toks: seq<Token>, pos: nat): (r: Parsed<NegationArg>)
    requires pos <= |toks|
    ensures r.Parsed? ==> pos < r.next <= |toks|
  {
    if At(toks, pos, Hash) || AtChar(toks, pos, '.') || AtChar(toks, pos, '[') || AtChar(toks, pos, ':') then
      match ParsePlain(toks, pos)
      case Failed => Failed
      case Parsed(t, n) => Parsed(NegSimple(t), n)
    else
      match ParseHead(toks, pos)
      case Failed => Failed
      case Parsed(h, n) => if h.NoHead? then Failed else Parsed(NegHead(h), n)
  }

  /** `sss_type`: after `:`, a NOT token makes a negation, which then needs its own `(`. */
  function ParseSimple(toks: seq<Token>, pos: nat): (r: Parsed<SimpleType>)
    requires pos <= |toks|
    ensures r.Parsed? ==> pos < r.next <= |toks|
  {
    if AtChar(toks, pos, ':') && At(toks, pos + 1, Not) then
      if AtChar(toks, pos + 2, '(') then
        match ParseNegationArg(toks, pos + 3)
        case Failed => Failed
        case Parsed(arg, n) =>
          if AtChar(toks, n, ')') then Parsed(Negation(toks[pos + 1].text, arg), n + 1) else Failed
      else Failed
    else ParsePlain(toks, pos)
  }

  /** The tokens an `sss_type` begins with. */
  predicate StartsSimple(toks: seq<Token>, pos: nat) {
    At(toks, pos, Hash) || AtChar(toks, pos, '.') || AtChar(toks, pos, '[') || AtChar(toks, pos, ':')
  }

  /** `sss_types`, as long as the next token can begin another one (the shift). */
  function ParseTypes(toks: seq<Token>, pos: nat): (r: Parsed<seq<SimpleType>>)
    requires pos <= |toks|
    ensures r.Parsed? ==> pos <= r.next <= |toks| && (r.tree == [] <==> r.next == pos)
    decreases |toks| - pos
  {
    if StartsSimple(toks, pos) then
      match ParseSimple(toks, pos)
      case Failed => Failed
      case Parsed(t, n) =>
        match ParseTypes(toks, n)
        case Failed => Failed
        case Parsed(ts, m) => Parsed([t] + ts, m)
    else Parsed([], pos)
  }

  function ParseSequence(toks: seq<Token>, pos: nat): (r: Parsed<Sequence>)
    requires pos <= |toks|
    ensures r.Parsed? ==> pos < r.next <= |toks|
  {
    match ParseHead(toks, pos)
    case Failed => Failed
    case Parsed(h, n) =>
      match ParseTypes(toks, n)
      case Failed => Failed
      case Parsed(ts, m) => if h.NoHead? && ts == [] then Failed else Parsed(Sequence(h, ts), m)
  }

  /** The tokens a selector begins with. */
  predicate StartsSelector(toks: seq<Token>, pos: nat) {
    At(toks, pos, Ident) || AtChar(toks, pos, '*') || AtChar(toks, pos, '|') || StartsSimple(toks, pos)
  }

  /** The combinators: `+`, `>` and `~`. */
  predicate AtCombinator(toks: seq<Token>, pos: nat) {
    AtChar(toks, pos, '+') || AtChar(toks, pos, '>') || AtChar(toks, pos, '~')
  }

  function ParseSelector(toks: seq<Token>, pos: nat): (r: Parsed<Selector>)
    requires pos <= |toks|
    ensures r.Parsed? ==> pos < r.next <= |toks|
    decreases |toks| - pos
  {
    match ParseSequence(toks, pos)
    case Failed => Failed
    case Parsed(q, n) =>
      if AtCombinator(toks, n) then
        match ParseSelector(toks, n + 1)
        case Failed => Failed
        case Parsed(rest, m) => Parsed(Combined(q, toks[n].kind.c, rest), m)
      else if StartsSelector(toks, n) then
        match ParseSelector(toks, n)
        case Failed => Failed
        case Parsed(rest, m) => Parsed(Descendant(q, rest), m)
      else Parsed(Compound(q), n)
  }

  /** `selector_group`: selectors separated by `,`. */
  function ParseGroup(toks: seq<Token>, pos: nat): (r: Parsed<seq<Selector>>)
    requires pos <= |toks|
    ensures r.Parsed? ==> pos < r.next <= |toks| && |r.tree| > 0
    decreases |toks| - pos
  {
    match ParseSelector(toks, pos)
    case Failed => Failed
    case Parsed(sel, n) =>
      if AtChar(toks, n, ',') then
        match ParseGroup(toks, n + 1)
        case Failed => Failed
        case Parsed(g, m) => Parsed([sel] + g, m)
      else Parsed([sel], n)
  }

  // ---------------------------------------------------------------------------
  // Declarations

  /** The single tokens `any` admits. */
  predicate AtomKind(k: Kind) {
    match k
    case Dimension | Uri | Percentage | Ident | Str | Number | Hash | Includes | DashMatch => true
    case _ => false
  }

  /** The tokens an `any` begins with. */
  predicate StartsAny(toks: seq<Token>, pos: nat) {
    pos < |toks| && (AtomKind(toks[pos].kind) || toks[pos].kind == Function
                     || toks[pos].kind == Literal('(') || toks[pos].kind == Literal('['))
  }

  function ParseAny(toks: seq<Token>, pos: nat): (r: Parsed<Any>)
    requires pos <= |toks|
    ensures r.Parsed? ==> pos < r.next <= |toks|
    decreases |toks| - pos, 0
  {
    if pos == |toks| then Failed
    else if AtomKind(toks[pos].kind) then Parsed(Atom(toks[pos].text), pos + 1)
    else if toks[pos].kind == Function then
      match ParseEnclosed(toks, pos + 1, ')')
      case Failed => Failed
      case Parsed(args, n) => Parsed(Call(toks[pos].text, args), n)
    else if toks[pos].kind == Literal('(') then
      match ParseEnclosed(toks, pos + 1, ')')
      case Failed => Failed
      case Parsed(args, n) => Parsed(Paren(args), n)
    else if toks[pos].kind == Literal('[') then
      match ParseEnclosed(toks, pos + 1, ']')
      case Failed => Failed
      case Parsed(args, n) => Parsed(Bracket(args), n)
    else Failed
  }

  /** Optional terms and then the closing character. */
  function ParseEnclosed(toks: seq<Token>, pos: nat, close: char): (r: Parsed<Option<Terms>>)
    requires pos <= |toks|
    ensures r.Parsed? ==> pos < r.next <= |toks|
    decreases |toks| - pos, 2
  {
    if AtChar(toks, pos, close) then Parsed(None, pos + 1)
    else
      match ParseTerms(toks, pos)
      case Failed => Failed
      case Parsed(t, n) => if AtChar(toks, n, close) then Parsed(Some(t), n + 1) else Failed
  }

  function ParseTerms(toks: seq<Token>, pos: nat): (r: Parsed<Terms>)
    requires pos <= |toks|
    ensures r.Parsed? ==> pos < r.next <= |toks|
    decreases |toks| - pos, 1
  {
    match ParseAny(toks, pos)
    case Failed => Failed
    case Parsed(a, n) =>
      if AtChar(toks, n, ',') then
        match ParseTerms(toks, n + 1)
        case Failed => Failed
        case Parsed(rest, m) => Parsed(Comma(a, rest), m)
      else if StartsAny(toks, n) then
        match ParseTerms(toks, n)
        case Failed => Failed
        case Parsed(rest, m) => Parsed(Juxt(a, rest), m)
      else Parsed(Last(a), n)
  }

  function ParseDeclaration(toks: seq<Token>, pos: nat): (r: Parsed<Declaration>)
    requires pos <= |toks|
    ensures r.Parsed? ==> pos < r.next <= |toks|
  {
    if At(toks, pos, Ident) && AtChar(toks, pos + 1, ':') then
      match ParseTerms(toks, pos + 2)
      case Failed => Failed
      case Parsed(t, n) => Parsed(Declaration(toks[pos].text, t), n)
    else Failed
  }

  /** After `;`, a name begins the next declaration (the shift); anything else ends the list. */
  function ParseDeclarations(toks: seq<Token>, pos: nat): (r: Parsed<Declarations>)
    requires pos <= |toks|
    ensures r.Parsed? ==> pos < r.next <= |toks| && |r.tree.items| > 0
    decreases |toks| - pos
  {
    match ParseDeclaration(toks, pos)
    case Failed => Failed
    case Parsed(d, n) =>
      if AtChar(toks, n, ';') then
        if At(toks, n + 1, Ident) then
          match ParseDeclarations(toks, n + 1)
          case Failed => Failed
          case Parsed(ds, m) => Parsed(Declarations([d] + ds.items, ds.terminated), m)
        else Parsed(Declarations([d], true), n + 1)
      else Parsed(Declarations([d], false), n)
  }

  // ---------------------------------------------------------------------------
  // Rulesets and the stylesheet

  /** A ruleset up to and including its `{`: the selector group, empty when there is none. */
  function ParseOpening(toks: seq<Token>, pos: nat): (r: Parsed<seq<Selector>>)
    requires pos <= |toks|
    ensures r.Parsed? ==> pos < r.next <= |toks|
  {
    if AtChar(toks, pos, '{') then Parsed([], pos + 1)
    else
      match ParseGroup(toks, pos)
      case Failed => Failed
      case Parsed(g, n) => if AtChar(toks, n, '{') then Parsed(g, n + 1) else Failed
  }

  /** The rest of a ruleset after `{`: the declarations, if any, and `}`. */
  function ParseClosing(toks: seq<Token>, pos: nat): (r: Parsed<Option<Declarations>>)
    requires pos <= |toks|
    ensures r.Parsed? ==> pos < r.next <= |toks|
  {
    if AtChar(toks, pos, '}') then Parsed(None, pos + 1)
    else
      match ParseDeclarations(toks, pos)
      case Failed => Failed
      case Parsed(ds, n) => if AtChar(toks, n, '}') then Parsed(Some(ds), n + 1) else Failed
  }

  function ParseRuleset(toks: seq<Token>, pos: nat): (r: Parsed<Ruleset>)
    requires pos <= |toks|
    ensures r.Parsed? ==> pos < r.next <= |toks|
  {
    match ParseOpening(toks, pos)
    case Failed => Failed
    case Parsed(g, n) =>
      match ParseClosing(toks, n)
      case Failed => Failed
      case Parsed(body, m) => Parsed(Ruleset(g, body), m)
  }

  /** `statements`: rulesets up to the end of the input. */
  function ParseRulesets(toks: seq<Token>, pos: nat): (r: Parsed<seq<Ruleset>>)
    requires pos < |toks|
    ensures r.Parsed? ==> r.next == |toks| && |r.tree| > 0
    decreases |toks| - pos
  {
    match ParseRuleset(toks, pos)
    case Failed => Failed
    case Parsed(rs, n) =>
      if n == |toks| then Parsed([rs], n)
      else
        match ParseRulesets(toks, n)
        case Failed => Failed
        case Parsed(more, m) => Parsed([rs] + more, m)
  }

  /** The whole token list as a `stylesheet`, or nothing when it is not one. */
  function ParseStylesheet(toks: seq<Token>): Option<Stylesheet> {
    if toks == [] then None
    else if toks[0].kind == Cdo || toks[0].kind == Cdc then
      if |toks| == 1 then Some(Markup(toks[0].text)) else None
    else
      match ParseRulesets(toks, 0)
      case Failed => None
      case Parsed(rs, _) => Some(Rules(rs))
  }
}
