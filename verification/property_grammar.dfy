/**
 * The declaration grammar of `properties.py`: `declarations`, `declaration`, `property`,
 * `values`, `value`, `anys` and `any`, their actions (each rebuilds the text of what it
 * recognised), and a recogniser over the tokens of the unit-aware rule table. The first
 * production, `declarations`, is the start symbol. Where the grammar leaves a choice
 * between shifting and reducing, the recogniser shifts, as the parser generator does by
 * default.
 */
module PropertyGrammar {
  import opened Regex
  import opened Scanner
  import opened TokenStream

  // ---------------------------------------------------------------------------
  // Productions

  /**
   * `any`: one token; a name, `(`, optional `anys` and `)`; or optional `anys` in
   * parentheses or brackets. An empty `args` is the form with nothing enclosed.
   */
  datatype Any =
    | Atom(text: string)
    | Call(name: string, args: seq<Any>)
    | Paren(args: seq<Any>)
    | Bracket(args: seq<Any>)

  /** `values`: values joined by `,` or by nothing. */
  datatype Values = Last(value: Any) | Comma(value: Any, rest: Values) | Juxt(value: Any, rest: Values)

  /** `declaration`: `property ':' values`. */
  datatype Declaration = Declaration(property: string, values: Values)

  /** `declarations`: one or more, separated by `;`, with an optional `;` after the last. */
  datatype Declarations = Declarations(items: seq<Declaration>, terminated: bool)

  // ---------------------------------------------------------------------------
  // The actions: the text each production rebuilds

  function AnyText(a: Any): string
    decreases a
  {
    match a
    case Atom(text) => text
    case Call(name, args) => name + "(" + AnysText(args) + ")"
    case Paren(args) => "(" + AnysText(args) + ")"
    case Bracket(args) => "[" + AnysText(args) + "]"
  }

  /** `anys`: the texts one after another, with nothing between. */
  function AnysText(xs: seq<Any>): string
    decreases xs
  {
    if xs == [] then [] else AnyText(xs[0]) + AnysText(xs[1..])
  }

  function ValuesText(v: Values): string {
    match v
    case Last(a) => AnyText(a)
    case Comma(a, rest) => AnyText(a) + "," + ValuesText(rest)
    case Juxt(a, rest) => AnyText(a) + ValuesText(rest)
  }

  function DeclarationText(d: Declaration): string {
    d.property + ":" + ValuesText(d.values)
  }

  function ItemsText(items: seq<Declaration>): string {
    if items == [] then [] else if |items| == 1 then DeclarationText(items[0])
    else DeclarationText(items[0]) + ";" + ItemsText(items[1..])
  }

  function DeclarationsText(ds: Declarations): string {
    ItemsText(ds.items) + (if ds.terminated then ";" else [])
  }

  // ---------------------------------------------------------------------------
  // The recogniser

  /** The single tokens `any` admits: the fifteen units and nine other kinds. */
  predicate AtomKind(k: Kind) {
    match k
    case Measure(_) | Uri | Percentage | Ident | Str | Number | Dimension | Hash | Includes | DashMatch => true
    case _ => false
  }

  /** The tokens an `any` begins with. */
  predicate StartsAny(toks: seq<Token>, pos: nat) {
    pos < |toks| && (AtomKind(toks[pos].kind) || toks[pos].kind == Literal('(') || toks[pos].kind == Literal('['))
  }

  /** A name directly before `(` opens a call (the shift); otherwise it is a one-token `any`. */
  function ParseAny(toks: seq<Token>, pos: nat): (r: Parsed<Any>)
    requires pos <= |toks|
    ensures r.Parsed? ==> pos < r.next <= |toks|
    decreases |toks| - pos, 0
  {
    if pos == |toks| then Failed
    else if toks[pos].kind == Ident && AtChar(toks, pos + 1, '(') then
      match ParseArgs(toks, pos + 2, ')')
      case Failed => Failed
      case Parsed(args, n) => Parsed(Call(toks[pos].text, args), n)
    else if AtomKind(toks[pos].kind) then Parsed(Atom(toks[pos].text), pos + 1)
    else if toks[pos].kind == Literal('(') then
      match ParseArgs(toks, pos + 1, ')')
      case Failed => Failed
      case Parsed(args, n) => Parsed(Paren(args), n)
    else if toks[pos].kind == Literal('[') then
      match ParseArgs(toks, pos + 1, ']')
      case Failed => Failed
      case Parsed(args, n) => Parsed(Bracket(args), n)
    else Failed
  }

  /** Optional `anys` and then the closing character. */
  function ParseArgs(toks: seq<Token>, pos: nat, close: char): (r: Parsed<seq<Any>>)
    requires pos <= |toks|
    ensures r.Parsed? ==> pos < r.next <= |toks|
    decreases |toks| - pos, 2
  {
    if AtChar(toks, pos, close) then Parsed([], pos + 1)
    else
      match ParseAnys(toks, pos)
      case Failed => Failed
      case Parsed(xs, n) => if AtChar(toks, n, close) then Parsed(xs, n + 1) else Failed
  }

  /** `anys`: one `any` after another, as long as the next token can begin one. */
  function ParseAnys(toks: seq<Token>, pos: nat): (r: Parsed<seq<Any>>)
    requires pos <= |toks|
    ensures r.Parsed? ==> pos < r.next <= |toks| && |r.tree| > 0
    decreases |toks| - pos, 1
  {
    match ParseAny(toks, pos)
    case Failed => Failed
    case Parsed(a, n) =>
      if StartsAny(toks, n) then
        match ParseAnys(toks, n)
        case Failed => Failed
        case Parsed(rest, m) => Parsed([a] + rest, m)
      else Parsed([a], n)
  }

  /** `values`: after each value, `,` or the start of another value continues the list. */
  function ParseValues(toks: seq<Token>, pos: nat): (r: Parsed<Values>)
    requires pos <= |toks|
    ensures r.Parsed? ==> pos < r.next <= |toks|
    decreases |toks| - pos
  {
    match ParseAny(toks, pos)
    case Failed => Failed
    case Parsed(a, n) =>
      if AtChar(toks, n, ',') then
        match ParseValues(toks, n + 1)
        case Failed => Failed
        case Parsed(rest, m) => Parsed(Comma(a, rest), m)
      else if StartsAny(toks, n) then
        match ParseValues(toks, n)
        case Failed => Failed
        case Parsed(rest, m) => Parsed(Juxt(a, rest), m)
      else Parsed(Last(a), n)
  }

  function ParseDeclaration(toks: seq<Token>, pos: nat): (r: Parsed<Declaration>)
    requires pos <= |toks|
    ensures r.Parsed? ==> pos < r.next <= |toks|
  {
    if At(toks, pos, Ident) && AtChar(toks, pos + 1, ':') then
      match ParseValues(toks, pos + 2)
      case Failed => Failed
      case Parsed(v, n) => Parsed(Declaration(toks[pos].text, v), n)
    else Failed
  }

  /** After `;`, a name begins the next declaration (the shift); anything else ends the list. */
  function ParseDeclarations(toks: seq<Token>, pos: nat): (r: Parsed<Declarations>)
    requires pos <= |toks|
    ensures r.Parsed? ==> pos < r.next <= |toks| && |r.tree.items| > 0
    decreases |toks| - pos
  {
    match ParseDeclaration(toks, pos)
    case Failed => Failed
    case Parsed(d, n) =>
      if AtChar(toks, n, ';') then
        if At(toks, n + 1, Ident) then
          match ParseDeclarations(toks, n + 1)
          case Failed => Failed
          case Parsed(ds, m) => Parsed(Declarations([d] + ds.items, ds.terminated), m)
        else Parsed(Declarations([d], true), n + 1)
      else Parsed(Declarations([d], false), n)
  }

  /** The whole token list as the start symbol `declarations`, or nothing when it is not one. */
  function ParseProperties(toks: seq<Token>): Option<Declarations> {
    match ParseDeclarations(toks, 0)
    case Failed => None
    case Parsed(ds, m) => if m == |toks| then Some(ds) else None
  }
}
