/**
 * What both grammars share: a cursor over the token list the lexer hands the parser,
 * the result of recognising one production, and the text a run of tokens spells.
 */
module TokenStream {
  import opened Scanner

  /** A production recognised from a position on: its tree and where the next token is. */
  datatype Parsed<T> = Parsed(tree: T, next: nat) | Failed

  /** The token at `pos` has kind `k`. */
  predicate At(toks: seq<Token>, pos: nat, k: Kind) {
    pos < |toks| && toks[pos].kind == k
  }

  /** The token at `pos` is the literal character `c`. */
  predicate AtChar(toks: seq<Token>, pos: nat, c: char) {
    At(toks, pos, Literal(c))
  }

  /** The lexemes of tokens `a` to `b - 1`, concatenated. */
  function Span(toks: seq<Token>, a: nat, b: nat): string
    requires a <= b <= |toks|
    decreases b - a
  {
    if a == b then [] else toks[a].text + Span(toks, a + 1, b)
  }

  /** Adjacent runs of tokens spell the concatenation of their texts. */
  lemma {:induction false} SpanSplit(toks: seq<Token>, a: nat, b: nat, c: nat)
    requires a <= b <= c <= |toks|
    ensures Span(toks, a, c) == Span(toks, a, b) + Span(toks, b, c)
    decreases b - a
  {
    if a < b {
      SpanSplit(toks, a + 1, b, c);
    }
  }

  /** Strings joined with a separator between each two. */
  function Join(parts: seq<string>, sep: string): string
    decreases |parts|
  {
    if parts == [] then [] else if |parts| == 1 then parts[0] else parts[0] + sep + Join(parts[1..], sep)
  }

  lemma JoinCons(p: string, ps: seq<string>, sep: string)
    requires ps != []
    ensures Join([p] + ps, sep) == p + sep + Join(ps, sep)
  {
    assert ([p] + ps)[1..] == ps;
  }

  /** Strings one after another. */
  function Concat(parts: seq<string>): string
    decreases |parts|
  {
    if parts == [] then [] else parts[0] + Concat(parts[1..])
  }

  lemma ConcatCons(p: string, ps: seq<string>)
    ensures Concat([p] + ps) == p + Concat(ps)
  {
    assert ([p] + ps)[1..] == ps;
  }
}
