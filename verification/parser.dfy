/**
 * The `CSSParser` object: the list of selectors it keeps, and `parse`, which lexes its input,
 * recognises a stylesheet and appends a selector each time a `selector_group` is reduced.
 */
module CssParsing {
  import opened Regex
  import opened Scanner
  import opened TokenStream
  import opened CssGrammar
  import CssLexer

  /** What `parse` returns: `[]` for empty input, the stylesheet's text, or nothing on a syntax error. */
  datatype Reply = NoInput | Accepted(text: string) | Rejected

  /** A reply, with the selectors appended on the way to it. */
  datatype Outcome = Outcome(reply: Reply, appended: seq<string>)

  /**
   * The appends of one selector group's reductions. The group is right-recursive, so the
   * innermost group, holding the last selector, is reduced (and appends) first.
   */
  function GroupAppends(g: seq<Selector>): seq<string> {
    if g == [] then [] else GroupAppends(g[1..]) + [SelectorText(g[0])]
  }

  /** `text` and `added` come before what `o` says. */
  function Then(text: string, added: seq<string>, o: Outcome): Outcome {
    Outcome(if o.reply.Accepted? then Accepted(text + o.reply.text) else o.reply, added + o.appended)
  }

  /**
   * Rulesets from `pos` to the end of the tokens. A group is reduced, and its selectors
   * appended, once the `{` after it is seen, so a ruleset whose body then fails keeps its
   * appends; the first syntax error ends the parse.
   */
  function Statements(toks: seq<Token>, pos: nat): Outcome
    requires pos < |toks|
    decreases |toks| - pos
  {
    match ParseOpening(toks, pos)
    case Failed => Outcome(Rejected, [])
    case Parsed(g, n) =>
      match ParseClosing(toks, n)
      case Failed => Outcome(Rejected, GroupAppends(g))
      case Parsed(body, m) =>
        var text := RulesetText(Ruleset(g, body));
        if m == |toks| then Outcome(Accepted(text), GroupAppends(g))
        else Then(text, GroupAppends(g), Statements(toks, m))
  }

  /** The parse of a non-empty input's tokens. */
  function Run(toks: seq<Token>): Outcome {
    if toks == [] then Outcome(Rejected, [])
    else if toks[0].kind == Cdo || toks[0].kind == Cdc then
      Outcome(if |toks| == 1 then Accepted(toks[0].text) else Rejected, [])
    else Statements(toks, 0)
  }

  /** The tokens `parse` hands the grammar: those the `CSSLexer` rules make of `data`. */
  function Lex(data: string): seq<Token> {
    CssLexer.Tokens(data).tokens
  }

  lemma ThenThen(t1: string, a1: seq<string>, t2: string, a2: seq<string>, o: Outcome)
    ensures Then(t1, a1, Then(t2, a2, o)) == Then(t1 + t2, a1 + a2, o)
  {
    assert a1 + (a2 + o.appended) == a1 + a2 + o.appended;
    if o.reply.Accepted? {
      assert t1 + (t2 + o.reply.text) == t1 + t2 + o.reply.text;
    }
  }

  lemma ThenNothing(o: Outcome)
    ensures Then([], [], o) == o
  {
    if o.reply.Accepted? {
      assert [] + o.reply.text == o.reply.text;
    }
    assert [] + o.appended == o.appended;
  }

  lemma Associative(a: seq<string>, b: seq<string>, c: seq<string>)
    ensures a + b + c == a + (b + c)
  {
  }

  /** Before the first ruleset nothing is parsed. */
  lemma ParsedNothing(toks: seq<Token>)
    requires toks != [] && toks[0].kind != Cdo && toks[0].kind != Cdc
    ensures ParsedUpTo(toks, 0, [], [])
  {
    ThenNothing(Statements(toks, 0));
  }

  /** Having parsed the rulesets before `pos` into `text` and appended `done` on the way. */
  ghost predicate ParsedUpTo(toks: seq<Token>, pos: nat, text: string, done: seq<string>)
    requires pos < |toks|
  {
    Run(toks) == Then(text, done, Statements(toks, pos))
  }

  /** What one more ruleset does to the parse so far. */
  lemma RulesetStep(toks: seq<Token>, pos: nat, text: string, done: seq<string>)
    requires pos < |toks| && ParsedUpTo(toks, pos, text, done)
    ensures ParseOpening(toks, pos).Failed? ==> Run(toks) == Outcome(Rejected, done)
    ensures ParseOpening(toks, pos).Parsed? ==>
              var g := ParseOpening(toks, pos).tree;
              var closing := ParseClosing(toks, ParseOpening(toks, pos).next);
              && (closing.Failed? ==> Run(toks) == Outcome(Rejected, done + GroupAppends(g)))
              && (closing.Parsed? && closing.next == |toks| ==>
                    Run(toks) == Outcome(Accepted(text + RulesetText(Ruleset(g, closing.tree))), done + GroupAppends(g)))
              && (closing.Parsed? && closing.next < |toks| ==>
                    ParsedUpTo(toks, closing.next, text + RulesetText(Ruleset(g, closing.tree)), done + GroupAppends(g)))
  {
    var opening := ParseOpening(toks, pos);
    if opening.Parsed? {
      var closing := ParseClosing(toks, opening.next);
      if closing.Parsed? && closing.next < |toks| {
        ThenThen(text, done, RulesetText(Ruleset(opening.tree, closing.tree)), GroupAppends(opening.tree),
                 Statements(toks, closing.next));
      }
    }
  }

  // ---------------------------------------------------------------------------
  // What the appends are

  /** A group of `n` selectors appends `n` entries, each one selector, the last selector first. */
  lemma {:induction false} GroupAppendsReversed(g: seq<Selector>)
    ensures |GroupAppends(g)| == |g|
    ensures forall i :: 0 <= i < |g| ==> GroupAppends(g)[i] == SelectorText(g[|g| - 1 - i])
  {
    if g != [] {
      GroupAppendsReversed(g[1..]);
      forall i | 0 <= i < |g| ensures GroupAppends(g)[i] == SelectorText(g[|g| - 1 - i]) {
        AppendAt(g, i);
      }
    }
  }

  /** Entry `i` of a non-empty group's appends, given those of the group without its first selector. */
  lemma AppendAt(g: seq<Selector>, i: nat)
    requires 0 <= i < |g| && |GroupAppends(g[1..])| == |g| - 1
    requires forall j :: 0 <= j < |g| - 1 ==> GroupAppends(g[1..])[j] == SelectorText(g[1..][|g| - 2 - j])
    ensures GroupAppends(g)[i] == SelectorText(g[|g| - 1 - i])
  {
    if i < |g| - 1 {
      assert GroupAppends(g)[i] == GroupAppends(g[1..])[i];
      assert g[1..][|g| - 2 - i] == g[|g| - 1 - i];
    }
  }

  /** The appends of a list of rulesets: each group's, in the order the rulesets come. */
  function RulesetAppends(rs: seq<Ruleset>): seq<string> {
    if rs == [] then [] else GroupAppends(rs[0].group) + RulesetAppends(rs[1..])
  }

  function StylesheetAppends(s: Stylesheet): seq<string> {
    if s.Rules? then RulesetAppends(s.rulesets) else []
  }

  /** The parse from `pos` in terms of the first ruleset there. */
  lemma StatementsStep(toks: seq<Token>, pos: nat)
    requires pos < |toks|
    ensures ParseRuleset(toks, pos).Failed? ==> !Statements(toks, pos).reply.Accepted?
    ensures ParseRuleset(toks, pos).Parsed? ==>
              var r, n := ParseRuleset(toks, pos).tree, ParseRuleset(toks, pos).next;
              Statements(toks, pos) ==
                if n == |toks| then Outcome(Accepted(RulesetText(r)), GroupAppends(r.group))
                else Then(RulesetText(r), GroupAppends(r.group), Statements(toks, n))
  {
  }

  /** `statements` from `pos` in terms of the first ruleset there. */
  lemma RulesetsStep(toks: seq<Token>, pos: nat)
    requires pos < |toks|
    ensures ParseRuleset(toks, pos).Failed? ==> ParseRulesets(toks, pos).Failed?
    ensures ParseRuleset(toks, pos).Parsed? ==>
              var r, n := ParseRuleset(toks, pos).tree, ParseRuleset(toks, pos).next;
              ParseRulesets(toks, pos) ==
                if n == |toks| then Parsed([r], n)
                else if ParseRulesets(toks, n).Failed? then Failed
                else Parsed([r] + ParseRulesets(toks, n).tree, |toks|)
  {
  }

  /** A ruleset before accepted rulesets: the reply and the appends of all of them. */
  lemma AcceptedCons(r: Ruleset, more: seq<Ruleset>, o: Outcome)
    requires o == Outcome(Accepted(RulesetsText(more)), RulesetAppends(more))
    ensures Then(RulesetText(r), GroupAppends(r.group), o)
            == Outcome(Accepted(RulesetsText([r] + more)), RulesetAppends([r] + more))
  {
    assert ([r] + more)[1..] == more;
  }

  /** The last ruleset alone: its reply and its appends. */
  lemma AcceptedOne(r: Ruleset)
    ensures RulesetsText([r]) == RulesetText(r) && RulesetAppends([r]) == GroupAppends(r.group)
  {
    assert [r][1..] == [];
  }

  /**
   * The parse from `pos` is accepted exactly when the rest of the tokens are rulesets; it
   * then spells those rulesets and appends their groups in order.
   */
  lemma {:induction false} StatementsAccepted(toks: seq<Token>, pos: nat)
    requires pos < |toks|
    ensures Statements(toks, pos).reply.Accepted? <==> ParseRulesets(toks, pos).Parsed?
    ensures ParseRulesets(toks, pos).Parsed? ==>
              var rs := ParseRulesets(toks, pos).tree;
              Statements(toks, pos) == Outcome(Accepted(RulesetsText(rs)), RulesetAppends(rs))
    decreases |toks| - pos
  {
    StatementsStep(toks, pos);
    RulesetsStep(toks, pos);
    var first := ParseRuleset(toks, pos);
    if first.Parsed? {
      var r, n := first.tree, first.next;
      if n < |toks| {
        StatementsAccepted(toks, n);
        var rest := ParseRulesets(toks, n);
        if rest.Parsed? {
          AcceptedCons(r, rest.tree, Statements(toks, n));
        }
      } else {
        AcceptedOne(r);
      }
    }
  }

  /**
   * `parse` accepts exactly the token lists that are a stylesheet, replies with the
   * stylesheet's text, and then appends every group's selectors, rulesets in source order.
   */
  lemma RunAccepted(toks: seq<Token>)
    ensures Run(toks).reply.Accepted? <==> ParseStylesheet(toks).Some?
    ensures ParseStylesheet(toks).Some? ==>
              var s := ParseStylesheet(toks).value;
              Run(toks) == Outcome(Accepted(StylesheetText(s)), StylesheetAppends(s))
  {
    if toks != [] && toks[0].kind != Cdo && toks[0].kind != Cdc {
      StatementsAccepted(toks, 0);
    }
  }

  class CssParser {
    /** Every selector appended so far, over all calls of `Parse`. */
    var selectors: seq<string>

    /** A new parser has appended nothing. */
    constructor ()
      ensures selectors == []
    {
      selectors := [];
    }

    /** The reductions of one selector group, each appending its first selector. */
    method AppendGroup(g: seq<Selector>)
      modifies this
      ensures selectors == old(selectors) + GroupAppends(g)
    {
      var i := |g|;
      while i > 0
        invariant 0 <= i <= |g| && selectors == old(selectors) + GroupAppends(g[i..])
      {
        i := i - 1;
        assert g[i..][1..] == g[i + 1..];
        selectors := selectors + [SelectorText(g[i])];
      }
      assert g[0..] == g;
    }

    /**
     * Empty input is answered with `[]` and changes nothing; otherwise the reply is that of
     * the grammar on the input's tokens, and the selectors appended on the way are added
     * after those of earlier calls.
     */
    method Parse(data: string) returns (reply: Reply)
      modifies this
      ensures data == [] ==> reply == NoInput && selectors == old(selectors)
      ensures data != [] ==> reply == Run(Lex(data)).reply && selectors == old(selectors) + Run(Lex(data)).appended
    {
      if data == [] {
        return NoInput;
      }
      var toks, _ := CssLexer.Tokenize(data);
      reply := ParseTokens(toks);
    }

    /** The parser driven by a token list. */
    method ParseTokens(toks: seq<Token>) returns (reply: Reply)
      modifies this
      ensures reply == Run(toks).reply && selectors == old(selectors) + Run(toks).appended
    {
      if toks == [] || toks[0].kind == Cdo || toks[0].kind == Cdc {
        reply := if |toks| == 1 then Accepted(toks[0].text) else Rejected;
        assert selectors == old(selectors) + [];
        return;
      }
      var pos, text := 0, [];
      ghost var done: seq<string> := [];
      ParsedNothing(toks);
      while true
        invariant pos < |toks| && selectors == old(selectors) + done && ParsedUpTo(toks, pos, text, done)
        decreases |toks| - pos
      {
        RulesetStep(toks, pos, text, done);
        var opening := ParseOpening(toks, pos);
        if opening.Failed? {
          return Rejected;
        }
        ghost var added := GroupAppends(opening.tree);
        AppendGroup(opening.tree);
        Associative(old(selectors), done, added);
        done := done + added;
        var closing := ParseClosing(toks, opening.next);
        if closing.Failed? {
          return Rejected;
        }
        text := text + RulesetText(Ruleset(opening.tree, closing.tree));
        if closing.next == |toks| {
          return Accepted(text);
        }
        pos := closing.next;
      }
    }
  }
}
