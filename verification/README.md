# css3tool front end in Dafny

This project models the CSS3 front end of css3tool. The front end has three parts:

- **`CSSLexer`** (`lexer.py`): a table of token rules, tried in order over the input. The
  first rule that matches wins. Literal characters become one-character tokens. White space
  and comments are skipped. Any other character is reported as illegal and skipped.
- **`CSSParser`** (`parser.py`): the grammar and its actions. Every production rebuilds the
  text it recognised; a selector joins its parts with a space. Each time a `selector_group`
  is reduced, its first selector is appended to the parser's `selectors` list.
- **`properties.py`**: a second rule table in which fifteen CSS units (`px`, `em`, `deg`,
  `kHz`, …) get tokens of their own, and a smaller declaration grammar over those tokens.

The program runs under Python 2 and reads its input as a byte string. A character of the
model's `string` stands for one byte, and every token position is a byte offset. So
`nonascii` matches one byte at a time, and case folding touches ASCII letters only.

The model is layered as the program is:

| file | module | what it holds |
|---|---|---|
| `regex.dfy` | `Regex` | A regular-expression engine. `Ends(r, s, i)` lists every end of a match of `r` at `i`, in the order Python's backtracking `re` tries them; a match is the first of them. Letters are compared case-insensitively (`re.IGNORECASE` on byte strings folds ASCII only). |
| `patterns.dfy` | `Patterns` | The lexical macros (`nonascii`, `unicode`, `escape`, `string`, `nmstart`, `nmchar`, `ident`, `name`, `url`, `num`, the comment) as `Re` values, and what they match on the inputs the lexer lemmas need. |
| `scanner.dfy` | `Scanner` | The token loop shared by both lexers: the master pattern's first-match choice, literals, ignored characters, illegal-character reports. It is a pure `Scan` function plus the imperative `Tokenize` loop proved equal to it. |
| `lexer.dfy` | `CssLexer` | The 21 rules of `CSSLexer`, in definition order, and what the table does on each kind of input. |
| `unit_lexer.dfy` | `UnitLexer` | The 32 rules of `properties.py`, in definition order and in the order the lexer generator loads them (see Findings). |
| `token_stream.dfy` | `TokenStream` | A cursor over tokens (`Parsed<T>`), and the text a run of tokens spells. |
| `grammar.dfy` | `CssGrammar` | The `CSSParser` productions as datatypes, each action as the text it builds, and a recogniser that settles every shift/reduce choice by shifting, as LALR parser generators do by default. |
| `grammar_facts.dfy` | `CssGrammarFacts` | What each action's text is in terms of the tokens. |
| `number_starts.dfy` | `NumberStarts` | Numbers that begin with a sign or a point, in both tables: DIMENSION, PERCENTAGE, NUMBER and unit tokens for `-10px`, `+5%`, `.5em`, and the splits of `-1.5em` and `-.5em`. |
| `negation.dfy` | `CssNegation` | The `negation` production against the NOT token, which already holds the `(`. |
| `parser.dfy` | `CssParsing` | The `CSSParser` object: its `selectors` field, and `parse`. |
| `property_grammar.dfy`, `property_facts.dfy` | `PropertyGrammar`, `PropertyGrammarFacts` | The declaration grammar of `properties.py` and its properties. |

Some behaviours of the code are easy to miss. The model keeps them as written:

- A quoted string may hold a raw CR, a CR-LF pair or a form feed. In the string macros the
  newline macro is spliced after `\\` without parentheses (lexer.py:33-34), so only LF needs
  the backslash.
- A decimal number not followed by a name or `%` is two NUMBER tokens (`1.5` gives `1` and
  `.5`). The integer alternative of `num` is tried first and the master pattern takes the
  first match, not the longest (`CssLexer.DecimalSplits`).
- `a .b` lexes exactly like `a.b`. White space is ignored, so the descendant combinator
  before a class selector cannot be seen (`CssLexer.SpaceBeforeClassInvisible`).
- A sign never begins the decimal form of `num`. `-1.5em` is the NUMBER `-1` and then the
  DIMENSION `.5em` (`NumberStarts.SignedDecimalSplits`). `-.5em` is the character `-` and then
  the DIMENSION `.5em` (`NumberStarts.DashBeforePoint`).
- The NOT rule takes `not(` together with its parenthesis, while `negation` wants a `(` token
  after NOT. So `:not(.y)` is never a negation, and `:not(.y){}` is rejected
  (`CssNegation.NotPointRejected`). Only a doubled parenthesis, `:not((.y)`, gives the
  production its tokens.
- The `t_newline` rule never fires, because LF is in `t_ignore`, which is tested first.
- A selector group of `n` selectors appends its selectors last-first. The group is
  right-recursive, so the innermost group is reduced first.
- `properties.py` contains unresolved merge-conflict markers around the HASH rule
  (properties.py:131-135). Both sides define the same rule; the model has it once.

## Model

| member | source | states |
|---|---|---|
| Regex.Lower | lexer.py:46 | Case folding under `re.IGNORECASE` maps `A`-`Z` to `a`-`z` and leaves every other character alone |
| Regex.Ends | lexer.py:22-43 | Every end of a match of a pattern lies between its start and the end of the input |
| Regex.First | lexer.py:9-13 | The match the master pattern reports exists exactly when some match exists, and is one of its ends |
| Regex.EmptyEndNullable | lexer.py:9-13 | A match that ends where it started is possible only for a pattern that matches the empty string |
| Regex.FirstOr | lexer.py:35 | In an alternation the first alternative is preferred whenever it matches; otherwise the second decides |
| Regex.FirstStar | lexer.py:39 | A greedy star always matches, stops at once when its body cannot match, and otherwise continues from its body's first end |
| Regex.FirstStarChr | lexer.py:39 | The star of a character class stops at the end of the longest run of that class |
| Regex.PlusChr | lexer.py:40 | `c+` reports the whole run of `c` characters, fails where none begins, and never ends past the run |
| Regex.WordEnds | lexer.py:126-134 | A keyword pattern matches exactly when the input spells the keyword there in any letter case, ending right after it |
| Regex.InExactly | lexer.py:46 | Case-insensitive matching equates two characters only when both are letters; any other pattern character matches only itself |
| Regex.CatEndSplit | lexer.py:104 | Every end of a sequence is an end of its second part started from an end of its first part |
| Regex.FirstCat | lexer.py:92 | When the second part can follow the first part's preferred end, the sequence ends where the second part does from there |
| Patterns.IdentAscii | lexer.py:37-39 | An identifier starting with an ASCII letter or `_` is reported up to the end of the run of ASCII name characters, and no match ends outside that run |
| Patterns.NameAscii | lexer.py:38-40 | A `name` starting with an ASCII name character takes the whole run of them |
| Patterns.NumAtDigit | lexer.py:43 | At a digit, `num` reports the run of digits (the integer form); every other match stops inside the longest number |
| Patterns.NumAtPoint | lexer.py:43 | At `.` followed by a digit, `num` reports the point and the run of digits after it |
| Patterns.NoNumAtPoint | lexer.py:43 | A `.` with no digit after it begins no number |
| Patterns.UrlAsciiRun | lexer.py:42 | An unquoted URL takes its characters up to the first character outside the class |
| Patterns.PlainComment | lexer.py:173 | A comment whose body holds no `*` ends at the first star-slash |
| Patterns.IdentStartLemma | lexer.py:37-39 | An identifier can begin only with `-`, a name start, a non-ASCII character or a backslash |
| Patterns.NumStartLemma | lexer.py:43 | A number can begin only with a sign, a digit or `.` |
| Scanner.MatchFrom | lexer.py:9-13 | The rule chosen is the first in table order that matches: every earlier rule fails there, and the end reported is that rule's first end |
| Scanner.NextStep | lexer.py:172-182 | One step consumes at least one character; a token is the text from its offset to the step's end; an illegal character is reported with its offset and skipped |
| Scanner.MatchAdvances | lexer.py:9-13 | In a table whose rules cannot match the empty string, the chosen match consumes something |
| Scanner.RuleChosen | lexer.py:9-13 | At a character that is not ignored, the first rule that matches emits its token over exactly its match, or discards that text |
| Scanner.NoRuleMatches | lexer.py:53-54 | When no rule matches, a literal character is its own token and any other character is reported |
| Scanner.ScanFaithful | lexer.py:184-189 | Every token of a scan is a non-empty slice of the input at its own offset, and tokens come in input order without overlapping |
| Scanner.ScanDiagnostics | lexer.py:180-182 | Every illegal-character report names the character at its offset |
| Scanner.ScanPlain | lexer.py:53-54 | When no rule emits a literal token, every literal token of a scan is its own character |
| Scanner.ScannedStep | lexer.py:184-189 | Taking one step keeps the tokens and reports gathered so far a prefix of the whole scan |
| Scanner.Tokenize | lexer.py:184-189 | The imperative token loop returns exactly the tokens and reports of the whole scan |
| CssLexer.RuleList | lexer.py:61-173 | The table holds the rules in definition order |
| CssLexer.RuleStart | lexer.py:61-173 | No rule matches the empty string, and each rule can begin only with its own start characters |
| CssLexer.CssWellFormed | lexer.py:46 | The table is one the lexer generator accepts: no rule matches the empty string |
| CssLexer.Tokenize | lexer.py:184-189 | The token loop returns the scan of the whole input, and every token is the input's text at its offset |
| CssLexer.TokensPlain | lexer.py:53-54 | Every literal token is the character it stands for |
| CssLexer.Chosen | lexer.py:9-13 | The step at a position where rule `k` is the first to match |
| CssLexer.IdentToken | lexer.py:168-170 | An ASCII name not followed by `(` is one IDENT token over the whole name (see also lexer.py:98-108) |
| CssLexer.FunctionToken | lexer.py:106-108 | An ASCII name followed by `(`, other than `not(` and `url(`, is one FUNCTION token including the `(` |
| CssLexer.NotToken | lexer.py:98-100 | `not(` in any letter case is one NOT token, never a FUNCTION |
| CssLexer.UriToken | lexer.py:102-104 | `url(`, a run of unquoted URL characters and `)` is one URI token |
| CssLexer.UriEndsClose | lexer.py:104 | Every URI match closes with `)` after `url(` |
| CssLexer.UnclosedUrl | lexer.py:102-108 | An unclosed `url(` is no URI; the FUNCTION rule takes `url(` |
| CssLexer.DimensionToken | lexer.py:90-92 | A number beginning with a digit, directly followed by an ASCII name, is one DIMENSION token over both (other starts: `NumberStarts.DimensionToken`) |
| CssLexer.PercentageToken | lexer.py:118-120 | A number beginning with a digit and followed by `%` is one PERCENTAGE token (other starts: `NumberStarts.PercentageToken`) |
| CssLexer.NumberToken | lexer.py:160-162 | A number beginning with a digit and followed by neither a name nor `%` gives a NUMBER token of just the digit run |
| CssLexer.FractionToken | lexer.py:160-162 | `.` and digits followed by neither a name nor `%` is one NUMBER token |
| CssLexer.DecimalSplits | lexer.py:160-162 | A bare decimal such as `1.5` is two NUMBER tokens, the digits before the point and then the point with the digits after it (see also lexer.py:43) |
| CssLexer.ImportToken | lexer.py:126-129 | `@import` in any letter case is one IMPORT_SYM token, even at the start of a longer name |
| CssLexer.NamespaceToken | lexer.py:131-134 | `@namespace` in any letter case is one NAMESPACE_SYM token |
| CssLexer.AtKeywordToken | lexer.py:136-138 | `@` and a name that spells neither at-rule word is one ATKEYWORD token |
| CssLexer.HashToken | lexer.py:114-116 | `#` and a name is one HASH token |
| CssLexer.LoneAtReported | lexer.py:180-182 | `@` with no name after it matches no rule and is reported as illegal (see also lexer.py:136-138) |
| CssLexer.LoneHashReported | lexer.py:180-182 | `#` with no name after it matches no rule and is reported as illegal (see also lexer.py:114-116) |
| CssLexer.CdoToken | lexer.py:146-149 | `<!--` is one CDO token |
| CssLexer.CdcToken | lexer.py:151-154 | `-->` is one CDC token |
| CssLexer.DashToken | lexer.py:53-54 | A `-` that begins no number, identifier or `-->` is a one-character token |
| CssLexer.PunctuationToken | lexer.py:53-54 | The characters `{ } ; : , ( ) [ ] = >` are always one-character tokens |
| CssLexer.OperatorCharToken | lexer.py:61-84 | `~`, `\|` and `*` not followed by `=` are one-character tokens |
| CssLexer.PointToken | lexer.py:53-54 | A `.` not followed by a digit is a one-character token |
| CssLexer.CommentSkipped | lexer.py:173 | A comment whose body holds no `*` is skipped whole, without a token |
| CssLexer.WhiteSpaceSkipped | lexer.py:172-178 | Space, tab, CR, LF and FF are skipped one at a time; the newline rule never fires |
| CssLexer.WhiteSpaceInvisible | lexer.py:172 | White space between tokens is invisible: the scan goes on as if it were not there |
| CssLexer.CommentInvisible | lexer.py:173 | A comment between tokens is invisible too |
| CssLexer.NameClassTokens | lexer.py:168-170 | A name, an optional space, `.` and a name are three tokens: IDENT, `.`, IDENT (see also lexer.py:53-54) |
| CssLexer.SpaceBeforeClassInvisible | lexer.py:172 | `a .b` and `a.b` give the parser the same token kinds and texts |
| UnitLexer.UnitWord | properties.py:95-122 | Each unit's letters as the file writes them, one to three characters |
| UnitLexer.ActionAt | properties.py:86-152 | The token of each rule in definition order: operators, the fifteen units, then the shared rules |
| UnitLexer.SharedAction | properties.py:62-69 | Every `make_simple` rule emits the same token as the `CSSLexer` rule of the same name (see also properties.py:86-152) |
| UnitLexer.NotUrlFunctionShared | properties.py:128-130 | NOT, URI and FUNCTION have the `CSSLexer` patterns |
| UnitLexer.RuleStart | properties.py:62-156 | No rule matches the empty string, and each begins only with its start characters |
| UnitLexer.Tokenize | properties.py:162-172 | The driver's token loop returns the scan of the whole input |
| UnitLexer.UnitMatch | properties.py:71-78 | A unit rule at a digit matches when the unit's letters follow the longest number, and ends after them |
| UnitLexer.UnitFails | properties.py:71-78 | Otherwise the unit rule fails |
| UnitLexer.UnitRuleFirst | properties.py:95-122 | A number beginning with a digit and followed by the letters of one unit, and of no earlier unit: every earlier rule fails and that unit's rule takes the number and the letters (other starts: `NumberStarts.UnitRuleFirst`) |
| UnitLexer.UnitTokenAt | properties.py:95-122 | A number beginning with a digit and followed by the letters of one unit, and of no earlier unit, is one token of that unit covering the number and the letters (other starts: `NumberStarts.UnitTokenAt`; see also properties.py:71-78) |
| UnitLexer.PixelToken | properties.py:97 | `10px` is one PIXEL token |
| UnitLexer.EmToken | properties.py:95 | Unit rules need no word boundary: `10ems` gives EM `10em`, and the `s` is scanned on its own |
| UnitLexer.MillisecondToken | properties.py:115-116 | `10ms` is MILLISECOND, not MILLIMETER nor SECOND |
| UnitLexer.HertzToken | properties.py:121 | `10Hz`, `10hz` and `10HZ` are HERTZ |
| UnitLexer.KilohertzToken | properties.py:122 | `10kHz` is KILOHERTZ |
| UnitLexer.DimensionToken | properties.py:136 | A number beginning with a digit and followed by an ASCII name that begins with no unit's letters is one DIMENSION token (other starts: `NumberStarts.UnitDimensionToken`) |
| UnitLexer.KilogramDimension | properties.py:136 | `10kg` is one DIMENSION token |
| UnitLexer.IdentToken | properties.py:152 | An ASCII name not followed by `(` is one IDENT token |
| UnitLexer.FunctionToken | properties.py:130 | An ASCII name followed by `(`, other than `not(` and `url(`, is one FUNCTION token |
| UnitLexer.AtReported | properties.py:158-160 | This table has no at-rules: `@` is reported and skipped (see also properties.py:49-51) |
| UnitLexer.LoadedSharedAction | properties.py:62-78 | Apart from the unit rules, the loaded table holds the `CSSLexer` rules |
| UnitLexer.NoMeasureStep | properties.py:71-78 | In a table where the bare number rule precedes every unit rule, no step yields a unit token |
| UnitLexer.NoMeasureScan | properties.py:71-78 | Nor does any scan |
| UnitLexer.LoadedNoMeasure | properties.py:62-78 | The table as loaded never yields a unit token, whatever the input (see also properties.py:162) |
| UnitLexer.LoadedLosesPixel | properties.py:97 | Where definition order reads `10px` as PIXEL, the loaded table yields no unit token (see also properties.py:150) |
| NumberStarts.NumberEnd | lexer.py:43 | Where a number that begins with a digit, a sign or a point ends: always past its first character, within the input |
| NumberStarts.NumAtSign | lexer.py:43 | At a sign followed by a digit only the integer form of `num` matches: it reports the sign and the digit run, and never stops inside the sign |
| NumberStarts.NumberEnds | lexer.py:43 | Whichever way a number begins, `num` can end at the end of the longest number, and every shorter match stops on a digit or the point |
| NumberStarts.IdentOnlyAfterNumber | lexer.py:90-92 | No name begins where `num` stops short of the longest number |
| NumberStarts.CssSkips | lexer.py:61-116 | At any number the operator, NOT, URI, FUNCTION and HASH rules fail (a `-` before a digit begins no name) |
| NumberStarts.DimensionMatch | lexer.py:90-92 | At any number followed by an ASCII name, the DIMENSION pattern takes the longest number and the whole name |
| NumberStarts.DimensionToken | lexer.py:90-92 | Any number followed by an ASCII name (`10px`, `-10px`, `+2em`, `.5em`) is one DIMENSION token over both |
| NumberStarts.PercentageMatch | lexer.py:118-120 | At any number followed by `%`, the PERCENTAGE pattern takes the longest number and the `%` |
| NumberStarts.PercentageToken | lexer.py:118-120 | Any number followed by `%` (`5%`, `-5%`, `.5%`) is one PERCENTAGE token |
| NumberStarts.SignedSkips | lexer.py:61-162 | At a signed integer followed by neither a name nor `%`, every rule before NUMBER fails, `-->` among them |
| NumberStarts.SignedNumberToken | lexer.py:160-162 | A signed integer followed by neither a name nor `%` is one NUMBER token, sign included |
| NumberStarts.SignedNumberBeforePoint | lexer.py:160-162 | A signed integer followed by `.` is one NUMBER token that stops before the point |
| NumberStarts.SignedDecimalSplits | lexer.py:43 | `-1.5em` is the NUMBER `-1` and then the DIMENSION `.5em`: a sign never begins the decimal form (see also lexer.py:90-92) |
| NumberStarts.DashBeforeAnyPoint | lexer.py:53-54 | A `-` directly before `.` is the one-character token `-` |
| NumberStarts.DashBeforePoint | lexer.py:43 | `-.5em` is the token `-` and then the DIMENSION `.5em` (see also lexer.py:90-92) |
| NumberStarts.UnitOnlyAfterNumber | properties.py:71-78 | A unit's letters can follow a number only at the end of the longest number |
| NumberStarts.UnitsFail | properties.py:95-122 | At any number, the unit rules whose letters do not follow the number fail |
| NumberStarts.UnitMatch | properties.py:71-78 | At any number, a unit pattern whose letters follow the longest number takes the number and the letters |
| NumberStarts.UnitRuleFirst | properties.py:95-122 | Any number followed by the letters of one unit, and of no earlier unit: every earlier rule fails and that unit's rule takes the number and the letters |
| NumberStarts.UnitTokenAt | properties.py:95-122 | Any number (`-10px`, `+1em`, `.5em`) followed by the letters of one unit, and of no earlier unit, is one token of that unit |
| NumberStarts.UnitSkips | properties.py:86-135 | At any number no unit follows, every rule before DIMENSION fails |
| NumberStarts.UnitDimensionMatch | properties.py:136 | At any number followed by an ASCII name, this table's DIMENSION pattern takes the number and the name |
| NumberStarts.UnitDimensionToken | properties.py:136 | Any number followed by an ASCII name that begins with no unit's letters is one DIMENSION token in this table too |
| CssNegation.NegationNeedsParen | parser.py:270-271 | After `:` and NOT, an `sss_type` fails unless a separate `(` token follows |
| CssNegation.PseudoNegationArg | parser.py:275-282 | `negation_arg` admits `pseudo`: `:` and a name are a pseudo-class argument (see also parser.py:238-245) |
| CssNegation.ClassNegation | parser.py:270-284 | `:`, NOT, `(`, `.`, a name and `)` make the negation of that class |
| CssNegation.LeadingNegationRejected | parser.py:270-271 | Tokens that open with `:` and NOT, without a separate `(`, are no stylesheet, and `parse` rejects them having appended nothing |
| CssNegation.NotPointTokens | lexer.py:98-100 | An input that begins `:not(.` (no digit after the point) lexes to `:`, the NOT token `not(` and `.` |
| CssNegation.NotPointRejected | parser.py:270-271 | Every input that begins `:not(.`, the usual spelling of a class negation, is rejected with nothing appended (see also lexer.py:98-100) |
| CssNegation.NotClassRejected | parser.py:270-271 | `:not(.y){}` is no stylesheet and is rejected |
| TokenStream.SpanSplit | parser.py:34 | Adjacent runs of tokens spell the concatenation of their texts |
| CssGrammar.ParsePrefix | parser.py:216-222 | A namespace prefix is recognised, consuming tokens exactly when there is one |
| CssGrammar.ParseHead | parser.py:201-213 | A type or universal selector, when recognised, consumes tokens exactly when there is one |
| CssGrammar.ParseTypes | parser.py:184-199 | The `sss_types` consume tokens exactly when there is at least one |
| CssGrammar.ExpressionsEnd | parser.py:252-268 | The run of expression tokens ends at the first token that is none |
| CssGrammar.ParsePlain | parser.py:191-199 | A plain `sss_type` is never a negation |
| CssGrammar.ParseGroup | parser.py:148-155 | A recognised selector group holds at least one selector |
| CssGrammar.ParseDeclarations | parser.py:78-84 | Recognised declarations hold at least one declaration |
| CssGrammar.ParseRulesets | parser.py:30-42 | Recognised statements run to the end of the tokens and hold at least one ruleset |
| CssGrammarFacts.PrefixSpells | parser.py:216-222 | A namespace prefix's text is what its tokens spell |
| CssGrammarFacts.HeadSpells | parser.py:201-213 | A type or universal selector's text is what its tokens spell |
| CssGrammarFacts.AttribSpells | parser.py:290-315 | An attribute selector's text is what its tokens spell |
| CssGrammarFacts.ExpressionsSpell | parser.py:252-268 | A run of expression tokens spells its own text and lies within terminal tokens |
| CssGrammarFacts.PseudoSpells | parser.py:238-250 | A pseudo-class's text is what its tokens spell |
| CssGrammarFacts.NegationSpells | parser.py:270-284 | A negation's text is `:`, the NOT token, the separate `(`, its argument and `)` |
| CssGrammarFacts.SimpleSpells | parser.py:191-199 | An `sss_type`'s text is what its tokens spell |
| CssGrammarFacts.TypesSpell | parser.py:184-189 | The `sss_types`' text is what their tokens spell |
| CssGrammarFacts.SequenceSpells | parser.py:174-182 | A simple selector sequence's text is what its tokens spell |
| CssGrammarFacts.TypesTakeAll | parser.py:184-189 | The `sss_types` take every `sss_type` that follows them (the shift) |
| CssGrammarFacts.SequenceTakesAll | parser.py:174-189 | No `sss_type` can begin right after a simple selector sequence |
| CssGrammarFacts.SelectorJoins | parser.py:157-163 | A selector's text is its sequences and combinators with one space between each two |
| CssGrammarFacts.SelectorSpells | parser.py:157-172 | Without those spaces, a selector's parts spell exactly its tokens |
| CssGrammarFacts.GroupStep | parser.py:148-155 | A selector group is a selector, then either `,` and the rest of the group or its end |
| CssGrammarFacts.GroupWithin | parser.py:148-155 | A selector group holds no CDO, CDC or at-rule token |
| CssGrammarFacts.AnySpells | parser.py:120-139 | An `any`'s text is what its tokens spell |
| CssGrammarFacts.EnclosedSpells | parser.py:120-139 | Enclosed terms and the closing character spell their tokens |
| CssGrammarFacts.TermsSpell | parser.py:97-118 | `values` and `anys` spell their tokens, `,` included |
| CssGrammarFacts.DeclarationSpells | parser.py:86-95 | A declaration's text is the property, `:` and the values |
| CssGrammarFacts.DeclarationsSpell | parser.py:78-84 | Declarations spell their tokens, with the `;` between and after them |
| CssGrammarFacts.RulesetsWithin | parser.py:30-42 | Statements hold no CDO, CDC or at-rule token (see also parser.py:69-76) |
| CssGrammarFacts.MarkupAlone | parser.py:22-42 | In an accepted stylesheet a CDO or CDC token is the whole stylesheet, and no at-rule token appears at all |
| CssParsing.Lex | parser.py:16-18 | The tokens `parse` hands the grammar are those the `CSSLexer` table makes of the input |
| CssParsing.GroupAppendsReversed | parser.py:148-155 | A group of `n` selectors appends `n` entries, each one selector's text, the last selector first |
| CssParsing.RulesetStep | parser.py:69-76 | One more ruleset: its group's appends come once its `{` is seen, and a failure after that keeps them (see also parser.py:148-155) |
| CssParsing.StatementsAccepted | parser.py:30-42 | The parse from a position is accepted exactly when the rest of the tokens are rulesets; it then replies with their text and appends their groups in order |
| CssParsing.RunAccepted | parser.py:22-42 | The parse accepts exactly the token lists that are a stylesheet, replies with the stylesheet's text and appends every group's selectors, rulesets in source order |
| CssParsing.CssParser.constructor | parser.py:10-14 | A new parser has appended nothing |
| CssParsing.CssParser.AppendGroup | parser.py:148-155 | The loop of a group's reductions adds exactly that group's appends to `selectors` |
| CssParsing.CssParser.Parse | parser.py:16-20 | Empty input is answered with `[]` and changes nothing; otherwise the reply is the grammar's on the input's tokens, and `selectors` grows by that parse's appends |
| CssParsing.CssParser.ParseTokens | parser.py:16-18 | The parser loop's reply and appends are those of the grammar on the tokens |
| PropertyGrammar.ParseAnys | properties.py:216-221 | Recognised `anys` hold at least one `any` |
| PropertyGrammar.ParseDeclarations | properties.py:182-188 | Recognised declarations hold at least one declaration |
| PropertyGrammarFacts.AnyShape | properties.py:223-257 | A recognised `any` is one admitted token, or a name, `(`, `(` or `[` followed by what it encloses |
| PropertyGrammarFacts.AnySpells | properties.py:223-257 | An `any`'s text is what its tokens spell, and it holds no `,` |
| PropertyGrammarFacts.ArgsSpell | properties.py:248-253 | Enclosed `anys` and the closing character spell their tokens |
| PropertyGrammarFacts.AnysSpell | properties.py:216-221 | `anys` spell their tokens and hold no `,` |
| PropertyGrammarFacts.ValuesSpell | properties.py:200-214 | `values` spell their tokens, `,` included |
| PropertyGrammarFacts.DeclarationSpells | properties.py:190-198 | A declaration's text is the property, `:` and the values |
| PropertyGrammarFacts.DeclarationsSpell | properties.py:182-188 | Declarations spell their tokens, with the `;` between and after them |
| PropertyGrammarFacts.PropertiesSpell | properties.py:182-257 | What the start symbol accepts spells the whole token list |
| PropertyGrammarFacts.SingleTokenAny | properties.py:223-247 | One token is an `any` by itself exactly when it is one of the 24 admitted kinds and not a name directly before `(` |
| PropertyGrammarFacts.NameThenParen | properties.py:248-249 | A name directly before `(` can only begin a call of that name |
| PropertyGrammarFacts.FunctionRejected | properties.py:223-257 | A FUNCTION token begins no `any` and no `values` |
| PropertyGrammarFacts.CommaSeparatedValues | properties.py:200-206 | `a , b` is a comma-separated `values` |
| PropertyGrammarFacts.CommaInParensRejected | properties.py:216-221 | `( a , b )` is no `any`: inside parentheses `anys` are only juxtaposed (see also properties.py:250) |
| PropertyGrammarFacts.SpacedCall | properties.py:248 | `rgb (1)` is IDENT, `(`, NUMBER, `)`, a call spelled `rgb(1)` |

## Left out

- The `print` tracing in every action, `logging` in `CSSLexer.debug`, and the illegal-character message. Diagnostics are kept as data instead.
- Line counting in `t_newline` (lexer.py:176-178). The rule can never fire, and line numbers feed only messages.
- The lexer and parser generators themselves (LALR table construction, the `debug` flags). Their behaviour is modelled directly: first-match rule choice and shift-preferring recognisers.
- PLY error recovery after `p_error`. The parse stops at the first syntax error. Selectors appended before that error stay appended.
- The commented-out productions (`at-rule`, `block`, `block_term`, the `S` combinator, the `DIMENSION` expression). They are not part of the grammar.
- The file reads and the driver loops of `properties.py` (properties.py:165-172, 265-277). The input string is a parameter, and `UnitLexer.Tokenize` is the token loop.
- css3tool.py and the lxml selector matching it imports are not part of this model.
- Rules whose patterns accept characters outside ASCII (the `nonascii` and `escape` branches) are modelled in full. The token lemmas cover the ASCII inputs they name.
- Regex.Lower: folds ASCII only. That is the case folding `re.IGNORECASE` applies to a Python 2 byte string; Unicode folding is not modelled.
- CssGrammar.ParseRulesets and the other recognisers are deterministic functions that shift wherever the grammar leaves a choice. The other resolutions an LALR table could take are not modelled.
- CssLexer.DimensionToken: covers names of ASCII name characters only; a name with a non-ASCII byte or an escape is not covered.
- NumberStarts.DimensionToken: the same ASCII-name restriction.
- NumberStarts.UnitDimensionToken: the same ASCII-name restriction.
- UnitLexer.DimensionToken: the same ASCII-name restriction.
- CssLexer.UriToken, CssLexer.IdentToken, CssLexer.FunctionToken and the other token lemmas: each states the token for the inputs it names (ASCII names, unquoted URLs, comments without `*`), not for every input.
- UnitLexer.LoadedShared: the lexer generator's order among the `make_simple` rules, which all share one line, is not fixed by the source. The model uses definition order. `UnitLexer.NoMeasureScan` holds for any order in which the bare number precedes the unit rules.

## Findings

| source | as written | input that shows it | evidently intended | confidence | as-written member | corrected member |
|---|---|---|---|---|---|---|
| properties.py:62-78, properties.py:95-152 | The lexer generator orders function rules by the line where their code begins. Every rule built by `make_simple` has its code at line 64, and every one built by `make_unit` at line 73. So all `make_simple` rules, NUMBER and DIMENSION among them, come before every unit rule, and NUMBER matches wherever a unit rule would. | `10px` yields no PIXEL token: DIMENSION, loaded before it, matches first | Rules in the order they are defined, as the file's own comment says (properties.py:13-18), so `10px` is one PIXEL token | medium, not executed | UnitLexer.LoadedNoMeasure | UnitLexer.PixelToken |
