# syntrax core in Dafny

Syntrax turns a W3C-style EBNF grammar into railroad (syntax) diagrams. Its
core is made of three parts, and this project models each one and proves
properties about it:

- **EbnfParser** (`ebnf_parser.dfy`): the Parslet PEG grammar that
  recognises EBNF productions. Each rule is a function from an input and a
  position to the position where its match ends, or `None`. Ordered choice,
  greedy repetition, `maybe` and the `absent?` lookahead behave as Parslet's
  do: a repetition never gives back what it took, and an alternative is
  tried only when the earlier ones fail. `Parses(text)` holds when the root
  rule consumes the whole text, as `EbnfParser.new.parse` requires.
- **EbnfProperties**, **EbnfExamples**, **EbnfLineBreaks** and
  **EbnfGrammar** state what the rules accept. The properties are exact
  characterisations of the lexical rules and how the structural rules step.
  The examples are the accept and reject cases of the repository's parser
  tests. The line-break lemmas cover which line breaks a grammar text can
  end with. The grammar lemmas state which whole texts the root rule
  accepts: leading whitespace, then productions separated by line breaks.
- **Transformer** (`transformer.dfy`): the six `Parslet::Transform` rules
  that turn the capture tree into diagram data. They are applied as Parslet
  applies them: children first, then the first rule that matches. The
  result is proved to be in normal form, and the transformation is proved
  idempotent.
- **Diagram** (`diagram.dfy`): the private `transform` serialiser that
  writes diagram data as the JavaScript expression given to the diagram
  library. It models Ruby's `String#inspect` for terminals, and `nil` for
  data it does not handle, which interpolates as the empty string. The
  inspect encoding is proved to read back, and so to be injective.

Four consequences of the code as written are stated as lemmas:

- `char_class` never matches, because its `char` alternative also takes
  `]`.
- The link in the grammar's own definition of `NCName` does not parse,
  because the fragment name stops at the hyphen of `NT-NCName`.
- A text whose last line break is followed only by spaces or tabs is never
  accepted. That covers a text ending in a newline, such as the heredoc in
  test/transformer_spec.rb:62-66 and the indented `%Q{...}` of the skipped
  whole-grammar test in test/ebnf_parser_spec.rb:12-42.
- Not every run of comments is whitespace. In "/\*\*/" followed by
  "/\*/\*\*/" each half is a comment on its own, but the first comment's
  search for its closer runs into the second opener.

## Model

| member | source | states |
|---|---|---|
| EbnfParser.Str | lib/syntrax/ebnf_parser.rb:53 | `str(lit)` consumes exactly the literal |
| EbnfParser.Match | lib/syntrax/ebnf_parser.rb:56-57 | a `match[...]` atom consumes exactly one character |
| EbnfParser.Any | lib/syntrax/ebnf_parser.rb:37 | `any` matches exactly when input remains, and takes one character |
| EbnfParser.Many | lib/syntrax/ebnf_parser.rb:42 | `match[...].repeat(0)` stops at the end of input or at the first character not in the class |
| EbnfParser.Many1 | lib/syntrax/ebnf_parser.rb:48 | `repeat(1)` succeeds exactly when the first character is in the class, and then ends where `repeat(0)` ends |
| EbnfParser.Spaces | lib/syntrax/ebnf_parser.rb:33 | `space.repeat(0)` never fails and never moves backwards |
| EbnfParser.PaddedStr | lib/syntrax/ebnf_parser.rb:32-34 | `padded { str(lit) }` consumes at least the literal |
| EbnfParser.AnyNotBefore | lib/syntrax/ebnf_parser.rb:36-37 | the lookahead repetition stops at the end of input or just before the atom |
| EbnfParser.AnyUpUntil | lib/syntrax/ebnf_parser.rb:36-38 | `any_up_until` never fails |
| EbnfParser.Name | lib/syntrax/ebnf_parser.rb:42 | `name` matches exactly at an upper-case letter, and the match ends where no letter follows |
| EbnfParser.Quoted | lib/syntrax/ebnf_parser.rb:47 | a quoted literal takes at least its two quotes |
| EbnfParser.StringLiteral | lib/syntrax/ebnf_parser.rb:47 | a string literal takes at least its two quotes |
| EbnfParser.CharCode | lib/syntrax/ebnf_parser.rb:48 | a char code takes "#x" and at least one digit |
| EbnfParser.Char | lib/syntrax/ebnf_parser.rb:50 | `char` takes one character |
| EbnfParser.CharRange | lib/syntrax/ebnf_parser.rb:51 | a char range takes three characters |
| EbnfParser.CharCodeRange | lib/syntrax/ebnf_parser.rb:52 | a char-code range takes at least seven characters |
| EbnfParser.ClassItem | lib/syntrax/ebnf_parser.rb:49 | one class item takes at least one character |
| EbnfParser.ClassItems | lib/syntrax/ebnf_parser.rb:49 | the repetition of class items never fails |
| EbnfParser.CharClass | lib/syntrax/ebnf_parser.rb:49 | a char class takes at least "[", an item and "]" |
| EbnfParser.Url | lib/syntrax/ebnf_parser.rb:54 | a URL takes at least a scheme character, "://" and a body character; EbnfExamples.UrlMatches states exactly which texts are URLs |
| EbnfParser.Link | lib/syntrax/ebnf_parser.rb:53 | a link takes at least seven characters |
| EbnfParser.Space | lib/syntrax/ebnf_parser.rb:57 | `space` takes one character |
| EbnfParser.NewLine | lib/syntrax/ebnf_parser.rb:56 | `new_line` takes one character |
| EbnfParser.Comment | lib/syntrax/ebnf_parser.rb:58 | a comment takes at least its opener and closer |
| EbnfParser.Whitespace | lib/syntrax/ebnf_parser.rb:55 | one whitespace takes at least one character |
| EbnfParser.Whitespaces | lib/syntrax/ebnf_parser.rb:40 | `whitespace.repeat(0)` never fails |
| EbnfParser.Whitespaces1 | lib/syntrax/ebnf_parser.rb:55 | `whitespace.repeat(1)` takes at least one character; EbnfProperties.WhitespaceChainAccepted states which runs it accepts |
| EbnfParser.Choice | lib/syntrax/ebnf_parser.rb:43 | a choice takes at least one character |
| EbnfParser.ChoiceTail | lib/syntrax/ebnf_parser.rb:43 | the repeated "\| alternative" part never fails |
| EbnfParser.SeqOrDiff | lib/syntrax/ebnf_parser.rb:44 | a sequence or difference takes at least one character |
| EbnfParser.SeqTail | lib/syntrax/ebnf_parser.rb:44 | the repeated "spaces, item" part never fails |
| EbnfParser.Item | lib/syntrax/ebnf_parser.rb:45 | an item takes at least one character |
| EbnfParser.Primary | lib/syntrax/ebnf_parser.rb:46 | a primary takes at least one character |
| EbnfParser.Parenthesised | lib/syntrax/ebnf_parser.rb:46 | a parenthesised choice takes at least "(", a character and ")" |
| EbnfParser.Production | lib/syntrax/ebnf_parser.rb:41 | a production takes at least five characters |
| EbnfParser.Productions | lib/syntrax/ebnf_parser.rb:40 | the repeated "line breaks, production" part never fails |
| EbnfParser.Grammar | lib/syntrax/ebnf_parser.rb:40 | the root rule needs at least one production; EbnfGrammar.GrammarAccepts states which texts it accepts |
| EbnfParser.Maybe | lib/syntrax/ebnf_parser.rb:45 | `x.maybe` never fails: it ends where x ends when x matches, and where it started otherwise |
| EbnfParser.Parses | lib/syntrax/ebnf_parser.rb:30 | an accepted text is at least five characters long: a name, "::=" and a primary |
| EbnfProperties.ManyAll | lib/syntrax/ebnf_parser.rb:42 | every character a greedy repetition passes over is in its class |
| EbnfProperties.ManyEnd | lib/syntrax/ebnf_parser.rb:42 | a greedy repetition ends at the first character outside its class |
| EbnfProperties.ManyIs | lib/syntrax/ebnf_parser.rb:42 | both directions: `repeat(0)` ends at `e` exactly when the characters before `e` are in the class and the one at `e` is not |
| EbnfProperties.AnyNotBeforeClear | lib/syntrax/ebnf_parser.rb:36-37 | the `absent?` lookahead held after every character the repetition took |
| EbnfProperties.NameMatches | lib/syntrax/ebnf_parser.rb:42 | both directions: `name` matches `s[pos..e]` exactly when that is an upper-case letter followed by letters, with no letter after it |
| EbnfProperties.NameAccepts | lib/syntrax/ebnf_parser.rb:42 | a whole input is a name exactly when it is an upper-case letter followed by letters |
| EbnfProperties.NameExamples | test/ebnf_parser_spec.rb:57-62 | "A", "AB", "Ab" and "AbC" are names; "abC" and "A B" are not |
| EbnfProperties.CommentMatches | lib/syntrax/ebnf_parser.rb:58 | a comment matches exactly when "/*" is followed by a "*/" starting at least two characters later. It ends at the first "*/" that does not overlap the opener, except that "/**/" extends to a later closer when one exists |
| EbnfProperties.CommentWhole | lib/syntrax/ebnf_parser.rb:58 | "/*" + body + "*/" is one whole comment when the body holds no closer |
| EbnfProperties.CommentAt | lib/syntrax/ebnf_parser.rb:58 | a comment with a non-empty body ends after its first closer |
| EbnfProperties.CommentExamplesShort | test/ebnf_parser_spec.rb:89-90 | "/\*\*/" and "/\* \*/" are comments |
| EbnfProperties.CommentExamplesStars | test/ebnf_parser_spec.rb:91-92 | "/\*\*\*/" and "/\*\*\*\*\*/" are comments |
| EbnfProperties.CommentWithTextExample | test/ebnf_parser_spec.rb:93 | a comment with text and runs of stars on both sides is accepted |
| EbnfProperties.CommentExampleOverlap | test/ebnf_parser_spec.rb:94 | "/\*/" is not a comment |
| EbnfProperties.CommentExampleLine | test/ebnf_parser_spec.rb:95 | a line comment is not a comment |
| EbnfProperties.CommentSkipsEarlyCloser | lib/syntrax/ebnf_parser.rb:36-38 | "/\*\*/\*/" is one comment: the lookahead repetition passes over the first closer |
| EbnfProperties.StringLiteralMatches | lib/syntrax/ebnf_parser.rb:47 | both directions: a string literal is a quote, characters other than that quote, and the same quote |
| EbnfProperties.CharCodeMatches | lib/syntrax/ebnf_parser.rb:48 | both directions: a char code is "#x" and a maximal non-empty run of hex digits |
| EbnfProperties.CharCodeExamples | lib/syntrax/ebnf_parser.rb:48 | "#x" alone is not a char code; "#x9", "#x20" and "#xA" are |
| EbnfProperties.ClassItemIsOnePrintable | lib/syntrax/ebnf_parser.rb:49-50 | a class item is always a single printable character, because `char` is tried first |
| EbnfProperties.ClassItemsStopAtNonPrintable | lib/syntrax/ebnf_parser.rb:49 | the class-item repetition is the run of printable characters, "]" included |
| EbnfProperties.CharClassNeverMatches | lib/syntrax/ebnf_parser.rb:49 | `char_class` matches no input at any position |
| EbnfProperties.WhitespacesSkipBlanks | lib/syntrax/ebnf_parser.rb:55-57 | a run of spaces, tabs and line breaks is passed over by `whitespace.repeat(0)` |
| EbnfProperties.BlankRunAccepted | lib/syntrax/ebnf_parser.rb:55-57 | a non-empty input of blanks is accepted by `whitespace.repeat(1)` |
| EbnfProperties.WhitespacesFollowChain | lib/syntrax/ebnf_parser.rb:55-58 | `whitespace.repeat(0)` follows a chain of whitespace tokens, each starting where the previous one ended, to its last position when no token starts there |
| EbnfProperties.WhitespaceChainAccepted | lib/syntrax/ebnf_parser.rb:55-58 | a text that is a chain of one or more whitespace tokens (blanks or comments), each starting where the previous one ended, is accepted by `whitespace.repeat(1)` |
| EbnfProperties.PrimaryByFirstChar | lib/syntrax/ebnf_parser.rb:46 | the first character decides which alternative of `primary` can match; any other character starts no primary |
| EbnfProperties.ItemMatches | lib/syntrax/ebnf_parser.rb:45 | an item is a primary with at most one cardinality mark |
| EbnfProperties.DifferenceFirst | lib/syntrax/ebnf_parser.rb:44 | when a padded "-" and an item follow the first item, the difference is taken |
| EbnfProperties.SequenceWithoutDifference | lib/syntrax/ebnf_parser.rb:44 | without a "-", the rest is the sequence repetition |
| EbnfProperties.SeqTailStep | lib/syntrax/ebnf_parser.rb:44 | spaces followed by an item continue a sequence |
| EbnfProperties.SeqTailStop | lib/syntrax/ebnf_parser.rb:44 | a sequence ends where no spaces and item follow |
| EbnfProperties.SeqTailNeedsSpace | lib/syntrax/ebnf_parser.rb:44 | a sequence continues only after a space or tab |
| EbnfProperties.ChoiceTailStep | lib/syntrax/ebnf_parser.rb:43 | a padded "\|" followed by an alternative continues a choice |
| EbnfProperties.ChoiceTailStop | lib/syntrax/ebnf_parser.rb:43 | a choice ends where no "\|" follows |
| EbnfExamples.SpacesEnd | lib/syntrax/ebnf_parser.rb:33 | spaces end at the first non-space |
| EbnfExamples.NameEnd | lib/syntrax/ebnf_parser.rb:46 | a name is a primary |
| EbnfExamples.CodeEnd | lib/syntrax/ebnf_parser.rb:46 | a char code is a primary |
| EbnfExamples.QuotedEnd | lib/syntrax/ebnf_parser.rb:46 | a quoted literal is a primary |
| EbnfExamples.GroupOpens | lib/syntrax/ebnf_parser.rb:46 | "(" and spaces open a group |
| EbnfExamples.GroupCloses | lib/syntrax/ebnf_parser.rb:46 | spaces and ")" close a group |
| EbnfExamples.Group | lib/syntrax/ebnf_parser.rb:46 | a choice in parentheses is a primary |
| EbnfExamples.PlainItem | lib/syntrax/ebnf_parser.rb:45 | a primary with no mark after it is an item of the same length |
| EbnfExamples.MarkedItem | lib/syntrax/ebnf_parser.rb:45 | a primary followed by a mark is an item one character longer |
| EbnfExamples.NameItem | lib/syntrax/ebnf_parser.rb:45 | an unmarked name is an item |
| EbnfExamples.QuotedItem | lib/syntrax/ebnf_parser.rb:45 | an unmarked literal is an item |
| EbnfExamples.NoItemAt | lib/syntrax/ebnf_parser.rb:45-46 | no item starts at a character that starts no primary |
| EbnfExamples.SeqFirst | lib/syntrax/ebnf_parser.rb:44 | an item not followed by "-" starts a sequence |
| EbnfExamples.SeqMore | lib/syntrax/ebnf_parser.rb:44 | a gap and an item extend a sequence |
| EbnfExamples.SeqEnd | lib/syntrax/ebnf_parser.rb:44 | a sequence ends where no gap and item follow |
| EbnfExamples.LoneItem | lib/syntrax/ebnf_parser.rb:44 | a single item is a whole sequence |
| EbnfExamples.PaddedDash | lib/syntrax/ebnf_parser.rb:32-34 | a "-" padded by spaces is taken with its padding |
| EbnfExamples.Difference | lib/syntrax/ebnf_parser.rb:44 | "item - item" is a difference ending after the second item |
| EbnfExamples.NameAlt | lib/syntrax/ebnf_parser.rb:44 | a lone name is an alternative |
| EbnfExamples.CodeAlt | lib/syntrax/ebnf_parser.rb:44 | a lone char code is an alternative |
| EbnfExamples.Bar | lib/syntrax/ebnf_parser.rb:43 | "\|" and an alternative continue a choice |
| EbnfExamples.NoBar | lib/syntrax/ebnf_parser.rb:43 | a choice ends where no "\|" follows |
| EbnfExamples.ChoiceOf | lib/syntrax/ebnf_parser.rb:43 | an alternative and its continuation form a choice |
| EbnfExamples.Head | lib/syntrax/ebnf_parser.rb:41 | a name and a padded "::=" start a production |
| EbnfExamples.ProductionOf | lib/syntrax/ebnf_parser.rb:41 | a head, a choice and trailing spaces form a production |
| EbnfExamples.SequenceExampleOne | test/ebnf_parser_spec.rb:80 | "X" is a sequence |
| EbnfExamples.SequenceExampleTwo | test/ebnf_parser_spec.rb:81 | "X Y" is a sequence |
| EbnfExamples.SequenceExampleThree | test/ebnf_parser_spec.rb:82 | "X  Y   Z" is a sequence |
| EbnfExamples.DifferenceExample | lib/syntrax/ebnf_parser.rb:44 | "X - Y Z" is a difference that stops after "Y", so it is not one whole sequence |
| EbnfExamples.ChoiceExampleOne | test/ebnf_parser_spec.rb:69 | "X" is a choice |
| EbnfExamples.ChoiceExampleTight | test/ebnf_parser_spec.rb:70 | "X\|Y" is a choice |
| EbnfExamples.ChoiceExampleSpaced | test/ebnf_parser_spec.rb:71 | "X \| Y \| Z" is a choice |
| EbnfExamples.ChoiceExampleGroup | test/ebnf_parser_spec.rb:72 | "X \| (Y) \| Z" is a choice |
| EbnfExamples.ChoiceExampleRepeatedGroup | test/ebnf_parser_spec.rb:73 | a choice with a repeated group and wide padding is accepted |
| EbnfExamples.ProductionExampleLink | test/ebnf_parser_spec.rb:48 | "Link    ::= '[' URL ']'" is a production |
| EbnfExamples.ProductionExampleRepeat | test/ebnf_parser_spec.rb:49 | "Grammar ::= Production*" is a production |
| EbnfExamples.ProductionExampleCodes | test/ebnf_parser_spec.rb:50 | "S       ::= #x9 \| #xA \| #xD \| #x20" is a production |
| EbnfExamples.UrlHead | lib/syntrax/ebnf_parser.rb:54 | a URL's scheme, "://" and body are maximal runs |
| EbnfExamples.UrlWithFragment | lib/syntrax/ebnf_parser.rb:54 | a URL with "#" and a name ends after the name |
| EbnfExamples.FragmentEnd | lib/syntrax/ebnf_parser.rb:54 | `('#' >> name).maybe` after a URL body ends after the name when "#" and an upper-case letter follow, and at the body's end otherwise |
| EbnfExamples.UrlEnd | lib/syntrax/ebnf_parser.rb:54 | every scheme, "://" and body is a URL, which ends where its optional fragment ends |
| EbnfExamples.FragmentUnique | lib/syntrax/ebnf_parser.rb:54 | where the optional fragment ends is decided by where the body ends |
| EbnfExamples.UrlMatches | lib/syntrax/ebnf_parser.rb:54 | both directions: `url` matches `s[pos..e]` exactly when that is a maximal run of scheme characters, "://", a maximal run of body characters, and "#" and a name when a "#" and an upper-case letter follow |
| EbnfExamples.LinkAround | lib/syntrax/ebnf_parser.rb:53 | a link matches exactly when "]" follows the URL |
| EbnfExamples.NoChoiceAt | lib/syntrax/ebnf_parser.rb:43-46 | no choice starts at a character that starts no primary |
| EbnfExamples.LinkExampleFragment | lib/syntrax/ebnf_parser.rb:53-54 | a bracketed URL with a fragment name is a link |
| EbnfExamples.ProductionWithoutDefinition | lib/syntrax/ebnf_parser.rb:41 | a production fails when its definition is neither a choice nor a link |
| EbnfExamples.CutLink | lib/syntrax/ebnf_parser.rb:53-54 | a link whose fragment name is followed by something other than "]" is neither a choice nor a link |
| EbnfExamples.ProductionExampleHyphenLink | lib/syntrax/ebnf_parser.rb:8 | the grammar's own production for NCName does not parse |
| EbnfExamples.WhitespaceExamples | test/ebnf_parser_spec.rb:103-106 | a space, a tab, "\r" and "\n" are whitespace |
| EbnfExamples.WhitespaceExampleBlanks | test/ebnf_parser_spec.rb:108 | a mixed run of blanks is whitespace |
| EbnfExamples.CommentWhitespace | lib/syntrax/ebnf_parser.rb:55 | a comment is one whitespace |
| EbnfExamples.WhitespaceExampleComment | test/ebnf_parser_spec.rb:107 | a comment alone is whitespace |
| EbnfExamples.WhitespaceExampleMixed | test/ebnf_parser_spec.rb:109 | blanks, a comment and more blanks are whitespace |
| EbnfExamples.WhitespaceExampleTwoComments | lib/syntrax/ebnf_parser.rb:55-58 | two comments back to back are one run of whitespace |
| EbnfExamples.CommentExampleOpenerInBody | lib/syntrax/ebnf_parser.rb:58 | "/\*/\*\*/" is one comment |
| EbnfExamples.WhitespaceRunCutByComment | lib/syntrax/ebnf_parser.rb:55-58 | "/\*\*/" followed by "/\*/\*\*/" is not a run of whitespace: the first token ends at 7, inside the second comment |
| EbnfLineBreaks.LastOfStr | lib/syntrax/ebnf_parser.rb:53 | a one-character literal ends on that character |
| EbnfLineBreaks.LastOfRun | lib/syntrax/ebnf_parser.rb:42 | a non-empty run ends on a character of its class |
| EbnfLineBreaks.RunStopsAt | lib/syntrax/ebnf_parser.rb:33 | a run stops at the first character outside its class |
| EbnfLineBreaks.NameEndsOnMark | lib/syntrax/ebnf_parser.rb:42 | a name ends on a letter |
| EbnfLineBreaks.StringLiteralEndsOnMark | lib/syntrax/ebnf_parser.rb:47 | a string literal ends on its closing quote |
| EbnfLineBreaks.CharCodeEndsOnMark | lib/syntrax/ebnf_parser.rb:48 | a char code ends on a hex digit |
| EbnfLineBreaks.CharClassEndsOnMark | lib/syntrax/ebnf_parser.rb:49 | a char class ends on "]" |
| EbnfLineBreaks.ParenthesisedEndsOnMark | lib/syntrax/ebnf_parser.rb:46 | a parenthesised choice ends on ")" |
| EbnfLineBreaks.PrimaryEndsOnMark | lib/syntrax/ebnf_parser.rb:46 | every primary ends on a non-blank character |
| EbnfLineBreaks.ItemEndsOnMark | lib/syntrax/ebnf_parser.rb:45 | every item ends on a non-blank character |
| EbnfLineBreaks.SeqTailEndsOnMark | lib/syntrax/ebnf_parser.rb:44 | a sequence continuation is empty or ends on a non-blank character |
| EbnfLineBreaks.SeqOrDiffEndsOnMark | lib/syntrax/ebnf_parser.rb:44 | every sequence or difference ends on a non-blank character |
| EbnfLineBreaks.ChoiceTailEndsOnMark | lib/syntrax/ebnf_parser.rb:43 | a choice continuation is empty or ends on a non-blank character |
| EbnfLineBreaks.ChoiceEndsOnMark | lib/syntrax/ebnf_parser.rb:43 | every choice ends on a non-blank character |
| EbnfLineBreaks.LinkEndsOnMark | lib/syntrax/ebnf_parser.rb:53 | every link ends on "]" |
| EbnfLineBreaks.DefinitionEndsOnMark | lib/syntrax/ebnf_parser.rb:41 | the definition in a production ends on a non-blank character |
| EbnfLineBreaks.MarkBeforeBreak | lib/syntrax/ebnf_parser.rb:41 | the trailing padding of a production cannot cross a line break |
| EbnfLineBreaks.ProductionStopsAtBreak | lib/syntrax/ebnf_parser.rb:41 | a production never runs past a line break followed only by spaces or tabs |
| EbnfLineBreaks.ProductionsStopAtBreak | lib/syntrax/ebnf_parser.rb:40 | neither does the repetition of productions |
| EbnfLineBreaks.GrammarStopsAtBreak | lib/syntrax/ebnf_parser.rb:40 | neither does the root rule |
| EbnfLineBreaks.BreakThenSpacesNeverParses | lib/syntrax/ebnf_parser.rb:40-41 | a text whose last line break is followed only by spaces or tabs is rejected |
| EbnfLineBreaks.TrailingBreakNeverParses | lib/syntrax/ebnf_parser.rb:40-41 | a text ending in a line break is rejected |
| EbnfGrammar.ProductionStart | lib/syntrax/ebnf_parser.rb:41 | a production never starts on a line break |
| EbnfGrammar.ProductionsStep | lib/syntrax/ebnf_parser.rb:40 | line breaks followed by a production are one step of the repetition of productions |
| EbnfGrammar.ProductionsAtEnd | lib/syntrax/ebnf_parser.rb:40 | at the end of the text the repetition of productions stops |
| EbnfGrammar.ChainStep | lib/syntrax/ebnf_parser.rb:40 | between two neighbouring productions of a chain the repetition takes one step |
| EbnfGrammar.ProductionsFollowChain | lib/syntrax/ebnf_parser.rb:40 | the repetition of productions follows a chain of productions separated by line breaks to the end of the text |
| EbnfGrammar.GrammarAccepts | lib/syntrax/ebnf_parser.rb:40 | a text made of leading whitespace and one or more productions separated only by line breaks, the last one ending at the end of the text, is accepted |
| EbnfGrammar.GrammarOfTwo | lib/syntrax/ebnf_parser.rb:40 | two productions with only line breaks between them, after leading whitespace, are accepted |
| EbnfGrammar.NoWhitespaceAtName | lib/syntrax/ebnf_parser.rb:55 | no whitespace starts at an upper-case letter |
| EbnfGrammar.GrammarExampleOne | lib/syntrax/ebnf_parser.rb:40 | "Grammar ::= Production*" is accepted as a whole text |
| EbnfGrammar.TwoProductionsFirst | lib/syntrax/ebnf_parser.rb:41 | "A ::= B \| C" after a line feed is a production that stops before the carriage return |
| EbnfGrammar.TwoProductionsSecond | lib/syntrax/ebnf_parser.rb:41 | "B ::= 'c'" is a production |
| EbnfGrammar.TwoProductionsBreaks | lib/syntrax/ebnf_parser.rb:40 | the leading line feed is whitespace, and "\r\n" lies between the two productions |
| EbnfGrammar.GrammarExampleTwo | lib/syntrax/ebnf_parser.rb:40 | a text with a leading line feed and two productions separated by "\r\n" is accepted |
| Transformer.Matches | lib/syntrax/transformer.rb:4-9 | a rule matches only a hash whose keys are all keys of its pattern |
| Transformer.Apply | lib/syntrax/transformer.rb:4-9 | a value no rule matches is left as it is; a matched one becomes a simple value or an array of simple values |
| Transformer.Transform | lib/syntrax/transformer.rb:3-10 | a simple value is left as it is, an array stays an array of the same length, and a hash comes only from a hash with the same keys in the same order |
| Transformer.Children | lib/syntrax/transformer.rb:3-10 | transforming the children keeps a simple value, the length of an array and the keys of a hash |
| Transformer.Lookup | lib/syntrax/transformer.rb:4-9 | finds the value stored under a key, and fails exactly when no entry has that key |
| Transformer.Rewrite | lib/syntrax/transformer.rb:4-9 | every rule's result is a simple value or an array of simple values |
| Transformer.FirstMatch | lib/syntrax/transformer.rb:4-9 | picks the first rule in declaration order that matches, and fails exactly when none does |
| Transformer.OnlyHashesMatch | lib/syntrax/transformer.rb:4-9 | a value that is not a hash is left as it is |
| Transformer.RulesDisjoint | lib/syntrax/transformer.rb:4-9 | no value matches two different rules, so declaration order never decides |
| Transformer.ApplyMatching | lib/syntrax/transformer.rb:4-9 | a value matching a rule is replaced by that rule's result |
| Transformer.NameRuleRewrites | lib/syntrax/transformer.rb:4 | `{name: x}` becomes the symbol of x's text |
| Transformer.StringRuleRewrites | lib/syntrax/transformer.rb:5 | `{string: x}` becomes x's text as a string |
| Transformer.PrimaryRuleRewrites | lib/syntrax/transformer.rb:6 | `{primary: x}` becomes x |
| Transformer.ProductionRuleRewrites | lib/syntrax/transformer.rb:9 | `{production: xs}` becomes xs |
| Transformer.DefinitionRulesRewrite | lib/syntrax/transformer.rb:7-8 | `{name:, definition: d}` becomes d when d is an array, and `[d]` otherwise, with the keys in either order |
| Transformer.DefinitionYieldsList | lib/syntrax/transformer.rb:7-8 | a definition always becomes an array of simple values |
| Transformer.RewrittenIsNormal | lib/syntrax/transformer.rb:4-9 | every rule result is in normal form, so no rule matches it |
| Transformer.SimpleIsFixpoint | lib/syntrax/transformer.rb:4-6 | transforming a simple value leaves it unchanged |
| Transformer.TransformIsNormal | lib/syntrax/transformer.rb:3-10 | the transformed tree is in normal form: no rule matches any node of it |
| Transformer.NormalIsFixpoint | lib/syntrax/transformer.rb:3-10 | a tree in normal form is left unchanged |
| Transformer.TransformIdempotent | lib/syntrax/transformer.rb:3-10 | transforming twice gives the same result as transforming once |
| Transformer.NameSliceExample | lib/syntrax/transformer.rb:4 | a captured name becomes a symbol |
| Transformer.ChildrenOfPair | lib/syntrax/transformer.rb:3-10 | the values of a two-entry hash are transformed and kept under their keys |
| Transformer.ProductionExample | lib/syntrax/transformer.rb:4-8 | a hand-built tree `{name: "Foo", definition: {name: "Bar"}}` becomes `[:Bar]` |
| Transformer.TransformKeepsCaptureKeys | lib/syntrax/transformer.rb:3-10 | no key is made up: a hash keyed by capture names transforms into a value whose keys, if it is a hash, are capture names |
| Transformer.NoHashKeyedByProductionName | test/transformer_spec.rb:15-18 | no tree whose keys are the parser's capture names transforms into `{Foo: [:Bar]}` |
| Diagram.EscapeChar | lib/syntrax/diagram.rb:73 | both directions: a character is written as itself exactly when it is not a control character, a quote, a backslash, or a "#" before "{", "$" or "@"; otherwise its escape starts with a backslash |
| Diagram.InspectBody | lib/syntrax/diagram.rb:73 | the escaped body is never shorter than the string, and a string of plain characters is written as it is |
| Diagram.Inspect | lib/syntrax/diagram.rb:73 | the terminal is in double quotes and at least two characters longer than the string |
| Diagram.Join | lib/syntrax/diagram.rb:66 | the joined text starts with the first part |
| Diagram.Interpolated | lib/syntrax/diagram.rb:66 | interpolation writes a string as it is and nil as the empty string |
| Diagram.Wrapper | lib/syntrax/diagram.rb:76-82 | only a symbol key names a wrapper, and the wrapper is Optional, ZeroOrMore or OneOrMore |
| Diagram.Parts | lib/syntrax/diagram.rb:65-68 | one part per member or item, in order: its serialisation, or the empty string for nil |
| Diagram.Serialize | lib/syntrax/diagram.rb:62-85 | a set, an array, a symbol or a string always serialises, and every serialisation ends with ")" |
| Diagram.TwoCharEscapeReadsBack | lib/syntrax/diagram.rb:73 | a backslash escape of a quote, backslash, "#" or named control reads back as that character |
| Diagram.CodeEscapeReadsBack | lib/syntrax/diagram.rb:73 | a `\u00XX` escape reads back as its control character |
| Diagram.NamedEscapeInverse | lib/syntrax/diagram.rb:73 | each named control escape reads back as the character it names |
| Diagram.EscapeCharReadsBack | lib/syntrax/diagram.rb:73 | the escape of any character, whatever follows it, reads back as that character |
| Diagram.InspectBodyReadsBack | lib/syntrax/diagram.rb:73 | the escaped body of any string reads back as that string |
| Diagram.InspectRoundTrip | lib/syntrax/diagram.rb:73 | `inspect` reads back: `Uninspect(Inspect(s)) == Some(s)` |
| Diagram.InspectInjective | lib/syntrax/diagram.rb:72-73 | different strings give different terminals |
| Diagram.NilExactly | lib/syntrax/diagram.rb:63-84 | both directions: `transform` gives nil exactly for an unhandled class, an empty hash, or a hash whose first key is not a wrapper |
| Diagram.FirstPairOnly | lib/syntrax/diagram.rb:74-76 | only a hash's first pair matters |
| Diagram.WrapperKey | lib/syntrax/diagram.rb:74-83 | a hash with a wrapper key becomes that wrapper around its first value |
| Diagram.WrapperKeys | lib/syntrax/diagram.rb:77-82 | `optional`, `zero_or_more` and `one_or_more` become Optional, ZeroOrMore and OneOrMore |
| Diagram.ChoiceAndSequenceShareParts | lib/syntrax/diagram.rb:64-69 | a set and an array with the same elements serialise to the same list inside Choice(0, ...) and Sequence(...) |
| Diagram.EmptyCollections | lib/syntrax/diagram.rb:64-69 | an empty array is "Sequence()" and an empty set is "Choice(0, )" |
| Diagram.JoinAppend | lib/syntrax/diagram.rb:66 | joining two non-empty lists is joining each and putting the separator between |
| Diagram.SequenceKeepsOrder | lib/syntrax/diagram.rb:67-69 | a sequence's items are written in order, the first part before the second |
| Diagram.PartsOfConcat | lib/syntrax/diagram.rb:68 | the parts of two arrays put together are the parts of each, in order |
| Diagram.PartsAre | lib/syntrax/diagram.rb:68 | an array's parts are its items' serialisations |
| Diagram.TwoItems | lib/syntrax/diagram.rb:67-69 | a two-item array is written as a Sequence of the two |
| Diagram.ThreeItems | lib/syntrax/diagram.rb:67-69 | a three-item array is written as a Sequence of the three |
| Diagram.OneCharTerminal | lib/syntrax/diagram.rb:72-73 | a plain one-character string is a quoted Terminal |
| Diagram.SymbolIsNonTerminal | lib/syntrax/diagram.rb:70-71 | every symbol is a NonTerminal with its name in single quotes |
| Diagram.WrapsAs | lib/syntrax/diagram.rb:74-83 | a one-pair wrapper hash writes the wrapper around its value |
| Diagram.DocumentedExample | lib/syntrax/diagram.rb:45-61 | the documented example serialises to the nested Sequence, Optional and ZeroOrMore expression |

## Left out

- Diagram.render (lib/syntrax/diagram.rb:12-41) is left out. It writes a temporary script, runs PhantomJS on it and edits the SVG that comes back, which is all I/O and a foreign process.
- Parslet's captures (`.as(...)`), error reports and the parse tree are left out. The parser model recognises; it builds no tree. The Transformer works on trees of the shape Parslet builds, given as values, and no lemma connects a parse of a text to its tree.
- No expectation of test/transformer_spec.rb is stated, for the same reason: each one transforms the parse tree of a text. Every one of them expects a hash keyed by a production name, such as `{Foo: [:Bar]}` at lines 15-18, while the parser captures only under production, rule, definition, or and option (lib/syntrax/ebnf_parser.rb:40-43). Transformer.NoHashKeyedByProductionName shows that no tree keyed by those names transforms into the result expected at lines 15-18.
- EbnfParser.Char and EbnfParser.IsPrint: `[[:print:]]` is modelled as the printable ASCII characters. Printable characters outside ASCII are left out.
- Diagram.Inspect models `String#inspect` for UTF-8 strings of ASCII characters: quotes, backslashes, `#` before `{`, `$` or `@`, the named control escapes, and `\u00XX` for other control characters and DEL. Escapes of other non-printable Unicode characters and invalid bytes are left out.
- Diagram.Data keeps a set as its members in insertion order. The model does not remove duplicates or compare sets as unordered. A hash keeps its pairs in insertion order, and its keys are not required to be distinct.
- Transformer.Tree has leaves for slices, strings and symbols only. `nil` and numbers, which the parser never captures, are left out.
- EbnfParser.Whitespaces1: the model does not state that every non-empty run of blanks and comments is accepted, because for the rule as written that is false. EbnfExamples.WhitespaceRunCutByComment gives a run of two comments that is not accepted. What is stated is EbnfProperties.WhitespaceChainAccepted: a text is accepted when it is a chain of whitespace tokens as `whitespace` itself finds them.
- EbnfParser.OrElse has no contract of its own. Ordered choice is stated for each rule that uses it, by EbnfProperties.PrimaryByFirstChar, EbnfProperties.ClassItemIsOnePrintable, EbnfExamples.ProductionWithoutDefinition and EbnfLineBreaks.DefinitionEndsOnMark.
- Diagram.Join: its own contract states only that the result starts with the first part. The rest is stated by Diagram.JoinAppend and the Sequence lemmas.
- The whole self-describing grammar of test/ebnf_parser_spec.rb:12-35 is not stated as an example. It is rejected for the reasons that BreakThenSpacesNeverParses, ProductionExampleHyphenLink and CharClassNeverMatches give.
