/** A recogniser for the W3C-style EBNF notation of lib/syntrax/ebnf_parser.rb.

    Every grammar rule of the source is a function `Rule(input, pos)` that
    returns `Some(end)` when the rule matches `input[pos..end]` and `None`
    when it does not. The PEG operators are read as the parser library reads
    them: `a >> b` is sequencing, `a | b` is ordered choice (b is tried only
    when a fails), `x.repeat(n)` is a greedy repetition that needs at least n
    matches and never gives one back, `x.maybe` succeeds without consuming
    when x fails, and `x.absent?` is a negative lookahead.

    Termination: every repeated sub-rule consumes at least one character,
    and the only way back into `Choice` from `Primary` is after a consumed
    "(", so the functions decrease the remaining input (and, at one position,
    a rank that orders Choice > SeqOrDiff > Item > Primary > Parenthesised). */
module EbnfParser {
  import opened Options

  // ---------------------------------------------------------------------
  // Character classes used by the `match[...]` atoms
  // ---------------------------------------------------------------------

  /** `match['A-Z']` */
  predicate IsUpper(c: char) { 'A' <= c <= 'Z' }

  /** `match['a-zA-Z']` */
  predicate IsLetter(c: char) { IsUpper(c) || 'a' <= c <= 'z' }

  /** `match['0-9a-fA-F']` */
  predicate IsHexDigit(c: char) { '0' <= c <= '9' || 'a' <= c <= 'f' || 'A' <= c <= 'F' }

  /** `match['\t ']`, the rule `space` */
  predicate IsSpace(c: char) { c == '\t' || c == ' ' }

  /** `match['\r\n']`, the rule `new_line` */
  predicate IsNewLine(c: char) { c == '\r' || c == '\n' }

  /** `match('[[:print:]]')`, restricted to ASCII: the visible characters and the blank */
  predicate IsPrint(c: char) { ' ' <= c <= '~' }

  /** `match['+*?']` */
  predicate IsCardinality(c: char) { c == '+' || c == '*' || c == '?' }

  /** `match['^\x5D:/?#']` */
  predicate IsUrlSchemeChar(c: char) { c != ']' && c != ':' && c != '/' && c != '?' && c != '#' }

  /** `match['^\x5D#']` */
  predicate IsUrlBodyChar(c: char) { c != ']' && c != '#' }

  /** Whitespace that is a single character: `space | new_line` */
  predicate IsBlank(c: char) { IsSpace(c) || IsNewLine(c) }

  /** `lit` occurs in `input` starting at `pos`. */
  predicate At(input: string, pos: nat, lit: string) {
    pos + |lit| <= |input| && input[pos..pos + |lit|] == lit
  }

  /** A rule "parses" an input when, started at 0, it consumes all of it. */
  predicate Accepts(input: string, r: Option<nat>) {
    r == Some(|input|)
  }

  // ---------------------------------------------------------------------
  // Atoms and combinators
  // ---------------------------------------------------------------------

  /** `str(lit)` */
  function Str(input: string, pos: nat, lit: string): (r: Option<nat>)
    requires pos <= |input|
    ensures r.Some? ==> r.value == pos + |lit| <= |input|
  {
    if At(input, pos, lit) then Some(pos + |lit|) else None
  }

  /** A single-character `match[...]` atom. */
  function Match(input: string, pos: nat, p: char -> bool): (r: Option<nat>)
    requires pos <= |input|
    ensures r.Some? ==> r.value == pos + 1 <= |input|
  {
    if pos < |input| && p(input[pos]) then Some(pos + 1) else None
  }

  /** `any`: one character, whatever it is (newlines included). */
  function Any(input: string, pos: nat): (r: Option<nat>)
    requires pos <= |input|
    ensures r.Some? <==> pos < |input|
    ensures r.Some? ==> r.value == pos + 1
  {
    if pos < |input| then Some(pos + 1) else None
  }

  /** `match[...].repeat(0)`: the longest run of characters satisfying `p`. */
  function Many(input: string, pos: nat, p: char -> bool): (r: nat)
    requires pos <= |input|
    ensures pos <= r <= |input|
    ensures r == |input| || !p(input[r])
    decreases |input| - pos
  {
    if pos < |input| && p(input[pos]) then Many(input, pos + 1, p) else pos
  }

  /** `match[...].repeat(1)` */
  function Many1(input: string, pos: nat, p: char -> bool): (r: Option<nat>)
    requires pos <= |input|
    ensures r.Some? <==> pos < |input| && p(input[pos])
    ensures r.Some? ==> r.value == Many(input, pos, p) && pos < r.value
  {
    var first :- Match(input, pos, p);
    Some(Many(input, first, p))
  }

  /** `x.maybe`, given the outcome `r` of x at `pos` */
  function Maybe(r: Option<nat>, pos: nat): (next: nat)
    ensures next == pos || r == Some(next)
    ensures r.Some? ==> next == r.value
  {
    if r.Some? then r.value else pos
  }

  /** `x | y`, given the outcomes of both alternatives at the same position */
  function OrElse(first: Option<nat>, second: Option<nat>): Option<nat>
  {
    if first.Some? then first else second
  }

  /** `space.repeat(0)` */
  function Spaces(input: string, pos: nat): (r: nat)
    requires pos <= |input|
    ensures pos <= r <= |input|
  {
    Many(input, pos, IsSpace)
  }

  /** `padded { str(lit) }`: optional spaces or tabs on both sides */
  function PaddedStr(input: string, pos: nat, lit: string): (r: Option<nat>)
    requires pos <= |input|
    ensures r.Some? ==> pos + |lit| <= r.value <= |input|
  {
    var before := Spaces(input, pos);
    var after :- Str(input, before, lit);
    Some(Spaces(input, after))
  }

  /** `any_up_until(atom)` is `((any >> atom.absent?).repeat >> any).maybe`.
      AnyNotBefore is the greedy repeat: it takes characters as long as `atom`
      does not start right after the character taken. */
  function AnyNotBefore(input: string, pos: nat, atom: string): (r: nat)
    requires pos <= |input|
    ensures pos <= r <= |input|
    ensures r == |input| || At(input, r + 1, atom)
    decreases |input| - pos
  {
    if pos < |input| && Str(input, pos + 1, atom).None? then AnyNotBefore(input, pos + 1, atom) else pos
  }

  function AnyUpUntil(input: string, pos: nat, atom: string): (r: nat)
    requires pos <= |input|
    ensures pos <= r <= |input|
  {
    Maybe(Any(input, AnyNotBefore(input, pos, atom)), pos)
  }

  // ---------------------------------------------------------------------
  // Lexical rules
  // ---------------------------------------------------------------------

  /** `name`: an upper-case letter, then any letters */
  function Name(input: string, pos: nat): (r: Option<nat>)
    requires pos <= |input|
    ensures r.Some? <==> pos < |input| && IsUpper(input[pos])
    ensures r.Some? ==> pos < r.value <= |input|
    ensures r.Some? ==> r.value == |input| || !IsLetter(input[r.value])
  {
    var first :- Match(input, pos, IsUpper);
    Some(Many(input, first, IsLetter))
  }

  /** One alternative of `string_literal`: `str(q) >> match[^q].repeat(0) >> str(q)` */
  function Quoted(input: string, pos: nat, q: char): (r: Option<nat>)
    requires pos <= |input|
    ensures r.Some? ==> pos + 2 <= r.value <= |input|
  {
    var open :- Str(input, pos, [q]);
    var body := Many(input, open, c => c != q);
    Str(input, body, [q])
  }

  /** `string_literal`: a double-quoted literal, else a single-quoted one */
  function StringLiteral(input: string, pos: nat): (r: Option<nat>)
    requires pos <= |input|
    ensures r.Some? ==> pos + 2 <= r.value <= |input|
  {
    OrElse(Quoted(input, pos, '"'), Quoted(input, pos, '\''))
  }

  /** `char_code`: "#x" and at least one hexadecimal digit */
  function CharCode(input: string, pos: nat): (r: Option<nat>)
    requires pos <= |input|
    ensures r.Some? ==> pos + 3 <= r.value <= |input|
  {
    var hex :- Str(input, pos, "#x");
    Many1(input, hex, IsHexDigit)
  }

  /** `char` */
  function Char(input: string, pos: nat): (r: Option<nat>)
    requires pos <= |input|
    ensures r.Some? ==> r.value == pos + 1 <= |input|
  {
    Match(input, pos, IsPrint)
  }

  /** `char_range`: `char >> str('-') >> char` */
  function CharRange(input: string, pos: nat): (r: Option<nat>)
    requires pos <= |input|
    ensures r.Some? ==> r.value == pos + 3 <= |input|
  {
    var low :- Char(input, pos);
    var dash :- Str(input, low, "-");
    Char(input, dash)
  }

  /** `char_code_range`: `char_code >> str('-') >> char_code` */
  function CharCodeRange(input: string, pos: nat): (r: Option<nat>)
    requires pos <= |input|
    ensures r.Some? ==> pos + 7 <= r.value <= |input|
  {
    var low :- CharCode(input, pos);
    var dash :- Str(input, low, "-");
    CharCode(input, dash)
  }

  /** One repetition of the body of `char_class`:
      `char | char_code | char_range | char_code_range`, in that order */
  function ClassItem(input: string, pos: nat): (r: Option<nat>)
    requires pos <= |input|
    ensures r.Some? ==> pos < r.value <= |input|
  {
    OrElse(Char(input, pos), OrElse(CharCode(input, pos), OrElse(CharRange(input, pos), CharCodeRange(input, pos))))
  }

  /** `ClassItem.repeat(0)` */
  function ClassItems(input: string, pos: nat): (r: nat)
    requires pos <= |input|
    ensures pos <= r <= |input|
    decreases |input| - pos
  {
    match ClassItem(input, pos)
    case Some(next) => ClassItems(input, next)
    case None => pos
  }

  /** `char_class`: "[", an optional "^", at least one class item, "]" */
  function CharClass(input: string, pos: nat): (r: Option<nat>)
    requires pos <= |input|
    ensures r.Some? ==> pos + 3 <= r.value <= |input|
  {
    var open :- Str(input, pos, "[");
    var negated := Maybe(Str(input, open, "^"), open);
    var first :- ClassItem(input, negated);
    Str(input, ClassItems(input, first), "]")
  }

  /** `url`: a scheme without "]:/?#", "://", a body without "]#", and an
      optional "#" followed by a name */
  function Url(input: string, pos: nat): (r: Option<nat>)
    requires pos <= |input|
    ensures r.Some? ==> pos + 5 <= r.value <= |input|
  {
    var scheme :- Many1(input, pos, IsUrlSchemeChar);
    var separator :- Str(input, scheme, "://");
    var body :- Many1(input, separator, IsUrlBodyChar);
    Some(Maybe(var hash :- Str(input, body, "#"); Name(input, hash), body))
  }

  /** `link`: a URL in square brackets */
  function Link(input: string, pos: nat): (r: Option<nat>)
    requires pos <= |input|
    ensures r.Some? ==> pos + 7 <= r.value <= |input|
  {
    var open :- Str(input, pos, "[");
    var url :- Url(input, open);
    Str(input, url, "]")
  }

  /** `space` */
  function Space(input: string, pos: nat): (r: Option<nat>)
    requires pos <= |input|
    ensures r.Some? ==> r.value == pos + 1 <= |input|
  {
    Match(input, pos, IsSpace)
  }

  /** `new_line` */
  function NewLine(input: string, pos: nat): (r: Option<nat>)
    requires pos <= |input|
    ensures r.Some? ==> r.value == pos + 1 <= |input|
  {
    Match(input, pos, IsNewLine)
  }

  /** `comment`: an opening slash-star, `any_up_until` the closing star-slash, then that closer */
  function Comment(input: string, pos: nat): (r: Option<nat>)
    requires pos <= |input|
    ensures r.Some? ==> pos + 4 <= r.value <= |input|
  {
    var open :- Str(input, pos, "/*");
    Str(input, AnyUpUntil(input, open, "*/"), "*/")
  }

  /** `whitespace`: `space | new_line | comment` */
  function Whitespace(input: string, pos: nat): (r: Option<nat>)
    requires pos <= |input|
    ensures r.Some? ==> pos < r.value <= |input|
  {
    OrElse(Space(input, pos), OrElse(NewLine(input, pos), Comment(input, pos)))
  }

  /** `whitespace.repeat(0)` */
  function Whitespaces(input: string, pos: nat): (r: nat)
    requires pos <= |input|
    ensures pos <= r <= |input|
    decreases |input| - pos
  {
    match Whitespace(input, pos)
    case Some(next) => Whitespaces(input, next)
    case None => pos
  }

  /** `whitespace.repeat(1)` */
  function Whitespaces1(input: string, pos: nat): (r: Option<nat>)
    requires pos <= |input|
    ensures r.Some? ==> pos < r.value <= |input|
  {
    var first :- Whitespace(input, pos);
    Some(Whitespaces(input, first))
  }

  // ---------------------------------------------------------------------
  // Structural rules (mutually recursive through the parenthesised choice)
  // ---------------------------------------------------------------------

  /** `choice`: a seq_or_diff, then any number of `padded { '|' } >> seq_or_diff` */
  function Choice(input: string, pos: nat): (r: Option<nat>)
    requires pos <= |input|
    ensures r.Some? ==> pos < r.value <= |input|
    decreases |input| - pos, 4
  {
    var first :- SeqOrDiff(input, pos);
    Some(ChoiceTail(input, first))
  }

  /** `(padded { str('|') } >> seq_or_diff).repeat(0)` */
  function ChoiceTail(input: string, pos: nat): (r: nat)
    requires pos <= |input|
    ensures pos <= r <= |input|
    decreases |input| - pos, 0
  {
    match PaddedStr(input, pos, "|")
    case None => pos
    case Some(bar) =>
      match SeqOrDiff(input, bar)
      case None => pos
      case Some(next) => ChoiceTail(input, next)
  }

  /** `seq_or_diff`: an item, then either a `-` difference with one more item
      or any number of further items each after at least one space or tab */
  function SeqOrDiff(input: string, pos: nat): (r: Option<nat>)
    requires pos <= |input|
    ensures r.Some? ==> pos < r.value <= |input|
    decreases |input| - pos, 3
  {
    var first :- Item(input, pos);
    var difference := (var minus :- PaddedStr(input, first, "-"); Item(input, minus));
    Some(Maybe(OrElse(difference, Some(SeqTail(input, first))), first))
  }

  /** `(space.repeat(1) >> item).repeat(0)` */
  function SeqTail(input: string, pos: nat): (r: nat)
    requires pos <= |input|
    ensures pos <= r <= |input|
    decreases |input| - pos, 0
  {
    match Many1(input, pos, IsSpace)
    case None => pos
    case Some(gap) =>
      match Item(input, gap)
      case None => pos
      case Some(next) => SeqTail(input, next)
  }

  /** `item`: a primary and at most one of "+", "*", "?" */
  function Item(input: string, pos: nat): (r: Option<nat>)
    requires pos <= |input|
    ensures r.Some? ==> pos < r.value <= |input|
    decreases |input| - pos, 2
  {
    var primary :- Primary(input, pos);
    Some(Maybe(Match(input, primary, IsCardinality), primary))
  }

  /** `primary`: name, string literal, char code, char class or a
      parenthesised choice, tried in that order */
  function Primary(input: string, pos: nat): (r: Option<nat>)
    requires pos <= |input|
    ensures r.Some? ==> pos < r.value <= |input|
    decreases |input| - pos, 1
  {
    OrElse(Name(input, pos),
      OrElse(StringLiteral(input, pos),
        OrElse(CharCode(input, pos),
          OrElse(CharClass(input, pos), Parenthesised(input, pos)))))
  }

  /** `str('(') >> padded { choice } >> str(')')` */
  function Parenthesised(input: string, pos: nat): (r: Option<nat>)
    requires pos <= |input|
    ensures r.Some? ==> pos + 2 < r.value <= |input|
    decreases |input| - pos, 0
  {
    var open :- Str(input, pos, "(");
    var inner :- Choice(input, Spaces(input, open));
    Str(input, Spaces(input, inner), ")")
  }

  // ---------------------------------------------------------------------
  // Productions and the grammar
  // ---------------------------------------------------------------------

  /** `production`: padded by spaces or tabs, a name, a padded "::=", then a
      choice or, failing that, a link */
  function Production(input: string, pos: nat): (r: Option<nat>)
    requires pos <= |input|
    ensures r.Some? ==> pos + 5 <= r.value <= |input|
  {
    var name :- Name(input, Spaces(input, pos));
    var defines :- PaddedStr(input, name, "::=");
    var definition :- OrElse(Choice(input, defines), Link(input, defines));
    Some(Spaces(input, definition))
  }

  /** `(new_line.repeat(0) >> production).repeat(0)` */
  function Productions(input: string, pos: nat): (r: nat)
    requires pos <= |input|
    ensures pos <= r <= |input|
    decreases |input| - pos
  {
    match Production(input, Many(input, pos, IsNewLine))
    case None => pos
    case Some(next) => Productions(input, next)
  }

  /** `grammar`, the root: leading whitespace, one production, then more
      productions each after any number of line breaks */
  function Grammar(input: string, pos: nat): (r: Option<nat>)
    requires pos <= |input|
    ensures r.Some? ==> pos + 5 <= r.value <= |input|
  {
    var first :- Production(input, Whitespaces(input, pos));
    Some(Productions(input, first))
  }

  /** `EbnfParser.new.parse(text)` succeeds: the root rule consumes all of it. */
  predicate Parses(text: string)
    ensures Parses(text) ==> 5 <= |text|
  {
    Accepts(text, Grammar(text, 0))
  }
}
