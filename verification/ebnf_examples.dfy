/** The accept and reject cases of the repository's parser tests for
    sequences, choices, productions and whitespace runs.

    Each example is stated for an input `s` that spells the test's text and
    is proved in two steps. A lemma about characters only (`...Chars`)
    reads off where the names, spaces, bars and literals of the text lie;
    the example lemma then chains the general lemmas below, each of which
    turns such character-level facts into a fact about one rule. */
module EbnfExamples {
  import opened Options
  import opened EbnfParser
  import opened EbnfProperties

  /** `s` is the text `text`, stated character by character. */
  predicate Spells(s: string, text: string) {
    |s| == |text| && forall i :: 0 <= i < |s| ==> s[i] == text[i]
  }

  // ---------------------------------------------------------------------
  // Character-level descriptions of the pieces of an input
  // ---------------------------------------------------------------------

  /** Spaces or tabs from `pos` up to `end`, and none at `end`. */
  predicate SpacesTo(s: string, pos: nat, end: nat) {
    pos <= end <= |s| && (forall k :: pos <= k < end ==> IsSpace(s[k])) && (end == |s| || !IsSpace(s[end]))
  }

  /** At least one space or tab from `pos`, up to `end`. */
  predicate GapTo(s: string, pos: nat, end: nat) {
    SpacesTo(s, pos, end) && pos < end
  }

  /** A name occupies `s[pos..e]` and no letter follows it. */
  predicate NameTo(s: string, pos: nat, e: nat) {
    pos < e <= |s| && IsUpper(s[pos]) && (forall k :: pos < k < e ==> IsLetter(s[k])) &&
    (e == |s| || !IsLetter(s[e]))
  }

  /** A char code occupies `s[pos..e]` and no hexadecimal digit follows it. */
  predicate CodeTo(s: string, pos: nat, e: nat) {
    pos + 2 < e <= |s| && s[pos] == '#' && s[pos + 1] == 'x' &&
    (forall k :: pos + 2 <= k < e ==> IsHexDigit(s[k])) && (e == |s| || !IsHexDigit(s[e]))
  }

  /** A quoted literal occupies `s[pos..e]`. */
  predicate QuotedTo(s: string, pos: nat, e: nat) {
    pos + 2 <= e <= |s| && IsQuote(s[pos]) && s[e - 1] == s[pos] &&
    forall k :: pos < k < e - 1 ==> s[k] != s[pos]
  }

  /** The characters that can start a primary. */
  predicate StartsPrimary(c: char) {
    IsUpper(c) || IsQuote(c) || c == '#' || c == '('
  }

  /** A cardinality marker at `p`. */
  predicate MarkAt(s: string, p: nat) {
    p < |s| && IsCardinality(s[p])
  }

  /** No cardinality marker at `p`. */
  predicate NoMarkAt(s: string, p: nat) {
    p <= |s| && (p == |s| || !IsCardinality(s[p]))
  }

  /** After the item ending at `e` and the spaces up to `next`, no "-". */
  predicate NoDashAfter(s: string, e: nat, next: nat) {
    SpacesTo(s, e, next) && (next == |s| || s[next] != '-')
  }

  /** After the item ending at `e` and the spaces up to `next`, neither a
      "-" nor anything that starts another item. */
  predicate SeqStops(s: string, e: nat, next: nat) {
    NoDashAfter(s, e, next) && (next == |s| || !StartsPrimary(s[next]))
  }

  /** A "-" at `dash` between spaces, with the next item at `next`. */
  predicate DashBetween(s: string, pos: nat, dash: nat, next: nat) {
    SpacesTo(s, pos, dash) && dash < |s| && s[dash] == '-' && SpacesTo(s, dash + 1, next)
  }

  /** A "|" at `bar` between spaces, with the next alternative at `alt`. */
  predicate BarBetween(s: string, pos: nat, bar: nat, alt: nat) {
    SpacesTo(s, pos, bar) && bar < |s| && s[bar] == '|' && SpacesTo(s, bar + 1, alt)
  }

  /** After the spaces from `pos` up to `next`, no "|". */
  predicate NoBarAfter(s: string, pos: nat, next: nat) {
    SpacesTo(s, pos, next) && (next == |s| || s[next] != '|')
  }

  /** An alternative that is a single name `s[pos..e]`. */
  predicate NameAltAt(s: string, pos: nat, e: nat, next: nat) {
    NameTo(s, pos, e) && NoMarkAt(s, e) && SeqStops(s, e, next)
  }

  /** An alternative that is a single char code `s[pos..e]`. */
  predicate CodeAltAt(s: string, pos: nat, e: nat, next: nat) {
    CodeTo(s, pos, e) && NoMarkAt(s, e) && SeqStops(s, e, next)
  }

  /** "(" at `pos` and the spaces after it, up to `inner`. */
  predicate GroupOpen(s: string, pos: nat, inner: nat) {
    pos < |s| && s[pos] == '(' && SpacesTo(s, pos + 1, inner)
  }

  /** The spaces from `innerEnd` and ")" at `close`. */
  predicate GroupClose(s: string, innerEnd: nat, close: nat) {
    SpacesTo(s, innerEnd, close) && close < |s| && s[close] == ')'
  }

  /** The head of a production: its name `s[n0..n1]` after spaces from
      `pos`, and "::=" at `d` between spaces, up to its definition at `c0`. */
  predicate Defines(s: string, pos: nat, n0: nat, n1: nat, d: nat, c0: nat) {
    SpacesTo(s, pos, n0) && NameTo(s, n0, n1) && SpacesTo(s, n1, d) &&
    d + 3 <= |s| && s[d] == ':' && s[d + 1] == ':' && s[d + 2] == '=' &&
    SpacesTo(s, d + 3, c0)
  }

  // ---------------------------------------------------------------------
  // From characters to rules
  // ---------------------------------------------------------------------

  lemma SpacesEnd(s: string, pos: nat, end: nat)
    requires SpacesTo(s, pos, end)
    ensures Spaces(s, pos) == end
  {
    ManyEnd(s, pos, IsSpace, end);
  }

  lemma NameEnd(s: string, pos: nat, e: nat)
    requires NameTo(s, pos, e)
    ensures Primary(s, pos) == Some(e)
  {
    NameMatches(s, pos, e);
    PrimaryByFirstChar(s, pos);
  }

  lemma CodeEnd(s: string, pos: nat, e: nat)
    requires CodeTo(s, pos, e)
    ensures Primary(s, pos) == Some(e)
  {
    AtPair(s, pos, '#', 'x');
    CharCodeMatches(s, pos, e);
    PrimaryByFirstChar(s, pos);
  }

  lemma QuotedEnd(s: string, pos: nat, e: nat)
    requires QuotedTo(s, pos, e)
    ensures Primary(s, pos) == Some(e)
  {
    StringLiteralMatches(s, pos, e);
    PrimaryByFirstChar(s, pos);
  }

  lemma GroupOpens(s: string, pos: nat, inner: nat)
    requires GroupOpen(s, pos, inner)
    ensures Str(s, pos, "(") == Some(pos + 1) && Spaces(s, pos + 1) == inner
  {
    AtChars(s, pos, "(");
    SpacesEnd(s, pos + 1, inner);
  }

  lemma GroupCloses(s: string, innerEnd: nat, close: nat)
    requires GroupClose(s, innerEnd, close)
    ensures Spaces(s, innerEnd) == close && Str(s, close, ")") == Some(close + 1)
  {
    SpacesEnd(s, innerEnd, close);
    AtChars(s, close, ")");
  }

  /** "(", spaces, a choice, spaces, ")". */
  lemma Group(s: string, pos: nat, inner: nat, innerEnd: nat, close: nat)
    requires GroupOpen(s, pos, inner) && Choice(s, inner) == Some(innerEnd) && GroupClose(s, innerEnd, close)
    ensures Primary(s, pos) == Some(close + 1)
  {
    GroupOpens(s, pos, inner);
    GroupCloses(s, innerEnd, close);
    assert Parenthesised(s, pos) == Some(close + 1);
    PrimaryByFirstChar(s, pos);
  }

  lemma PlainItem(s: string, pos: nat, p: nat)
    requires pos <= |s| && Primary(s, pos) == Some(p) && NoMarkAt(s, p)
    ensures Item(s, pos) == Some(p)
  {
    ItemMatches(s, pos);
  }

  lemma MarkedItem(s: string, pos: nat, p: nat)
    requires pos <= |s| && Primary(s, pos) == Some(p) && MarkAt(s, p)
    ensures Item(s, pos) == Some(p + 1)
  {
    ItemMatches(s, pos);
  }

  lemma NameItem(s: string, pos: nat, e: nat)
    requires NameTo(s, pos, e) && NoMarkAt(s, e)
    ensures Item(s, pos) == Some(e)
  {
    NameEnd(s, pos, e);
    PlainItem(s, pos, e);
  }

  lemma QuotedItem(s: string, pos: nat, e: nat)
    requires QuotedTo(s, pos, e) && NoMarkAt(s, e)
    ensures Item(s, pos) == Some(e)
  {
    QuotedEnd(s, pos, e);
    PlainItem(s, pos, e);
  }

  lemma NoItemAt(s: string, pos: nat)
    requires pos <= |s|
    requires pos == |s| || !StartsPrimary(s[pos])
    ensures Item(s, pos) == None
  {
    PrimaryByFirstChar(s, pos);
    ItemMatches(s, pos);
  }

  /** The first item of a `seq_or_diff`, not followed by a "-". */
  lemma SeqFirst(s: string, pos: nat, e: nat, next: nat)
    requires pos <= |s| && Item(s, pos) == Some(e) && NoDashAfter(s, e, next)
    ensures SeqOrDiff(s, pos) == Some(SeqTail(s, e))
  {
    SpacesEnd(s, e, next);
    AtFirst(s, next, "-");
    SequenceWithoutDifference(s, pos, e);
  }

  /** One more sequence item after at least one space. */
  lemma SeqMore(s: string, pos: nat, next: nat, e: nat)
    requires GapTo(s, pos, next) && Item(s, next) == Some(e)
    ensures SeqTail(s, pos) == SeqTail(s, e)
  {
    SpacesEnd(s, pos, next);
    SeqTailStep(s, pos, e);
  }

  /** The end of a sequence. */
  lemma SeqEnd(s: string, pos: nat, next: nat)
    requires SeqStops(s, pos, next)
    ensures SeqTail(s, pos) == pos
  {
    SpacesEnd(s, pos, next);
    NoItemAt(s, next);
    SeqTailStop(s, pos);
  }

  /** An item that nothing continues is a whole `seq_or_diff`. */
  lemma LoneItem(s: string, pos: nat, e: nat, next: nat)
    requires pos <= |s| && Item(s, pos) == Some(e) && SeqStops(s, e, next)
    ensures SeqOrDiff(s, pos) == Some(e)
  {
    SeqFirst(s, pos, e, next);
    SeqEnd(s, e, next);
  }

  lemma PaddedDash(s: string, pos: nat, dash: nat, next: nat)
    requires DashBetween(s, pos, dash, next)
    ensures PaddedStr(s, pos, "-") == Some(next)
  {
    SpacesEnd(s, pos, dash);
    AtChars(s, dash, "-");
    SpacesEnd(s, dash + 1, next);
  }

  /** An item, a padded "-" and one more item. */
  lemma Difference(s: string, pos: nat, first: nat, dash: nat, next: nat, second: nat)
    requires pos <= |s| && Item(s, pos) == Some(first) && DashBetween(s, first, dash, next)
    requires Item(s, next) == Some(second)
    ensures SeqOrDiff(s, pos) == Some(second)
  {
    PaddedDash(s, first, dash, next);
  }

  lemma NameAlt(s: string, pos: nat, e: nat, next: nat)
    requires NameAltAt(s, pos, e, next)
    ensures SeqOrDiff(s, pos) == Some(e)
  {
    NameItem(s, pos, e);
    LoneItem(s, pos, e, next);
  }

  lemma CodeAlt(s: string, pos: nat, e: nat, next: nat)
    requires CodeAltAt(s, pos, e, next)
    ensures SeqOrDiff(s, pos) == Some(e)
  {
    CodeEnd(s, pos, e);
    PlainItem(s, pos, e);
    LoneItem(s, pos, e, next);
  }

  /** A "|" between spaces, then an alternative. */
  lemma Bar(s: string, pos: nat, bar: nat, alt: nat, e: nat)
    requires BarBetween(s, pos, bar, alt) && SeqOrDiff(s, alt) == Some(e)
    ensures ChoiceTail(s, pos) == ChoiceTail(s, e)
  {
    SpacesEnd(s, pos, bar);
    SpacesEnd(s, bar + 1, alt);
    AtChars(s, bar, "|");
    ChoiceTailStep(s, pos, e);
  }

  /** The end of a choice. */
  lemma NoBar(s: string, pos: nat, next: nat)
    requires NoBarAfter(s, pos, next)
    ensures ChoiceTail(s, pos) == pos
  {
    SpacesEnd(s, pos, next);
    AtFirst(s, next, "|");
    ChoiceTailStop(s, pos);
  }

  /** A choice: its first alternative and the rest. */
  lemma ChoiceOf(s: string, pos: nat, e: nat, end: nat)
    requires pos <= |s| && SeqOrDiff(s, pos) == Some(e) && ChoiceTail(s, e) == end
    ensures Choice(s, pos) == Some(end)
  {
  }

  /** The head of a production, read off its characters. */
  lemma Head(s: string, pos: nat, n0: nat, n1: nat, d: nat, c0: nat)
    requires Defines(s, pos, n0, n1, d, c0)
    ensures Spaces(s, pos) == n0 && Name(s, n0) == Some(n1) && PaddedStr(s, n1, "::=") == Some(c0)
  {
    SpacesEnd(s, pos, n0);
    NameMatches(s, n0, n1);
    SpacesEnd(s, n1, d);
    AtChars(s, d, "::=");
    SpacesEnd(s, d + 3, c0);
  }

  /** A production: its head, a choice, and trailing spaces. */
  lemma ProductionOf(s: string, pos: nat, n0: nat, n1: nat, d: nat, c0: nat, c1: nat, end: nat)
    requires Defines(s, pos, n0, n1, d, c0) && Choice(s, c0) == Some(c1) && SpacesTo(s, c1, end)
    ensures Production(s, pos) == Some(end)
  {
    Head(s, pos, n0, n1, d, c0);
    SpacesEnd(s, c1, end);
  }

  // ---------------------------------------------------------------------
  // seq_or_diff
  // ---------------------------------------------------------------------

  lemma SequenceOneChars(s: string)
    requires Spells(s, "X")
    ensures |s| == 1 && NameAltAt(s, 0, 1, 1) && NoBarAfter(s, 1, 1)
  {
  }

  lemma SequenceExampleOne(s: string)
    requires Spells(s, "X")
    ensures Accepts(s, SeqOrDiff(s, 0))
  {
    SequenceOneChars(s);
    NameAlt(s, 0, 1, 1);
  }

  lemma SequenceTwoChars(s: string)
    requires Spells(s, "X Y")
    ensures |s| == 3
    ensures NameTo(s, 0, 1) && NoMarkAt(s, 1) && NoDashAfter(s, 1, 2) && GapTo(s, 1, 2)
    ensures NameTo(s, 2, 3) && NoMarkAt(s, 3) && SeqStops(s, 3, 3)
  {
  }

  lemma SequenceExampleTwo(s: string)
    requires Spells(s, "X Y")
    ensures Accepts(s, SeqOrDiff(s, 0))
  {
    SequenceTwoChars(s);
    NameItem(s, 2, 3);
    SeqEnd(s, 3, 3);
    SeqMore(s, 1, 2, 3);
    NameItem(s, 0, 1);
    SeqFirst(s, 0, 1, 2);
  }

  lemma SequenceThreeChars(s: string)
    requires Spells(s, "X  Y   Z")
    ensures |s| == 8
    ensures NameTo(s, 0, 1) && NoMarkAt(s, 1) && NoDashAfter(s, 1, 3) && GapTo(s, 1, 3)
    ensures NameTo(s, 3, 4) && NoMarkAt(s, 4) && GapTo(s, 4, 7)
    ensures NameTo(s, 7, 8) && NoMarkAt(s, 8) && SeqStops(s, 8, 8)
  {
  }

  lemma SequenceExampleThree(s: string)
    requires Spells(s, "X  Y   Z")
    ensures Accepts(s, SeqOrDiff(s, 0))
  {
    SequenceThreeChars(s);
    NameItem(s, 7, 8);
    SeqEnd(s, 8, 8);
    SeqMore(s, 4, 7, 8);
    NameItem(s, 3, 4);
    SeqMore(s, 1, 3, 4);
    NameItem(s, 0, 1);
    SeqFirst(s, 0, 1, 3);
  }

  lemma DifferenceChars(s: string)
    requires Spells(s, "X - Y Z")
    ensures |s| == 7
    ensures NameTo(s, 0, 1) && NoMarkAt(s, 1) && DashBetween(s, 1, 2, 4)
    ensures NameTo(s, 4, 5) && NoMarkAt(s, 5)
  {
  }

  /** A difference takes exactly one item after the "-": the item after it is
      not part of the `seq_or_diff`. */
  lemma DifferenceExample(s: string)
    requires Spells(s, "X - Y Z")
    ensures SeqOrDiff(s, 0) == Some(5)
    ensures !Accepts(s, SeqOrDiff(s, 0))
  {
    DifferenceChars(s);
    NameItem(s, 0, 1);
    NameItem(s, 4, 5);
    Difference(s, 0, 1, 2, 4, 5);
  }

  // ---------------------------------------------------------------------
  // choice
  // ---------------------------------------------------------------------

  lemma ChoiceExampleOne(s: string)
    requires Spells(s, "X")
    ensures Accepts(s, Choice(s, 0))
  {
    SequenceOneChars(s);
    NameAlt(s, 0, 1, 1);
    NoBar(s, 1, 1);
    ChoiceOf(s, 0, 1, 1);
  }

  lemma ChoiceTightChars(s: string)
    requires Spells(s, "X|Y")
    ensures |s| == 3
    ensures NameAltAt(s, 0, 1, 1) && BarBetween(s, 1, 1, 2)
    ensures NameAltAt(s, 2, 3, 3) && NoBarAfter(s, 3, 3)
  {
  }

  lemma ChoiceExampleTight(s: string)
    requires Spells(s, "X|Y")
    ensures Accepts(s, Choice(s, 0))
  {
    ChoiceTightChars(s);
    NameAlt(s, 2, 3, 3);
    NoBar(s, 3, 3);
    Bar(s, 1, 1, 2, 3);
    NameAlt(s, 0, 1, 1);
    ChoiceOf(s, 0, 1, 3);
  }

  lemma ChoiceSpacedChars(s: string)
    requires Spells(s, "X | Y | Z")
    ensures |s| == 9
    ensures NameAltAt(s, 0, 1, 2) && BarBetween(s, 1, 2, 4)
    ensures NameAltAt(s, 4, 5, 6) && BarBetween(s, 5, 6, 8)
    ensures NameAltAt(s, 8, 9, 9) && NoBarAfter(s, 9, 9)
  {
  }

  lemma ChoiceExampleSpaced(s: string)
    requires Spells(s, "X | Y | Z")
    ensures Accepts(s, Choice(s, 0))
  {
    ChoiceSpacedChars(s);
    NameAlt(s, 8, 9, 9);
    NoBar(s, 9, 9);
    NameAlt(s, 4, 5, 6);
    Bar(s, 5, 6, 8, 9);
    Bar(s, 1, 2, 4, 5);
    NameAlt(s, 0, 1, 2);
    ChoiceOf(s, 0, 1, 9);
  }

  lemma ChoiceGroupChars(s: string)
    requires Spells(s, "X | (Y) | Z")
    ensures |s| == 11
    ensures NameAltAt(s, 0, 1, 2) && BarBetween(s, 1, 2, 4)
    ensures GroupOpen(s, 4, 5) && NameAltAt(s, 5, 6, 6) && NoBarAfter(s, 6, 6) && GroupClose(s, 6, 6)
    ensures NoMarkAt(s, 7) && SeqStops(s, 7, 8) && BarBetween(s, 7, 8, 10)
    ensures NameAltAt(s, 10, 11, 11) && NoBarAfter(s, 11, 11)
  {
  }

  lemma ChoiceExampleGroup(s: string)
    requires Spells(s, "X | (Y) | Z")
    ensures Accepts(s, Choice(s, 0))
  {
    ChoiceGroupChars(s);
    NameAlt(s, 5, 6, 6);
    NoBar(s, 6, 6);
    ChoiceOf(s, 5, 6, 6);
    Group(s, 4, 5, 6, 6);
    PlainItem(s, 4, 7);
    LoneItem(s, 4, 7, 8);
    NameAlt(s, 10, 11, 11);
    NoBar(s, 11, 11);
    Bar(s, 7, 8, 10, 11);
    Bar(s, 1, 2, 4, 7);
    NameAlt(s, 0, 1, 2);
    ChoiceOf(s, 0, 1, 11);
  }

  lemma RepeatedGroupOuterChars(s: string)
    requires Spells(s, "X       |    " + "(Y | Q)+   |   Z")
    ensures |s| == 29
    ensures NameAltAt(s, 0, 1, 8) && BarBetween(s, 1, 8, 13)
    ensures GroupOpen(s, 13, 14) && NameAltAt(s, 14, 15, 16) && BarBetween(s, 15, 16, 18)
  {
  }

  lemma RepeatedGroupTailChars(s: string)
    requires Spells(s, "X       |    " + "(Y | Q)+   |   Z")
    ensures |s| == 29
    ensures NameAltAt(s, 18, 19, 19) && NoBarAfter(s, 19, 19) && GroupClose(s, 19, 19)
    ensures MarkAt(s, 20) && SeqStops(s, 21, 24) && BarBetween(s, 21, 24, 28)
    ensures NameAltAt(s, 28, 29, 29) && NoBarAfter(s, 29, 29)
  {
  }

  lemma ChoiceExampleRepeatedGroup(s: string)
    requires Spells(s, "X       |    " + "(Y | Q)+   |   Z")
    ensures Accepts(s, Choice(s, 0))
  {
    RepeatedGroupOuterChars(s);
    RepeatedGroupTailChars(s);
    NameAlt(s, 18, 19, 19);
    NoBar(s, 19, 19);
    Bar(s, 15, 16, 18, 19);
    NameAlt(s, 14, 15, 16);
    ChoiceOf(s, 14, 15, 19);
    Group(s, 13, 14, 19, 19);
    MarkedItem(s, 13, 20);
    LoneItem(s, 13, 21, 24);
    NameAlt(s, 28, 29, 29);
    NoBar(s, 29, 29);
    Bar(s, 21, 24, 28, 29);
    Bar(s, 1, 8, 13, 21);
    NameAlt(s, 0, 1, 8);
    ChoiceOf(s, 0, 1, 29);
  }

  // ---------------------------------------------------------------------
  // production
  // ---------------------------------------------------------------------

  lemma LinkChars(s: string)
    requires Spells(s, "Link    ::= '[' URL ']'")
    ensures |s| == 23 && Defines(s, 0, 0, 4, 8, 12)
    ensures QuotedTo(s, 12, 15) && NoMarkAt(s, 15) && NoDashAfter(s, 15, 16) && GapTo(s, 15, 16)
    ensures NameTo(s, 16, 19) && NoMarkAt(s, 19) && GapTo(s, 19, 20)
    ensures QuotedTo(s, 20, 23) && NoMarkAt(s, 23) && SeqStops(s, 23, 23)
    ensures NoBarAfter(s, 23, 23) && SpacesTo(s, 23, 23)
  {
  }

  /** The definition "'[' URL ']'" is a sequence of three items, so the
      production is accepted through `choice` and `link` is not tried. */
  lemma ProductionExampleLink(s: string)
    requires Spells(s, "Link    ::= '[' URL ']'")
    ensures Accepts(s, Production(s, 0))
  {
    LinkChars(s);
    QuotedItem(s, 20, 23);
    SeqEnd(s, 23, 23);
    SeqMore(s, 19, 20, 23);
    NameItem(s, 16, 19);
    SeqMore(s, 15, 16, 19);
    QuotedItem(s, 12, 15);
    SeqFirst(s, 12, 15, 16);
    NoBar(s, 23, 23);
    ChoiceOf(s, 12, 23, 23);
    ProductionOf(s, 0, 0, 4, 8, 12, 23, 23);
  }

  lemma RepeatChars(s: string)
    requires Spells(s, "Grammar ::= Production*")
    ensures |s| == 23 && Defines(s, 0, 0, 7, 8, 12)
    ensures NameTo(s, 12, 22) && MarkAt(s, 22) && SeqStops(s, 23, 23)
    ensures NoBarAfter(s, 23, 23) && SpacesTo(s, 23, 23)
  {
  }

  lemma ProductionExampleRepeat(s: string)
    requires Spells(s, "Grammar ::= Production*")
    ensures Accepts(s, Production(s, 0))
  {
    RepeatChars(s);
    NameEnd(s, 12, 22);
    MarkedItem(s, 12, 22);
    LoneItem(s, 12, 23, 23);
    NoBar(s, 23, 23);
    ChoiceOf(s, 12, 23, 23);
    ProductionOf(s, 0, 0, 7, 8, 12, 23, 23);
  }

  lemma CodesHeadChars(s: string)
    requires Spells(s, "S       ::= " + "#x9 | #xA | #xD | #x20")
    ensures |s| == 34 && Defines(s, 0, 0, 1, 8, 12)
  {
  }

  lemma CodesFirstChars(s: string)
    requires Spells(s, "S       ::= " + "#x9 | #xA | #xD | #x20")
    ensures |s| == 34
    ensures CodeAltAt(s, 12, 15, 16) && BarBetween(s, 15, 16, 18)
  {
  }

  lemma CodesSecondChars(s: string)
    requires Spells(s, "S       ::= " + "#x9 | #xA | #xD | #x20")
    ensures |s| == 34
    ensures CodeAltAt(s, 18, 21, 22) && BarBetween(s, 21, 22, 24)
  {
  }

  lemma CodesTailChars(s: string)
    requires Spells(s, "S       ::= " + "#x9 | #xA | #xD | #x20")
    ensures |s| == 34
    ensures CodeAltAt(s, 24, 27, 28) && BarBetween(s, 27, 28, 30)
    ensures CodeAltAt(s, 30, 34, 34) && NoBarAfter(s, 34, 34) && SpacesTo(s, 34, 34)
  {
  }

  lemma ProductionExampleCodes(s: string)
    requires Spells(s, "S       ::= " + "#x9 | #xA | #xD | #x20")
    ensures Accepts(s, Production(s, 0))
  {
    CodesHeadChars(s);
    CodesFirstChars(s);
    CodesSecondChars(s);
    CodesTailChars(s);
    CodeAlt(s, 30, 34, 34);
    NoBar(s, 34, 34);
    Bar(s, 27, 28, 30, 34);
    CodeAlt(s, 24, 27, 28);
    Bar(s, 21, 22, 24, 27);
    CodeAlt(s, 18, 21, 22);
    Bar(s, 15, 16, 18, 21);
    CodeAlt(s, 12, 15, 16);
    ChoiceOf(s, 12, 15, 34);
    ProductionOf(s, 0, 0, 1, 8, 12, 34, 34);
  }

  // ---------------------------------------------------------------------
  // link and url
  // ---------------------------------------------------------------------

  /** A greedy run of characters satisfying `p` from `pos` up to `end`. */
  predicate RunTo(s: string, pos: nat, end: nat, p: char -> bool) {
    pos <= end <= |s| && (forall k :: pos <= k < end ==> p(s[k])) && (end == |s| || !p(s[end]))
  }

  /** A URL's scheme `s[pos..scheme]`, "://" and body up to `body`. */
  predicate UrlHeadAt(s: string, pos: nat, scheme: nat, body: nat) {
    pos < scheme && scheme + 3 < body <= |s| && RunTo(s, pos, scheme, IsUrlSchemeChar) &&
    s[scheme] == ':' && s[scheme + 1] == '/' && s[scheme + 2] == '/' &&
    RunTo(s, scheme + 3, body, IsUrlBodyChar)
  }

  lemma UrlHead(s: string, pos: nat, scheme: nat, body: nat)
    requires UrlHeadAt(s, pos, scheme, body)
    ensures Many1(s, pos, IsUrlSchemeChar) == Some(scheme)
    ensures Str(s, scheme, "://") == Some(scheme + 3)
    ensures Many1(s, scheme + 3, IsUrlBodyChar) == Some(body)
  {
    ManyEnd(s, pos, IsUrlSchemeChar, scheme);
    AtChars(s, scheme, "://");
    ManyEnd(s, scheme + 3, IsUrlBodyChar, body);
  }

  /** A URL whose body is followed by "#" and a name ends after the name. */
  lemma UrlWithFragment(s: string, pos: nat, scheme: nat, body: nat, nameEnd: nat)
    requires UrlHeadAt(s, pos, scheme, body) && body < |s| && s[body] == '#' && NameTo(s, body + 1, nameEnd)
    ensures Url(s, pos) == Some(nameEnd)
  {
    UrlHead(s, pos, scheme, body);
    AtChars(s, body, "#");
    NameMatches(s, body + 1, nameEnd);
  }

  /** What follows a URL body ending at `body`: "#" and a name up to `e`
      when a "#" and an upper-case letter come next, nothing otherwise. */
  predicate FragmentTo(s: string, body: nat, e: nat) {
    body <= |s| &&
    if body + 1 < |s| && s[body] == '#' && IsUpper(s[body + 1]) then NameTo(s, body + 1, e) else e == body
  }

  /** `('#' >> name).maybe` after a URL body ends where the fragment ends. */
  lemma FragmentEnd(s: string, body: nat)
    requires body <= |s|
    ensures FragmentTo(s, body, Maybe(var hash :- Str(s, body, "#"); Name(s, hash), body))
  {
    AtFirst(s, body, "#");
    if body + 1 < |s| && s[body] == '#' && IsUpper(s[body + 1]) {
      AtChars(s, body, "#");
      NameMatches(s, body + 1, Name(s, body + 1).value);
    }
  }

  /** A URL head is always a URL, ending where its fragment ends. */
  lemma UrlEnd(s: string, pos: nat, scheme: nat, body: nat)
    requires UrlHeadAt(s, pos, scheme, body)
    ensures Url(s, pos).Some? && FragmentTo(s, body, Url(s, pos).value)
  {
    UrlHead(s, pos, scheme, body);
    FragmentEnd(s, body);
  }

  /** The end of a fragment is determined by where it starts. */
  lemma FragmentUnique(s: string, body: nat, e1: nat, e2: nat)
    requires FragmentTo(s, body, e1) && FragmentTo(s, body, e2)
    ensures e1 == e2
  {
    if body + 1 < |s| && s[body] == '#' && IsUpper(s[body + 1]) {
      NameMatches(s, body + 1, e1);
      NameMatches(s, body + 1, e2);
    }
  }

  /** `url` matches `s[pos..e]` exactly when that is a non-empty run of
      scheme characters, "://", a non-empty run of body characters, and then
      "#" and a name if a "#" and an upper-case letter follow the body. */
  lemma UrlMatches(s: string, pos: nat, e: nat)
    requires pos <= |s|
    ensures Url(s, pos) == Some(e) <==>
            exists scheme, body :: UrlHeadAt(s, pos, scheme, body) && FragmentTo(s, body, e)
  {
    if Url(s, pos) == Some(e) {
      var scheme := Many1(s, pos, IsUrlSchemeChar).value;
      var body := Many1(s, scheme + 3, IsUrlBodyChar).value;
      AtChars(s, scheme, "://");
      assert s[scheme + 0] == ':' && s[scheme + 1] == '/' && s[scheme + 2] == '/';
      ManyAll(s, pos, IsUrlSchemeChar);
      ManyAll(s, scheme + 3, IsUrlBodyChar);
      assert UrlHeadAt(s, pos, scheme, body);
      UrlEnd(s, pos, scheme, body);
    }
    if exists scheme, body :: UrlHeadAt(s, pos, scheme, body) && FragmentTo(s, body, e) {
      var scheme, body :| UrlHeadAt(s, pos, scheme, body) && FragmentTo(s, body, e);
      UrlEnd(s, pos, scheme, body);
      FragmentUnique(s, body, e, Url(s, pos).value);
    }
  }

  /** "[", a URL, and either "]" right after it or not. */
  lemma LinkAround(s: string, pos: nat, urlEnd: nat)
    requires pos < |s| && s[pos] == '[' && Url(s, pos + 1) == Some(urlEnd)
    ensures Link(s, pos) == if urlEnd < |s| && s[urlEnd] == ']' then Some(urlEnd + 1) else None
  {
    AtChars(s, pos, "[");
    AtChars(s, urlEnd, "]");
  }

  lemma NoChoiceAt(s: string, pos: nat)
    requires pos <= |s|
    requires pos == |s| || !StartsPrimary(s[pos])
    ensures Choice(s, pos) == None
  {
    NoItemAt(s, pos);
  }

  lemma LinkFragmentChars(s: string)
    requires Spells(s, "[http://example.org/" + "ebnf#Ref]")
    ensures |s| == 29 && s[0] == '[' && UrlHeadAt(s, 1, 5, 24)
    ensures s[24] == '#' && NameTo(s, 25, 28) && s[28] == ']'
  {
  }

  /** A link whose URL ends in a fragment name. */
  lemma LinkExampleFragment(s: string)
    requires Spells(s, "[http://example.org/" + "ebnf#Ref]")
    ensures Accepts(s, Link(s, 0))
  {
    LinkFragmentChars(s);
    UrlWithFragment(s, 1, 5, 24, 28);
    LinkAround(s, 0, 28);
  }

  /** A production whose definition is neither a choice nor a link fails. */
  lemma ProductionWithoutDefinition(s: string, pos: nat, n0: nat, n1: nat, d: nat, c0: nat)
    requires Defines(s, pos, n0, n1, d, c0) && Choice(s, c0) == None && Link(s, c0) == None
    ensures Production(s, pos) == None
  {
    Head(s, pos, n0, n1, d, c0);
  }

  /** "[" followed by a URL whose fragment name is cut short by a character
      other than "]" is neither a choice nor a link. */
  lemma CutLink(s: string, pos: nat, scheme: nat, body: nat, nameEnd: nat)
    requires pos < |s| && s[pos] == '[' && UrlHeadAt(s, pos + 1, scheme, body)
    requires body < |s| && s[body] == '#' && NameTo(s, body + 1, nameEnd)
    requires nameEnd < |s| && s[nameEnd] != ']'
    ensures Choice(s, pos) == None && Link(s, pos) == None
  {
    NoChoiceAt(s, pos);
    UrlWithFragment(s, pos + 1, scheme, body, nameEnd);
    LinkAround(s, pos, nameEnd);
  }

  lemma HyphenHeadChars(s: string)
    requires Spells(s, "NCName ::= " + "[http://www.w3.org/TR/" + "xml-names/#NT-NCName]")
    ensures |s| == 54 && Defines(s, 0, 0, 6, 7, 11) && s[11] == '['
  {
  }

  lemma HyphenUrlChars(s: string)
    requires Spells(s, "NCName ::= " + "[http://www.w3.org/TR/" + "xml-names/#NT-NCName]")
    ensures |s| == 54 && UrlHeadAt(s, 12, 16, 43)
    ensures s[43] == '#' && NameTo(s, 44, 46) && s[46] == '-'
  {
  }

  /** The production for NCName in the self-describing grammar fails: its
      definition starts with "[", which starts no primary (a char class
      never matches), and as a link its fragment name stops at the hyphen
      of "NT-NCName", where "]" is expected. */
  lemma ProductionExampleHyphenLink(s: string)
    requires Spells(s, "NCName ::= " + "[http://www.w3.org/TR/" + "xml-names/#NT-NCName]")
    ensures Production(s, 0) == None
  {
    HyphenHeadChars(s);
    HyphenUrlChars(s);
    CutLink(s, 11, 16, 43, 46);
    ProductionWithoutDefinition(s, 0, 0, 6, 7, 11);
  }

  // ---------------------------------------------------------------------
  // whitespace.repeat(1)
  // ---------------------------------------------------------------------

  lemma WhitespaceExamples()
    ensures Accepts(" ", Whitespaces1(" ", 0))
    ensures Accepts("\t", Whitespaces1("\t", 0))
    ensures Accepts("\r", Whitespaces1("\r", 0))
    ensures Accepts("\n", Whitespaces1("\n", 0))
  {
    BlankRunAccepted(" ");
    BlankRunAccepted("\t");
    BlankRunAccepted("\r");
    BlankRunAccepted("\n");
  }

  lemma WhitespaceExampleBlanks(s: string)
    requires Spells(s, "    \r\n  \t \n\r\t\t")
    ensures Accepts(s, Whitespaces1(s, 0))
  {
    BlankRunAccepted(s);
  }

  /** A comment with a non-empty body and no other closer is one whitespace. */
  lemma CommentWhitespace(s: string, pos: nat, e: nat)
    requires pos + 5 <= e <= |s| && s[pos] == '/' && s[pos + 1] == '*' && s[e - 2] == '*' && s[e - 1] == '/'
    requires forall k :: pos + 3 <= k < e - 2 ==> !(s[k] == '*' && s[k + 1] == '/')
    ensures Whitespace(s, pos) == Some(e)
  {
    AtPair(s, pos, '/', '*');
    AtPair(s, e - 2, '*', '/');
    NoCloserIn(s, pos + 3, e - 2);
    CommentAt(s, pos, e);
  }

  lemma WhitespaceCommentChars(s: string)
    requires Spells(s, "/* comment is " + "whitespace too */")
    ensures |s| == 31 && s[0] == '/' && s[1] == '*' && s[29] == '*' && s[30] == '/'
    ensures forall k :: 3 <= k < 29 ==> !(s[k] == '*' && s[k + 1] == '/')
  {
  }

  lemma WhitespaceExampleComment(s: string)
    requires Spells(s, "/* comment is " + "whitespace too */")
    ensures Accepts(s, Whitespaces1(s, 0))
  {
    WhitespaceCommentChars(s);
    CommentWhitespace(s, 0, 31);
  }

  lemma WhitespaceMixedChars(s: string)
    requires Spells(s, "    \r\n  \t " + "/*comment*/\n\r\t\t")
    ensures |s| == 25 && IsSpace(s[0])
    ensures forall k :: 1 <= k < 10 ==> IsBlank(s[k])
    ensures s[10] == '/' && s[11] == '*' && s[19] == '*' && s[20] == '/'
    ensures forall k :: 13 <= k < 19 ==> !(s[k] == '*' && s[k + 1] == '/')
    ensures forall k :: 21 <= k < 25 ==> IsBlank(s[k])
  {
  }

  lemma WhitespaceExampleMixed(s: string)
    requires Spells(s, "    \r\n  \t " + "/*comment*/\n\r\t\t")
    ensures Accepts(s, Whitespaces1(s, 0))
  {
    WhitespaceMixedChars(s);
    CommentWhitespace(s, 10, 21);
    WhitespacesSkipBlanks(s, 1, 10);
    WhitespacesSkipBlanks(s, 21, 25);
    assert Whitespace(s, 0) == Some(1);
  }

  lemma TwoCommentsChars(s: string)
    requires Spells(s, "/* a */" + "/* b */")
    ensures |s| == 14 && s[0] == '/' && s[1] == '*' && s[5] == '*' && s[6] == '/'
    ensures s[7] == '/' && s[8] == '*' && s[12] == '*' && s[13] == '/'
    ensures forall k :: 3 <= k < 5 ==> !(s[k] == '*' && s[k + 1] == '/')
    ensures forall k :: 10 <= k < 12 ==> !(s[k] == '*' && s[k + 1] == '/')
  {
  }

  /** Two comments back to back, each closed by the first star-slash after
      its opener, form a chain of two whitespace tokens. */
  lemma WhitespaceExampleTwoComments(s: string)
    requires Spells(s, "/* a */" + "/* b */")
    ensures Accepts(s, Whitespaces1(s, 0))
  {
    TwoCommentsChars(s);
    CommentWhitespace(s, 0, 7);
    CommentWhitespace(s, 7, 14);
    WhitespaceChainAccepted(s, [0, 7, 14]);
  }

  /** A comment whose body starts with the slash of a second opener. */
  lemma CommentExampleOpenerInBody()
    ensures Accepts("/*/**/", Comment("/*/**/", 0))
  {
    NoCloserIn("/*/**/", 3, 4);
    CommentWhole("/*/**/", "/*");
  }

  lemma CutRunChars(s: string)
    requires Spells(s, "/**/" + "/*/**/")
    ensures |s| == 10 && s[0] == '/' && s[1] == '*' && s[5] == '*' && s[6] == '/' && s[7] == '*'
    ensures forall k :: 3 <= k < 5 ==> !(s[k] == '*' && s[k + 1] == '/')
  {
  }

  /** Not every text made of comments is a run of whitespace. Here "/**/"
      and "/*/**/" are each a comment on their own (CommentExamplesShort,
      CommentExampleOpenerInBody), but written one after
      the other the first comment's search for its closer runs past its
      own "*/" (which would leave an empty body) into the opener of the
      second, so the first token ends at 7 and the run stops before the
      remaining star, star, slash. */
  lemma WhitespaceRunCutByComment(s: string)
    requires Spells(s, "/**/" + "/*/**/")
    ensures Whitespace(s, 0) == Some(7)
    ensures Whitespaces1(s, 0) == Some(7)
    ensures !Accepts(s, Whitespaces1(s, 0))
  {
    CutRunChars(s);
    CommentWhitespace(s, 0, 7);
    AtFirst(s, 7, "/*");
    assert Whitespace(s, 7) == None;
  }
}
