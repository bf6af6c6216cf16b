/** Which grammar texts the root rule accepts: leading whitespace, then one
    production after another, each next one starting after nothing but
    line breaks, the last one ending at the end of the text. */
module EbnfGrammar {
  import opened Options
  import opened EbnfParser
  import opened EbnfProperties
  import opened EbnfExamples

  /** `starts[i]` and `ends[i]` are where the i-th production of `s` starts
      and ends, and only line breaks lie between one production's end and
      the next one's start. */
  predicate ProductionChain(s: string, starts: seq<nat>, ends: seq<nat>) {
    |starts| == |ends| &&
    (forall i :: 0 <= i < |starts| ==> starts[i] <= |s| && Production(s, starts[i]) == Some(ends[i])) &&
    (forall i :: 0 <= i < |starts| - 1 ==>
       ends[i] <= starts[i + 1] && forall k :: ends[i] <= k < starts[i + 1] ==> IsNewLine(s[k]))
  }

  /** A production never starts on a line break: it starts with spaces,
      tabs or the upper-case letter of its name. */
  lemma ProductionStart(s: string, pos: nat)
    requires pos <= |s| && Production(s, pos).Some?
    ensures pos < |s| && !IsNewLine(s[pos])
  {
  }

  /** Line breaks up to the start of a production are skipped, and the
      production is taken. */
  lemma ProductionsStep(s: string, pos: nat, start: nat, next: nat)
    requires pos <= start <= |s| && forall k :: pos <= k < start ==> IsNewLine(s[k])
    requires Production(s, start) == Some(next)
    ensures Productions(s, pos) == Productions(s, next)
  {
    ProductionStart(s, start);
    ManyEnd(s, pos, IsNewLine, start);
  }

  /** At the end of the text no further production is taken. */
  lemma ProductionsAtEnd(s: string)
    ensures Productions(s, |s|) == |s|
  {
    assert Production(s, |s|) == None;
  }

  /** Between the ends of two neighbouring productions of a chain,
      `new_line.repeat >> production` is taken once. */
  lemma ChainStep(s: string, starts: seq<nat>, ends: seq<nat>, i: nat)
    requires ProductionChain(s, starts, ends) && i + 1 < |starts|
    ensures Productions(s, ends[i]) == Productions(s, ends[i + 1])
  {
    ProductionsStep(s, ends[i], starts[i + 1], ends[i + 1]);
  }

  /** From the end of the i-th production on, `(new_line.repeat >>
      production).repeat(0)` takes the remaining productions of the chain
      and ends at the end of the text. */
  lemma {:induction false} ProductionsFollowChain(s: string, starts: seq<nat>, ends: seq<nat>, i: nat)
    requires ProductionChain(s, starts, ends) && i < |starts| && ends[|ends| - 1] == |s|
    ensures Productions(s, ends[i]) == |s|
    decreases |starts| - i
  {
    if i + 1 < |starts| {
      ChainStep(s, starts, ends, i);
      ProductionsFollowChain(s, starts, ends, i + 1);
    } else {
      ProductionsAtEnd(s);
    }
  }

  /** The root rule accepts a text made of leading whitespace and a chain
      of one or more productions separated by line breaks that ends at the
      end of the text. */
  lemma GrammarAccepts(s: string, starts: seq<nat>, ends: seq<nat>)
    requires 0 < |starts| && ProductionChain(s, starts, ends) && ends[|ends| - 1] == |s|
    requires Whitespaces(s, 0) == starts[0]
    ensures Parses(s)
  {
    ProductionsFollowChain(s, starts, ends, 0);
  }

  /** In particular, two productions with only line breaks between them,
      after leading whitespace, are a grammar. */
  lemma GrammarOfTwo(s: string, a0: nat, a1: nat, b0: nat)
    requires Whitespaces(s, 0) == a0 && a0 <= |s| && Production(s, a0) == Some(a1)
    requires a1 <= b0 <= |s| && (forall k :: a1 <= k < b0 ==> IsNewLine(s[k])) && Production(s, b0) == Some(|s|)
    ensures Parses(s)
  {
    ProductionsStep(s, a1, b0, |s|);
    ProductionsAtEnd(s);
  }

  // ---------------------------------------------------------------------
  // Examples
  // ---------------------------------------------------------------------

  /** No whitespace starts at an upper-case letter. */
  lemma NoWhitespaceAtName(s: string, pos: nat)
    requires pos < |s| && IsUpper(s[pos])
    ensures Whitespace(s, pos) == None
  {
    AtFirst(s, pos, "/*");
  }

  /** A grammar of one production. */
  lemma GrammarExampleOne(s: string)
    requires Spells(s, "Grammar ::= Production*")
    ensures Parses(s)
  {
    ProductionExampleRepeat(s);
    NoWhitespaceAtName(s, 0);
    GrammarAccepts(s, [0], [|s|]);
  }

  lemma TwoProductionsFirstChars(s: string)
    requires Spells(s, "\nA ::= B | C\r\n" + "B ::= 'c'")
    ensures |s| == 23 && IsNewLine(s[0]) && IsUpper(s[1]) && Defines(s, 1, 1, 2, 3, 7)
    ensures NameAltAt(s, 7, 8, 9) && BarBetween(s, 8, 9, 11)
    ensures NameAltAt(s, 11, 12, 12) && NoBarAfter(s, 12, 12) && SpacesTo(s, 12, 12)
    ensures IsNewLine(s[12]) && IsNewLine(s[13])
  {
  }

  lemma TwoProductionsSecondChars(s: string)
    requires Spells(s, "\nA ::= B | C\r\n" + "B ::= 'c'")
    ensures |s| == 23 && Defines(s, 14, 14, 15, 16, 20)
    ensures QuotedTo(s, 20, 23) && NoMarkAt(s, 23) && SeqStops(s, 23, 23)
    ensures NoBarAfter(s, 23, 23) && SpacesTo(s, 23, 23)
  {
  }

  /** "A ::= B | C" after a line feed. */
  lemma TwoProductionsFirst(s: string)
    requires Spells(s, "\nA ::= B | C\r\n" + "B ::= 'c'")
    ensures Production(s, 1) == Some(12)
  {
    TwoProductionsFirstChars(s);
    NameAlt(s, 11, 12, 12);
    NoBar(s, 12, 12);
    Bar(s, 8, 9, 11, 12);
    NameAlt(s, 7, 8, 9);
    ChoiceOf(s, 7, 8, 12);
    ProductionOf(s, 1, 1, 2, 3, 7, 12, 12);
  }

  /** "B ::= 'c'" after a carriage return and a line feed. */
  lemma TwoProductionsSecond(s: string)
    requires Spells(s, "\nA ::= B | C\r\n" + "B ::= 'c'")
    ensures Production(s, 14) == Some(23)
  {
    TwoProductionsSecondChars(s);
    QuotedItem(s, 20, 23);
    LoneItem(s, 20, 23, 23);
    NoBar(s, 23, 23);
    ChoiceOf(s, 20, 23, 23);
    ProductionOf(s, 14, 14, 15, 16, 20, 23, 23);
  }

  /** The leading line feed is skipped, and a carriage return and a line
      feed separate the productions. */
  lemma TwoProductionsBreaks(s: string)
    requires Spells(s, "\nA ::= B | C\r\n" + "B ::= 'c'")
    ensures |s| == 23 && Whitespaces(s, 0) == 1
    ensures forall k :: 12 <= k < 14 ==> IsNewLine(s[k])
  {
    TwoProductionsFirstChars(s);
    NoWhitespaceAtName(s, 1);
    WhitespacesSkipBlanks(s, 0, 1);
  }

  /** A grammar of two productions, with a leading line feed and a
      carriage return and line feed between the productions. */
  lemma GrammarExampleTwo(s: string)
    requires Spells(s, "\nA ::= B | C\r\n" + "B ::= 'c'")
    ensures Parses(s)
  {
    TwoProductionsBreaks(s);
    TwoProductionsFirst(s);
    TwoProductionsSecond(s);
    GrammarOfTwo(s, 1, 12, 14);
  }
}
