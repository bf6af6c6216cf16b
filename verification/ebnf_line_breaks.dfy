/** Where a production can end, and why a grammar text whose last line
    break is followed only by spaces or tabs is never accepted.

    Every structural rule ends on a character that is not blank: the last
    letter of a name, a closing quote, bracket or parenthesis, a hex digit
    or a cardinality mark. A production adds only spaces and tabs after
    that, and `grammar` puts line breaks only before a production, so the
    parser never consumes a line break that has nothing but spaces or tabs
    after it. */
module EbnfLineBreaks {
  import opened Options
  import opened EbnfParser
  import opened EbnfProperties

  /** The character just before `e` exists and is not blank. */
  predicate EndsOnMark(s: string, e: nat) {
    0 < e <= |s| && !IsBlank(s[e - 1])
  }

  /** A line break at `k` with only spaces or tabs after it. */
  predicate BreakThenSpaces(s: string, k: nat) {
    k < |s| && IsNewLine(s[k]) && forall j :: k < j < |s| ==> IsSpace(s[j])
  }

  /** A one-character literal ends on that character. */
  lemma LastOfStr(s: string, pos: nat, c: char)
    requires pos <= |s| && Str(s, pos, [c]).Some?
    ensures s[Str(s, pos, [c]).value - 1] == c
  {
    AtFirst(s, pos, [c]);
  }

  /** A non-empty greedy run ends on a character satisfying its predicate. */
  lemma LastOfRun(s: string, pos: nat, p: char -> bool)
    requires pos <= |s| && pos < Many(s, pos, p)
    ensures p(s[Many(s, pos, p) - 1])
  {
    ManyAll(s, pos, p);
  }

  /** A greedy run starting at or before `k` stops at `k` at the latest
      when the character at `k` does not satisfy its predicate. */
  lemma RunStopsAt(s: string, pos: nat, p: char -> bool, k: nat)
    requires pos <= k < |s| && !p(s[k])
    ensures Many(s, pos, p) <= k
  {
    ManyAll(s, pos, p);
  }

  lemma NameEndsOnMark(s: string, pos: nat)
    requires pos <= |s| && Name(s, pos).Some?
    ensures EndsOnMark(s, Name(s, pos).value)
  {
    if pos + 1 < Many(s, pos + 1, IsLetter) {
      LastOfRun(s, pos + 1, IsLetter);
    }
  }

  lemma StringLiteralEndsOnMark(s: string, pos: nat)
    requires pos <= |s| && StringLiteral(s, pos).Some?
    ensures EndsOnMark(s, StringLiteral(s, pos).value)
  {
    if Quoted(s, pos, '"').Some? {
      var body := Many(s, pos + 1, c => c != '"');
      LastOfStr(s, body, '"');
    } else {
      var body := Many(s, pos + 1, c => c != '\'');
      LastOfStr(s, body, '\'');
    }
  }

  lemma CharCodeEndsOnMark(s: string, pos: nat)
    requires pos <= |s| && CharCode(s, pos).Some?
    ensures EndsOnMark(s, CharCode(s, pos).value)
  {
    LastOfRun(s, pos + 2, IsHexDigit);
  }

  /** Stated for a char class as the rule's shape would have it end, on
      "]"; for `char_class` as written it holds vacuously, since that rule
      never matches (EbnfProperties.CharClassNeverMatches). */
  lemma CharClassEndsOnMark(s: string, pos: nat)
    requires pos <= |s| && CharClass(s, pos).Some?
    ensures EndsOnMark(s, CharClass(s, pos).value)
  {
    var first := ClassItem(s, Maybe(Str(s, pos + 1, "^"), pos + 1)).value;
    LastOfStr(s, ClassItems(s, first), ']');
  }

  lemma ParenthesisedEndsOnMark(s: string, pos: nat)
    requires pos <= |s| && Parenthesised(s, pos).Some?
    ensures EndsOnMark(s, Parenthesised(s, pos).value)
  {
    var inner := Choice(s, Spaces(s, pos + 1)).value;
    LastOfStr(s, Spaces(s, inner), ')');
  }

  /** Every primary ends on a character that is not blank. */
  lemma PrimaryEndsOnMark(s: string, pos: nat)
    requires pos <= |s| && Primary(s, pos).Some?
    ensures EndsOnMark(s, Primary(s, pos).value)
  {
    if Name(s, pos).Some? {
      NameEndsOnMark(s, pos);
    } else if StringLiteral(s, pos).Some? {
      StringLiteralEndsOnMark(s, pos);
    } else if CharCode(s, pos).Some? {
      CharCodeEndsOnMark(s, pos);
    } else if CharClass(s, pos).Some? {
      CharClassEndsOnMark(s, pos);
    } else {
      ParenthesisedEndsOnMark(s, pos);
    }
  }

  lemma ItemEndsOnMark(s: string, pos: nat)
    requires pos <= |s| && Item(s, pos).Some?
    ensures EndsOnMark(s, Item(s, pos).value)
  {
    PrimaryEndsOnMark(s, pos);
  }

  lemma {:induction false} SeqTailEndsOnMark(s: string, pos: nat)
    requires pos <= |s|
    ensures SeqTail(s, pos) == pos || EndsOnMark(s, SeqTail(s, pos))
    decreases |s| - pos
  {
    match Many1(s, pos, IsSpace)
    case None =>
    case Some(gap) =>
      match Item(s, gap)
      case None =>
      case Some(next) =>
        ItemEndsOnMark(s, gap);
        SeqTailEndsOnMark(s, next);
  }

  lemma SeqOrDiffEndsOnMark(s: string, pos: nat)
    requires pos <= |s| && SeqOrDiff(s, pos).Some?
    ensures EndsOnMark(s, SeqOrDiff(s, pos).value)
  {
    var first := Item(s, pos).value;
    ItemEndsOnMark(s, pos);
    match PaddedStr(s, first, "-")
    case Some(minus) =>
      if Item(s, minus).Some? {
        ItemEndsOnMark(s, minus);
      } else {
        SeqTailEndsOnMark(s, first);
      }
    case None =>
      SeqTailEndsOnMark(s, first);
  }

  lemma {:induction false} ChoiceTailEndsOnMark(s: string, pos: nat)
    requires pos <= |s|
    ensures ChoiceTail(s, pos) == pos || EndsOnMark(s, ChoiceTail(s, pos))
    decreases |s| - pos
  {
    match PaddedStr(s, pos, "|")
    case None =>
    case Some(bar) =>
      match SeqOrDiff(s, bar)
      case None =>
      case Some(next) =>
        SeqOrDiffEndsOnMark(s, bar);
        ChoiceTailEndsOnMark(s, next);
  }

  /** Every choice ends on a character that is not blank. */
  lemma ChoiceEndsOnMark(s: string, pos: nat)
    requires pos <= |s| && Choice(s, pos).Some?
    ensures EndsOnMark(s, Choice(s, pos).value)
  {
    SeqOrDiffEndsOnMark(s, pos);
    ChoiceTailEndsOnMark(s, SeqOrDiff(s, pos).value);
  }

  /** Every link ends on its closing bracket. */
  lemma LinkEndsOnMark(s: string, pos: nat)
    requires pos <= |s| && Link(s, pos).Some?
    ensures EndsOnMark(s, Link(s, pos).value)
  {
    AtFirst(s, pos, "[");
    var url := Url(s, pos + 1).value;
    assert Link(s, pos) == Str(s, url, "]");
    LastOfStr(s, url, ']');
  }

  /** What follows "::=" in a production ends on a character that is not
      blank. */
  lemma DefinitionEndsOnMark(s: string, pos: nat)
    requires pos <= |s| && OrElse(Choice(s, pos), Link(s, pos)).Some?
    ensures EndsOnMark(s, OrElse(Choice(s, pos), Link(s, pos)).value)
  {
    if Choice(s, pos).Some? {
      ChoiceEndsOnMark(s, pos);
    } else {
      LinkEndsOnMark(s, pos);
    }
  }

  /** Spaces and tabs after a non-blank character before the break stop at
      the break. */
  lemma MarkBeforeBreak(s: string, d: nat, k: nat)
    requires EndsOnMark(s, d) && BreakThenSpaces(s, k)
    ensures Spaces(s, d) <= k
  {
    RunStopsAt(s, d, IsSpace, k);
  }

  /** A production never runs past a line break that has only spaces or
      tabs after it, wherever it starts. */
  lemma ProductionStopsAtBreak(s: string, pos: nat, k: nat)
    requires pos <= |s| && BreakThenSpaces(s, k)
    ensures Production(s, pos).Some? ==> Production(s, pos).value <= k
  {
    if Production(s, pos).Some? {
      var defines := PaddedStr(s, Name(s, Spaces(s, pos)).value, "::=").value;
      DefinitionEndsOnMark(s, defines);
      MarkBeforeBreak(s, OrElse(Choice(s, defines), Link(s, defines)).value, k);
    }
  }

  lemma {:induction false} ProductionsStopAtBreak(s: string, pos: nat, k: nat)
    requires pos <= k && BreakThenSpaces(s, k)
    ensures Productions(s, pos) <= k
    decreases |s| - pos
  {
    var start := Many(s, pos, IsNewLine);
    ProductionStopsAtBreak(s, start, k);
    match Production(s, start)
    case None =>
    case Some(next) =>
      ProductionsStopAtBreak(s, next, k);
  }

  /** The root rule never consumes a line break that is followed only by
      spaces or tabs. */
  lemma GrammarStopsAtBreak(s: string, pos: nat, k: nat)
    requires pos <= |s| && BreakThenSpaces(s, k)
    ensures Grammar(s, pos).Some? ==> Grammar(s, pos).value <= k
  {
    var start := Whitespaces(s, pos);
    ProductionStopsAtBreak(s, start, k);
    if Production(s, start).Some? {
      ProductionsStopAtBreak(s, Production(s, start).value, k);
    }
  }

  /** A grammar text whose last line break is followed only by spaces or
      tabs, such as one closed on an indented line of its own, is rejected
      by the parser as a whole. */
  lemma BreakThenSpacesNeverParses(s: string, k: nat)
    requires BreakThenSpaces(s, k)
    ensures !Parses(s)
  {
    GrammarStopsAtBreak(s, 0, k);
  }

  /** In particular a text ending in a line break is never accepted. */
  lemma TrailingBreakNeverParses(s: string)
    requires 0 < |s| && IsNewLine(s[|s| - 1])
    ensures !Parses(s)
  {
    BreakThenSpacesNeverParses(s, |s| - 1);
  }
}
