/** Properties of the EBNF recogniser: what each lexical rule accepts,
    stated independently of how the rule is written, and the accept/reject
    behaviour on the inputs the repository's parser tests use. */
module EbnfProperties {
  import opened Options
  import opened EbnfParser

  predicate IsQuote(c: char) { c == '"' || c == '\'' }

  /** `At` compared character by character. */
  lemma AtChars(s: string, pos: nat, lit: string)
    ensures At(s, pos, lit) <==> pos + |lit| <= |s| && forall k :: 0 <= k < |lit| ==> s[pos + k] == lit[k]
  {
    if pos + |lit| <= |s| && forall k :: 0 <= k < |lit| ==> s[pos + k] == lit[k] {
      assert s[pos..pos + |lit|] == lit;
    }
  }

  /** Every character a greedy run passes over satisfies its predicate. */
  lemma {:induction false} ManyAll(s: string, pos: nat, p: char -> bool)
    requires pos <= |s|
    ensures forall i :: pos <= i < Many(s, pos, p) ==> p(s[i])
    decreases |s| - pos
  {
    if pos < |s| && p(s[pos]) {
      ManyAll(s, pos + 1, p);
    }
  }

  /** A greedy run ends exactly at the first character that does not
      satisfy the predicate: any `e` with that property is its end. */
  lemma {:induction false} ManyEnd(s: string, pos: nat, p: char -> bool, e: nat)
    requires pos <= e <= |s|
    requires forall k :: pos <= k < e ==> p(s[k])
    requires e == |s| || !p(s[e])
    ensures Many(s, pos, p) == e
    decreases e - pos
  {
    if pos < e {
      ManyEnd(s, pos + 1, p, e);
    }
  }

  /** `match[...].repeat(0)` takes the longest run and never gives any of it
      back: it ends at `e` exactly when every character before `e` satisfies
      the predicate and the one at `e` (if any) does not. */
  lemma ManyIs(s: string, pos: nat, p: char -> bool, e: nat)
    requires pos <= |s|
    ensures Many(s, pos, p) == e <==>
            pos <= e <= |s| && (forall k :: pos <= k < e ==> p(s[k])) && (e == |s| || !p(s[e]))
  {
    ManyAll(s, pos, p);
    if pos <= e <= |s| && (forall k :: pos <= k < e ==> p(s[k])) && (e == |s| || !p(s[e])) {
      ManyEnd(s, pos, p, e);
    }
  }

  /** The characters the repetition inside `any_up_until` takes are exactly
      those not followed by the atom. */
  lemma {:induction false} AnyNotBeforeClear(s: string, pos: nat, atom: string)
    requires pos <= |s|
    ensures forall j :: pos < j <= AnyNotBefore(s, pos, atom) ==> !At(s, j, atom)
    decreases |s| - pos
  {
    if pos < |s| && Str(s, pos + 1, atom).None? {
      AnyNotBeforeClear(s, pos + 1, atom);
    }
  }

  // ---------------------------------------------------------------------
  // name
  // ---------------------------------------------------------------------

  /** `name` matches `s[pos..e]` exactly when that is one upper-case letter
      followed by letters only, and no letter follows: digits, spaces and
      everything else end a name. */
  lemma NameMatches(s: string, pos: nat, e: nat)
    requires pos <= |s|
    ensures Name(s, pos) == Some(e) <==>
            pos < e <= |s| && IsUpper(s[pos]) && (forall k :: pos < k < e ==> IsLetter(s[k])) &&
            (e == |s| || !IsLetter(s[e]))
  {
    if pos < |s| && IsUpper(s[pos]) {
      ManyIs(s, pos + 1, IsLetter, e);
    }
  }

  /** A whole input is a name exactly when it is one upper-case letter
      followed by letters only. */
  lemma NameAccepts(s: string)
    ensures Accepts(s, Name(s, 0)) <==>
            |s| > 0 && IsUpper(s[0]) && forall i :: 0 < i < |s| ==> IsLetter(s[i])
  {
    NameMatches(s, 0, |s|);
  }

  /** The name inputs of the parser tests. */
  lemma NameExamples()
    ensures Accepts("A", Name("A", 0))
    ensures Accepts("AB", Name("AB", 0))
    ensures Accepts("Ab", Name("Ab", 0))
    ensures Accepts("AbC", Name("AbC", 0))
    ensures !Accepts("abC", Name("abC", 0))
    ensures !Accepts("A B", Name("A B", 0))
  {
  }

  // ---------------------------------------------------------------------
  // comment
  // ---------------------------------------------------------------------

  /** A comment matches exactly when "/" "*" opens it and a star-slash closer
      occurs somewhere from the first body position on. It ends at the first
      closer that leaves a body of at least one character; only when there
      is no such closer does the empty body (closer right after the opener)
      apply. */
  lemma CommentMatches(s: string, pos: nat)
    requires pos <= |s|
    ensures Comment(s, pos).Some? <==> At(s, pos, "/*") && exists j :: pos + 2 <= j && At(s, j, "*/")
    ensures Comment(s, pos).Some? ==>
              var e := Comment(s, pos).value;
              pos + 4 <= e && At(s, e - 2, "*/") &&
              (forall j :: pos + 3 <= j < e - 2 ==> !At(s, j, "*/")) &&
              (e == pos + 4 ==> forall j :: pos + 3 <= j ==> !At(s, j, "*/"))
  {
    if At(s, pos, "/*") {
      var p := AnyNotBefore(s, pos + 2, "*/");
      AnyNotBeforeClear(s, pos + 2, "*/");
      if p < |s| {
        assert At(s, p + 1, "*/");
        assert Comment(s, pos) == Some(p + 3);
      } else {
        assert AnyUpUntil(s, pos + 2, "*/") == pos + 2;
        forall j | pos + 3 <= j
          ensures !At(s, j, "*/")
        {
          if j <= p {
            assert pos + 2 < j <= p;
          }
        }
      }
    }
  }

  /** A comment whose body holds no star-slash, except possibly one at its
      very start, is accepted whole. */
  lemma CommentWhole(s: string, body: string)
    requires s == "/*" + body + "*/"
    requires forall j :: 3 <= j < |s| - 2 ==> !At(s, j, "*/")
    ensures Accepts(s, Comment(s, 0))
  {
    assert At(s, 0, "/*") by { assert s[..2] == "/*"; }
    assert At(s, |s| - 2, "*/") by { assert s[|s| - 2..] == "*/"; }
    CommentMatches(s, 0);
  }

  /** A comment with a non-empty body ends at the first closer after its
      first body character. */
  lemma CommentAt(s: string, pos: nat, e: nat)
    requires At(s, pos, "/*") && pos + 5 <= e <= |s| && At(s, e - 2, "*/")
    requires forall j :: pos + 3 <= j < e - 2 ==> !At(s, j, "*/")
    ensures Comment(s, pos) == Some(e)
  {
    CommentMatches(s, pos);
  }

  /** No star-slash starts in `s[from..to]`, checked on characters. */
  lemma NoCloserIn(s: string, from: nat, to: nat)
    requires to < |s|
    requires forall k :: from <= k < to ==> !(s[k] == '*' && s[k + 1] == '/')
    ensures forall j :: from <= j < to ==> !At(s, j, "*/")
  {
    forall j | from <= j < to
      ensures !At(s, j, "*/")
    {
      AtPair(s, j, '*', '/');
    }
  }

  /** A literal that matches starts with its first character. */
  lemma AtFirst(s: string, pos: nat, lit: string)
    requires |lit| > 0
    ensures At(s, pos, lit) ==> pos < |s| && s[pos] == lit[0]
  {
    AtChars(s, pos, lit);
    if At(s, pos, lit) {
      assert s[pos + 0] == lit[0];
    }
  }

  /** `At` for a two-character literal. */
  lemma AtPair(s: string, pos: nat, a: char, b: char)
    ensures At(s, pos, [a, b]) <==> pos + 2 <= |s| && s[pos] == a && s[pos + 1] == b
  {
    AtChars(s, pos, [a, b]);
    if At(s, pos, [a, b]) {
      assert s[pos + 0] == a && s[pos + 1] == b;
    }
  }

  /** The short comment inputs the parser tests accept. */
  lemma CommentExamplesShort()
    ensures Accepts("/**/", Comment("/**/", 0))
    ensures Accepts("/* */", Comment("/* */", 0))
  {
    CommentWhole("/**/", "");
    NoCloserIn("/* */", 2, 3);
    CommentWhole("/* */", " ");
  }

  /** The comment inputs made of stars that the parser tests accept. */
  lemma CommentExamplesStars()
    ensures Accepts("/***/", Comment("/***/", 0))
    ensures Accepts("/*****/", Comment("/*****/", 0))
  {
    NoCloserIn("/***/", 2, 3);
    CommentWhole("/***/", "*");
    NoCloserIn("/*****/", 2, 5);
    CommentWhole("/*****/", "***");
  }

  /** A closer that overlaps the opener does not end a comment. */
  lemma CommentExampleOverlap()
    ensures !Accepts("/*/", Comment("/*/", 0))
  {
    CommentMatches("/*/", 0);
  }

  /** A line comment is not a comment of this grammar. */
  lemma CommentExampleLine()
    ensures !Accepts("// I'm a comment!", Comment("// I'm a comment!", 0))
  {
    CommentMatches("// I'm a comment!", 0);
    AtChars("// I'm a comment!", 0, "/*");
  }

  /** The comment test input with text and runs of stars on both sides. */
  lemma CommentWithTextExample()
    ensures Accepts("/*** I'm a comment ****/", Comment("/*** I'm a comment ****/", 0))
  {
    var s := "/*** I'm a comment ****/";
    assert forall k :: 2 <= k < |s| - 2 ==> !(s[k] == '*' && s[k + 1] == '/');
    NoCloserIn(s, 2, |s| - 2);
    CommentWhole(s, "** I'm a comment ***");
  }

  // A closer right after the opener ends a comment only when no later
  // closer exists: the six characters slash, star, star, slash, star, slash
  // form one comment, not an empty comment followed by a stray closer.
  lemma CommentSkipsEarlyCloser()
    ensures Accepts("/**/*/", Comment("/**/*/", 0))
  {
    var s := "/**/*/";
    NoCloserIn(s, 3, 4);
    CommentWhole(s, "*/");
  }

  // ---------------------------------------------------------------------
  // string_literal and char_code
  // ---------------------------------------------------------------------

  /** A string literal is delimited by two equal quotes, double or single,
      with no such quote in between; the body may be empty. */
  lemma StringLiteralMatches(s: string, pos: nat, e: nat)
    requires pos <= |s|
    ensures StringLiteral(s, pos) == Some(e) <==>
            pos < |s| && IsQuote(s[pos]) && pos + 2 <= e <= |s| && s[e - 1] == s[pos] &&
            forall k :: pos < k < e - 1 ==> s[k] != s[pos]
  {
    if pos < |s| && IsQuote(s[pos]) {
      var q := s[pos];
      assert At(s, pos, [q]);
      var body := Many(s, pos + 1, c => c != q);
      if e > 0 {
        ManyIs(s, pos + 1, c => c != q, e - 1);
      }
      if pos + 2 <= e <= |s| && s[e - 1] == q && forall k :: pos < k < e - 1 ==> s[k] != q {
        assert At(s, body, [q]);
      }
      if Quoted(s, pos, q) == Some(e) {
        assert e == body + 1;
      }
      assert q == '\'' ==> Quoted(s, pos, '"') == None;
    }
  }

  /** A char code is "#x" followed by the longest non-empty run of
      hexadecimal digits. */
  lemma CharCodeMatches(s: string, pos: nat, e: nat)
    requires pos <= |s|
    ensures CharCode(s, pos) == Some(e) <==>
            At(s, pos, "#x") && pos + 2 < e <= |s| &&
            (forall k :: pos + 2 <= k < e ==> IsHexDigit(s[k])) &&
            (e == |s| || !IsHexDigit(s[e]))
  {
    if At(s, pos, "#x") {
      ManyIs(s, pos + 2, IsHexDigit, e);
    }
  }

  /** "#x" without a digit is not a char code; the codes of the tests are. */
  lemma CharCodeExamples()
    ensures CharCode("#x", 0) == None
    ensures Accepts("#x9", CharCode("#x9", 0))
    ensures Accepts("#x20", CharCode("#x20", 0))
    ensures Accepts("#xA", CharCode("#xA", 0))
  {
  }

  // ---------------------------------------------------------------------
  // char_class
  // ---------------------------------------------------------------------

  /** At any position a class item consumes exactly one printable character
      and nothing else: `char` is tried first and takes every printable
      character, and the other three alternatives all start with a
      printable character. */
  lemma ClassItemIsOnePrintable(s: string, pos: nat)
    requires pos <= |s|
    ensures ClassItem(s, pos) == (if pos < |s| && IsPrint(s[pos]) then Some(pos + 1) else None)
  {
    AtChars(s, pos, "#x");
  }

  /** The greedy repetition of class items stops only at a character that
      is not printable, or at the end of the input. */
  lemma {:induction false} ClassItemsStopAtNonPrintable(s: string, pos: nat)
    requires pos <= |s|
    ensures ClassItems(s, pos) == Many(s, pos, IsPrint)
    decreases |s| - pos
  {
    ClassItemIsOnePrintable(s, pos);
    if pos < |s| && IsPrint(s[pos]) {
      ClassItemsStopAtNonPrintable(s, pos + 1);
    }
  }

  /** As written, `char_class` never matches: the closing "]" is itself
      printable, so the repetition has always consumed it already. */
  lemma CharClassNeverMatches(s: string, pos: nat)
    requires pos <= |s|
    ensures CharClass(s, pos) == None
  {
    if At(s, pos, "[") {
      var negated := Maybe(Str(s, pos + 1, "^"), pos + 1);
      ClassItemIsOnePrintable(s, negated);
      if negated < |s| && IsPrint(s[negated]) {
        ClassItemsStopAtNonPrintable(s, negated + 1);
        var close := ClassItems(s, negated + 1);
        AtFirst(s, close, "]");
      }
    }
  }

  // ---------------------------------------------------------------------
  // whitespace
  // ---------------------------------------------------------------------

  /** `whitespace.repeat(0)` passes over any run of spaces, tabs, carriage
      returns and line feeds. */
  lemma {:induction false} WhitespacesSkipBlanks(s: string, pos: nat, blanks: nat)
    requires pos <= blanks <= |s|
    requires forall k :: pos <= k < blanks ==> IsBlank(s[k])
    ensures Whitespaces(s, pos) == Whitespaces(s, blanks)
    decreases blanks - pos
  {
    if pos < blanks {
      assert Whitespace(s, pos) == Some(pos + 1);
      WhitespacesSkipBlanks(s, pos + 1, blanks);
    }
  }

  /** Any non-empty run of spaces, tabs, carriage returns and line feeds is
      accepted by `whitespace.repeat(1)`. */
  lemma BlankRunAccepted(s: string)
    requires |s| > 0
    requires forall k :: 0 <= k < |s| ==> IsBlank(s[k])
    ensures Accepts(s, Whitespaces1(s, 0))
  {
    assert Whitespace(s, 0) == Some(1);
    WhitespacesSkipBlanks(s, 1, |s|);
    assert Whitespace(s, |s|) == None;
  }

  /** `ps` is a chain of whitespace tokens in `s`: started at each of its
      positions, `whitespace` ends at the next one. */
  predicate WhitespaceChain(s: string, ps: seq<nat>) {
    forall i :: 0 <= i < |ps| - 1 ==> ps[i] <= |s| && Whitespace(s, ps[i]) == Some(ps[i + 1])
  }

  /** A chain without its first token is a chain. */
  lemma ChainTail(s: string, ps: seq<nat>)
    requires 0 < |ps| && WhitespaceChain(s, ps)
    ensures WhitespaceChain(s, ps[1..])
  {
    forall i | 0 <= i < |ps[1..]| - 1
      ensures ps[1..][i] <= |s| && Whitespace(s, ps[1..][i]) == Some(ps[1..][i + 1])
    {
      assert ps[1..][i] == ps[i + 1] && ps[1..][i + 1] == ps[i + 2];
    }
  }

  /** `whitespace.repeat(0)` follows a chain of tokens to its last position,
      and stops there when no token starts at it. */
  lemma {:induction false} WhitespacesFollowChain(s: string, ps: seq<nat>)
    requires 0 < |ps| && ps[0] <= |s| && ps[|ps| - 1] <= |s| && WhitespaceChain(s, ps)
    requires Whitespace(s, ps[|ps| - 1]) == None
    ensures Whitespaces(s, ps[0]) == ps[|ps| - 1]
    decreases |ps|
  {
    if 1 < |ps| {
      ChainTail(s, ps);
      WhitespacesFollowChain(s, ps[1..]);
    }
  }

  /** `whitespace.repeat(1)` accepts a text that is a chain of one or more
      whitespace tokens, each starting where the previous one ended. */
  lemma WhitespaceChainAccepted(s: string, ps: seq<nat>)
    requires 2 <= |ps| && ps[0] == 0 && ps[|ps| - 1] == |s| && WhitespaceChain(s, ps)
    ensures Accepts(s, Whitespaces1(s, 0))
  {
    assert Whitespace(s, 0) == Some(ps[1]);
    ChainTail(s, ps);
    WhitespacesFollowChain(s, ps[1..]);
  }

  // ---------------------------------------------------------------------
  // primary, item, seq_or_diff, choice
  // ---------------------------------------------------------------------

  /** The alternatives of `primary` are told apart by their first character,
      so the ordered choice never has to fall back from a partial match:
      a name starts upper-case, a literal with a quote, a char code with "#",
      a group with "("; a "[" (a char class) never matches, and nothing else
      starts a primary. */
  lemma PrimaryByFirstChar(s: string, pos: nat)
    requires pos <= |s|
    ensures pos == |s| ==> Primary(s, pos) == None
    ensures pos < |s| && IsUpper(s[pos]) ==> Primary(s, pos) == Name(s, pos)
    ensures pos < |s| && IsQuote(s[pos]) ==> Primary(s, pos) == StringLiteral(s, pos)
    ensures pos < |s| && s[pos] == '#' ==> Primary(s, pos) == CharCode(s, pos)
    ensures pos < |s| && s[pos] == '(' ==> Primary(s, pos) == Parenthesised(s, pos)
    ensures pos < |s| && !IsUpper(s[pos]) && !IsQuote(s[pos]) && s[pos] != '#' && s[pos] != '(' ==>
              Primary(s, pos) == None
  {
    CharClassNeverMatches(s, pos);
    AtFirst(s, pos, "#x");
    AtFirst(s, pos, "(");
    AtFirst(s, pos, "\"");
    AtFirst(s, pos, "'");
    assert StringLiteral(s, pos).Some? ==> IsQuote(s[pos]);
    assert CharCode(s, pos).Some? ==> s[pos] == '#';
    assert Parenthesised(s, pos).Some? ==> s[pos] == '(';
  }

  /** An item is a primary followed by at most one cardinality marker; a
      second marker is left for whatever follows. */
  lemma ItemMatches(s: string, pos: nat)
    requires pos <= |s|
    ensures Item(s, pos).Some? <==> Primary(s, pos).Some?
    ensures Primary(s, pos).Some? ==>
              var p := Primary(s, pos).value;
              Item(s, pos) == Some(if p < |s| && IsCardinality(s[p]) then p + 1 else p)
  {
  }

  /** In `seq_or_diff` the `-` difference is tried before the sequence
      continuation: when a padded "-" and an item follow the first item, the
      rule ends after that item, whatever could follow. */
  lemma DifferenceFirst(s: string, pos: nat, first: nat, second: nat)
    requires pos <= |s|
    requires Item(s, pos) == Some(first)
    requires At(s, Spaces(s, first), "-")
    requires Item(s, Spaces(s, Spaces(s, first) + 1)) == Some(second)
    ensures SeqOrDiff(s, pos) == Some(second)
  {
    assert PaddedStr(s, first, "-") == Some(Spaces(s, Spaces(s, first) + 1));
  }

  /** Without a padded "-" after the first item, `seq_or_diff` is the first
      item and the items that each follow at least one space or tab. */
  lemma SequenceWithoutDifference(s: string, pos: nat, first: nat)
    requires pos <= |s|
    requires Item(s, pos) == Some(first)
    requires !At(s, Spaces(s, first), "-")
    ensures SeqOrDiff(s, pos) == Some(SeqTail(s, first))
  {
  }

  /** One more sequence item: it must be preceded by at least one space or tab. */
  lemma SeqTailStep(s: string, pos: nat, next: nat)
    requires pos <= |s|
    requires Spaces(s, pos) > pos
    requires Item(s, Spaces(s, pos)) == Some(next)
    ensures SeqTail(s, pos) == SeqTail(s, next)
  {
  }

  /** The sequence ends where no space or tab follows, or no item after them. */
  lemma SeqTailStop(s: string, pos: nat)
    requires pos <= |s|
    requires Spaces(s, pos) == pos || Item(s, Spaces(s, pos)).None?
    ensures SeqTail(s, pos) == pos
  {
  }

  /** A sequence grows only over a space or a tab: directly adjacent
      primaries do not form a sequence. */
  lemma SeqTailNeedsSpace(s: string, pos: nat)
    requires pos <= |s|
    ensures SeqTail(s, pos) > pos ==> pos < |s| && IsSpace(s[pos])
  {
  }

  /** One more alternative of a choice, after a "|" with optional spaces or tabs around it. */
  lemma ChoiceTailStep(s: string, pos: nat, next: nat)
    requires pos <= |s|
    requires At(s, Spaces(s, pos), "|")
    requires SeqOrDiff(s, Spaces(s, Spaces(s, pos) + 1)) == Some(next)
    ensures ChoiceTail(s, pos) == ChoiceTail(s, next)
  {
  }

  /** A choice ends where no "|" follows (spaces or tabs aside). */
  lemma ChoiceTailStop(s: string, pos: nat)
    requires pos <= |s|
    requires !At(s, Spaces(s, pos), "|")
    ensures ChoiceTail(s, pos) == pos
  {
  }
}
