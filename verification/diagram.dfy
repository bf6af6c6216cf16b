/** The serialiser that turns diagram data into the JavaScript expression
    handed to the railroad-diagram library: a set becomes a `Choice`, an
    array a `Sequence`, a symbol a `NonTerminal`, a string a `Terminal`, and
    a hash whose first key is `optional`, `zero_or_more` or `one_or_more`
    the corresponding wrapper around its first value. Anything else has no
    serialisation (Ruby's nil), and a missing serialisation nested inside
    another one is written as the empty string, as Ruby's interpolation and
    `join` write nil. */
module Diagram {
  import opened Options

  /** A Ruby value as the serialiser sees it. A set is kept as its members
      in insertion order, a hash as its pairs in insertion order; `Other`
      stands for every value of any other class. */
  datatype Data =
    | SetOf(members: seq<Data>)
    | Arr(items: seq<Data>)
    | Sym(name: string)
    | Str(text: string)
    | HashOf(entries: seq<Pair>)
    | Other

  datatype Pair = Pair(key: Data, value: Data)

  // ---------------------------------------------------------------------
  // String#inspect
  // ---------------------------------------------------------------------

  /** The upper-case hexadecimal digit for `v`. */
  function HexDigit(v: nat): (c: char)
    requires v < 16
    ensures IsHex(c) && HexValue(c) == v
  {
    "0123456789ABCDEF"[v]
  }

  predicate IsHex(c: char) {
    '0' <= c <= '9' || 'A' <= c <= 'F'
  }

  function HexValue(c: char): nat
    requires IsHex(c)
  {
    if c <= '9' then c as nat - '0' as nat else c as nat - 'A' as nat + 10
  }

  /** The letter of the backslash escape Ruby uses for a control character
      that has one. */
  function NamedEscape(c: char): Option<char> {
    if c == '\n' then Some('n')
    else if c == '\r' then Some('r')
    else if c == '\t' then Some('t')
    else if c == 12 as char then Some('f')
    else if c == 11 as char then Some('v')
    else if c == 8 as char then Some('b')
    else if c == 7 as char then Some('a')
    else if c == 27 as char then Some('e')
    else None
  }

  /** The control character a named escape letter stands for. */
  function NamedControl(e: char): Option<char> {
    if e == 'n' then Some('\n')
    else if e == 'r' then Some('\r')
    else if e == 't' then Some('\t')
    else if e == 'f' then Some(12 as char)
    else if e == 'v' then Some(11 as char)
    else if e == 'b' then Some(8 as char)
    else if e == 'a' then Some(7 as char)
    else if e == 'e' then Some(27 as char)
    else None
  }

  /** An ASCII character that is not printable. */
  predicate IsControl(c: char) {
    c < ' ' || c == 127 as char
  }

  /** How `inspect` writes the character `c`, `next` being the character
      after it: quote and backslash get a backslash, so does "#" before
      "{", "$" or "@" (which would otherwise start an interpolation),
      control characters get their named escape or a four-digit `\u`
      escape, and everything else is copied. */
  function EscapeChar(c: char, next: Option<char>): (r: string)
    ensures r == [c] <==>
              !IsControl(c) && c != '"' && c != '\\' &&
              !(c == '#' && next.Some? && (next.value == '{' || next.value == '$' || next.value == '@'))
    ensures r != [c] ==> 2 <= |r| && r[0] == '\\'
  {
    if c == '"' || c == '\\' then ['\\', c]
    else if c == '#' && next.Some? && (next.value == '{' || next.value == '$' || next.value == '@') then ['\\', '#']
    else if NamedEscape(c).Some? then ['\\', NamedEscape(c).value]
    else if IsControl(c) then ['\\', 'u', '0', '0', HexDigit(c as nat / 16), HexDigit(c as nat % 16)]
    else [c]
  }

  /** A character `inspect` copies whatever follows it. */
  predicate Plain(c: char) {
    !IsControl(c) && c != '"' && c != '\\' && c != '#'
  }

  /** The escaped text: never shorter than `s`, and `s` itself when every
      character of `s` is plain. */
  function InspectBody(s: string): (r: string)
    ensures |s| <= |r|
    ensures (forall i :: 0 <= i < |s| ==> Plain(s[i])) ==> r == s
  {
    if |s| == 0 then ""
    else EscapeChar(s[0], if |s| > 1 then Some(s[1]) else None) + InspectBody(s[1..])
  }

  /** `String#inspect`: the escaped text between double quotes. */
  function Inspect(s: string): (r: string)
    ensures |s| + 2 <= |r| && r[0] == '"' && r[|r| - 1] == '"'
  {
    "\"" + InspectBody(s) + "\""
  }

  /** Reads an escaped text back, failing on a bare double quote and on an
      escape `inspect` does not write. */
  function Unescape(body: string): Option<string>
    decreases |body|
  {
    if |body| == 0 then Some("")
    else if body[0] == '"' then None
    else if body[0] != '\\' then
      var rest :- Unescape(body[1..]);
      Some([body[0]] + rest)
    else if |body| < 2 then None
    else if body[1] == '"' || body[1] == '\\' || body[1] == '#' then
      var rest :- Unescape(body[2..]);
      Some([body[1]] + rest)
    else if NamedControl(body[1]).Some? then
      var rest :- Unescape(body[2..]);
      Some([NamedControl(body[1]).value] + rest)
    else if body[1] == 'u' && |body| >= 6 && body[2] == '0' && body[3] == '0' && IsHex(body[4]) && IsHex(body[5]) then
      var rest :- Unescape(body[6..]);
      Some([(HexValue(body[4]) * 16 + HexValue(body[5])) as char] + rest)
    else None
  }

  /** Reads an `inspect` result back. */
  function Uninspect(r: string): Option<string> {
    if |r| >= 2 && r[0] == '"' && r[|r| - 1] == '"' then Unescape(r[1..|r| - 1]) else None
  }

  // ---------------------------------------------------------------------
  // transform
  // ---------------------------------------------------------------------

  /** `join(sep)`: starts with the first part. */
  function Join(parts: seq<string>, sep: string): (r: string)
    ensures 0 < |parts| ==> parts[0] <= r
  {
    if |parts| == 0 then ""
    else if |parts| == 1 then parts[0]
    else parts[0] + sep + Join(parts[1..], sep)
  }

  /** How interpolation and `join` write a serialisation that may be nil. */
  function Interpolated(o: Option<string>): (r: string)
    ensures o.Some? ==> r == o.value
    ensures o.None? ==> r == ""
  {
    if o.Some? then o.value else ""
  }

  /** The railroad function a hash's first key asks for: one of the three
      wrappers, and only for a symbol key. */
  function Wrapper(key: Data): (r: Option<string>)
    ensures r.Some? ==> key.Sym? && r.value in {"Optional", "ZeroOrMore", "OneOrMore"}
  {
    if key == Sym("optional") then Some("Optional")
    else if key == Sym("zero_or_more") then Some("ZeroOrMore")
    else if key == Sym("one_or_more") then Some("OneOrMore")
    else None
  }

  /** The serialisations of the members of a set or the items of an array,
      in order. */
  function Parts(d: Data): (r: seq<string>)
    requires d.SetOf? || d.Arr?
    ensures var ds := if d.SetOf? then d.members else d.items;
            |r| == |ds| &&
            forall i :: 0 <= i < |ds| ==> if Serialize(ds[i]).Some? then r[i] == Serialize(ds[i]).value else r[i] == ""
    decreases d, 0
  {
    var ds := if d.SetOf? then d.members else d.items;
    seq(|ds|, i requires 0 <= i < |ds| => Interpolated(Serialize(ds[i])))
  }

  /** `transform(data)`. */
  function Serialize(d: Data): (r: Option<string>)
    ensures d.SetOf? || d.Arr? || d.Sym? || d.Str? ==> r.Some?
    ensures r.Some? ==> 0 < |r.value| && r.value[|r.value| - 1] == ')'
    decreases d, 1
  {
    match d
    case SetOf(_) => Some("Choice(0, " + Join(Parts(d), ", ") + ")")
    case Arr(_) => Some("Sequence(" + Join(Parts(d), ", ") + ")")
    case Sym(name) => Some("NonTerminal('" + name + "')")
    case Str(text) => Some("Terminal(" + Inspect(text) + ")")
    case HashOf(entries) =>
      if |entries| == 0 then None
      else
        var w :- Wrapper(entries[0].key);
        Some(w + "(" + Interpolated(Serialize(entries[0].value)) + ")")
    case Other => None
  }

  // ---------------------------------------------------------------------
  // inspect can be read back
  // ---------------------------------------------------------------------

  /** The result of reading back `c` followed by what `rest` reads back as. */
  function Prepend(c: char, r: Option<string>): Option<string> {
    if r.Some? then Some([c] + r.value) else None
  }

  lemma TwoCharEscapeReadsBack(c: char, e: char, rest: string)
    requires e == '"' || e == '\\' || e == '#' || NamedControl(e) == Some(c)
    requires e == '"' || e == '\\' || e == '#' ==> c == e
    ensures Unescape(['\\', e] + rest) == Prepend(c, Unescape(rest))
  {
    assert (['\\', e] + rest)[2..] == rest;
  }

  lemma CodeEscapeReadsBack(c: char, rest: string)
    requires IsControl(c)
    ensures Unescape(['\\', 'u', '0', '0', HexDigit(c as nat / 16), HexDigit(c as nat % 16)] + rest) == Prepend(c, Unescape(rest))
  {
    var e := ['\\', 'u', '0', '0', HexDigit(c as nat / 16), HexDigit(c as nat % 16)];
    assert (e + rest)[6..] == rest;
    assert HexValue(HexDigit(c as nat / 16)) * 16 + HexValue(HexDigit(c as nat % 16)) == c as nat;
  }

  lemma NamedEscapeInverse(c: char)
    requires NamedEscape(c).Some?
    ensures NamedControl(NamedEscape(c).value) == Some(c)
  {
  }

  /** Reading back one escaped character gives that character. */
  lemma EscapeCharReadsBack(c: char, next: Option<char>, rest: string)
    ensures Unescape(EscapeChar(c, next) + rest) == Prepend(c, Unescape(rest))
  {
    if c == '"' || c == '\\' {
      TwoCharEscapeReadsBack(c, c, rest);
    } else if c == '#' && next.Some? && (next.value == '{' || next.value == '$' || next.value == '@') {
      TwoCharEscapeReadsBack(c, c, rest);
    } else if NamedEscape(c).Some? {
      NamedEscapeInverse(c);
      TwoCharEscapeReadsBack(c, NamedEscape(c).value, rest);
    } else if IsControl(c) {
      CodeEscapeReadsBack(c, rest);
    } else {
      assert ([c] + rest)[1..] == rest;
    }
  }

  lemma {:induction false} InspectBodyReadsBack(s: string)
    ensures Unescape(InspectBody(s)) == Some(s)
  {
    if |s| > 0 {
      InspectBodyReadsBack(s[1..]);
      EscapeCharReadsBack(s[0], if |s| > 1 then Some(s[1]) else None, InspectBody(s[1..]));
      assert [s[0]] + s[1..] == s;
    }
  }

  /** `inspect` loses nothing: its result reads back as the original text. */
  lemma InspectRoundTrip(s: string)
    ensures Uninspect(Inspect(s)) == Some(s)
  {
    var r := Inspect(s);
    assert r[1..|r| - 1] == InspectBody(s);
    InspectBodyReadsBack(s);
  }

  /** Different texts give different terminals. */
  lemma InspectInjective(a: string, b: string)
    requires Inspect(a) == Inspect(b)
    ensures a == b
  {
    InspectRoundTrip(a);
    InspectRoundTrip(b);
  }

  // ---------------------------------------------------------------------
  // What transform returns
  // ---------------------------------------------------------------------

  /** transform returns nil exactly for a value of no handled class, an
      empty hash, and a hash whose first key is not one of the three
      wrapper keys. */
  lemma NilExactly(d: Data)
    ensures Serialize(d).None? <==>
              d.Other? ||
              (d.HashOf? && (|d.entries| == 0 ||
                             (d.entries[0].key != Sym("optional") && d.entries[0].key != Sym("zero_or_more") &&
                              d.entries[0].key != Sym("one_or_more"))))
  {
  }

  /** Only the first pair of a hash is consulted. */
  lemma FirstPairOnly(first: Pair, rest: seq<Pair>)
    ensures Serialize(HashOf([first] + rest)) == Serialize(HashOf([first]))
  {
    assert ([first] + rest)[0] == first;
  }

  /** The three wrapper keys, around the serialisation of the first value
      (empty when that value has none). */
  lemma WrapperKey(key: Data, value: Data, rest: seq<Pair>)
    requires Wrapper(key).Some?
    ensures Serialize(HashOf([Pair(key, value)] + rest)) == Some(Wrapper(key).value + "(" + Interpolated(Serialize(value)) + ")")
  {
    FirstPairOnly(Pair(key, value), rest);
    assert [Pair(key, value)][0] == Pair(key, value);
  }

  lemma WrapperKeys(value: Data, rest: seq<Pair>)
    ensures Serialize(HashOf([Pair(Sym("optional"), value)] + rest)) == Some("Optional(" + Interpolated(Serialize(value)) + ")")
    ensures Serialize(HashOf([Pair(Sym("zero_or_more"), value)] + rest)) == Some("ZeroOrMore(" + Interpolated(Serialize(value)) + ")")
    ensures Serialize(HashOf([Pair(Sym("one_or_more"), value)] + rest)) == Some("OneOrMore(" + Interpolated(Serialize(value)) + ")")
  {
    assert "Optional" + "(" == "Optional(";
    assert "ZeroOrMore" + "(" == "ZeroOrMore(";
    assert "OneOrMore" + "(" == "OneOrMore(";
    WrapperKey(Sym("optional"), value, rest);
    WrapperKey(Sym("zero_or_more"), value, rest);
    WrapperKey(Sym("one_or_more"), value, rest);
  }

  /** A set and an array with the same elements list the same parts; only
      the constructor differs. */
  lemma ChoiceAndSequenceShareParts(ds: seq<Data>)
    ensures exists inner :: Serialize(SetOf(ds)) == Some("Choice(0, " + inner + ")") &&
                            Serialize(Arr(ds)) == Some("Sequence(" + inner + ")")
  {
    assert Parts(SetOf(ds)) == Parts(Arr(ds));
    var inner := Join(Parts(Arr(ds)), ", ");
    assert Serialize(SetOf(ds)) == Some("Choice(0, " + inner + ")");
  }

  /** The empty array and the empty set. */
  lemma EmptyCollections()
    ensures Serialize(Arr([])) == Some("Sequence()")
    ensures Serialize(SetOf([])) == Some("Choice(0, )")
  {
    assert Parts(Arr([])) == [];
    assert Parts(SetOf([])) == [];
    assert "Sequence(" + "" + ")" == "Sequence()";
    assert "Choice(0, " + "" + ")" == "Choice(0, )";
  }

  lemma {:induction false} JoinAppend(x: seq<string>, y: seq<string>, sep: string)
    requires |x| > 0 && |y| > 0
    ensures Join(x + y, sep) == Join(x, sep) + sep + Join(y, sep)
    decreases |x|
  {
    if |x| == 1 {
      assert (x + y)[1..] == y;
    } else {
      assert (x + y)[1..] == x[1..] + y;
      JoinAppend(x[1..], y, sep);
    }
  }

  /** Regrouping a concatenation of strings. These two steps are lemmas of
      their own so that the lemmas using them see the strings as separate
      pieces. */
  lemma Regroup(a: string, b: string, c: string, d: string, e: string)
    ensures a + (b + c + d) + e == a + b + c + d + e
  {
  }

  lemma RegroupThree(a: string, b: string, sep: string, d: string, f: string, g: string)
    ensures a + (b + sep + (d + sep + f)) + g == a + b + sep + d + sep + f + g
  {
  }

  /** The parts of a concatenation are the parts of its halves. */
  lemma PartsOfConcat(a: seq<Data>, b: seq<Data>)
    ensures Parts(Arr(a + b)) == Parts(Arr(a)) + Parts(Arr(b))
  {
  }

  /** Array elements are serialised in their order: the serialisation of a
      concatenation joins the two halves' parts with ", ". */
  lemma SequenceKeepsOrder(a: seq<Data>, b: seq<Data>)
    requires |a| > 0 && |b| > 0
    ensures Serialize(Arr(a + b)) ==
            Some("Sequence(" + Join(Parts(Arr(a)), ", ") + ", " + Join(Parts(Arr(b)), ", ") + ")")
  {
    var x, y := Parts(Arr(a)), Parts(Arr(b));
    PartsOfConcat(a, b);
    JoinAppend(x, y, ", ");
    Regroup("Sequence(", Join(x, ", "), ", ", Join(y, ", "), ")");
  }

  // ---------------------------------------------------------------------
  // The value in the serialiser's doc comment
  // ---------------------------------------------------------------------

  /** An array whose items serialise to `ss` has `ss` as its parts. */
  lemma PartsAre(ds: seq<Data>, ss: seq<string>)
    requires |ds| == |ss| && forall i :: 0 <= i < |ds| ==> Serialize(ds[i]) == Some(ss[i])
    ensures Parts(Arr(ds)) == ss
  {
    var p := Parts(Arr(ds));
    forall i | 0 <= i < |ds|
      ensures p[i] == ss[i]
    {
      assert p[i] == Interpolated(Serialize(Arr(ds).items[i]));
    }
  }

  lemma TwoItems(x: Data, y: Data, sx: string, sy: string)
    requires Serialize(x) == Some(sx) && Serialize(y) == Some(sy)
    ensures Serialize(Arr([x, y])) == Some("Sequence(" + sx + ", " + sy + ")")
  {
    PartsAre([x, y], [sx, sy]);
    assert [sx, sy][1..] == [sy];
    assert Join([sx, sy], ", ") == sx + ", " + sy;
    Regroup("Sequence(", sx, ", ", sy, ")");
  }

  lemma ThreeItems(x: Data, y: Data, z: Data, sx: string, sy: string, sz: string)
    requires Serialize(x) == Some(sx) && Serialize(y) == Some(sy) && Serialize(z) == Some(sz)
    ensures Serialize(Arr([x, y, z])) == Some("Sequence(" + sx + ", " + sy + ", " + sz + ")")
  {
    PartsAre([x, y, z], [sx, sy, sz]);
    assert [sx, sy, sz][1..] == [sy, sz];
    assert [sy, sz][1..] == [sz];
    assert Join([sy, sz], ", ") == sy + ", " + sz;
    assert Join([sx, sy, sz], ", ") == sx + ", " + Join([sy, sz], ", ");
    RegroupThree("Sequence(", sx, ", ", sy, sz, ")");
  }

  lemma OneCharTerminal(c: char)
    requires !IsControl(c) && c != '"' && c != '\\' && c != '#'
    ensures Serialize(Str([c])) == Some("Terminal(" + ['"', c, '"'] + ")")
  {
    assert [c][1..] == [];
    assert InspectBody([c]) == [c];
    assert Inspect([c]) == ['"', c, '"'];
  }

  /** A symbol is a non-terminal named by the symbol, in single quotes. */
  lemma SymbolIsNonTerminal(name: string)
    ensures Serialize(Sym(name)) == Some("NonTerminal('" + name + "')")
  {
  }

  lemma WrapsAs(key: Data, w: string, value: Data, s: string)
    requires Wrapper(key) == Some(w) && Serialize(value) == Some(s)
    ensures Serialize(HashOf([Pair(key, value)])) == Some(w + "(" + s + ")")
  {
    WrapperKey(key, value, []);
    assert [Pair(key, value)] + [] == [Pair(key, value)];
  }

  /** The array the serialiser's documentation gives as an example: a
      parenthesised, comma-separated list of items. The expected text is
      written as its nested calls, one per line. */
  lemma DocumentedExample()
    ensures Serialize(Arr([Str("("),
                           HashOf([Pair(Sym("optional"),
                                        Arr([Sym("item"),
                                             HashOf([Pair(Sym("zero_or_more"), Arr([Str(","), Sym("item")]))])]))]),
                           Str(")")]))
            == Some("Sequence(" + "Terminal(\"(\")" + ", " +
                      ("Optional(" +
                         ("Sequence(" + "NonTerminal('item')" + ", " +
                            ("ZeroOrMore(" +
                               ("Sequence(" + "Terminal(\",\")" + ", " + "NonTerminal('item')" + ")") +
                             ")") +
                          ")") +
                       ")") +
                    ", " + "Terminal(\")\")" + ")")
  {
    SymbolIsNonTerminal("item");
    assert "NonTerminal('" + "item" + "')" == "NonTerminal('item')";
    OneCharTerminal(',');
    OneCharTerminal('(');
    OneCharTerminal(')');
    assert "Terminal(" + ['"', ',', '"'] + ")" == "Terminal(\",\")";
    assert "Terminal(" + ['"', '(', '"'] + ")" == "Terminal(\"(\")";
    assert "Terminal(" + ['"', ')', '"'] + ")" == "Terminal(\")\")";
    var s1 := "Sequence(" + "Terminal(\",\")" + ", " + "NonTerminal('item')" + ")";
    TwoItems(Str(","), Sym("item"), "Terminal(\",\")", "NonTerminal('item')");
    var zom := HashOf([Pair(Sym("zero_or_more"), Arr([Str(","), Sym("item")]))]);
    WrapsAs(Sym("zero_or_more"), "ZeroOrMore", Arr([Str(","), Sym("item")]), s1);
    assert "ZeroOrMore" + "(" == "ZeroOrMore(";
    var s2 := "ZeroOrMore(" + s1 + ")";
    var s3 := "Sequence(" + "NonTerminal('item')" + ", " + s2 + ")";
    TwoItems(Sym("item"), zom, "NonTerminal('item')", s2);
    var opt := HashOf([Pair(Sym("optional"), Arr([Sym("item"), zom]))]);
    WrapsAs(Sym("optional"), "Optional", Arr([Sym("item"), zom]), s3);
    assert "Optional" + "(" == "Optional(";
    var s4 := "Optional(" + s3 + ")";
    ThreeItems(Str("("), opt, Str(")"), "Terminal(\"(\")", s4, "Terminal(\")\")");
  }
}
