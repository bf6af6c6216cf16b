/** The six rewrite rules of the transformer, applied the way a Parslet
    transform applies its rules: the children of a hash or an array are
    rewritten first, then the node itself is rewritten by the first rule
    whose pattern matches it, and is left as it is when none does.

    Pattern matching follows Parslet's convention: a hash pattern matches a
    hash with as many entries as the pattern has keys, each of which holds
    a value the pattern's binder accepts; `simple(:x)` accepts any value
    that is neither an array nor a hash, and `sequence(:x)` accepts an
    array of such values. */
module Transformer {
  import opened Options

  /** A capture tree and the values the rules build: a `Slice` of the
      parsed input, a Ruby string, a symbol, an array or a hash. */
  datatype Tree =
    | Slice(text: string)
    | Str(text: string)
    | Sym(name: string)
    | List(items: seq<Tree>)
    | Hash(entries: seq<Entry>)

  /** One key/value pair of a hash, the key being a symbol's name. */
  datatype Entry = Entry(key: string, value: Tree)

  /** What `simple(:x)` binds: neither an array nor a hash. */
  predicate Simple(t: Tree) {
    !t.List? && !t.Hash?
  }

  /** What `sequence(:x)` binds: an array of simple values. */
  predicate Sequence(t: Tree) {
    t.List? && forall i :: 0 <= i < |t.items| ==> Simple(t.items[i])
  }

  /** `to_s` of a simple value. */
  function Text(t: Tree): string
    requires Simple(t)
  {
    match t
    case Slice(s) => s
    case Str(s) => s
    case Sym(s) => s
  }

  /** The value a hash holds under `key`. */
  function Lookup(entries: seq<Entry>, key: string): (r: Option<Tree>)
    ensures r.Some? ==> Entry(key, r.value) in entries
    ensures r.None? <==> forall i :: 0 <= i < |entries| ==> entries[i].key != key
  {
    if |entries| == 0 then None
    else if entries[0].key == key then Some(entries[0].value)
    else Lookup(entries[1..], key)
  }

  /** The rules, in the order they are declared. */
  datatype Rule =
    | NameRule                // name: simple      => the symbol
    | StringRule              // string: simple    => the string
    | PrimaryRule             // primary: simple   => the value itself
    | DefinitionSequenceRule  // name: simple, definition: sequence => the array
    | DefinitionSimpleRule    // name: simple, definition: simple   => a one-element array
    | ProductionRule          // production: sequence => the array

  const Rules: seq<Rule> := [NameRule, StringRule, PrimaryRule, DefinitionSequenceRule, DefinitionSimpleRule, ProductionRule]

  /** The hash holds a simple value under `key`. */
  predicate SimpleAt(entries: seq<Entry>, key: string) {
    var v := Lookup(entries, key);
    v.Some? && Simple(v.value)
  }

  /** The hash holds an array of simple values under `key`. */
  predicate SequenceAt(entries: seq<Entry>, key: string) {
    var v := Lookup(entries, key);
    v.Some? && Sequence(v.value)
  }

  /** The keys of the rule's hash pattern. */
  function PatternKeys(r: Rule): set<string> {
    match r
    case NameRule => {"name"}
    case StringRule => {"string"}
    case PrimaryRule => {"primary"}
    case DefinitionSequenceRule => {"name", "definition"}
    case DefinitionSimpleRule => {"name", "definition"}
    case ProductionRule => {"production"}
  }

  /** The rule's pattern matches `t`: then `t` is a hash each of whose
      keys is one of the pattern's. */
  predicate Matches(r: Rule, t: Tree)
    ensures Matches(r, t) ==> t.Hash? && forall i :: 0 <= i < |t.entries| ==> t.entries[i].key in PatternKeys(r)
  {
    t.Hash? &&
    match r
    case NameRule => |t.entries| == 1 && SimpleAt(t.entries, "name")
    case StringRule => |t.entries| == 1 && SimpleAt(t.entries, "string")
    case PrimaryRule => |t.entries| == 1 && SimpleAt(t.entries, "primary")
    case DefinitionSequenceRule => |t.entries| == 2 && SimpleAt(t.entries, "name") && SequenceAt(t.entries, "definition")
    case DefinitionSimpleRule => |t.entries| == 2 && SimpleAt(t.entries, "name") && SimpleAt(t.entries, "definition")
    case ProductionRule => |t.entries| == 1 && SequenceAt(t.entries, "production")
  }

  /** The value the rule's block builds from its bindings. */
  function Rewrite(r: Rule, t: Tree): (u: Tree)
    requires Matches(r, t)
    ensures Simple(u) || Sequence(u)
  {
    match r
    case NameRule => Sym(Text(Lookup(t.entries, "name").value))
    case StringRule => Str(Text(Lookup(t.entries, "string").value))
    case PrimaryRule => Lookup(t.entries, "primary").value
    case DefinitionSequenceRule => Lookup(t.entries, "definition").value
    case DefinitionSimpleRule => List([Lookup(t.entries, "definition").value])
    case ProductionRule => Lookup(t.entries, "production").value
  }

  /** The first of `rules` whose pattern matches `t`. */
  function FirstMatch(rules: seq<Rule>, t: Tree): (r: Option<Rule>)
    ensures r.Some? ==> exists i :: 0 <= i < |rules| && rules[i] == r.value && Matches(r.value, t) &&
                                  forall j :: 0 <= j < i ==> !Matches(rules[j], t)
    ensures r.None? <==> forall i :: 0 <= i < |rules| ==> !Matches(rules[i], t)
  {
    if |rules| == 0 then None
    else if Matches(rules[0], t) then Some(rules[0])
    else
      var r := FirstMatch(rules[1..], t);
      if r.Some? then
        assert forall j :: 1 <= j < |rules| ==> rules[j] == rules[1..][j - 1];
        r
      else r
  }

  /** `transform_elt`: the first matching rule rewrites the node, or it is
      left unchanged. */
  function Apply(t: Tree): (u: Tree)
    ensures FirstMatch(Rules, t).None? ==> u == t
    ensures FirstMatch(Rules, t).Some? ==> Simple(u) || Sequence(u)
  {
    match FirstMatch(Rules, t)
    case Some(r) => Rewrite(r, t)
    case None => t
  }

  /** The keys of a hash, in order. */
  function Keys(entries: seq<Entry>): seq<string> {
    seq(|entries|, i requires 0 <= i < |entries| => entries[i].key)
  }

  /** `apply`: children first, then the node. A leaf is left as it is, an
      array stays an array of the same length, and a hash comes out only of
      a hash with the same keys in the same order. */
  function Transform(t: Tree): (u: Tree)
    ensures Simple(t) ==> u == t
    ensures t.List? ==> u.List? && |u.items| == |t.items|
    ensures u.Hash? ==> t.Hash? && Keys(u.entries) == Keys(t.entries)
    decreases t, 1
  {
    Apply(Children(t))
  }

  /** The node with each of its children transformed, in order; a hash keeps
      its keys. */
  function Children(t: Tree): (u: Tree)
    ensures Simple(t) ==> u == t
    ensures t.List? ==> u.List? && |u.items| == |t.items|
    ensures t.Hash? ==> u.Hash? && Keys(u.entries) == Keys(t.entries)
    decreases t, 0
  {
    match t
    case List(items) => List(seq(|items|, i requires 0 <= i < |items| => Transform(items[i])))
    case Hash(entries) =>
      Hash(seq(|entries|, i requires 0 <= i < |entries| => Entry(entries[i].key, Transform(entries[i].value))))
    case _ => t
  }

  // ---------------------------------------------------------------------
  // The rules one by one
  // ---------------------------------------------------------------------

  /** Patterns only ever match hashes. */
  lemma OnlyHashesMatch(t: Tree)
    requires !t.Hash?
    ensures Apply(t) == t
  {
  }

  /** No value matches two patterns, so the order of the rules never decides
      which one applies. */
  lemma RulesDisjoint(r1: Rule, r2: Rule, t: Tree)
    requires Matches(r1, t) && Matches(r2, t)
    ensures r1 == r2
  {
    if t.Hash? && |t.entries| == 1 {
      var e := t.entries[0];
      assert forall k :: Lookup(t.entries, k).Some? ==> k == e.key;
    }
  }

  /** Whatever rule matches is the one applied. */
  lemma ApplyMatching(r: Rule, t: Tree)
    requires Matches(r, t)
    ensures Apply(t) == Rewrite(r, t)
  {
    assert Rules[0] == r || Rules[1] == r || Rules[2] == r || Rules[3] == r || Rules[4] == r || Rules[5] == r;
    var first := FirstMatch(Rules, t);
    assert first.Some?;
    RulesDisjoint(r, first.value, t);
  }

  /** `rule(name: simple(:name)) { name.to_s.to_sym }` */
  lemma NameRuleRewrites(x: Tree)
    requires Simple(x)
    ensures Apply(Hash([Entry("name", x)])) == Sym(Text(x))
  {
    ApplyMatching(NameRule, Hash([Entry("name", x)]));
  }

  /** `rule(string: simple(:string)) { string.to_s }` */
  lemma StringRuleRewrites(x: Tree)
    requires Simple(x)
    ensures Apply(Hash([Entry("string", x)])) == Str(Text(x))
  {
    ApplyMatching(StringRule, Hash([Entry("string", x)]));
  }

  /** `rule(primary: simple(:primary)) { primary }` */
  lemma PrimaryRuleRewrites(x: Tree)
    requires Simple(x)
    ensures Apply(Hash([Entry("primary", x)])) == x
  {
    ApplyMatching(PrimaryRule, Hash([Entry("primary", x)]));
  }

  /** `rule(production: sequence(:production)) { production }` */
  lemma ProductionRuleRewrites(x: Tree)
    requires Sequence(x)
    ensures Apply(Hash([Entry("production", x)])) == x
  {
    ApplyMatching(ProductionRule, Hash([Entry("production", x)]));
  }

  /** A name with a definition, in either order of the two keys, becomes an
      array: the definition's own array when it is one, or a one-element
      array holding a simple definition. The name is dropped. */
  lemma DefinitionRulesRewrite(n: Tree, d: Tree, nameFirst: bool)
    requires Simple(n) && (Simple(d) || Sequence(d))
    ensures var t := if nameFirst then Hash([Entry("name", n), Entry("definition", d)])
                     else Hash([Entry("definition", d), Entry("name", n)]);
            Apply(t) == if d.List? then d else List([d])
  {
    var t := if nameFirst then Hash([Entry("name", n), Entry("definition", d)])
             else Hash([Entry("definition", d), Entry("name", n)]);
    if d.List? {
      ApplyMatching(DefinitionSequenceRule, t);
    } else {
      ApplyMatching(DefinitionSimpleRule, t);
    }
  }

  /** Either definition rule yields an array of simple values, whatever the
      name is. */
  lemma DefinitionYieldsList(t: Tree)
    requires Matches(DefinitionSequenceRule, t) || Matches(DefinitionSimpleRule, t)
    ensures Sequence(Apply(t))
    ensures var d := Lookup(t.entries, "definition").value;
            Apply(t).items == if d.List? then d.items else [d]
  {
    if Matches(DefinitionSequenceRule, t) {
      ApplyMatching(DefinitionSequenceRule, t);
    } else {
      ApplyMatching(DefinitionSimpleRule, t);
    }
  }

  // ---------------------------------------------------------------------
  // The whole transform
  // ---------------------------------------------------------------------

  /** No node of `t` matches any pattern. */
  predicate NormalForm(t: Tree)
    decreases t
  {
    FirstMatch(Rules, t).None? &&
    match t
    case List(items) => forall i :: 0 <= i < |items| ==> NormalForm(items[i])
    case Hash(entries) => forall i :: 0 <= i < |entries| ==> NormalForm(entries[i].value)
    case _ => true
  }

  /** Every rule's result is already in normal form. */
  lemma RewrittenIsNormal(u: Tree)
    requires Simple(u) || Sequence(u)
    ensures NormalForm(u)
  {
    if u.List? {
      forall i | 0 <= i < |u.items|
        ensures NormalForm(u.items[i])
      {
        assert Simple(u.items[i]);
      }
    }
  }

  /** Leaves are left as they are. */
  lemma SimpleIsFixpoint(t: Tree)
    requires Simple(t)
    ensures Transform(t) == t
  {
  }

  /** The transform leaves nothing a rule could still rewrite. */
  lemma {:induction false} TransformIsNormal(t: Tree)
    ensures NormalForm(Transform(t))
    decreases t
  {
    var c := Children(t);
    match t {
      case List(items) =>
        forall i | 0 <= i < |items|
          ensures NormalForm(c.items[i])
        {
          TransformIsNormal(items[i]);
        }
      case Hash(entries) =>
        forall i | 0 <= i < |entries|
          ensures NormalForm(c.entries[i].value)
        {
          TransformIsNormal(entries[i].value);
        }
      case _ =>
    }
    match FirstMatch(Rules, c) {
      case Some(r) => RewrittenIsNormal(Rewrite(r, c));
      case None =>
    }
  }

  /** A tree in normal form is left as it is. */
  lemma {:induction false} NormalIsFixpoint(t: Tree)
    requires NormalForm(t)
    ensures Transform(t) == t
    decreases t
  {
    match t {
      case List(items) =>
        forall i | 0 <= i < |items|
          ensures Transform(items[i]) == items[i]
        {
          NormalIsFixpoint(items[i]);
        }
        assert Children(t).items == items;
      case Hash(entries) =>
        forall i | 0 <= i < |entries|
          ensures Transform(entries[i].value) == entries[i].value
        {
          NormalIsFixpoint(entries[i].value);
        }
        assert Children(t).entries == entries;
      case _ =>
    }
  }

  /** Transforming twice is transforming once. */
  lemma TransformIdempotent(t: Tree)
    ensures Transform(Transform(t)) == Transform(t)
  {
    TransformIsNormal(t);
    NormalIsFixpoint(Transform(t));
  }

  /** The transform of a hash whose one entry is a name slice: a symbol. */
  lemma NameSliceExample(n: string)
    ensures Transform(Hash([Entry("name", Slice(n))])) == Sym(n)
  {
    var t := Hash([Entry("name", Slice(n))]);
    SimpleIsFixpoint(Slice(n));
    assert Children(t).entries[0] == Entry("name", Slice(n));
    assert Children(t) == t;
    NameRuleRewrites(Slice(n));
  }

  /** The children of a two-entry hash are its two values, transformed. */
  lemma ChildrenOfPair(k1: string, v1: Tree, k2: string, v2: Tree)
    ensures Children(Hash([Entry(k1, v1), Entry(k2, v2)])) == Hash([Entry(k1, Transform(v1)), Entry(k2, Transform(v2))])
  {
    var c := Children(Hash([Entry(k1, v1), Entry(k2, v2)]));
    assert c.entries[0] == Entry(k1, Transform(v1));
    assert c.entries[1] == Entry(k2, Transform(v2));
  }

  /** A hand-built tree of a name with a definition that is one name: the
      nested hashes are rewritten from the inside out, and the whole becomes
      the array holding the definition's symbol. */
  lemma ProductionExample()
    ensures Transform(Hash([Entry("name", Slice("Foo")), Entry("definition", Hash([Entry("name", Slice("Bar"))]))]))
            == List([Sym("Bar")])
  {
    NameSliceExample("Bar");
    SimpleIsFixpoint(Slice("Foo"));
    ChildrenOfPair("name", Slice("Foo"), "definition", Hash([Entry("name", Slice("Bar"))]));
    DefinitionRulesRewrite(Slice("Foo"), Sym("Bar"), true);
  }

  // ---------------------------------------------------------------------
  // Hash results
  // ---------------------------------------------------------------------

  /** The names the parser captures under. */
  const CaptureNames: set<string> := {"production", "rule", "definition", "or", "option"}

  /** A tree that is not a hash, or a hash keyed by capture names only. */
  predicate KeyedByCaptures(t: Tree) {
    t.Hash? ==> forall i :: 0 <= i < |t.entries| ==> t.entries[i].key in CaptureNames
  }

  /** The transform never makes up a key: when the tree it starts from is
      keyed by capture names, so is any hash it returns. */
  lemma TransformKeepsCaptureKeys(t: Tree)
    requires KeyedByCaptures(t)
    ensures KeyedByCaptures(Transform(t))
  {
    var u := Transform(t);
    if u.Hash? {
      forall i | 0 <= i < |u.entries|
        ensures u.entries[i].key in CaptureNames
      {
        assert Keys(u.entries)[i] == Keys(t.entries)[i];
      }
    }
  }

  /** So no tree keyed by capture names is transformed into the hash keyed
      by a production's name that the transformer test expects for
      "Foo ::= Bar". */
  lemma NoHashKeyedByProductionName(t: Tree)
    requires KeyedByCaptures(t)
    ensures Transform(t) != Hash([Entry("Foo", List([Sym("Bar")]))])
  {
    TransformKeepsCaptureKeys(t);
  }
}
