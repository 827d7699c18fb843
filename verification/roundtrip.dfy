/**
 * The round trip between `Stub` and `Template.enforce`: a stub generated for a
 * template passes validation against that template, provided the regex engine
 * accepts every string `generator.string` can produce for each of the
 * template's validation sources, and no generated scalar is falsy. The default
 * validation `.+` meets the first condition under any engine that accepts what
 * `/.+/` accepts (`DefaultPatternAccepted`).
 */
module RoundTrip {
  import opened Wrappers
  import opened Text
  import opened Values
  import opened Rules
  import opened Schema
  import opened Validator
  import Random
  import Lexer
  import Stub

  /** The matcher accepts every string the lexer's reading of `source` allows. */
  ghost predicate AcceptsLanguage(m: Matcher, source: string) {
    var ts := Lexer.Tokenize(source).0;
    Lexer.QuantifiersBound(ts) ==> forall s | Lexer.InLanguage(ts, s) :: m(source, Str(s))
  }

  /** The matcher accepts every string `generator.string(source)` can return. */
  ghost predicate AcceptsGenerated(m: Matcher, source: string) {
    Lexer.QuantifiersBound(Lexer.Tokenize(source).0) ==>
      forall rs: Random.Entropy :: m(source, Str(Lexer.GenerateString(source, rs).0))
  }

  /** On every validation source of the template, the regex engine accepts what the generator produces. */
  ghost predicate AcceptsStubStrings(n: Node, m: Matcher) {
    EveryRule(n, (r: Rule) => r.constraint.Pattern? ==> AcceptsGenerated(m, r.constraint.source))
  }

  /**
   * On a source without quantifiers the library's generator stays in the
   * lexer's language, so a matcher that accepts that language accepts what
   * the generator produces.
   */
  lemma LanguageSuffices(m: Matcher, source: string)
    requires Lexer.Unquantified(Lexer.Tokenize(source).0) && AcceptsLanguage(m, source)
    ensures AcceptsGenerated(m, source)
  {
    forall rs: Random.Entropy | Lexer.QuantifiersBound(Lexer.Tokenize(source).0)
      ensures m(source, Str(Lexer.GenerateString(source, rs).0))
    {
      var s := Lexer.GenerateString(source, rs).0;
      assert Lexer.InLanguage(Lexer.Tokenize(source).0, s);
    }
  }

  /** Strings `/.+/` accepts: among them, every non-empty string without a line terminator. */
  predicate MatchesDotPlus(s: string) {
    |s| > 0 && forall i | 0 <= i < |s| :: !IsLineTerminator(s[i])
  }

  /**
   * The default validation of a string rule is covered: an engine that
   * accepts what `/.+/` accepts accepts every string the library generates
   * for `.+`.
   */
  lemma DefaultPatternAccepted(m: Matcher)
    requires forall s | MatchesDotPlus(s) :: m(".+", Str(s))
    ensures AcceptsGenerated(m, ".+")
  {
    DotPlusAccepted(m, ".+");
  }

  /** The same argument over a source equal to `.+`, kept apart so that the literal is not unfolded. */
  lemma DotPlusAccepted(m: Matcher, source: string)
    requires source == ".+"
    requires forall s | MatchesDotPlus(s) :: m(source, Str(s))
    ensures AcceptsGenerated(m, source)
  {
    forall rs: Random.Entropy | Lexer.QuantifiersBound(Lexer.Tokenize(source).0)
      ensures m(source, Str(Lexer.GenerateString(source, rs).0))
    {
      DefaultStringMatches(rs);
    }
  }

  lemma DefaultStringMatches(rs: Random.Entropy)
    ensures Lexer.QuantifiersBound(Lexer.Tokenize(".+").0)
    ensures MatchesDotPlus(Lexer.GenerateString(".+", rs).0)
  {
    Lexer.DefaultPatternString(rs);
    AlnumMatchesDotPlus(Lexer.GenerateString(".+", rs).0);
  }

  lemma AlnumMatchesDotPlus(s: string)
    requires |s| > 0 && forall i | 0 <= i < |s| :: IsAlnum(s[i])
    ensures MatchesDotPlus(s)
  {
  }

  /** The templates the round trip covers: servable rules, distinct keys, no hole as a field. */
  predicate WellFormed(n: Node) {
    Stub.Generable(n) && DistinctKeys(n) && NoHoleFields(n)
  }

  lemma {:induction false} GenerableIsCheckable(n: Node)
    requires Stub.Generable(n)
    ensures Checkable(n)
  {
    match n
    case Hole =>
    case Leaf(_) =>
    case List(e) => GenerableIsCheckable(e);
    case Object(fs) =>
      forall i | 0 <= i < |fs| ensures Checkable(fs[i].1) {
        GenerableIsCheckable(fs[i].1);
      }
  }

  /** Every generated property conforms to the node it was generated for. */
  lemma {:induction false} PropertyConforms(n: Node, rs: Random.Entropy, m: Matcher)
    requires WellFormed(n) && !n.Hole? && AcceptsStubStrings(n, m)
    requires NoFalsy(Stub.GenProperty(n, rs).0)
    ensures Conforms(n, Stub.GenProperty(n, rs).0, m)
    decreases n, 2
  {
    var r := Stub.GenProperty(n, rs);
    if r.0 != Undefined {
      var rs1 := if IsOptional(n) then Random.Advance(rs) else rs;
      match n
      case Leaf(rule) =>
        assert r == Stub.GenLeaf(rule, rs1);
      case List(e) =>
        assert r == Stub.GenList(e, rs1);
        if !e.Hole? {
          var x := Stub.GenProperty(e, rs1);
          assert r.0 == Arr([x.0]);
          assert NoFalsy(x.0) by {
            assert Arr([x.0]).items[0] == x.0;
          }
          PropertyConforms(e, rs1, m);
        }
      case Object(fs) =>
        var out := Stub.GenFields(n, 0, rs1);
        assert r.0 == Obj(out.0);
        FieldsConformFrom(n, 0, rs1, m);
    }
  }

  /** The fields generated from `i` on give every template key from `i` on a conforming value. */
  lemma {:induction false} FieldsConformFrom(n: Node, i: nat, rs: Random.Entropy, m: Matcher)
    requires n.Object? && WellFormed(n) && i <= |n.fields| && AcceptsStubStrings(n, m)
    requires NoFalsy(Obj(Stub.GenFields(n, i, rs).0))
    ensures forall j | i <= j < |n.fields| :: Conforms(n.fields[j].1, Lookup(Stub.GenFields(n, i, rs).0, n.fields[j].0), m)
    decreases n, 0, |n.fields| - i
  {
    if i < |n.fields| {
      FieldWellFormed(n, i, m);
      var x := Stub.GenProperty(n.fields[i].1, rs);
      var rest := Stub.GenFields(n, i + 1, x.1);
      var out := Stub.GenFields(n, i, rs).0;
      LaterKeysOnly(n, i, x.1);
      if x.0 == Undefined {
        assert out == rest.0;
      } else {
        assert out == [(n.fields[i].0, x.0)] + rest.0;
        NoFalsyParts(n.fields[i].0, x.0, rest.0);
      }
      FieldsConformFrom(n, i + 1, x.1, m);
      PropertyConforms(n.fields[i].1, rs, m);
      FieldsConformStep(n.fields, i, x.0, rest.0, out, m);
    }
  }

  /** One step of `FieldsConformFrom`: the field at `i` joins the later fields, which already conform. */
  lemma FieldsConformStep(fs: seq<(string, Node)>, i: nat, x: Value, rest: seq<(string, Value)>, out: seq<(string, Value)>, m: Matcher)
    requires i < |fs| && (forall j | i < j < |fs| :: fs[j].0 != fs[i].0)
    requires Conforms(fs[i].1, x, m) && fs[i].0 !in Keys(rest)
    requires forall j | i < j < |fs| :: Conforms(fs[j].1, Lookup(rest, fs[j].0), m)
    requires out == if x == Undefined then rest else [(fs[i].0, x)] + rest
    ensures forall j | i <= j < |fs| :: Conforms(fs[j].1, Lookup(out, fs[j].0), m)
  {
    forall j | i <= j < |fs| ensures Conforms(fs[j].1, Lookup(out, fs[j].0), m) {
      if j > i && x != Undefined {
        LookupPast(fs[i].0, x, rest, fs[j].0);
      }
    }
  }

  /** A field of a well-formed object is itself well-formed and not a hole. */
  lemma FieldWellFormed(n: Node, i: nat, m: Matcher)
    requires n.Object? && WellFormed(n) && i < |n.fields| && AcceptsStubStrings(n, m)
    ensures WellFormed(n.fields[i].1) && !n.fields[i].1.Hole? && AcceptsStubStrings(n.fields[i].1, m)
  {
  }

  /** The fields generated after `i` never repeat the key of field `i`. */
  lemma LaterKeysOnly(n: Node, i: nat, rs: Random.Entropy)
    requires n.Object? && WellFormed(n) && i < |n.fields|
    ensures n.fields[i].0 !in Keys(Stub.GenFields(n, i + 1, rs).0)
  {
  }

  lemma NoFalsyParts(k: string, v: Value, rest: seq<(string, Value)>)
    requires NoFalsy(Obj([(k, v)] + rest))
    ensures NoFalsy(v) && NoFalsy(Obj(rest))
  {
    var out := [(k, v)] + rest;
    assert out[0].1 == v;
    forall q | 0 <= q < |rest| ensures NoFalsy(rest[q].1) {
      assert out[q + 1] == rest[q];
    }
  }

  lemma LookupPast(k: string, v: Value, rest: seq<(string, Value)>, key: string)
    requires key != k
    ensures Lookup([(k, v)] + rest, key) == Lookup(rest, key)
  {
    assert ([(k, v)] + rest)[1..] == rest;
  }

  /**
   * The round trip: validating a stub against the template it was generated
   * for reports no error.
   */
  lemma StubValidates(root: Node, rs: Random.Entropy, m: Matcher)
    requires root.Object? && WellFormed(root) && AcceptsStubStrings(root, m)
    requires NoFalsy(Stub.Generate(root, rs))
    ensures Readable(root, Stub.Generate(root, rs))
    ensures Validate(root, Stub.Generate(root, rs), m) == []
  {
    GenerableIsCheckable(root);
    FieldsConformFrom(root, 0, rs, m);
  }

  /** The template `{ count: 'number (0,0)' }`, populated. */
  function ZeroTemplate(): Node {
    Object([("count", Leaf(Rule("number (0,0)", Some(NumberKind), false, Range(Finite(0), Finite(0)))))])
  }

  lemma ZeroTemplatePopulated()
    ensures ZeroTemplate() == Populate(Obj([("count", Str("number (0,0)"))]))
  {
    ZeroRangeRule();
    PopulateField("count", Str("number (0,0)"));
  }

  lemma ZeroStub(rs: Random.Entropy)
    ensures WellFormed(ZeroTemplate())
    ensures Stub.Generate(ZeroTemplate(), rs) == Obj([("count", Num(0))])
  {
    var n := ZeroTemplate();
    var leaf := n.fields[0].1;
    assert Stub.GenLeaf(leaf.rule, rs).0 == Num(0);
    assert Stub.GenProperty(leaf, rs).0 == Num(0);
    assert Stub.GenFields(n, 1, Random.Advance(rs)).0 == [];
  }

  lemma ZeroReportedMissing(m: Matcher)
    ensures Readable(ZeroTemplate(), Obj([("count", Num(0))]))
    ensures Validate(ZeroTemplate(), Obj([("count", Num(0))]), m) == [Error(Missing, ["count"])]
  {
    var n := ZeroTemplate();
    var d := Obj([("count", Num(0))]);
    assert Get(d, "count") == Num(0);
    assert CheckFields(n, 1, d, [], m) == [];
    assert [] + ["count"] == ["count"];
    assert CheckProperty(n.fields[0].1, Num(0), ["count"], m) == [Error(Missing, ["count"])];
  }

  /**
   * Without the no-falsy hypothesis the round trip fails: the only stub of
   * `{ count: 'number (0,0)' }` is `{ count: 0 }`, and the validator reports
   * that `0` as missing.
   */
  lemma ZeroStubRejected(rs: Random.Entropy, m: Matcher)
    ensures ZeroTemplate() == Populate(Obj([("count", Str("number (0,0)"))]))
    ensures WellFormed(ZeroTemplate())
    ensures Stub.Generate(ZeroTemplate(), rs) == Obj([("count", Num(0))])
    ensures Readable(ZeroTemplate(), Obj([("count", Num(0))]))
    ensures Validate(ZeroTemplate(), Obj([("count", Num(0))]), m) == [Error(Missing, ["count"])]
  {
    ZeroTemplatePopulated();
    ZeroStub(rs);
    ZeroReportedMissing(m);
  }
}
