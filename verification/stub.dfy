/**
 * The `Stub` generator: a sample document for a template. Every random choice
 * (`Math.random` behind `generator.number`) is read from an entropy stream, so
 * a stub is a function of the template and the stream.
 */
module Stub {
  import opened Wrappers
  import opened Values
  import opened Rules
  import opened Schema
  import opened Random
  import opened Lexer
  import opened Validator

  /** A rule the generator can serve: it names a kind, and a string rule's pattern has no dangling quantifier. */
  predicate GenerableRule(r: Rule) {
    && r.kind.Some?
    && Coherent(r)
    && (r.constraint.Pattern? ==> QuantifiersBound(Tokenize(r.constraint.source).0))
  }

  predicate Generable(n: Node) {
    EveryRule(n, GenerableRule)
  }

  /** `generator.number(lo, hi)`: a `NaN` bound makes the result `NaN`, though `Math.random` is still consumed. */
  function GenNumber(lo: Bound, hi: Bound, rs: Entropy): (r: (Value, Entropy))
    ensures lo.Finite? && hi.Finite? ==> r.0.Num? && Min(lo.n, hi.n) <= r.0.n <= Max(lo.n, hi.n)
    ensures lo.NotANumber? || hi.NotANumber? ==> r.0 == NaN
    ensures r.1 == Advance(rs)
  {
    if lo.Finite? && hi.Finite? then
      var d := Draw(lo.n, hi.n, rs);
      (Num(d.0), d.1)
    else (NaN, Advance(rs))
  }

  /**
   * `_generate_<type>` for a rule: a string from the library's generator on
   * the validation source (in the source's language when it has no
   * quantifier), a number in the range, and, for `array` and `object` rules,
   * an empty array and an empty object (a rule has no element 0, and the keys
   * `for..in` visits on a rule all generate `undefined`).
   */
  function GenLeaf(r: Rule, rs: Entropy): (v: (Value, Entropy))
    requires GenerableRule(r)
    ensures HasKind(v.0, r.kind.value)
    ensures r.constraint.Pattern? ==> v.0 == Str(GenerateString(r.constraint.source, rs).0)
    ensures r.constraint.Pattern? && Unquantified(Tokenize(r.constraint.source).0) ==>
      InLanguage(Tokenize(r.constraint.source).0, v.0.s)
    ensures r.constraint.Range? ==> v.0 == GenNumber(r.constraint.lo, r.constraint.hi, rs).0
  {
    match r.kind.value
    case StringKind =>
      var g := GenerateString(r.constraint.source, rs);
      (Str(g.0), g.1)
    case NumberKind => GenNumber(r.constraint.lo, r.constraint.hi, rs)
    case ArrayKind => (Arr([]), rs)
    case ObjectKind => (Obj([]), rs)
  }

  /** The coin `generator.number(0, 1)` that drops an optional node, drawn only for optional nodes. */
  predicate Dropped(n: Node, rs: Entropy) {
    IsOptional(n) && Draw(0, 1, rs).0 == 1
  }

  /** `_generate_property`: `Undefined` stands for the `undefined` the caller skips. */
  function GenProperty(n: Node, rs: Entropy): (r: (Value, Entropy))
    requires Generable(n)
    ensures r.0 == Undefined ==> IsOptional(n) || n.Hole?
    ensures !n.Hole? && !n.List? ==> (r.0 == Undefined <==> Dropped(n, rs))
    ensures Dropped(n, rs) ==> r.0 == Undefined
    ensures r.0 != Undefined && n.Leaf? ==> HasKind(r.0, n.rule.kind.value)
    ensures !n.Hole? && !IsOptional(n) ==> r.0 != Undefined
    ensures r.0 != Undefined && n.List? ==> r.0.Arr? && |r.0.items| == if n.elem.Hole? then 0 else 1
    ensures r.0 != Undefined && n.Object? ==> r.0.Obj? && forall p | p in r.0.fields :: p.0 in Keys(n.fields)
    ensures r.0 != Undefined && n.Object? ==> Subsequence(Keys(r.0.fields), Keys(n.fields))
    ensures r.0 != Undefined && n.Object? ==>
      forall j | 0 <= j < |n.fields| && !n.fields[j].1.Hole? && !IsOptional(n.fields[j].1) :: n.fields[j].0 in Keys(r.0.fields)
    decreases n, 2
  {
    if Dropped(n, rs) then (Undefined, Advance(rs))
    else
      var rs1 := if IsOptional(n) then Advance(rs) else rs;
      match n
      case Hole => (Undefined, rs1)
      case Leaf(rule) => GenLeaf(rule, rs1)
      case List(e) => GenList(e, rs1)
      case Object(_) =>
        var fs := GenFields(n, 0, rs1);
        assert Keys(n.fields)[0..] == Keys(n.fields);
        (Obj(fs.0), fs.1)
  }

  /** `_generate_array`: `[]` for a hole, else one generated element, or `undefined` when that is dropped. */
  function GenList(e: Node, rs: Entropy): (r: (Value, Entropy))
    requires Generable(e)
    ensures r.0 == Undefined ==> IsOptional(e) && !e.Hole?
    ensures e.Hole? ==> r.0 == Arr([])
    ensures !e.Hole? && r.0 != Undefined ==> r.0.Arr? && |r.0.items| == 1 && r.0.items[0] == GenProperty(e, rs).0
    ensures !e.Hole? && !IsOptional(e) ==> r.0 != Undefined
    decreases e, 3
  {
    if e.Hole? then (Arr([]), rs)
    else
      var x := GenProperty(e, rs);
      if x.0 == Undefined then (Undefined, x.1) else (Arr([x.0]), x.1)
  }

  /** `generate` from field `i` on: each field's value in template order, skipping `undefined`. */
  function GenFields(n: Node, i: nat, rs: Entropy): (r: (seq<(string, Value)>, Entropy))
    requires n.Object? && Generable(n) && i <= |n.fields|
    ensures forall p | p in r.0 :: p.0 in Keys(n.fields)[i..] && p.1 != Undefined
    ensures Subsequence(Keys(r.0), Keys(n.fields)[i..])
    ensures forall j | i <= j < |n.fields| && !n.fields[j].1.Hole? && !IsOptional(n.fields[j].1) :: n.fields[j].0 in Keys(r.0)
    decreases n, 0, |n.fields| - i
  {
    if i == |n.fields| then ([], rs)
    else
      var x := GenProperty(n.fields[i].1, rs);
      var rest := GenFields(n, i + 1, x.1);
      var out := if x.0 == Undefined then rest.0 else [(n.fields[i].0, x.0)] + rest.0;
      GenFieldsStep(n, i, x.0, rest.0, out);
      (out, rest.1)
  }

  /** One pass of the loop over the fields: field `i`'s value, when there is one, goes before the rest. */
  lemma GenFieldsStep(n: Node, i: nat, x: Value, rest: seq<(string, Value)>, out: seq<(string, Value)>)
    requires n.Object? && i < |n.fields|
    requires x == Undefined ==> IsOptional(n.fields[i].1) || n.fields[i].1.Hole?
    requires out == if x == Undefined then rest else [(n.fields[i].0, x)] + rest
    requires forall p | p in rest :: p.0 in Keys(n.fields)[i + 1..] && p.1 != Undefined
    requires Subsequence(Keys(rest), Keys(n.fields)[i + 1..])
    requires forall j | i + 1 <= j < |n.fields| && !n.fields[j].1.Hole? && !IsOptional(n.fields[j].1) ::
      n.fields[j].0 in Keys(rest)
    ensures forall p | p in out :: p.0 in Keys(n.fields)[i..] && p.1 != Undefined
    ensures Subsequence(Keys(out), Keys(n.fields)[i..])
    ensures forall j | i <= j < |n.fields| && !n.fields[j].1.Hole? && !IsOptional(n.fields[j].1) ::
      n.fields[j].0 in Keys(out)
  {
    var k := n.fields[i].0;
    assert Keys(n.fields)[i..] == [k] + Keys(n.fields)[i + 1..];
    if x == Undefined {
      SubsequenceSkip(k, Keys(rest), Keys(n.fields)[i + 1..]);
    } else {
      assert Keys(out) == [k] + Keys(rest);
      SubsequenceKeep(k, Keys(rest), Keys(n.fields)[i + 1..]);
    }
  }

  /** `new Stub(template).generate()` on a populated object template. */
  function Generate(root: Node, rs: Entropy): (r: Value)
    requires root.Object? && Generable(root)
    ensures r.Obj? && forall p | p in r.fields :: p.0 in Keys(root.fields) && p.1 != Undefined
    ensures Subsequence(Keys(r.fields), Keys(root.fields))
    ensures forall j | 0 <= j < |root.fields| && !root.fields[j].1.Hole? && !IsOptional(root.fields[j].1) ::
      root.fields[j].0 in Keys(r.fields)
  {
    assert Keys(root.fields)[0..] == Keys(root.fields);
    Obj(GenFields(root, 0, rs).0)
  }

  /** A node that is not a hole can be left out of a stub exactly when it is optional. */
  lemma OmittableIffOptional(n: Node)
    requires Generable(n) && !n.Hole?
    ensures (exists rs :: GenProperty(n, rs).0 == Undefined) <==> IsOptional(n)
  {
    if IsOptional(n) {
      var rs: Entropy := [1];
      assert Draw(0, 1, rs).0 == 1;
      assert GenProperty(n, rs).0 == Undefined;
    }
  }
}
