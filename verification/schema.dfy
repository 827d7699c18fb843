/**
 * The populated template: `Rules.populate` / `Rules._populate_property` turn a
 * raw template (strings, arrays, objects) into a tree of rules, and
 * `util.is_optional` decides whether a node may be left out of the data.
 */
module Schema {
  import opened Values
  import opened Rules

  /**
   * `Hole` is the `undefined` a populated template holds where the raw
   * template had neither a string, an array nor an object, and in `[]`.
   */
  datatype Node =
    | Hole
    | Leaf(rule: Rule)
    | List(elem: Node)
    | Object(fields: seq<(string, Node)>)

  /** `p` holds of every rule in the tree. */
  predicate EveryRule(n: Node, p: Rule -> bool) {
    match n
    case Hole => true
    case Leaf(r) => p(r)
    case List(e) => EveryRule(e, p)
    case Object(fs) => forall i | 0 <= i < |fs| :: EveryRule(fs[i].1, p)
  }

  /** Every rule is what `ParseRule` makes of its own text. */
  predicate Parsed(n: Node) {
    EveryRule(n, (r: Rule) => r == ParseRule(r.raw))
  }

  /** `Rules._populate_property`; on an object it is `Rules.populate`. */
  function Populate(raw: Value): (n: Node)
    ensures raw.Str? <==> n.Leaf?
    ensures raw.Arr? <==> n.List?
    ensures raw.Obj? <==> n.Object?
    ensures raw == Arr([]) ==> n == List(Hole)
    ensures n.Object? ==> Keys(n.fields) == Keys(raw.fields)
    ensures Parsed(n) && EveryRule(n, Coherent)
  {
    match raw
    case Str(s) => Leaf(ParseRule(s))
    case Arr(items) => List(if |items| == 0 then Hole else Populate(items[0]))
    case Obj(fields) =>
      var fs := seq(|fields|, i requires 0 <= i < |fields| => (fields[i].0, Populate(fields[i].1)));
      assert Keys(fs) == Keys(fields);
      Object(fs)
    case _ => Hole
  }

  /** A one-field raw object populates to a one-field object over the same key. */
  lemma PopulateField(k: string, v: Value)
    ensures Populate(Obj([(k, v)])) == Object([(k, Populate(v))])
  {
    assert Populate(Obj([(k, v)])).fields[0] == (k, Populate(v));
  }

  /** Only element 0 of a raw array is consulted. */
  lemma OnlyFirstElementConsulted(x: Value, rest: seq<Value>)
    ensures Populate(Arr([x] + rest)) == Populate(Arr([x]))
  {
  }

  /** `util.is_optional` on a populated node (`undefined` answers falsy). */
  predicate IsOptional(n: Node)
    decreases n, 1
  {
    match n
    case Hole => false
    case Leaf(r) => r.optional
    case List(e) => IsOptional(e)
    case Object(fs) => |fs| > 0 && AllOptional(n, 0)
  }

  /** Every field from index `i` on is optional (the `for ... in` loop of `is_optional`). */
  predicate AllOptional(n: Node, i: nat)
    requires n.Object?
    decreases n, 0, |n.fields| - i
  {
    i >= |n.fields| || (IsOptional(n.fields[i].1) && AllOptional(n, i + 1))
  }

  /**
   * `is_optional` case by case: never for `undefined`, a rule's own flag, an
   * array's element, and an object with at least one key whose every value is
   * optional (the loop leaves `key` undefined on an object without keys).
   */
  lemma OptionalCases(n: Node)
    ensures n.Hole? ==> !IsOptional(n)
    ensures n.Leaf? ==> (IsOptional(n) <==> n.rule.optional)
    ensures n.List? ==> (IsOptional(n) <==> IsOptional(n.elem))
    ensures n.Object? ==>
      (IsOptional(n) <==> |n.fields| > 0 && forall i | 0 <= i < |n.fields| :: IsOptional(n.fields[i].1))
  {
    if n.Object? {
      AllOptionalFrom(n, 0);
    }
  }

  lemma {:induction false} AllOptionalFrom(n: Node, i: nat)
    requires n.Object?
    ensures AllOptional(n, i) <==> forall j | i <= j < |n.fields| :: IsOptional(n.fields[j].1)
    decreases |n.fields| - i
  {
    if i < |n.fields| {
      AllOptionalFrom(n, i + 1);
    }
  }

  /**
   * The optionality of every terminal position under `n`: each leaf, each
   * hole and each empty object, which `is_optional` treats as required.
   */
  function Terminals(n: Node): seq<bool>
    decreases n, 1
  {
    match n
    case Hole => [false]
    case Leaf(r) => [r.optional]
    case List(e) => Terminals(e)
    case Object(fs) => if |fs| == 0 then [false] else FieldTerminals(n, 0)
  }

  function FieldTerminals(n: Node, i: nat): seq<bool>
    requires n.Object?
    decreases n, 0, |n.fields| - i
  {
    if i >= |n.fields| then [] else Terminals(n.fields[i].1) + FieldTerminals(n, i + 1)
  }

  /** A node is optional exactly when no terminal position beneath it is required. */
  lemma {:induction false} OptionalIffNoRequiredTerminal(n: Node)
    ensures IsOptional(n) <==> false !in Terminals(n)
    decreases n, 1
  {
    match n
    case Hole =>
    case Leaf(r) =>
    case List(e) => OptionalIffNoRequiredTerminal(e);
    case Object(fs) =>
      if |fs| > 0 {
        AllOptionalIffNoRequiredTerminal(n, 0);
      }
  }

  lemma {:induction false} AllOptionalIffNoRequiredTerminal(n: Node, i: nat)
    requires n.Object?
    ensures AllOptional(n, i) <==> false !in FieldTerminals(n, i)
    decreases n, 0, |n.fields| - i
  {
    if i < |n.fields| {
      OptionalIffNoRequiredTerminal(n.fields[i].1);
      AllOptionalIffNoRequiredTerminal(n, i + 1);
    }
  }

  /** The raw template a node comes from: each rule's own text, `[]` for a list of nothing. */
  function Render(n: Node): Value {
    match n
    case Hole => Undefined
    case Leaf(r) => Str(r.raw)
    case List(e) => if e.Hole? then Arr([]) else Arr([Render(e)])
    case Object(fs) => Obj(seq(|fs|, i requires 0 <= i < |fs| => (fs[i].0, Render(fs[i].1))))
  }

  /** Populating the rendered template rebuilds every tree `Populate` can produce. */
  lemma {:induction false} PopulateRender(n: Node)
    requires Parsed(n)
    ensures Populate(Render(n)) == n
  {
    match n
    case Hole =>
    case Leaf(r) =>
    case List(e) =>
      if !e.Hole? {
        PopulateRender(e);
      }
    case Object(fs) =>
      forall i | 0 <= i < |fs| ensures Populate(Render(fs[i].1)) == fs[i].1 {
        PopulateRender(fs[i].1);
      }
  }

  /** Every rule names a kind (a kindless rule makes the library call a missing function). */
  predicate Kinded(n: Node) {
    EveryRule(n, (r: Rule) => r.kind.Some?)
  }

  /** No object of the tree repeats a key, as a JavaScript object cannot. */
  predicate DistinctKeys(n: Node) {
    match n
    case Hole => true
    case Leaf(_) => true
    case List(e) => DistinctKeys(e)
    case Object(fs) =>
      && (forall i, j | 0 <= i < j < |fs| :: fs[i].0 != fs[j].0)
      && (forall i | 0 <= i < |fs| :: DistinctKeys(fs[i].1))
  }

  /** No object field is a `Hole` (a `Hole` may still be a list's element). */
  predicate NoHoleFields(n: Node) {
    match n
    case Hole => true
    case Leaf(_) => true
    case List(e) => NoHoleFields(e)
    case Object(fs) => forall i | 0 <= i < |fs| :: !fs[i].1.Hole? && NoHoleFields(fs[i].1)
  }
}
