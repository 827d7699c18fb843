/**
 * The `Template` validator: `enforce` walks the populated template beside the
 * data and records one error per failed check, with the key path at which it
 * failed (`log.join(', ')`).
 */
module Validator {
  import opened Values
  import opened Rules
  import opened Schema
  import opened Text
  import opened Wrappers

  /** Which check failed: absence, `util.is_<type>` / `is_array`, or the validation regex. */
  datatype ErrorKind = Missing | WrongType | PatternMismatch

  /** One entry of `errors`; the message text is not modelled, its location is. */
  datatype Error = Error(kind: ErrorKind, path: seq<string>)

  /** The `location` string of an error. */
  function Location(e: Error): string {
    Join(e.path, ", ")
  }

  /**
   * `validation.test(value.toString())`: the regular-expression engine is
   * outside the model, so the validator takes it as a parameter from the
   * validation source and the value.
   */
  type Matcher = (string, Value) -> bool

  /** `util.is_<kind>` on a truthy value. */
  predicate HasKind(v: Value, k: Kind) {
    match k
    case StringKind => v.Str?
    case NumberKind => v.Num? || v.NaN?
    case ArrayKind => v.Arr?
    case ObjectKind => v.Obj?
  }

  /** Every required rule names a kind; a required kindless rule makes `_enforce_string` call a missing function. */
  predicate Checkable(n: Node) {
    EveryRule(n, (r: Rule) => r.optional || r.kind.Some?)
  }

  // ------------------------------------------------------------------
  // The reference: when data conforms to a template node.
  // ------------------------------------------------------------------

  /**
   * A falsy value conforms exactly when the node may be left out; otherwise a
   * rule needs the right type (unless optional) and a passing pattern, a
   * list needs an array all of whose items conform to the element, and an
   * object needs every template key's value to conform.
   */
  predicate Conforms(n: Node, d: Value, m: Matcher)
    decreases n, 1
  {
    if !Truthy(d) then IsOptional(n)
    else match n
      case Hole => true
      case Leaf(r) =>
        && (r.optional || (r.kind.Some? && HasKind(d, r.kind.value)))
        && (r.constraint.Pattern? ==> m(r.constraint.source, d))
      case List(e) => d.Arr? && forall i | 0 <= i < |d.items| :: Conforms(e, d.items[i], m)
      case Object(_) => FieldsConform(n, d, m)
  }

  /** Every key of an object node finds a conforming value in `d`. */
  predicate FieldsConform(n: Node, d: Value, m: Matcher)
    requires n.Object?
    decreases n, 0
  {
    forall i | 0 <= i < |n.fields| :: Conforms(n.fields[i].1, Get(d, n.fields[i].0), m)
  }

  /** `ks` is a key path through `n`: lists are passed through, as `_enforce_array` pushes no key. */
  ghost predicate KeyPath(n: Node, ks: seq<string>)
    decreases n
  {
    if |ks| == 0 then true
    else match n
      case List(e) => KeyPath(e, ks)
      case Object(fs) => exists i | 0 <= i < |fs| :: fs[i].0 == ks[0] && KeyPath(fs[i].1, ks[1..])
      case _ => false
  }

  /** Every error lies at `path` followed by a key path of `n`. */
  ghost predicate ErrorsUnder(r: seq<Error>, path: seq<string>, n: Node) {
    forall e | e in r :: |path| <= |e.path| && e.path[..|path|] == path && KeyPath(n, e.path[|path|..])
  }

  // ------------------------------------------------------------------
  // `_enforce_property`, `_enforce_string`, `_enforce_array`, `_enforce_properties`.
  // ------------------------------------------------------------------

  /** `_enforce_string`: a type error unless optional, then a validation error, in that order. */
  function CheckLeaf(rule: Rule, d: Value, path: seq<string>, m: Matcher): (r: seq<Error>)
    requires rule.optional || rule.kind.Some?
    ensures |r| <= 2
    ensures forall e | e in r :: e.path == path && e.kind != Missing
    ensures rule.optional ==> forall e | e in r :: e.kind == PatternMismatch
    ensures Error(WrongType, path) in r <==> !rule.optional && !HasKind(d, rule.kind.value)
    ensures Error(PatternMismatch, path) in r <==> rule.constraint.Pattern? && !m(rule.constraint.source, d)
    ensures |r| == 2 ==> r == [Error(WrongType, path), Error(PatternMismatch, path)]
    ensures Truthy(d) ==> (r == [] <==> Conforms(Leaf(rule), d, m))
  {
    (if !rule.optional && !HasKind(d, rule.kind.value) then [Error(WrongType, path)] else [])
    + (if rule.constraint.Pattern? && !m(rule.constraint.source, d) then [Error(PatternMismatch, path)] else [])
  }

  /** `_enforce_property` on the value found at `path`. */
  function CheckProperty(n: Node, d: Value, path: seq<string>, m: Matcher): (r: seq<Error>)
    requires Checkable(n)
    ensures ErrorsUnder(r, path, n)
    ensures !Truthy(d) ==> |r| <= 1 && (r == [] <==> IsOptional(n))
    ensures n.Leaf? ==> |r| <= 2
    ensures n.List? && Truthy(d) && !d.Arr? ==> r == [Error(WrongType, path)]
    ensures n.List? && d == Arr([]) ==> r == []
    decreases n, 2
  {
    if !Truthy(d) then
      if IsOptional(n) then [] else [Error(Missing, path)]
    else
      match n
      case Hole => []
      case Leaf(rule) => CheckLeaf(rule, d, path, m)
      case List(e) =>
        if !d.Arr? then [Error(WrongType, path)]
        else CheckItems(e, d.items, 0, path, m)
      case Object(_) => CheckFields(n, 0, d, path, m)
  }

  /** The loop of `_enforce_array`: every item against element 0, at the same path. */
  function CheckItems(e: Node, items: seq<Value>, i: nat, path: seq<string>, m: Matcher): (r: seq<Error>)
    requires Checkable(e) && i <= |items|
    ensures ErrorsUnder(r, path, List(e))
    decreases e, 3, |items| - i
  {
    if i == |items| then []
    else
      var here := CheckProperty(e, items[i], path, m);
      var rest := CheckItems(e, items, i + 1, path, m);
      assert forall x | x in here :: KeyPath(List(e), x.path[|path|..]);
      here + rest
  }

  /** `_enforce_properties` from field `i` on: each key is pushed for its own check and popped after. */
  function CheckFields(n: Node, i: nat, d: Value, path: seq<string>, m: Matcher): (r: seq<Error>)
    requires n.Object? && Checkable(n) && i <= |n.fields|
    ensures ErrorsUnder(r, path, n)
    decreases n, 0, |n.fields| - i
  {
    if i == |n.fields| then []
    else
      var key := n.fields[i].0;
      var here := CheckProperty(n.fields[i].1, Get(d, key), path + [key], m);
      var rest := CheckFields(n, i + 1, d, path, m);
      assert ErrorsUnder(here, path, n) by {
        forall x | x in here
          ensures |path| <= |x.path| && x.path[..|path|] == path && KeyPath(n, x.path[|path|..])
        {
          var ks := x.path[|path|..];
          assert x.path[..|path| + 1] == path + [key];
          assert x.path[..|path|] == (path + [key])[..|path|];
          assert ks[0] == key && ks[1..] == x.path[|path| + 1..];
        }
      }
      here + rest
  }

  /** The error list is empty exactly when the value conforms. */
  lemma {:induction false} NoErrorsIffConforms(n: Node, d: Value, path: seq<string>, m: Matcher)
    requires Checkable(n)
    ensures CheckProperty(n, d, path, m) == [] <==> Conforms(n, d, m)
    decreases n, 2
  {
    if Truthy(d) {
      match n
      case Hole =>
      case Leaf(rule) =>
      case List(e) =>
        if d.Arr? {
          NoItemErrorsIffConform(e, d.items, 0, path, m);
        }
      case Object(_) =>
        NoFieldErrorsIffConform(n, 0, d, path, m);
    }
  }

  lemma {:induction false} NoItemErrorsIffConform(e: Node, items: seq<Value>, i: nat, path: seq<string>, m: Matcher)
    requires Checkable(e) && i <= |items|
    ensures CheckItems(e, items, i, path, m) == [] <==> forall j | i <= j < |items| :: Conforms(e, items[j], m)
    decreases e, 3, |items| - i
  {
    if i < |items| {
      NoErrorsIffConforms(e, items[i], path, m);
      NoItemErrorsIffConform(e, items, i + 1, path, m);
    }
  }

  lemma {:induction false} NoFieldErrorsIffConform(n: Node, i: nat, d: Value, path: seq<string>, m: Matcher)
    requires n.Object? && Checkable(n) && i <= |n.fields|
    ensures CheckFields(n, i, d, path, m) == []
        <==> forall j | i <= j < |n.fields| :: Conforms(n.fields[j].1, Get(d, n.fields[j].0), m)
    decreases n, 0, |n.fields| - i
  {
    if i < |n.fields| {
      var key := n.fields[i].0;
      FieldsStep(n, i, d, path, m);
      ConformsStep(n, i, d, m);
      NoErrorsIffConforms(n.fields[i].1, Get(d, key), path + [key], m);
      NoFieldErrorsIffConform(n, i + 1, d, path, m);
    }
  }

  /** One step of `CheckFields`: no errors exactly when field `i` and the later ones have none. */
  lemma FieldsStep(n: Node, i: nat, d: Value, path: seq<string>, m: Matcher)
    requires n.Object? && Checkable(n) && i < |n.fields|
    ensures Checkable(n.fields[i].1)
    ensures CheckFields(n, i, d, path, m) == []
        <==> (CheckProperty(n.fields[i].1, Get(d, n.fields[i].0), path + [n.fields[i].0], m) == []
              && CheckFields(n, i + 1, d, path, m) == [])
  {
  }

  /** The fields from `i` on conform exactly when field `i` and the later ones do. */
  lemma ConformsStep(n: Node, i: nat, d: Value, m: Matcher)
    requires n.Object? && i < |n.fields|
    ensures (forall j | i <= j < |n.fields| :: Conforms(n.fields[j].1, Get(d, n.fields[j].0), m))
        <==> (Conforms(n.fields[i].1, Get(d, n.fields[i].0), m)
              && forall j | i + 1 <= j < |n.fields| :: Conforms(n.fields[j].1, Get(d, n.fields[j].0), m))
  {
  }

  // ------------------------------------------------------------------
  // Which key an error belongs to, and in what order errors come.
  // ------------------------------------------------------------------

  /** The path `p` starts with `q`. */
  predicate Extends(p: seq<string>, q: seq<string>) {
    |q| <= |p| && p[..|q|] == q
  }

  /** The errors of `r` filed at `p` or below it, in their order. */
  function ErrorsAt(r: seq<Error>, p: seq<string>): (s: seq<Error>)
  {
    if |r| == 0 then []
    else (if Extends(r[0].path, p) then [r[0]] else []) + ErrorsAt(r[1..], p)
  }

  /** `ErrorsAt` keeps exactly the errors of `r` at or below `p`. */
  lemma {:induction false} ErrorsAtMembers(r: seq<Error>, p: seq<string>, e: Error)
    ensures e in ErrorsAt(r, p) <==> e in r && Extends(e.path, p)
  {
    if |r| > 0 {
      ErrorsAtMembers(r[1..], p, e);
      assert r == [r[0]] + r[1..];
    }
  }

  lemma {:induction false} ErrorsAtAppend(a: seq<Error>, b: seq<Error>, p: seq<string>)
    ensures ErrorsAt(a + b, p) == ErrorsAt(a, p) + ErrorsAt(b, p)
  {
    if |a| > 0 {
      assert (a + b)[1..] == a[1..] + b;
      ErrorsAtAppend(a[1..], b, p);
    } else {
      assert a + b == b;
    }
  }

  lemma {:induction false} ErrorsAtAll(r: seq<Error>, p: seq<string>)
    requires forall e | e in r :: Extends(e.path, p)
    ensures ErrorsAt(r, p) == r
  {
    if |r| > 0 {
      ErrorsAtAll(r[1..], p);
    }
  }

  lemma {:induction false} ErrorsAtNone(r: seq<Error>, p: seq<string>)
    requires forall e | e in r :: !Extends(e.path, p)
    ensures ErrorsAt(r, p) == []
  {
    if |r| > 0 {
      ErrorsAtNone(r[1..], p);
    }
  }

  /** No two fields of the object node share a key. */
  predicate DistinctFieldKeys(n: Node)
    requires n.Object?
  {
    forall x, y | 0 <= x < y < |n.fields| :: n.fields[x].0 != n.fields[y].0
  }

  /** The errors of field `i` alone: its own `_enforce_property` call, at the path extended by its key. */
  function FieldErrors(n: Node, i: nat, d: Value, path: seq<string>, m: Matcher): (r: seq<Error>)
    requires n.Object? && Checkable(n) && i < |n.fields|
    ensures forall e | e in r :: Extends(e.path, path + [n.fields[i].0])
  {
    var key := n.fields[i].0;
    var r := CheckProperty(n.fields[i].1, Get(d, key), path + [key], m);
    assert forall e | e in r :: Extends(e.path, path + [key]);
    r
  }

  /** The blocks of errors one after another. */
  function Flatten(bs: seq<seq<Error>>): (r: seq<Error>)
  {
    if |bs| == 0 then [] else bs[0] + Flatten(bs[1..])
  }

  /** Block `x` of `bs` holds only errors under `path` extended by `keys[x]`. */
  predicate Filed(bs: seq<seq<Error>>, path: seq<string>, keys: seq<string>) {
    && |bs| == |keys|
    && forall x, e | 0 <= x < |bs| && e in bs[x] :: Extends(e.path, path + [keys[x]])
  }

  predicate DistinctStrings(keys: seq<string>) {
    forall x, y | 0 <= x < y < |keys| :: keys[x] != keys[y]
  }

  /** An error under one key never extends the path of a different key. */
  lemma OtherKey(p: seq<string>, path: seq<string>, k: string, k': string)
    requires k != k' && Extends(p, path + [k])
    ensures !Extends(p, path + [k'])
  {
    assert p[|path|] == (path + [k])[|path|];
  }

  /** Every error of a flattened, filed sequence lies under one of the keys. */
  lemma {:induction false} FlattenKeys(bs: seq<seq<Error>>, path: seq<string>, keys: seq<string>, e: Error)
    requires Filed(bs, path, keys) && e in Flatten(bs)
    ensures exists x | 0 <= x < |keys| :: Extends(e.path, path + [keys[x]])
  {
    if e !in bs[0] {
      FlattenKeys(bs[1..], path, keys[1..], e);
      var x :| 0 <= x < |keys[1..]| && Extends(e.path, path + [keys[1..][x]]);
      assert keys[1..][x] == keys[x + 1];
    }
  }

  /** Under `keys[j]` one finds exactly block `j`, when the keys are distinct. */
  lemma {:induction false} FlattenAt(bs: seq<seq<Error>>, path: seq<string>, keys: seq<string>, j: nat)
    requires Filed(bs, path, keys) && DistinctStrings(keys) && j < |bs|
    ensures ErrorsAt(Flatten(bs), path + [keys[j]]) == bs[j]
  {
    var p := path + [keys[j]];
    ErrorsAtAppend(bs[0], Flatten(bs[1..]), p);
    assert Filed(bs[1..], path, keys[1..]);
    if j == 0 {
      ErrorsAtAll(bs[0], p);
      forall e: Error | e in Flatten(bs[1..]) ensures !Extends(e.path, p) {
        FlattenKeys(bs[1..], path, keys[1..], e);
        var x :| 0 <= x < |keys[1..]| && Extends(e.path, path + [keys[1..][x]]);
        OtherKey(e.path, path, keys[x + 1], keys[0]);
      }
      ErrorsAtNone(Flatten(bs[1..]), p);
      assert bs[0] + [] == bs[0];
    } else {
      forall e: Error | e in bs[0] ensures !Extends(e.path, p) {
        OtherKey(e.path, path, keys[0], keys[j]);
      }
      ErrorsAtNone(bs[0], p);
      FlattenAt(bs[1..], path, keys[1..], j - 1);
      assert [] + bs[j] == bs[j];
    }
  }

  /** In a flattened, filed sequence, the errors under an earlier key come first. */
  lemma {:induction false} FlattenOrder(bs: seq<seq<Error>>, path: seq<string>, keys: seq<string>,
                                        x: nat, y: nat, a: nat, b: nat)
    requires Filed(bs, path, keys) && DistinctStrings(keys) && x < y < |bs|
    requires a < |Flatten(bs)| && b < |Flatten(bs)|
    requires Extends(Flatten(bs)[a].path, path + [keys[x]])
    requires Extends(Flatten(bs)[b].path, path + [keys[y]])
    ensures a < b
  {
    var r := Flatten(bs);
    var rest := Flatten(bs[1..]);
    assert r == bs[0] + rest;
    assert Filed(bs[1..], path, keys[1..]);
    if b < |bs[0]| {
      assert r[b] in bs[0];
      OtherKey(r[b].path, path, keys[0], keys[y]);
    } else if x == 0 {
      if a >= |bs[0]| {
        assert r[a] == rest[a - |bs[0]|];
        FlattenKeys(bs[1..], path, keys[1..], r[a]);
        var z :| 0 <= z < |keys[1..]| && Extends(r[a].path, path + [keys[1..][z]]);
        OtherKey(r[a].path, path, keys[z + 1], keys[0]);
      }
    } else if a < |bs[0]| {
      assert r[a] in bs[0];
      OtherKey(r[a].path, path, keys[0], keys[x]);
    } else {
      assert r[a] == rest[a - |bs[0]|] && r[b] == rest[b - |bs[0]|];
      FlattenOrder(bs[1..], path, keys[1..], x - 1, y - 1, a - |bs[0]|, b - |bs[0]|);
    }
  }

  /** One error block per field of `n`, in template order. */
  function FieldBlocks(n: Node, d: Value, path: seq<string>, m: Matcher): (bs: seq<seq<Error>>)
    requires n.Object? && Checkable(n)
    ensures Filed(bs, path, Keys(n.fields))
  {
    var bs := seq(|n.fields|, x requires 0 <= x < |n.fields| => FieldErrors(n, x, d, path, m));
    assert forall x | 0 <= x < |bs| :: bs[x] == FieldErrors(n, x, d, path, m);
    bs
  }

  /** `_enforce_properties` from field `i` on is the fields' blocks from `i` on, one after another. */
  lemma {:induction false} CheckFieldsBlocks(n: Node, i: nat, d: Value, path: seq<string>, m: Matcher)
    requires n.Object? && Checkable(n) && i <= |n.fields|
    ensures CheckFields(n, i, d, path, m) == Flatten(FieldBlocks(n, d, path, m)[i..])
    decreases |n.fields| - i
  {
    var bs := FieldBlocks(n, d, path, m);
    if i < |n.fields| {
      CheckFieldsBlocks(n, i + 1, d, path, m);
      assert bs[i..][1..] == bs[i + 1..];
      assert bs[i..][0] == FieldErrors(n, i, d, path, m);
    }
  }

  /**
   * The errors filed under key `k` of an object are exactly the errors of that
   * key's own check: nothing of another key lands there, and nothing of `k`'s
   * goes elsewhere.
   */
  lemma FieldErrorsAt(n: Node, d: Value, path: seq<string>, m: Matcher, j: nat)
    requires n.Object? && Checkable(n) && DistinctFieldKeys(n) && j < |n.fields|
    ensures Checkable(n.fields[j].1)
    ensures ErrorsAt(CheckFields(n, 0, d, path, m), path + [n.fields[j].0])
      == CheckProperty(n.fields[j].1, Get(d, n.fields[j].0), path + [n.fields[j].0], m)
  {
    var bs := FieldBlocks(n, d, path, m);
    CheckFieldsBlocks(n, 0, d, path, m);
    assert bs[0..] == bs;
    FlattenAt(bs, path, Keys(n.fields), j);
    assert bs[j] == FieldErrors(n, j, d, path, m);
  }

  /** Errors come in template order: every error of an earlier key precedes every error of a later one. */
  lemma FieldErrorsInOrder(n: Node, d: Value, path: seq<string>, m: Matcher, x: nat, y: nat, a: nat, b: nat)
    requires n.Object? && Checkable(n) && DistinctFieldKeys(n) && x < y < |n.fields|
    requires a < |CheckFields(n, 0, d, path, m)| && b < |CheckFields(n, 0, d, path, m)|
    requires Extends(CheckFields(n, 0, d, path, m)[a].path, path + [n.fields[x].0])
    requires Extends(CheckFields(n, 0, d, path, m)[b].path, path + [n.fields[y].0])
    ensures a < b
  {
    var bs := FieldBlocks(n, d, path, m);
    CheckFieldsBlocks(n, 0, d, path, m);
    assert bs[0..] == bs;
    FlattenOrder(bs, path, Keys(n.fields), x, y, a, b);
  }

  // ------------------------------------------------------------------
  // `Template` and `enforce`.
  // ------------------------------------------------------------------

  /** What `enforce` reads of the data: `data[key]` throws on `undefined` and `null`. */
  predicate Readable(root: Node, data: Value) {
    root.Object? && Checkable(root) && (|root.fields| == 0 || (data != Undefined && data != Null))
  }

  /** One pass of `_enforce_properties` over the base template, from an empty log. */
  function Validate(root: Node, data: Value, m: Matcher): (r: seq<Error>)
    requires Readable(root, data)
    ensures ErrorsUnder(r, [], root)
    ensures r == [] <==> FieldsConform(root, data, m)
  {
    NoFieldErrorsIffConform(root, 0, data, [], m);
    CheckFields(root, 0, data, [], m)
  }

  /** The errors located at a top-level key are exactly that key's own check, in `enforce`'s order. */
  lemma ValidateErrorsAt(root: Node, data: Value, m: Matcher, j: nat)
    requires Readable(root, data) && DistinctFieldKeys(root) && j < |root.fields|
    ensures Checkable(root.fields[j].1)
    ensures ErrorsAt(Validate(root, data, m), [root.fields[j].0])
      == CheckProperty(root.fields[j].1, Get(data, root.fields[j].0), [root.fields[j].0], m)
  {
    FieldErrorsAt(root, data, [], m, j);
    assert [] + [root.fields[j].0] == [root.fields[j].0];
  }

  /** A template: the populated base template and the `errors` array it keeps. */
  datatype Template = Template(root: Node, errors: seq<Error>)

  /** `new Template(raw)`: the raw object template populated, no errors yet. */
  function NewTemplate(raw: Value): (t: Template)
    requires raw.Obj?
    ensures t.root.Object? && Keys(t.root.fields) == Keys(raw.fields)
    ensures t.errors == [] && Parsed(t.root)
  {
    Template(Populate(raw), [])
  }

  /**
   * `enforce` as the library writes it: new errors are appended to the
   * template's `errors`, which nothing ever clears, and the answer is whether
   * that array is empty.
   */
  function Enforce(t: Template, data: Value, m: Matcher): (r: (bool, Template))
    requires Readable(t.root, data)
    ensures r.1.root == t.root
    ensures |t.errors| <= |r.1.errors| && r.1.errors[..|t.errors|] == t.errors
    ensures r.0 <==> r.1.errors == []
    ensures r.0 <==> t.errors == [] && FieldsConform(t.root, data, m)
  {
    var errors := t.errors + Validate(t.root, data, m);
    assert errors[..|t.errors|] == t.errors;
    (|errors| == 0, Template(t.root, errors))
  }

  /**
   * `enforce` as evidently intended: each call judges its own data, so the
   * answer is exactly whether the data conforms, whatever came before.
   */
  function EnforceFresh(t: Template, data: Value, m: Matcher): (r: (bool, Template))
    requires Readable(t.root, data)
    ensures r.1.root == t.root
    ensures r.0 <==> FieldsConform(t.root, data, m)
    ensures forall e | e in r.1.errors :: KeyPath(t.root, e.path)
  {
    var errors := Validate(t.root, data, m);
    assert forall e | e in errors :: e.path[0..] == e.path;
    (|errors| == 0, Template(t.root, errors))
  }

  /** A matcher that accepts every value. */
  function AcceptAll(): Matcher {
    (source: string, v: Value) => true
  }

  /** The template `{ name: 'string' }`. */
  function NameTemplate(): Template {
    NewTemplate(Obj([("name", Str("string"))]))
  }

  lemma NameTemplateShape()
    ensures NameTemplate().root == Object([("name", Leaf(Rule("string", Some(StringKind), false, Pattern(".+"))))])
  {
    DefaultStringRule();
    PopulateField("name", Str("string"));
  }

  /**
   * Enforcing `{}` and then `{ name: 'brendan' }` against `{ name: 'string' }`:
   * the second data conforms, yet the library answers `false` because the
   * first call's error is still recorded; the fresh check answers `true`.
   */
  lemma SecondCallStillFails()
    ensures var t := NameTemplate();
      var good := Obj([("name", Str("brendan"))]);
      && Readable(t.root, Obj([])) && Readable(t.root, good)
      && !Enforce(t, Obj([]), AcceptAll()).0
      && FieldsConform(t.root, good, AcceptAll())
      && !Enforce(Enforce(t, Obj([]), AcceptAll()).1, good, AcceptAll()).0
      && EnforceFresh(Enforce(t, Obj([]), AcceptAll()).1, good, AcceptAll()).0
  {
    EmptyDataFails();
    NamedDataConforms();
  }

  /** `{}` lacks the required `name`, so the first call records an error. */
  lemma EmptyDataFails()
    ensures Readable(NameTemplate().root, Obj([]))
    ensures !FieldsConform(NameTemplate().root, Obj([]), AcceptAll())
  {
    NameTemplateReadable(Obj([]));
    NameTemplateShape();
    var t := NameTemplate();
    assert Get(Obj([]), "name") == Undefined;
    assert !IsOptional(t.root.fields[0].1);
  }

  /** `{ name: 'brendan' }` conforms to `{ name: 'string' }`. */
  lemma NamedDataConforms()
    ensures Readable(NameTemplate().root, Obj([("name", Str("brendan"))]))
    ensures FieldsConform(NameTemplate().root, Obj([("name", Str("brendan"))]), AcceptAll())
  {
    var d := Obj([("name", Str("brendan"))]);
    NameTemplateReadable(d);
    NameTemplateShape();
    var t := NameTemplate();
    assert Get(d, "name") == Str("brendan");
    SingleFieldConforms("name", t.root.fields[0].1, d, AcceptAll());
  }

  lemma NameTemplateReadable(d: Value)
    requires d != Undefined && d != Null
    ensures Readable(NameTemplate().root, d)
  {
    NameTemplateShape();
  }

  /** A one-field object node is satisfied when its one key's value conforms. */
  lemma SingleFieldConforms(k: string, node: Node, d: Value, m: Matcher)
    requires Conforms(node, Get(d, k), m)
    ensures FieldsConform(Object([(k, node)]), d, m)
  {
  }
}
