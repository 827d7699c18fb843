/**
 * The dynamic JavaScript values the library reads (raw templates, data) and
 * writes (stubs). Objects are ordered key sequences; numbers are integers,
 * with `NaN` kept apart because `parseInt('')` produces it.
 */
module Values {

  datatype Value =
    | Undefined
    | Null
    | Bool(b: bool)
    | Num(n: int)
    | NaN
    | Str(s: string)
    | Arr(items: seq<Value>)
    | Obj(fields: seq<(string, Value)>)

  /** JavaScript truthiness: `undefined`, `null`, `false`, `0`, `NaN` and "" are falsy. */
  predicate Truthy(v: Value): (b: bool)
    ensures !b <==> v in {Undefined, Null, Bool(false), Num(0), NaN, Str("")}
  {
    match v
    case Undefined => false
    case Null => false
    case Bool(b) => b
    case Num(n) => n != 0
    case NaN => false
    case Str(s) => s != ""
    case Arr(_) => true
    case Obj(_) => true
  }

  /** The keys of an object's fields (raw or populated), in order. */
  function Keys<T>(fields: seq<(string, T)>): (ks: seq<string>)
    ensures |ks| == |fields|
    ensures forall i | 0 <= i < |fields| :: ks[i] == fields[i].0
  {
    seq(|fields|, i requires 0 <= i < |fields| => fields[i].0)
  }

  /** `xs` is `ys` with some elements left out, the rest in the same order. */
  predicate Subsequence<T(==)>(xs: seq<T>, ys: seq<T>)
    decreases |ys|
  {
    if |ys| == 0 then |xs| == 0
    else |xs| == 0 || (xs[0] == ys[0] && Subsequence(xs[1..], ys[1..])) || Subsequence(xs, ys[1..])
  }

  lemma SubsequenceKeep<T>(x: T, xs: seq<T>, ys: seq<T>)
    requires Subsequence(xs, ys)
    ensures Subsequence([x] + xs, [x] + ys)
  {
    assert ([x] + xs)[1..] == xs && ([x] + ys)[1..] == ys;
  }

  lemma SubsequenceSkip<T>(x: T, xs: seq<T>, ys: seq<T>)
    requires Subsequence(xs, ys)
    ensures Subsequence(xs, [x] + ys)
  {
    assert ([x] + ys)[1..] == ys;
  }

  /** `obj[key]` on an object: the value of the first field named `key`. */
  function Lookup(fields: seq<(string, Value)>, key: string): (r: Value)
    ensures key !in Keys(fields) ==> r == Undefined
    ensures forall i | 0 <= i < |fields| && fields[i].0 == key && key !in Keys(fields[..i]) :: r == fields[i].1
  {
    if |fields| == 0 then Undefined
    else if fields[0].0 == key then fields[0].1
    else
      var r := Lookup(fields[1..], key);
      assert forall i | 1 <= i < |fields| :: fields[1..][..i - 1] == fields[1..i] && Keys(fields[..i]) == [fields[0].0] + Keys(fields[1..i]);
      r
  }

  /** `data[key]`; on anything but an object the model answers `undefined`. */
  function Get(data: Value, key: string): (r: Value)
    ensures !data.Obj? ==> r == Undefined
    ensures data.Obj? && key !in Keys(data.fields) ==> r == Undefined
    ensures data.Obj? ==> forall i | 0 <= i < |data.fields| && data.fields[i].0 == key && key !in Keys(data.fields[..i]) ::
      r == data.fields[i].1
  {
    if data.Obj? then Lookup(data.fields, key) else Undefined
  }

  /**
   * No scalar in `v` is falsy, other than `undefined` itself: the condition
   * under which the validator cannot mistake a generated value for an absent one.
   */
  predicate NoFalsy(v: Value) {
    match v
    case Undefined => true
    case Arr(items) => forall i | 0 <= i < |items| :: NoFalsy(items[i])
    case Obj(fields) => forall i | 0 <= i < |fields| :: NoFalsy(fields[i].1)
    case _ => Truthy(v)
  }

  lemma NoFalsyLookup(fields: seq<(string, Value)>, key: string)
    requires NoFalsy(Obj(fields))
    ensures NoFalsy(Lookup(fields, key))
  {
    if |fields| > 0 && fields[0].0 != key {
      assert NoFalsy(Obj(fields[1..])) by {
        forall i | 0 <= i < |fields[1..]| ensures NoFalsy(fields[1..][i].1) {
          assert fields[1..][i] == fields[i + 1];
        }
      }
      NoFalsyLookup(fields[1..], key);
    } else if |fields| > 0 {
      assert NoFalsy(fields[0].1);
    }
  }
}
