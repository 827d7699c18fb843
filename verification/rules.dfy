/**
 * The `Rules` constructor: one schema leaf such as "number optional (1,3)"
 * becomes a rule with a kind, an optional flag and a constraint (the source of
 * the validation pattern for strings, the integer range for numbers).
 */
module Rules {
  import opened Wrappers
  import opened Text

  datatype Kind = StringKind | ArrayKind | ObjectKind | NumberKind

  /** The keyword that names each kind (`JSON_TYPES`). */
  function Keyword(k: Kind): string {
    match k
    case StringKind => "string"
    case ArrayKind => "array"
    case ObjectKind => "object"
    case NumberKind => "number"
  }

  /** One side of a range: `parseInt` of its digits, `NaN` when there are none. */
  datatype Bound = Finite(n: nat) | NotANumber

  datatype Constraint = Unconstrained | Pattern(source: string) | Range(lo: Bound, hi: Bound)

  datatype Rule = Rule(raw: string, kind: Option<Kind>, optional: bool, constraint: Constraint)

  /** `DEFAULT_STRING_VALIDATION` once its parentheses are matched off. */
  const DefaultPattern: string := ".+"

  /** `DEFAULT_NUMBER_RANGE`. */
  const DefaultRange: Constraint := Range(Finite(0), Finite(100))

  /** The kind whose keyword starts at `i` (no two keywords share a first letter). */
  function KindAt(raw: string, i: nat): (r: Option<Kind>)
    ensures r.Some? ==> OccursAt(raw, Keyword(r.value), i)
    ensures r.None? ==> forall k :: !OccursAt(raw, Keyword(k), i)
  {
    if OccursAt(raw, "string", i) then Some(StringKind)
    else if OccursAt(raw, "array", i) then Some(ArrayKind)
    else if OccursAt(raw, "object", i) then Some(ObjectKind)
    else if OccursAt(raw, "number", i) then Some(NumberKind)
    else None
  }

  /** The leftmost match of `RULES_TYPE_RE` at or after `from`, with its position. */
  function FindKind(raw: string, from: nat): (r: Option<(Kind, nat)>)
    ensures r.Some? ==> from <= r.value.1 && KindAt(raw, r.value.1) == Some(r.value.0)
    ensures r.Some? ==> forall j | from <= j < r.value.1 :: KindAt(raw, j).None?
    ensures r.None? ==> forall j | from <= j :: KindAt(raw, j).None?
    decreases |raw| - from
  {
    if from >= |raw| then None
    else match KindAt(raw, from)
      case Some(k) => Some((k, from))
      case None => FindKind(raw, from + 1)
  }

  /** The least index at or after `k` holding a line terminator, or `|raw|`. */
  function LineEnd(raw: string, k: nat): (r: nat)
    requires k <= |raw|
    ensures k <= r <= |raw|
    ensures forall m | k <= m < r :: !IsLineTerminator(raw[m])
    ensures r < |raw| ==> IsLineTerminator(raw[r])
    decreases |raw| - k
  {
    if k < |raw| && !IsLineTerminator(raw[k]) then LineEnd(raw, k + 1) else k
  }

  /** `RULES_VALIDATION_RE`, `\((.+)\)`, matches with `(` at `i` and `)` at `j`. */
  predicate ParenAt(raw: string, i: nat, j: nat) {
    i + 2 <= j < |raw| && raw[i] == '(' && raw[j] == ')'
    && forall m | i < m < j :: !IsLineTerminator(raw[m])
  }

  /** The match JavaScript picks: the leftmost `(`, then the greedy, longest `.+`. */
  ghost predicate FirstLongestParen(raw: string, i: nat, j: nat) {
    && ParenAt(raw, i, j)
    && (forall i': nat, j': nat | i' < i :: !ParenAt(raw, i', j'))
    && (forall j': nat | j < j' :: !ParenAt(raw, i, j'))
  }

  /** The last `)` in `[lo, hi)`. */
  function LastClose(raw: string, lo: nat, hi: nat): (r: Option<nat>)
    requires hi <= |raw|
    ensures r.Some? ==> lo <= r.value < hi && raw[r.value] == ')'
    ensures r.Some? ==> forall j | r.value < j < hi :: raw[j] != ')'
    ensures r.None? ==> forall j | lo <= j < hi :: raw[j] != ')'
    decreases hi
  {
    if hi <= lo then None
    else if raw[hi - 1] == ')' then Some(hi - 1)
    else LastClose(raw, lo, hi - 1)
  }

  /** The end of the longest match of `\((.+)\)` that starts at `i`. */
  function ParenMatchAt(raw: string, i: nat): (r: Option<nat>)
    requires i < |raw|
    ensures r.Some? ==> ParenAt(raw, i, r.value)
    ensures r.Some? ==> forall j | r.value < j :: !ParenAt(raw, i, j)
    ensures r.None? ==> forall j :: !ParenAt(raw, i, j)
  {
    if raw[i] != '(' then None
    else
      var e := LineEnd(raw, i + 1);
      assert forall j: nat | ParenAt(raw, i, j) :: j < e;
      LastClose(raw, i + 2, e)
  }

  /** The leftmost-longest match of `\((.+)\)` at or after `from`. */
  function FindParen(raw: string, from: nat): (r: Option<(nat, nat)>)
    ensures r.Some? ==> from <= r.value.0 && ParenAt(raw, r.value.0, r.value.1)
    ensures r.Some? ==> forall j | r.value.1 < j :: !ParenAt(raw, r.value.0, j)
    ensures r.Some? ==> forall i, j | from <= i < r.value.0 :: !ParenAt(raw, i, j)
    ensures r.None? ==> forall i, j | from <= i :: !ParenAt(raw, i, j)
    decreases |raw| - from
  {
    if from >= |raw| then None
    else match ParenMatchAt(raw, from)
      case Some(j) => Some((from, j))
      case None => FindParen(raw, from + 1)
  }

  /**
   * `RULES_RANGE_RE`, `\((\d*),*(\d*)\)`, matches at `i` with its first group
   * in `(i, a)`, the commas in `[a, b)` and its second group in `[b, e)`.
   * Each run is as long as it goes: when a match exists the regex engine
   * finds this one, since giving back a digit or a comma never reaches `)`.
   */
  predicate RangeShape(raw: string, i: nat, a: nat, b: nat, e: nat) {
    && i < a <= b <= e < |raw|
    && raw[i] == '(' && raw[e] == ')'
    && AllDigits(raw[i + 1..a]) && !IsDigit(raw[a])
    && (forall m | a <= m < b :: raw[m] == ',') && raw[b] != ','
    && AllDigits(raw[b..e])
  }

  /** A match of `RULES_RANGE_RE` starting at `i`, as its two groups. */
  function RangeAt(raw: string, i: nat): (r: Option<(string, string)>)
    requires i < |raw|
    ensures forall a: nat, b: nat, e: nat | RangeShape(raw, i, a, b, e) :: r == Some((raw[i + 1..a], raw[b..e]))
    ensures r.Some? ==> exists a: nat, b: nat, e: nat :: RangeShape(raw, i, a, b, e)
  {
    if raw[i] != '(' then None
    else
      var a := DigitRunEnd(raw, i + 1);
      var b := CommaRunEnd(raw, a);
      var c := DigitRunEnd(raw, b);
      RangeShapeRuns(raw, i);
      if c < |raw| && raw[c] == ')' then
        assert RangeShape(raw, i, a, b, c);
        Some((raw[i + 1..a], raw[b..c]))
      else None
  }

  /** Any match at `i` has its runs where the greedy scan puts them. */
  lemma RangeShapeRuns(raw: string, i: nat)
    requires i < |raw| && raw[i] == '('
    ensures forall a: nat, b: nat, e: nat | RangeShape(raw, i, a, b, e) ::
      && a == DigitRunEnd(raw, i + 1)
      && b == CommaRunEnd(raw, a)
      && e == DigitRunEnd(raw, b)
  {
    forall a: nat, b: nat, e: nat | RangeShape(raw, i, a, b, e)
      ensures a == DigitRunEnd(raw, i + 1) && b == CommaRunEnd(raw, a) && e == DigitRunEnd(raw, b)
    {
      DigitRunEndAt(raw, i + 1, a);
      CommaRunEndAt(raw, a, b);
      DigitRunEndAt(raw, b, e);
    }
  }

  /** The position of the leftmost match of `RULES_RANGE_RE` at or after `from`. */
  function FindRange(raw: string, from: nat): (r: Option<nat>)
    ensures r.Some? ==> from <= r.value < |raw| && RangeAt(raw, r.value).Some?
    ensures r.Some? ==> forall i | from <= i < r.value :: RangeAt(raw, i).None?
    ensures r.None? ==> forall i | from <= i < |raw| :: RangeAt(raw, i).None?
    decreases |raw| - from
  {
    if from >= |raw| then None
    else if RangeAt(raw, from).Some? then Some(from)
    else
      var r := FindRange(raw, from + 1);
      assert RangeAt(raw, from).None?;
      r
  }

  function ParseBound(digits: string): (b: Bound)
    requires AllDigits(digits)
    ensures b.NotANumber? <==> digits == ""
  {
    if digits == "" then NotANumber else Finite(DecimalValue(digits))
  }

  /** The pattern source a string rule gets from its text. */
  ghost predicate PatternOf(raw: string, source: string) {
    || ((forall i: nat, j: nat :: !ParenAt(raw, i, j)) && source == DefaultPattern)
    || (exists i: nat, j: nat :: FirstLongestParen(raw, i, j) && source == raw[i + 1..j])
  }

  /** The range a number rule gets from its text. */
  ghost predicate RangeOf(raw: string, c: Constraint) {
    || ((forall i: nat, a: nat, b: nat, e: nat :: !RangeShape(raw, i, a, b, e)) && c == DefaultRange)
    || (exists i: nat, a: nat, b: nat, e: nat ::
          && RangeShape(raw, i, a, b, e)
          && (forall i': nat, a': nat, b': nat, e': nat | i' < i :: !RangeShape(raw, i', a', b', e'))
          && c == Range(ParseBound(raw[i + 1..a]), ParseBound(raw[b..e])))
  }

  /** The validation source of a string rule: the text in the first parentheses, or `.+`. */
  function StringConstraint(raw: string): (c: Constraint)
    ensures c.Pattern? && PatternOf(raw, c.source)
  {
    match FindParen(raw, 0)
    case None => Pattern(DefaultPattern)
    case Some((i, j)) =>
      assert FirstLongestParen(raw, i, j);
      Pattern(raw[i + 1..j])
  }

  /** The range of a number rule: the two groups of the first range match, or `(0,100)`. */
  function NumberConstraint(raw: string): (c: Constraint)
    ensures c.Range? && RangeOf(raw, c)
  {
    match FindRange(raw, 0)
    case None =>
      NoRangeShape(raw, |raw|);
      DefaultRange
    case Some(i) =>
      FirstRangeShape(raw, i);
      Range(ParseBound(RangeAt(raw, i).value.0), ParseBound(RangeAt(raw, i).value.1))
  }

  /** Below `to`, where the scan found no match, no shape starts. */
  lemma NoRangeShape(raw: string, to: nat)
    requires forall i | 0 <= i < to && i < |raw| :: RangeAt(raw, i).None?
    ensures forall i: nat, a: nat, b: nat, e: nat | i < to :: !RangeShape(raw, i, a, b, e)
  {
    forall i: nat, a: nat, b: nat, e: nat | i < to ensures !RangeShape(raw, i, a, b, e) {
      if i < |raw| {
        NoShapeWithoutMatch(raw, i, a, b, e);
      }
    }
  }

  lemma NoShapeWithoutMatch(raw: string, i: nat, a: nat, b: nat, e: nat)
    requires i < |raw| && RangeAt(raw, i).None?
    ensures !RangeShape(raw, i, a, b, e)
  {
  }

  /** The match the scan finds is the leftmost shape, with its groups. */
  lemma FirstRangeShape(raw: string, i: nat)
    requires FindRange(raw, 0) == Some(i)
    ensures RangeOf(raw, Range(ParseBound(RangeAt(raw, i).value.0), ParseBound(RangeAt(raw, i).value.1)))
  {
    NoRangeShape(raw, i);
    var a: nat, b: nat, e: nat :| RangeShape(raw, i, a, b, e);
    assert RangeAt(raw, i) == Some((raw[i + 1..a], raw[b..e]));
  }

  /** The kind of a rule: the keyword that occurs first in its text. */
  function KindOf(raw: string): (r: Option<Kind>)
    ensures r.None? <==> forall j: nat, k :: !OccursAt(raw, Keyword(k), j)
    ensures r.Some? ==> exists i: nat :: FirstKeywordAt(raw, r.value, i)
  {
    var found := FindKind(raw, 0);
    if found.None? then
      NoKeywordAnywhere(raw);
      None
    else
      FirstKeyword(raw, found.value.0, found.value.1);
      Some(found.value.0)
  }

  /** The keyword of `k` occurs at `i` and no keyword occurs before `i`. */
  ghost predicate FirstKeywordAt(raw: string, k: Kind, i: nat) {
    && OccursAt(raw, Keyword(k), i)
    && forall j: nat, k' | j < i :: !OccursAt(raw, Keyword(k'), j)
  }

  lemma NoKeywordAnywhere(raw: string)
    requires FindKind(raw, 0).None?
    ensures forall j: nat, k :: !OccursAt(raw, Keyword(k), j)
  {
    forall j: nat, k ensures !OccursAt(raw, Keyword(k), j) {
      assert KindAt(raw, j).None?;
    }
  }

  lemma FirstKeyword(raw: string, k: Kind, i: nat)
    requires FindKind(raw, 0) == Some((k, i))
    ensures FirstKeywordAt(raw, k, i)
  {
    forall j: nat, k' | j < i ensures !OccursAt(raw, Keyword(k'), j) {
      assert KindAt(raw, j).None?;
    }
  }

  function ParseRule(raw: string): (r: Rule)
    ensures r.raw == raw
    ensures r.kind == KindOf(raw)
    ensures r.optional <==> exists k: nat :: OccursAt(raw, "optional", k)
    ensures r.constraint.Pattern? <==> r.kind == Some(StringKind)
    ensures r.constraint.Range? <==> r.kind == Some(NumberKind)
    ensures r.constraint.Pattern? ==> PatternOf(raw, r.constraint.source)
    ensures r.constraint.Range? ==> RangeOf(raw, r.constraint)
  {
    ContainsIff(raw, "optional");
    var kind := KindOf(raw);
    var constraint :=
      if kind == Some(StringKind) then StringConstraint(raw)
      else if kind == Some(NumberKind) then NumberConstraint(raw)
      else Unconstrained;
    Rule(raw, kind, Contains(raw, "optional"), constraint)
  }

  /** Holds for every rule `ParseRule` builds: the constraint matches the kind. */
  predicate Coherent(r: Rule) {
    && (r.constraint.Pattern? <==> r.kind == Some(StringKind))
    && (r.constraint.Range? <==> r.kind == Some(NumberKind))
  }

  lemma DefaultStringRule()
    ensures ParseRule("string") == Rule("string", Some(StringKind), false, Pattern(".+"))
  {
  }

  lemma DefaultNumberRule()
    ensures ParseRule("number") == Rule("number", Some(NumberKind), false, Range(Finite(0), Finite(100)))
  {
    NumberKeywordFirst("number");
    ParseNumber("number");
    NoRange();
  }

  lemma NoRange()
    ensures NumberConstraint("number") == DefaultRange
    ensures !Contains("number", "optional")
  {
    assert "number"[..6] == "number";
    NoRangeBeforeParen("number", 0, 6);
  }

  lemma OptionalNumberRule()
    ensures ParseRule("number optional (1,3)")
         == Rule("number optional (1,3)", Some(NumberKind), true, Range(Finite(1), Finite(3)))
  {
    var raw := "number optional (1,3)";
    NumberKeywordFirst(raw);
    ParseNumber(raw);
    SaysOptional();
    ClosedRange();
  }

  lemma SaysOptional()
    ensures Contains("number optional (1,3)", "optional")
  {
    var raw := "number optional (1,3)";
    assert raw[7..15] == "optional";
    assert OccursAt(raw, "optional", 7);
    ContainsIff(raw, "optional");
  }

  lemma ClosedRange()
    ensures NumberConstraint("number optional (1,3)") == Range(Finite(1), Finite(3))
  {
    var raw := "number optional (1,3)";
    assert raw[..16] == "number optional ";
    NoRangeBeforeParen(raw, 0, 16);
    RangeOneThree();
    assert FindRange(raw, 0) == Some(16);
    OneAndThree();
  }

  lemma OneAndThree()
    ensures ParseBound("1") == Finite(1) && ParseBound("3") == Finite(3)
  {
  }

  lemma RangeOneThree()
    ensures RangeAt("number optional (1,3)", 16) == Some(("1", "3"))
  {
    var raw := "number optional (1,3)";
    assert DigitRunEnd(raw, 17) == 18;
    assert CommaRunEnd(raw, 18) == 19;
    assert DigitRunEnd(raw, 19) == 20;
    assert raw[17..18] == "1" && raw[19..20] == "3";
  }

  lemma NoRangeBeforeParen(raw: string, from: nat, to: nat)
    requires from <= to <= |raw| && '(' !in raw[..to]
    ensures FindRange(raw, from) == FindRange(raw, to)
    decreases |raw| - from
  {
    if from < to {
      assert raw[..to][from] == raw[from];
      NoRangeBeforeParen(raw, from + 1, to);
    }
  }

  lemma NumberKeywordFirst(raw: string)
    requires |raw| >= 6 && raw[..6] == "number"
    ensures KindOf(raw) == Some(NumberKind)
  {
    assert raw[0..6] == "number";
    assert raw[0..6][0] == 'n' && raw[0..5][0] == 'n';
    assert KindAt(raw, 0) == Some(NumberKind);
    assert FindKind(raw, 0) == Some((NumberKind, 0));
  }

  lemma KindIsFirstKeyword()
    ensures ParseRule("string array").kind == Some(StringKind)
    ensures ParseRule("array of string").kind == Some(ArrayKind)
  {
    assert "string array"[0..6] == "string";
    assert KindAt("string array", 0) == Some(StringKind);
    assert "array of string"[0..6][0] == 'a';
    assert "array of string"[0..5] == "array";
    assert KindAt("array of string", 0) == Some(ArrayKind);
  }

  lemma EmptyRangeSideIsNaN()
    ensures ParseRule("number (,5)").constraint == Range(NotANumber, Finite(5))
  {
    NumberKeywordFirst("number (,5)");
    OpenLowerRange();
  }

  lemma OpenLowerRange()
    ensures NumberConstraint("number (,5)") == Range(NotANumber, Finite(5))
  {
    var raw := "number (,5)";
    assert raw[..7] == "number ";
    NoRangeBeforeParen(raw, 0, 7);
    RangeEmptyFive();
    assert FindRange(raw, 0) == Some(7);
    assert ParseBound("5") == Finite(5);
  }

  lemma RangeEmptyFive()
    ensures RangeAt("number (,5)", 7) == Some(("", "5"))
  {
    var raw := "number (,5)";
    assert DigitRunEnd(raw, 8) == 8;
    assert CommaRunEnd(raw, 8) == 9;
    assert DigitRunEnd(raw, 9) == 10;
    assert raw[8..8] == "" && raw[9..10] == "5";
  }

  /** `number (0,0)`: a required number that can only be 0. */
  lemma ZeroRangeRule()
    ensures ParseRule("number (0,0)") == Rule("number (0,0)", Some(NumberKind), false, Range(Finite(0), Finite(0)))
  {
    ZeroKind();
    ParseNumber("number (0,0)");
    ZeroRange();
    ZeroNotOptional();
  }

  lemma ZeroKind()
    ensures KindOf("number (0,0)") == Some(NumberKind)
  {
    NumberKeywordFirst("number (0,0)");
  }

  lemma ZeroNotOptional()
    ensures !Contains("number (0,0)", "optional")
  {
    assert "number (0,0)"[..5] == "numbe";
    NotOptional("number (0,0)");
  }

  lemma ParseNumber(raw: string)
    requires KindOf(raw) == Some(NumberKind)
    ensures ParseRule(raw) == Rule(raw, Some(NumberKind), Contains(raw, "optional"), NumberConstraint(raw))
  {
  }

  lemma ZeroRange()
    ensures NumberConstraint("number (0,0)") == Range(Finite(0), Finite(0))
  {
    var raw := "number (0,0)";
    assert raw[..7] == "number ";
    NoRangeBeforeParen(raw, 0, 7);
    RangeZeroZero();
    assert FindRange(raw, 0) == Some(7);
    assert ParseBound("0") == Finite(0);
  }

  lemma RangeZeroZero()
    ensures RangeAt("number (0,0)", 7) == Some(("0", "0"))
  {
    var raw := "number (0,0)";
    assert DigitRunEnd(raw, 8) == 9;
    assert CommaRunEnd(raw, 9) == 10;
    assert DigitRunEnd(raw, 10) == 11;
    assert raw[8..9] == "0" && raw[10..11] == "0";
  }

  /** No `o` starts a window of eight characters, so the text never says "optional". */
  lemma NotOptional(raw: string)
    requires |raw| >= 7 && 'o' !in raw[..|raw| - 7]
    ensures !Contains(raw, "optional")
  {
    forall k: nat ensures !OccursAt(raw, "optional", k) {
      if k + 8 <= |raw| {
        assert raw[k..k + 8][0] == raw[..|raw| - 7][k];
      }
    }
    ContainsIff(raw, "optional");
  }
}
