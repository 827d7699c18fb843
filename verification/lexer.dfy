/**
 * The pattern `Lexer`: a one-pass greedy tokenizer over a validation source
 * and a token-by-token string generator that produces sample strings for it.
 */
module Lexer {
  import opened Wrappers
  import opened Text
  import opened Random

  datatype TokenClass = SetToken | QuantifierToken | SpecialToken | LiteralToken

  /** A token keeps the exact text the tokenizer cut for it, as `{ name, value }` does. */
  datatype Token = Token(cls: TokenClass, value: string)

  // ------------------------------------------------------------------
  // The four token regexes of `_tokens`, tried in this order.
  // ------------------------------------------------------------------

  /** A character of the set body class `[\w\d\s\-\\]`. */
  predicate IsSetBodyChar(c: char) {
    IsWordChar(c) || IsSpace(c) || c == '-' || c == '\\'
  }

  function SetBodyEnd(b: string, k: nat): (r: nat)
    requires k <= |b|
    ensures k <= r <= |b|
    ensures forall m | k <= m < r :: IsSetBodyChar(b[m])
    ensures r < |b| ==> !IsSetBodyChar(b[r])
    decreases |b| - k
  {
    if k < |b| && IsSetBodyChar(b[k]) then SetBodyEnd(b, k + 1) else k
  }

  /** `\[[\w\d\s\-\\]+\]` matches at `i` (`]` is not a body character, so the greedy run decides). */
  predicate SetAt(b: string, i: nat) {
    i < |b| && b[i] == '[' && var e := SetBodyEnd(b, i + 1); i + 1 < e < |b| && b[e] == ']'
  }

  /** `\{(\d*),*(\d*)\}` matches at `i`. */
  predicate BraceAt(b: string, i: nat) {
    i < |b| && b[i] == '{'
    && var c := DigitRunEnd(b, CommaRunEnd(b, DigitRunEnd(b, i + 1))); c < |b| && b[c] == '}'
  }

  /** One alternative of `\{(\d*),*(\d*)\}|\+|\*` matches at `i`. */
  predicate QuantifierAt(b: string, i: nat) {
    BraceAt(b, i) || (i < |b| && (b[i] == '+' || b[i] == '*'))
  }

  /** The unanchored set regex finds a match at or after `i`. */
  predicate HasSetFrom(b: string, i: nat)
    decreases |b| - i
  {
    i < |b| && (SetAt(b, i) || HasSetFrom(b, i + 1))
  }

  /** The position of the leftmost quantifier match at or after `i`. */
  function QuantifierMatch(b: string, i: nat): (r: Option<nat>)
    ensures r.Some? ==> i <= r.value < |b| && QuantifierAt(b, r.value)
    ensures r.Some? ==> forall k | i <= k < r.value :: !QuantifierAt(b, k)
    ensures r.None? ==> forall k | i <= k :: !QuantifierAt(b, k)
    decreases |b| - i
  {
    if i >= |b| then None
    else if QuantifierAt(b, i) then Some(i)
    else QuantifierMatch(b, i + 1)
  }

  /** `^(\\\w|\.)$`. */
  predicate IsSpecial(b: string) {
    (|b| == 2 && b[0] == '\\' && IsWordChar(b[1])) || b == "."
  }

  /** The characters `REGEX_SYNTAX` escapes. */
  const RegexSyntax: string := "[\\^$.|?*+(){}"

  /** `^[^<REGEX_SYNTAX>]$`: exactly one character that is not regex syntax. */
  predicate IsLiteral(b: string) {
    |b| == 1 && b[0] !in RegexSyntax
  }

  /** `_tokens[c].test(b)`: the regex of class `c` accepts the buffer. */
  ghost predicate Accepts(c: TokenClass, b: string) {
    match c
    case SetToken => HasSetFrom(b, 0)
    case QuantifierToken => exists i: nat :: QuantifierAt(b, i)
    case SpecialToken => IsSpecial(b)
    case LiteralToken => IsLiteral(b)
  }

  /** The place of a class in the key order of `_tokens`, which `for..in` follows. */
  function Rank(c: TokenClass): nat {
    match c
    case SetToken => 0
    case QuantifierToken => 1
    case SpecialToken => 2
    case LiteralToken => 3
  }

  /** The first class whose regex accepts the buffer, in the order set, quantifier, special, literal. */
  function Classify(b: string): (r: Option<TokenClass>)
    ensures r.Some? ==> Accepts(r.value, b) && forall c | Rank(c) < Rank(r.value) :: !Accepts(c, b)
    ensures r.None? <==> forall c :: !Accepts(c, b)
    ensures b == "" ==> r.None?
  {
    if HasSetFrom(b, 0) then Some(SetToken)
    else if QuantifierMatch(b, 0).Some? then Some(QuantifierToken)
    else if IsSpecial(b) then Some(SpecialToken)
    else if IsLiteral(b) then Some(LiteralToken)
    else None
  }

  // ------------------------------------------------------------------
  // `_tokenize`
  // ------------------------------------------------------------------

  function Concat(ts: seq<Token>): string {
    if |ts| == 0 then "" else ts[0].value + Concat(ts[1..])
  }

  /** No non-empty prefix of the buffer was ever accepted. */
  predicate Pending(b: string) {
    forall j | 0 < j <= |b| :: Classify(b[..j]).None?
  }

  /** A token is cut as soon as its text is accepted, with the class that accepted it. */
  predicate WellCut(t: Token) {
    Classify(t.value) == Some(t.cls) && Pending(t.value[..|t.value| - 1])
  }

  /**
   * The tokens and the leftover buffer of a left-to-right greedy scan of
   * `pattern`: they spell out the pattern, each token was emitted the moment
   * its buffer was accepted, and the leftover was never accepted.
   */
  predicate IsTokenization(pattern: string, ts: seq<Token>, leftover: string) {
    && Concat(ts) + leftover == pattern
    && (forall i | 0 <= i < |ts| :: WellCut(ts[i]))
    && Pending(leftover)
  }

  function TokenizeFrom(buffer: string, input: string): (r: (seq<Token>, string))
    requires Pending(buffer)
    ensures IsTokenization(buffer + input, r.0, r.1)
    decreases |input|
  {
    if input == [] then
      assert buffer + input == buffer;
      ([], buffer)
    else
      var b := buffer + [input[0]];
      assert buffer + input == b + input[1..];
      match Classify(b)
      case Some(c) =>
        var rest := TokenizeFrom([], input[1..]);
        assert [] + input[1..] == input[1..];
        CutAtAcceptance(buffer, input[0], c);
        EmitToken(Token(c, b), input[1..], rest.0, rest.1);
        ([Token(c, b)] + rest.0, rest.1)
      case None =>
        KeepBuffering(buffer, input[0]);
        TokenizeFrom(b, input[1..])
  }

  /** A buffer that was pending until its last character is cut well when that character makes it accepted. */
  lemma CutAtAcceptance(buffer: string, c: char, cls: TokenClass)
    requires Pending(buffer) && Classify(buffer + [c]) == Some(cls)
    ensures WellCut(Token(cls, buffer + [c]))
  {
    assert (buffer + [c])[..|buffer|] == buffer;
  }

  /** A pending buffer stays pending when the next character is not accepted either. */
  lemma KeepBuffering(buffer: string, c: char)
    requires Pending(buffer) && Classify(buffer + [c]).None?
    ensures Pending(buffer + [c])
  {
    var b := buffer + [c];
    assert forall j | 0 < j <= |buffer| :: b[..j] == buffer[..j];
    assert b[..|b|] == b;
  }

  /** Emitting a well-cut token in front of a scan of the remaining input is a scan of the whole. */
  lemma EmitToken(t: Token, p: string, ts: seq<Token>, l: string)
    requires WellCut(t) && IsTokenization(p, ts, l)
    ensures IsTokenization(t.value + p, [t] + ts, l)
  {
    assert ([t] + ts)[1..] == ts;
    assert forall i | 1 <= i < |ts| + 1 :: ([t] + ts)[i] == ts[i - 1];
  }

  /** `_tokenize`: the tokens and whatever is left in `current_match`. */
  function Tokenize(pattern: string): (r: (seq<Token>, string))
    ensures IsTokenization(pattern, r.0, r.1)
  {
    assert [] + pattern == pattern;
    TokenizeFrom([], pattern)
  }

  /** The scan is determined by the three conditions: no other cut satisfies them. */
  lemma {:induction false} TokenizationUnique(p: string, ts1: seq<Token>, l1: string, ts2: seq<Token>, l2: string)
    requires IsTokenization(p, ts1, l1) && IsTokenization(p, ts2, l2)
    ensures ts1 == ts2 && l1 == l2
    decreases |ts1|
  {
    if |ts1| == 0 && |ts2| == 0 {
      assert l1 == p == l2;
    } else if |ts1| == 0 {
      assert l1 == p;
      NoTokenInPending(p, ts2, l2);
    } else if |ts2| == 0 {
      assert l2 == p;
      NoTokenInPending(p, ts1, l1);
    } else {
      var v1, v2 := ts1[0].value, ts2[0].value;
      TokenizationHead(p, ts1, l1);
      TokenizationHead(p, ts2, l2);
      if |v1| < |v2| {
        assert v2[..|v1|] == v1;
        ProperPrefixPending(ts2[0], |v1|);
        assert false;
      } else if |v2| < |v1| {
        assert v1[..|v2|] == v2;
        ProperPrefixPending(ts1[0], |v2|);
        assert false;
      }
      assert v1 == p[..|v1|] == v2;
      TokenizationUnique(p[|v1|..], ts1[1..], l1, ts2[1..], l2);
      assert ts1 == [ts1[0]] + ts1[1..];
      assert ts2 == [ts2[0]] + ts2[1..];
    }
  }

  /** The first token of a tokenization is a prefix of the pattern, and the rest tokenize the remainder. */
  lemma TokenizationHead(p: string, ts: seq<Token>, l: string)
    requires IsTokenization(p, ts, l) && |ts| > 0
    ensures |ts[0].value| <= |p| && p[..|ts[0].value|] == ts[0].value
    ensures IsTokenization(p[|ts[0].value|..], ts[1..], l)
  {
    var v := ts[0].value;
    assert p == v + (Concat(ts[1..]) + l);
    assert p[|v|..] == Concat(ts[1..]) + l;
    assert forall i | 0 <= i < |ts[1..]| :: ts[1..][i] == ts[i + 1];
  }

  lemma ProperPrefixPending(t: Token, j: nat)
    requires WellCut(t) && 0 < j < |t.value|
    ensures Classify(t.value[..j]).None?
  {
    assert t.value[..|t.value| - 1][..j] == t.value[..j];
  }

  /** A pending pattern holds no token: its first token would be an accepted prefix. */
  lemma NoTokenInPending(p: string, ts: seq<Token>, l: string)
    requires IsTokenization(p, ts, l) && |ts| > 0
    ensures !Pending(p)
  {
    var v := ts[0].value;
    assert p == v + (Concat(ts[1..]) + l);
    assert p[..|v|] == v;
    assert Classify(v).Some?;
  }

  // ------------------------------------------------------------------
  // `_generate_set`: the pool of characters a set token draws from.
  // ------------------------------------------------------------------

  /** `value.replace(/(^\[)|(\]$)/g, '')`: one leading `[` and one trailing `]` go. */
  function StripBrackets(v: string): (r: string)
    ensures |r| <= |v| && forall c :: c in r ==> c in v
    ensures var lead := |v| > 0 && v[0] == '[';
      var trail := |v| > (if lead then 1 else 0) && v[|v| - 1] == ']';
      v == (if lead then "[" else "") + r + (if trail then "]" else "")
  {
    var a := if |v| > 0 && v[0] == '[' then v[1..] else v;
    if |a| > 0 && a[|a| - 1] == ']' then a[..|a| - 1] else a
  }

  /** `\w\-\w` matches at `i`. */
  predicate HyphenAt(v: string, i: nat) {
    i + 2 < |v| && IsWordChar(v[i]) && v[i + 1] == '-' && IsWordChar(v[i + 2])
  }

  /** The leftmost `\w\-\w` match at or after `i`. */
  function FindHyphen(v: string, i: nat): (r: Option<nat>)
    ensures r.Some? ==> i <= r.value && HyphenAt(v, r.value)
    ensures r.None? ==> forall k | i <= k :: !HyphenAt(v, k)
    decreases |v| - i
  {
    if i + 2 >= |v| then None
    else if HyphenAt(v, i) then Some(i)
    else FindHyphen(v, i + 1)
  }

  /**
   * The run of a range `lo-hi`: the digit alphabet when `lo` is a digit and
   * the lower-case alphabet otherwise, cut with `substring(indexOf(lo), indexOf(hi) + 1)`.
   */
  function RangeRun(lo: char, hi: char): (r: string)
    ensures forall c :: c in r ==> IsAlnum(c)
  {
    AlphabetContents();
    var master := if IsDigit(lo) then Numeric() else Alpha();
    Substring(master, IndexOfChar(master, lo), IndexOfChar(master, hi) + 1)
  }

  /**
   * A range of two lower-case letters or two digits: `lo-hi` gives every
   * character from `lo` to `hi`; written backwards, `substring` swaps its ends
   * and only the characters strictly between `hi` and `lo` remain.
   */
  lemma RangeRunSpan(lo: char, hi: char, c: char)
    requires (IsLower(lo) && IsLower(hi)) || (IsDigit(lo) && IsDigit(hi))
    ensures c in RangeRun(lo, hi) <==> if lo <= hi then lo <= c <= hi else hi < c < lo
  {
    if IsDigit(lo) {
      assert forall k | 0 <= k < |Numeric()| :: Numeric()[k] as int == 48 + k;
      RunSpan(Numeric(), 48, lo, hi, c);
    } else {
      assert forall k | 0 <= k < |Alpha()| :: Alpha()[k] as int == 97 + k;
      RunSpan(Alpha(), 97, lo, hi, c);
    }
  }

  /** `RangeRunSpan` over one alphabet of consecutive code points. */
  lemma RunSpan(master: string, base: int, lo: char, hi: char, c: char)
    requires forall k | 0 <= k < |master| :: master[k] as int == base + k
    requires base <= lo as int < base + |master| && base <= hi as int < base + |master|
    ensures c in Substring(master, IndexOfChar(master, lo), IndexOfChar(master, hi) + 1)
      <==> if lo <= hi then lo <= c <= hi else hi < c < lo
  {
    IndexInAlphabet(master, base, lo);
    IndexInAlphabet(master, base, hi);
    var il := lo as int - base;
    var ih := hi as int - base;
    if il <= ih + 1 {
      AlphabetSlice(master, base, il, ih + 1, c);
    } else {
      AlphabetSlice(master, base, ih + 1, il, c);
    }
  }

  /** In an alphabet of consecutive code points, `indexOf` is the distance from its first character. */
  lemma IndexInAlphabet(master: string, base: int, c: char)
    requires forall k | 0 <= k < |master| :: master[k] as int == base + k
    requires base <= c as int < base + |master|
    ensures IndexOfChar(master, c) == c as int - base
  {
    assert master[c as int - base] == c;
  }

  /** A slice of an alphabet of consecutive code points holds exactly the code points in its span. */
  lemma AlphabetSlice(master: string, base: int, a: int, b: int, c: char)
    requires forall k | 0 <= k < |master| :: master[k] as int == base + k
    requires 0 <= a <= b <= |master|
    ensures c in master[a..b] <==> base + a <= c as int < base + b
  {
    if c in master[a..b] {
      var k :| 0 <= k < b - a && master[a..b][k] == c;
      assert master[a + k] == c;
    }
    if base + a <= c as int < base + b {
      assert master[a..b][c as int - base - a] == c;
    }
  }

  /** `[A-Z]` and every other upper-case range: `indexOf` finds neither end in `ALPHA`, and the run is empty. */
  lemma UpperRangeRunEmpty(lo: char, hi: char)
    requires IsUpper(lo) && IsUpper(hi)
    ensures RangeRun(lo, hi) == ""
  {
    AlphabetContents();
    assert IndexOfChar(Alpha(), lo) == -1 && IndexOfChar(Alpha(), hi) == -1;
  }

  /** When `v` holds a range, the run of the leftmost one sits in `out` right after `pool`. */
  predicate FirstRunAfter(v: string, pool: string, out: string) {
    match FindHyphen(v, 0)
    case None => true
    case Some(i) => RunAfter(pool, RangeRun(v[i], v[i + 2]), out)
  }

  /** `out` holds `run` right after `pool`. */
  predicate RunAfter(pool: string, run: string, out: string) {
    |pool| + |run| <= |out| && out[|pool|..|pool| + |run|] == run
  }

  /** The loop over `hyphened`: each leftmost range adds its run and is cut out of the value. */
  function ExpandRanges(v: string, pool: string): (r: (string, string))
    ensures forall c :: c in r.0 ==> c in pool || IsAlnum(c)
    ensures forall c :: c in r.1 ==> c in v
    ensures |pool| <= |r.0| && r.0[..|pool|] == pool
    ensures forall k: nat :: !HyphenAt(r.1, k)
    ensures forall c | c in v && !IsWordChar(c) && c != '-' :: c in r.1
    decreases |v|
  {
    match FindHyphen(v, 0)
    case None => (pool, v)
    case Some(i) =>
      var x := v[i..i + 3];
      assert OccursAt(v, x, i);
      var run := RangeRun(v[i], v[i + 2]);
      var r := ExpandRanges(ReplaceFirst(v, x), pool + run);
      ExpandStep(v, pool, i, run, r);
      r
  }

  /** The first range of `v` adds its whole run to the pool, right after what was there. */
  lemma ExpandFirstRun(v: string, pool: string)
    ensures FirstRunAfter(v, pool, ExpandRanges(v, pool).0)
  {
    if FindHyphen(v, 0).Some? {
      ExpandFirstRunAt(v, pool, FindHyphen(v, 0).value);
    }
  }

  lemma ExpandFirstRunAt(v: string, pool: string, i: nat)
    requires FindHyphen(v, 0) == Some(i)
    ensures HyphenAt(v, i)
    ensures RunAfter(pool, RangeRun(v[i], v[i + 2]), ExpandRanges(v, pool).0)
  {
    var run := RangeRun(v[i], v[i + 2]);
    var r := ExpandRanges(ReplaceFirst(v, v[i..i + 3]), pool + run);
    assert ExpandRanges(v, pool) == r;
    PrefixParts(r.0, pool, run);
  }

  /** One pass of the loop: what the rest of the loop promises for the cut value gives the promise for `v`. */
  lemma ExpandStep(v: string, pool: string, i: nat, run: string, r: (string, string))
    requires HyphenAt(v, i)
    requires forall c :: c in r.0 ==> c in pool + run || IsAlnum(c)
    requires forall c :: c in run ==> IsAlnum(c)
    requires forall c :: c in r.1 ==> c in ReplaceFirst(v, v[i..i + 3])
    requires |pool + run| <= |r.0| && r.0[..|pool + run|] == pool + run
    requires forall c | c in ReplaceFirst(v, v[i..i + 3]) && !IsWordChar(c) && c != '-' :: c in r.1
    ensures forall c :: c in r.0 ==> c in pool || IsAlnum(c)
    ensures forall c :: c in r.1 ==> c in v
    ensures |pool| <= |r.0| && r.0[..|pool|] == pool
    ensures forall c | c in v && !IsWordChar(c) && c != '-' :: c in r.1
  {
    PrefixParts(r.0, pool, run);
    RangeRemovalKeeps(v, i);
  }

  lemma PrefixParts(r: string, pool: string, run: string)
    requires |pool + run| <= |r| && r[..|pool + run|] == pool + run
    ensures |pool| <= |r| && r[..|pool|] == pool
    ensures RunAfter(pool, run, r)
  {
    assert r[..|pool|] == (pool + run)[..|pool|];
    assert r[|pool|..|pool| + |run|] == (pool + run)[|pool|..];
  }

  /** Cutting out a range keeps every character that is neither a word character nor `-`. */
  lemma RangeRemovalKeeps(v: string, i: nat)
    requires HyphenAt(v, i)
    ensures forall c | c in v && !IsWordChar(c) && c != '-' :: c in ReplaceFirst(v, v[i..i + 3])
  {
    var x := v[i..i + 3];
    assert x == [v[i], v[i + 1], v[i + 2]];
    forall c | c in v && !IsWordChar(c) && c != '-' ensures c in ReplaceFirst(v, x) {
      ReplaceFirstKeeps(v, x, c);
    }
  }

  /** `value.match(/\\\w/g)`: the non-overlapping escapes, left to right, from index `i`. */
  function Escapes(v: string, i: nat): (r: seq<string>)
    ensures forall k | 0 <= k < |r| :: |r[k]| == 2 && r[k][0] == '\\' && IsWordChar(r[k][1])
    ensures '\\' !in v ==> r == []
    decreases |v| - i
  {
    if i + 1 >= |v| then []
    else if v[i] == '\\' && IsWordChar(v[i + 1]) then [v[i..i + 2]] + Escapes(v, i + 2)
    else Escapes(v, i + 1)
  }

  /** The alphabet an escape inside a set stands for: `\w` and `\d` only. */
  function EscapeAlphabet(e: string): (r: string)
    ensures forall c :: c in r ==> IsAlnum(c)
  {
    AlphabetContents();
    if e == "\\w" then AlphaNumeric() else if e == "\\d" then Numeric() else ""
  }

  /** The loop over `specials`: each adds its alphabet and its first occurrence is cut out. */
  function ApplyEscapes(es: seq<string>, pool: string, v: string): (r: (string, string))
    ensures forall c :: c in r.0 ==> c in pool || IsAlnum(c)
    ensures forall c :: c in r.1 ==> c in v
    ensures |pool| <= |r.0| && r.0[..|pool|] == pool
    decreases |es|
  {
    if |es| == 0 then (pool, v)
    else
      var next := pool + EscapeAlphabet(es[0]);
      var r := ApplyEscapes(es[1..], next, ReplaceFirst(v, es[0]));
      assert r.0[..|next|] == next;
      assert r.0[..|pool|] == next[..|pool|];
      r
  }

  /** Every character of every escape's alphabet ends up in the pool. */
  lemma {:induction false} EscapesAddAlphabets(es: seq<string>, pool: string, v: string, k: nat, c: char)
    requires k < |es| && c in EscapeAlphabet(es[k])
    ensures c in ApplyEscapes(es, pool, v).0
    decreases |es|
  {
    var next := pool + EscapeAlphabet(es[0]);
    var r := ApplyEscapes(es[1..], next, ReplaceFirst(v, es[0]));
    assert ApplyEscapes(es, pool, v) == r;
    if k == 0 {
      assert r.0[..|next|] == next;
      assert c in r.0[..|next|];
    } else {
      assert es[1..][k - 1] == es[k];
      EscapesAddAlphabets(es[1..], next, ReplaceFirst(v, es[0]), k - 1, c);
    }
  }

  /** A character of the value that no escape contains is left in the value. */
  lemma {:induction false} EscapesKeepOthers(es: seq<string>, pool: string, v: string, c: char)
    requires c in v && forall k | 0 <= k < |es| :: c !in es[k]
    ensures c in ApplyEscapes(es, pool, v).1
    decreases |es|
  {
    if |es| > 0 {
      ReplaceFirstKeeps(v, es[0], c);
      assert forall k | 0 <= k < |es[1..]| :: es[1..][k] == es[k + 1];
      EscapesKeepOthers(es[1..], pool + EscapeAlphabet(es[0]), ReplaceFirst(v, es[0]), c);
    }
  }

  /** The string `set` that `_generate_set` draws one character from. */
  function SetPool(value: string): (pool: string)
    ensures forall c :: c in pool ==> IsAlnum(c) || c in value
  {
    var v := StripBrackets(value);
    var ranged := ExpandRanges(v, "");
    var escaped := ApplyEscapes(Escapes(v, 0), ranged.0, ranged.1);
    escaped.0 + escaped.1
  }

  /** The first range of the set contributes its whole run to the pool. */
  lemma SetPoolHasRange(value: string, i: nat, c: char)
    requires FindHyphen(StripBrackets(value), 0) == Some(i)
    requires HyphenAt(StripBrackets(value), i)
    requires c in RangeRun(StripBrackets(value)[i], StripBrackets(value)[i + 2])
    ensures c in SetPool(value)
  {
    var v := StripBrackets(value);
    var ranged := ExpandRanges(v, "");
    var escaped := ApplyEscapes(Escapes(v, 0), ranged.0, ranged.1);
    ExpandFirstRunAt(v, "", i);
    RunInPool(RangeRun(v[i], v[i + 2]), ranged.0, escaped.0, escaped.1, c);
  }

  /** A run placed at the start of the ranges' pool is still at the start of the whole pool. */
  lemma RunInPool(run: string, ranged: string, escaped: string, rest: string, c: char)
    requires RunAfter("", run, ranged) && c in run
    requires |ranged| <= |escaped| && escaped[..|ranged|] == ranged
    ensures c in escaped + rest
  {
    assert (escaped + rest)[..|run|] == run;
    assert c in (escaped + rest)[..|run|];
  }

  /** `\w` and `\d` in a set contribute their whole alphabets to the pool. */
  lemma SetPoolHasEscapes(value: string)
    ensures "\\w" in Escapes(StripBrackets(value), 0) ==> forall c | IsAlnum(c) :: c in SetPool(value)
    ensures "\\d" in Escapes(StripBrackets(value), 0) ==> forall c | IsDigit(c) :: c in SetPool(value)
  {
    var es := Escapes(StripBrackets(value), 0);
    if "\\w" in es {
      var k :| 0 <= k < |es| && es[k] == "\\w";
      forall c | IsAlnum(c) ensures c in SetPool(value) {
        AlphabetContents();
        EscapeInPool(value, k, c);
      }
    }
    if "\\d" in es {
      var k :| 0 <= k < |es| && es[k] == "\\d";
      forall c | IsDigit(c) ensures c in SetPool(value) {
        AlphabetContents();
        EscapeInPool(value, k, c);
      }
    }
  }

  lemma EscapeInPool(value: string, k: nat, c: char)
    requires k < |Escapes(StripBrackets(value), 0)| && c in EscapeAlphabet(Escapes(StripBrackets(value), 0)[k])
    ensures c in SetPool(value)
  {
    var v := StripBrackets(value);
    var ranged := ExpandRanges(v, "");
    var es := Escapes(v, 0);
    var escaped := ApplyEscapes(es, ranged.0, ranged.1);
    EscapesAddAlphabets(es, ranged.0, ranged.1, k, c);
    assert SetPool(value) == escaped.0 + escaped.1;
  }

  /** A character that takes part in no range and no escape stays in the pool as a literal. */
  lemma SetPoolKeepsLiterals(value: string)
    ensures forall c | c in StripBrackets(value) && !IsWordChar(c) && c != '-' && c != '\\' :: c in SetPool(value)
  {
    forall c | c in StripBrackets(value) && !IsWordChar(c) && c != '-' && c != '\\' ensures c in SetPool(value) {
      LiteralInPool(value, c);
    }
  }

  lemma LiteralInPool(value: string, c: char)
    requires c in StripBrackets(value) && !IsWordChar(c) && c != '-' && c != '\\'
    ensures c in SetPool(value)
  {
    var v := StripBrackets(value);
    var ranged := ExpandRanges(v, "");
    var es := Escapes(v, 0);
    NotInEscapes(es, c);
    EscapesKeepOthers(es, ranged.0, ranged.1, c);
  }

  /** A character that is neither `\\` nor a word character is part of no `\\w`-shaped escape. */
  lemma NotInEscapes(es: seq<string>, c: char)
    requires forall k | 0 <= k < |es| :: |es[k]| == 2 && es[k][0] == '\\' && IsWordChar(es[k][1])
    requires c != '\\' && !IsWordChar(c)
    ensures forall k | 0 <= k < |es| :: c !in es[k]
  {
    forall k | 0 <= k < |es| ensures c !in es[k] {
      assert es[k] == [es[k][0], es[k][1]];
    }
  }

  /** A set with no range and no escape draws from exactly its own characters. */
  lemma SetPoolOfLiterals(value: string)
    requires '-' !in StripBrackets(value) && '\\' !in StripBrackets(value)
    ensures SetPool(value) == StripBrackets(value)
  {
    var v := StripBrackets(value);
    assert FindHyphen(v, 0).None?;
    assert "" + v == v;
  }


  // ------------------------------------------------------------------
  // `_generate_quantifier`: how many repetitions a quantifier allows.
  // ------------------------------------------------------------------

  /**
   * The draw bounds of a quantifier: `*` is 0..100 and `+` is 1..100; otherwise
   * the groups of the leftmost brace match give `min = parseInt(g1) || 0` and
   * `max = parseInt(g2) || min + 100` (a `+` or `*` inside a longer value leaves
   * both groups undefined, hence 0..100).
   */
  function Repeats(v: string): (r: (nat, nat))
    ensures 1 <= r.1
  {
    if v == "*" then (0, 100)
    else if v == "+" then (1, 100)
    else
      match QuantifierMatch(v, 0)
      case Some(i) =>
        if BraceAt(v, i) then
          var a := DigitRunEnd(v, i + 1);
          var c := DigitRunEnd(v, CommaRunEnd(v, a));
          var lo := DecimalValue(v[i + 1..a]);
          var hi := DecimalValue(v[CommaRunEnd(v, a)..c]);
          (lo, if hi == 0 then lo + 100 else hi)
        else (0, 100)
      case None => (0, 100)
  }

  /**
   * Every brace quantifier `{g1,...,g2}`: the lower bound is `parseInt(g1) || 0`
   * and the upper `parseInt(g2) || min + 100`, so a missing or zero group
   * falls back. (With no comma the first group takes every digit.)
   */
  lemma BraceRepeats(g1: string, commas: string, g2: string)
    requires AllDigits(g1) && AllDigits(g2) && forall k | 0 <= k < |commas| :: commas[k] == ','
    requires commas == "" ==> g2 == ""
    ensures Repeats("{" + g1 + commas + g2 + "}")
      == (DecimalValue(g1), if DecimalValue(g2) == 0 then DecimalValue(g1) + 100 else DecimalValue(g2))
    ensures Repeats("*") == (0, 100) && Repeats("+") == (1, 100)
  {
    StarPlusRepeats();
    BraceParts(g1, commas, g2);
    BraceValue("{" + g1 + commas + g2 + "}", 1 + |g1|, 1 + |g1| + |commas|, 1 + |g1| + |commas| + |g2|);
  }

  lemma StarPlusRepeats()
    ensures Repeats("*") == (0, 100) && Repeats("+") == (1, 100)
  {
  }

  /** The parts of `{g1,...,g2}` sit where their lengths say. */
  lemma BraceParts(g1: string, commas: string, g2: string)
    requires AllDigits(g1) && AllDigits(g2) && forall k | 0 <= k < |commas| :: commas[k] == ','
    ensures var v := "{" + g1 + commas + g2 + "}";
      var a := 1 + |g1|;
      var b := a + |commas|;
      var c := b + |g2|;
      && |v| == c + 1 && v[0] == '{' && v[c] == '}'
      && v[1..a] == g1 && v[b..c] == g2
      && AllDigits(v[1..a]) && AllDigits(v[b..c]) && forall k | a <= k < b :: v[k] == ','
  {
    var v := "{" + g1 + commas + g2 + "}";
    var a := 1 + |g1|;
    var b := a + |commas|;
    assert v[1..a] == g1;
    assert v[b..b + |g2|] == g2;
    assert v[a..b] == commas;
    forall k | a <= k < b ensures v[k] == ',' {
      assert v[k] == v[a..b][k - a];
    }
  }

  /** A brace whose digit, comma and digit runs end at `a`, `b` and `c`. */
  lemma BraceValue(v: string, a: nat, b: nat, c: nat)
    requires 1 <= a <= b <= c && |v| == c + 1 && v[0] == '{' && v[c] == '}'
    requires AllDigits(v[1..a]) && AllDigits(v[b..c]) && forall k | a <= k < b :: v[k] == ','
    requires a == b ==> b == c
    ensures Repeats(v)
      == (DecimalValue(v[1..a]), if DecimalValue(v[b..c]) == 0 then DecimalValue(v[1..a]) + 100 else DecimalValue(v[b..c]))
  {
    BraceRuns(v, a, b, c);
    RepeatsOfBrace(v, a, b, c);
  }

  /** The digit, comma and digit runs of a brace end where its parts do. */
  lemma BraceRuns(v: string, a: nat, b: nat, c: nat)
    requires 1 <= a <= b <= c < |v| && v[c] == '}'
    requires AllDigits(v[1..a]) && AllDigits(v[b..c]) && forall k | a <= k < b :: v[k] == ','
    requires a == b ==> b == c
    ensures DigitRunEnd(v, 1) == a && CommaRunEnd(v, a) == b && DigitRunEnd(v, b) == c
  {
    DigitRunEndAt(v, 1, a);
    CommaRunEndAt(v, a, b);
    DigitRunEndAt(v, b, c);
  }

  lemma RepeatsOfBrace(v: string, a: nat, b: nat, c: nat)
    requires 1 <= a <= b <= c && |v| == c + 1 && v[0] == '{' && v[c] == '}'
    requires DigitRunEnd(v, 1) == a && CommaRunEnd(v, a) == b && DigitRunEnd(v, b) == c
    ensures Repeats(v)
      == (DecimalValue(v[1..a]), if DecimalValue(v[b..c]) == 0 then DecimalValue(v[1..a]) + 100 else DecimalValue(v[b..c]))
  {
    assert BraceAt(v, 0);
    assert QuantifierMatch(v, 0) == Some(0);
  }

  // ------------------------------------------------------------------
  // Generating one token.
  // ------------------------------------------------------------------

  /** The number of characters one generation of a (non-quantifier) token yields. */
  function Width(t: Token): nat {
    match t.cls
    case LiteralToken => |t.value|
    case SpecialToken => if t.value in {"\\w", "\\d", "."} then 1 else 0
    case SetToken => if |SetPool(t.value)| == 0 then 0 else 1
    case QuantifierToken => 0
  }

  /** `s` is a string one generation of `t` may yield. */
  predicate Produces(t: Token, s: string) {
    match t.cls
    case LiteralToken => s == t.value
    case SpecialToken =>
      if t.value == "\\w" || t.value == "." then |s| == 1 && IsAlnum(s[0])
      else if t.value == "\\d" then |s| == 1 && IsDigit(s[0])
      else s == ""
    case SetToken =>
      var pool := SetPool(t.value);
      if |pool| == 0 then s == "" else |s| == 1 && s[0] in pool
    case QuantifierToken => false
  }

  lemma ProducesWidth(t: Token, s: string)
    requires Produces(t, s)
    ensures |s| == Width(t)
  {
  }

  /** `_generate_literal`, `_generate_special` and `_generate_set`. */
  function GenerateToken(t: Token, rs: Entropy): (r: (string, Entropy))
    requires t.cls != QuantifierToken
    ensures Produces(t, r.0)
  {
    AlphabetContents();
    match t.cls
    case LiteralToken => (t.value, rs)
    case SpecialToken =>
      if t.value == "\\w" || t.value == "." then
        var k := Draw(0, |AlphaNumeric()| - 1, rs);
        (CharAt(AlphaNumeric(), k.0), k.1)
      else if t.value == "\\d" then
        var k := Draw(0, |Numeric()| - 1, rs);
        (CharAt(Numeric(), k.0), k.1)
      else ("", rs)
    case SetToken =>
      var pool := SetPool(t.value);
      var k := Draw(0, |pool| - 1, rs);
      (CharAt(pool, k.0), k.1)
  }

  /** `s` is `k` generations of `t` in a row. */
  ghost predicate RepeatProduces(t: Token, k: nat, s: string)
    decreases k
  {
    if k == 0 then s == ""
    else Width(t) <= |s| && Produces(t, s[..Width(t)]) && RepeatProduces(t, k - 1, s[Width(t)..])
  }

  /** The `while (repeats--)` loop: `n` fresh generations of `t`. */
  function Repeat(t: Token, n: nat, rs: Entropy): (r: (string, Entropy))
    requires t.cls != QuantifierToken
    ensures RepeatProduces(t, n, r.0)
    decreases n
  {
    if n == 0 then ("", rs)
    else
      var first := GenerateToken(t, rs);
      var more := Repeat(t, n - 1, first.1);
      ProducesWidth(t, first.0);
      assert (first.0 + more.0)[..|first.0|] == first.0;
      assert (first.0 + more.0)[|first.0|..] == more.0;
      (first.0 + more.0, more.1)
  }

  // ------------------------------------------------------------------
  // `_generate`: the whole pattern.
  // ------------------------------------------------------------------

  /**
   * What `_generate_quantifier` needs of its caller: a quantifier always has a
   * token before it, and that token is not itself a quantifier (otherwise
   * `last_token` is undefined or names a generator that returns a callback).
   */
  predicate QuantifiersBound(ts: seq<Token>) {
    forall i | 0 <= i < |ts| && ts[i].cls == QuantifierToken :: 0 < i && ts[i - 1].cls != QuantifierToken
  }

  lemma BoundTail(ts: seq<Token>, k: nat)
    requires QuantifiersBound(ts) && k <= |ts|
    requires k < |ts| ==> ts[k].cls != QuantifierToken
    ensures QuantifiersBound(ts[k..])
  {
    forall i | 0 <= i < |ts[k..]| && ts[k..][i].cls == QuantifierToken
      ensures 0 < i && ts[k..][i - 1].cls != QuantifierToken
    {
      assert ts[k..][i] == ts[k + i];
    }
  }

  /** A token directly followed by a quantifier forms one repeated unit. */
  predicate Quantified(ts: seq<Token>) {
    |ts| > 1 && ts[1].cls == QuantifierToken
  }

  /**
   * The strings a bound token sequence stands for, unit by unit: a plain
   * token yields one generation of itself; a token with a quantifier yields
   * a number of generations of itself between the quantifier's two draw
   * bounds (in either order, as `generator.number` allows).
   */
  ghost predicate InLanguage(ts: seq<Token>, s: string)
    requires QuantifiersBound(ts)
    decreases |ts|
  {
    if |ts| == 0 then s == ""
    else if Quantified(ts) then
      var b := Repeats(ts[1].value);
      BoundTail(ts, 2);
      exists k: nat, j: nat | Min(b.0, b.1) <= k <= Max(b.0, b.1) && j <= |s| ::
        RepeatProduces(ts[0], k, s[..j]) && InLanguage(ts[2..], s[j..])
    else
      BoundTail(ts, 1);
      Width(ts[0]) <= |s| && Produces(ts[0], s[..Width(ts[0])]) && InLanguage(ts[1..], s[Width(ts[0])..])
  }

  /**
   * The generator with each quantified unit produced as intended: the
   * token's own generation is drawn and discarded (so the entropy is consumed
   * in the library's order), then the repetition count, then that many fresh
   * generations of the token.
   */
  function Generate(ts: seq<Token>, rs: Entropy): (r: (string, Entropy))
    requires QuantifiersBound(ts)
    ensures InLanguage(ts, r.0)
    decreases |ts|
  {
    if |ts| == 0 then ("", rs)
    else
      var first := GenerateToken(ts[0], rs);
      if Quantified(ts) then
        var b := Repeats(ts[1].value);
        var n := Draw(b.0, b.1, first.1);
        var run := Repeat(ts[0], n.0 as nat, n.1);
        BoundTail(ts, 2);
        var rest := Generate(ts[2..], run.1);
        assert RepeatProduces(ts[0], n.0 as nat, (run.0 + rest.0)[..|run.0|]);
        assert (run.0 + rest.0)[..|run.0|] == run.0;
        assert (run.0 + rest.0)[|run.0|..] == rest.0;
        (run.0 + rest.0, rest.1)
      else
        BoundTail(ts, 1);
        var rest := Generate(ts[1..], first.1);
        ProducesWidth(ts[0], first.0);
        assert (first.0 + rest.0)[..|first.0|] == first.0;
        assert (first.0 + rest.0)[|first.0|..] == rest.0;
        (first.0 + rest.0, rest.1)
  }

  /** The generation the library evidently intends for a validation source: each quantified unit in place. */
  function IntendedString(source: string, rs: Entropy): (r: (string, Entropy))
    requires QuantifiersBound(Tokenize(source).0)
    ensures InLanguage(Tokenize(source).0, r.0)
  {
    Generate(Tokenize(source).0, rs)
  }

  /** The previous token and the string it contributed (`token.generated`). */
  datatype Emitted = Emitted(token: Token, generated: string)

  /** What `_generate_quantifier` needs of the state it runs in. */
  predicate ReadyFor(ts: seq<Token>, last: Option<Emitted>) {
    && (|ts| > 0 && ts[0].cls == QuantifierToken ==> last.Some? && last.value.token.cls != QuantifierToken)
    && forall i | 1 <= i < |ts| && ts[i].cls == QuantifierToken :: ts[i - 1].cls != QuantifierToken
  }

  /**
   * The loop of `_generate` as the library writes it: a quantifier's callback
   * receives the string so far, removes the first occurrence of the previous
   * token's output and appends `n` regenerations, and that whole result is
   * appended to the string so far again (`string += last_value = cb(string)`).
   */
  function GenerateAsWrittenFrom(ts: seq<Token>, out: string, last: Option<Emitted>, rs: Entropy): (r: (string, Entropy))
    requires ReadyFor(ts, last)
    ensures |out| <= |r.0| && r.0[..|out|] == out
    decreases |ts|
  {
    if |ts| == 0 then (out, rs)
    else if ts[0].cls == QuantifierToken then
      var prev := last.value;
      var b := Repeats(ts[0].value);
      var n := Draw(b.0, b.1, rs);
      var run := Repeat(prev.token, n.0 as nat, n.1);
      var value := ReplaceFirst(out, prev.generated) + run.0;
      ReadyForRest(ts, last, Emitted(ts[0], value));
      var r := GenerateAsWrittenFrom(ts[1..], out + value, Some(Emitted(ts[0], value)), run.1);
      PrefixOfLonger(out, value, r.0);
      r
    else
      var g := GenerateToken(ts[0], rs);
      ReadyForRest(ts, last, Emitted(ts[0], g.0));
      var r := GenerateAsWrittenFrom(ts[1..], out + g.0, Some(Emitted(ts[0], g.0)), g.1);
      PrefixOfLonger(out, g.0, r.0);
      r
  }

  /** After the first token, the rest is ready with that token as the last one emitted. */
  lemma ReadyForRest(ts: seq<Token>, last: Option<Emitted>, e: Emitted)
    requires ReadyFor(ts, last) && |ts| > 0 && e.token == ts[0]
    ensures ReadyFor(ts[1..], Some(e))
  {
    forall i | 1 <= i < |ts[1..]| && ts[1..][i].cls == QuantifierToken ensures ts[1..][i - 1].cls != QuantifierToken {
      assert ts[1..][i] == ts[i + 1] && ts[1..][i - 1] == ts[i];
    }
  }

  /** A string that extends `a + b` extends `a`. */
  lemma PrefixOfLonger(a: string, b: string, r: string)
    requires |a + b| <= |r| && r[..|a + b|] == a + b
    ensures |a| <= |r| && r[..|a|] == a
  {
    assert r[..|a|] == (a + b)[..|a|];
  }

  /** No token is a quantifier. */
  predicate Unquantified(ts: seq<Token>) {
    forall i | 0 <= i < |ts| :: ts[i].cls != QuantifierToken
  }

  /** `_generate` as written; without quantifiers it is the intended generator, and stays in the language. */
  function GenerateAsWritten(ts: seq<Token>, rs: Entropy): (r: (string, Entropy))
    requires QuantifiersBound(ts)
    ensures Unquantified(ts) ==> r == Generate(ts, rs) && InLanguage(ts, r.0)
  {
    if Unquantified(ts) then
      AsWrittenAgreesWithoutQuantifiers(ts, "", None, rs);
      assert "" + Generate(ts, rs).0 == Generate(ts, rs).0;
      GenerateAsWrittenFrom(ts, "", None, rs)
    else GenerateAsWrittenFrom(ts, "", None, rs)
  }

  /** `generator.string`: `new Lexer(source).generate()`, the library's `_generate` over the tokens. */
  function GenerateString(source: string, rs: Entropy): (r: (string, Entropy))
    requires QuantifiersBound(Tokenize(source).0)
    ensures Unquantified(Tokenize(source).0) ==> r == IntendedString(source, rs)
    ensures Unquantified(Tokenize(source).0) ==> InLanguage(Tokenize(source).0, r.0)
  {
    GenerateAsWritten(Tokenize(source).0, rs)
  }

  /** Without quantifiers the library's loop is plain concatenation, exactly `Generate`. */
  lemma {:induction false} AsWrittenAgreesWithoutQuantifiers(ts: seq<Token>, out: string, last: Option<Emitted>, rs: Entropy)
    requires forall i | 0 <= i < |ts| :: ts[i].cls != QuantifierToken
    ensures ReadyFor(ts, last) && QuantifiersBound(ts)
    ensures GenerateAsWrittenFrom(ts, out, last, rs) == (out + Generate(ts, rs).0, Generate(ts, rs).1)
    decreases |ts|
  {
    NoQuantifierReady(ts, last);
    if |ts| > 0 {
      var g := GenerateToken(ts[0], rs);
      UnquantifiedStep(ts, out, last, rs);
      var next := Some(Emitted(ts[0], g.0));
      var rest := Generate(ts[1..], g.1);
      assert GenerateAsWrittenFrom(ts[1..], out + g.0, next, g.1) == (out + g.0 + rest.0, rest.1) by {
        AsWrittenAgreesWithoutQuantifiers(ts[1..], out + g.0, next, g.1);
      }
      assert out + g.0 + rest.0 == out + (g.0 + rest.0) by {
        SeqAssoc(out, g.0, rest.0);
      }
    } else {
      assert out + "" == out;
    }
  }

  lemma SeqAssoc(a: string, b: string, c: string)
    ensures a + b + c == a + (b + c)
  {
  }

  lemma NoQuantifierReady(ts: seq<Token>, last: Option<Emitted>)
    requires forall i | 0 <= i < |ts| :: ts[i].cls != QuantifierToken
    ensures ReadyFor(ts, last) && QuantifiersBound(ts)
  {
  }

  /** One unquantified token: both generators emit it and continue with the rest. */
  lemma UnquantifiedStep(ts: seq<Token>, out: string, last: Option<Emitted>, rs: Entropy)
    requires |ts| > 0 && forall i | 0 <= i < |ts| :: ts[i].cls != QuantifierToken
    ensures ReadyFor(ts, last) && QuantifiersBound(ts) && QuantifiersBound(ts[1..])
    ensures var g := GenerateToken(ts[0], rs);
      && ReadyFor(ts[1..], Some(Emitted(ts[0], g.0)))
      && GenerateAsWrittenFrom(ts, out, last, rs) == GenerateAsWrittenFrom(ts[1..], out + g.0, Some(Emitted(ts[0], g.0)), g.1)
      && Generate(ts, rs) == (g.0 + Generate(ts[1..], g.1).0, Generate(ts[1..], g.1).1)
  {
    NoQuantifierReady(ts, last);
    NoQuantifierReady(ts[1..], Some(Emitted(ts[0], GenerateToken(ts[0], rs).0)));
    assert !Quantified(ts);
  }

  // ------------------------------------------------------------------
  // Worked examples.
  // ------------------------------------------------------------------

  /** `{m,n}` draws between m and n. */
  lemma BraceBothBounds()
    ensures Repeats("{2,5}") == (2, 5)
  {
    SpellBothBounds();
    BraceRepeats("2", ",", "5");
  }

  lemma SpellBothBounds()
    ensures "{" + "2" + "," + "5" + "}" == "{2,5}"
    ensures AllDigits("2") && AllDigits("5") && DecimalValue("2") == 2 && DecimalValue("5") == 5
  {
  }

  /** `{m}` has no upper group, so the draw runs from m to m + 100. */
  lemma BraceLoneBound()
    ensures Repeats("{3}") == (3, 103)
  {
    SpellLoneBound();
    BraceRepeats("3", "", "");
  }

  lemma SpellLoneBound()
    ensures "{" + "3" + "" + "" + "}" == "{3}"
    ensures AllDigits("3") && AllDigits("") && DecimalValue("3") == 3 && DecimalValue("") == 0
  {
  }

  /** `{,n}` starts from 0. */
  lemma BraceUpperOnly()
    ensures Repeats("{,4}") == (0, 4)
  {
    SpellUpperOnly();
    BraceRepeats("", ",", "4");
  }

  lemma SpellUpperOnly()
    ensures "{" + "" + "," + "4" + "}" == "{,4}"
    ensures AllDigits("") && AllDigits("4") && DecimalValue("") == 0 && DecimalValue("4") == 4
  {
  }

  /** A zero upper bound is falsy and also becomes m + 100. */
  lemma BraceZeroUpper()
    ensures Repeats("{2,0}") == (2, 102)
  {
    SpellZeroUpper();
    BraceRepeats("2", ",", "0");
  }

  lemma SpellZeroUpper()
    ensures "{" + "2" + "," + "0" + "}" == "{2,0}"
    ensures AllDigits("2") && AllDigits("0") && DecimalValue("2") == 2 && DecimalValue("0") == 0
  {
  }

  /** A range and an escape inside a set both expand to their alphabets. */
  lemma SetPools()
    ensures SetPool("[a-c]") == "abc"
    ensures SetPool("[\\d]") == Numeric()
  {
    RangePool();
    EscapePool();
  }

  lemma RangePool()
    ensures SetPool("[a-c]") == "abc"
  {
    assert StripBrackets("[a-c]") == "a-c";
    assert Escapes("a-c", 0) == [];
    PoolWithoutEscapes("[a-c]");
    ExpandAtoC();
    assert "abc" + "" == "abc";
  }

  /** A set without escapes draws only on its expanded ranges and leftover characters. */
  lemma PoolWithoutEscapes(value: string)
    requires Escapes(StripBrackets(value), 0) == []
    ensures SetPool(value) == ExpandRanges(StripBrackets(value), "").0 + ExpandRanges(StripBrackets(value), "").1
  {
  }

  lemma ExpandAtoC()
    ensures ExpandRanges("a-c", "") == ("abc", "")
  {
    HyphenAtoC();
    RunAtoC();
    assert "" + "abc" == "abc";
  }

  lemma HyphenAtoC()
    ensures FindHyphen("a-c", 0) == Some(0) && "a-c"[0..3] == "a-c"
    ensures ReplaceFirst("a-c", "a-c") == "" && ExpandRanges("", "abc") == ("abc", "")
  {
    assert FindHyphen("a-c", 0) == Some(0);
  }

  lemma RunAtoC()
    ensures RangeRun('a', 'c') == "abc"
  {
    assert Alpha()[0] == 'a' && Alpha()[2] == 'c';
    assert IndexOfChar(Alpha(), 'a') == 0;
    assert IndexOfChar(Alpha(), 'c') == 2;
    assert Alpha()[0..3] == "abc";
  }

  lemma EscapePool()
    ensures SetPool("[\\d]") == Numeric()
  {
    assert StripBrackets("[\\d]") == "\\d";
    assert FindHyphen("\\d", 0) == None;
    assert "\\d"[0..2] == "\\d";
    assert Escapes("\\d", 0) == ["\\d"];
    assert ReplaceFirst("\\d", "\\d") == "";
  }

  lemma ClassifyLetter()
    ensures Classify("a") == Some(LiteralToken)
  {
    assert !HasSetFrom("a", 0);
    assert QuantifierMatch("a", 0) == None;
  }

  /** No proper prefix of `{2,2}` is a token: the brace is still open. */
  lemma OpenBracePending()
    ensures Pending("{2,2")
  {
    var b := "{2,2";
    OpenBraceShort();
    OpenBraceLong();
    forall j | 0 < j <= |b| ensures Classify(b[..j]).None? {
      if j == 1 { assert b[..j] == "{"; }
      else if j == 2 { assert b[..j] == "{2"; }
      else if j == 3 { assert b[..j] == "{2,"; }
      else { assert b[..j] == b; }
    }
  }

  lemma OpenBraceShort()
    ensures Classify("{").None? && Classify("{2").None?
  {
    OpenBrace("{", 1, 1, 1);
    OpenBrace("{2", 2, 2, 2);
  }

  lemma OpenBraceLong()
    ensures Classify("{2,").None? && Classify("{2,2").None?
  {
    OpenBrace("{2,", 2, 3, 3);
    OpenBrace("{2,2", 2, 3, 4);
  }

  /** A `{` whose digit, comma and digit runs reach the end of the buffer is not a token yet. */
  lemma OpenBrace(b: string, a: nat, c: nat, d: nat)
    requires |b| > 0 && b[0] == '{' && forall k | 1 <= k < |b| :: b[k] == ',' || IsDigit(b[k])
    requires 1 <= a <= |b| && DigitRunEnd(b, 1) == a && CommaRunEnd(b, a) == c && DigitRunEnd(b, c) == d == |b|
    ensures Classify(b).None?
  {
    assert forall i | 0 <= i < |b| :: !SetAt(b, i);
    assert forall i | 0 <= i <= |b| :: !HasSetFrom(b, i) by {
      forall i | 0 <= i <= |b| ensures !HasSetFrom(b, i) {
        HasSetFromNone(b, i);
      }
    }
    assert forall i | 1 <= i < |b| :: !QuantifierAt(b, i);
    assert !QuantifierAt(b, 0);
  }

  lemma {:induction false} HasSetFromNone(b: string, i: nat)
    requires forall k | i <= k < |b| :: !SetAt(b, k)
    ensures !HasSetFrom(b, i)
    decreases |b| - i
  {
    if i < |b| {
      HasSetFromNone(b, i + 1);
    }
  }

  lemma ClassifyBrace()
    ensures Classify("{2,2}") == Some(QuantifierToken)
  {
    var b := "{2,2}";
    assert !HasSetFrom(b, 0);
    assert DigitRunEnd(b, 1) == 2 && CommaRunEnd(b, 2) == 3 && DigitRunEnd(b, 3) == 4;
    assert BraceAt(b, 0);
  }

  /** `a{2,2}` is a literal followed by a quantifier. */
  lemma TokenizeRepeat()
    ensures Tokenize("a{2,2}") == ([Token(LiteralToken, "a"), Token(QuantifierToken, "{2,2}")], "")
  {
    RepeatTokenization();
    TokenizationUnique("a{2,2}", Tokenize("a{2,2}").0, Tokenize("a{2,2}").1, TwoLetters(), "");
  }

  lemma RepeatTokenization()
    ensures IsTokenization("a{2,2}", TwoLetters(), "")
  {
    LetterCut();
    BraceCut();
    SpellRepeat();
    PairTokenization(Token(LiteralToken, "a"), Token(QuantifierToken, "{2,2}"));
  }

  lemma SpellRepeat()
    ensures "a" + "{2,2}" == "a{2,2}"
  {
  }

  /** Two well-cut tokens, nothing left over, are a tokenization of their texts. */
  lemma PairTokenization(t1: Token, t2: Token)
    requires WellCut(t1) && WellCut(t2)
    ensures IsTokenization(t1.value + t2.value, [t1, t2], "")
  {
    assert Concat([t1, t2]) == t1.value + Concat([t2]);
    assert Concat([t2]) == t2.value + Concat([]);
    assert t1.value + t2.value + "" == t1.value + t2.value;
  }

  lemma LetterCut()
    ensures WellCut(Token(LiteralToken, "a"))
  {
    ClassifyLetter();
  }

  lemma BraceCut()
    ensures WellCut(Token(QuantifierToken, "{2,2}"))
  {
    OpenBracePending();
    ClassifyBrace();
    assert "{2,2}"[..4] == "{2,2";
  }

  lemma BraceExact()
    ensures Repeats("{2,2}") == (2, 2)
  {
    var v := "{2,2}";
    assert DigitRunEnd(v, 1) == 2 && CommaRunEnd(v, 2) == 3 && DigitRunEnd(v, 3) == 4;
    assert QuantifierMatch(v, 0) == Some(0);
    assert v[1..2] == "2" && v[3..4] == "2";
    assert DecimalValue("2") == 2;
  }

  lemma RepeatLetterTwice(rs: Entropy)
    ensures Repeat(Token(LiteralToken, "a"), 2, rs).0 == "aa"
  {
    var t := Token(LiteralToken, "a");
    assert Repeat(t, 0, rs).0 == "";
    assert Repeat(t, 1, rs).0 == "a";
  }

  /** The token sequence of `a{2,2}`. */
  function TwoLetters(): seq<Token> {
    [Token(LiteralToken, "a"), Token(QuantifierToken, "{2,2}")]
  }

  /**
   * A quantifier at the end of the library's loop: the string so far is kept,
   * and the callback's result, which again starts from the string so far
   * (less the previous token's output), is appended to it.
   */
  lemma {:induction false} AsWrittenQuantifierStep(out: string, prev: Emitted, q: Token, rs: Entropy)
    requires q.cls == QuantifierToken && prev.token.cls != QuantifierToken
    ensures ReadyFor([q], Some(prev))
    ensures var b := Repeats(q.value);
      var n := Draw(b.0, b.1, rs);
      GenerateAsWrittenFrom([q], out, Some(prev), rs).0
        == out + ReplaceFirst(out, prev.generated) + Repeat(prev.token, n.0 as nat, n.1).0
  {
    var b := Repeats(q.value);
    var n := Draw(b.0, b.1, rs);
    var run := Repeat(prev.token, n.0 as nat, n.1);
    var value := ReplaceFirst(out, prev.generated) + run.0;
    assert [q][1..] == [];
    assert GenerateAsWrittenFrom([q], out, Some(prev), rs)
        == GenerateAsWrittenFrom([], out + value, Some(Emitted(q, value)), run.1);
    SeqAssoc(out, ReplaceFirst(out, prev.generated), run.0);
  }

  /**
   * So `a{2,2}` yields `aaa`: the callback returns `"" + "aa"` and that is
   * appended to `"a"`.
   */
  lemma RepeatedPrefix(rs: Entropy)
    ensures QuantifiersBound(TwoLetters()) && GenerateAsWritten(TwoLetters(), rs).0 == "aaa"
  {
    var t := Token(LiteralToken, "a");
    var q := Token(QuantifierToken, "{2,2}");
    LetterFirst(rs);
    AsWrittenQuantifierStep("a", Emitted(t, "a"), q, rs);
    BraceExact();
    RepeatLetterTwice(Draw(2, 2, rs).1);
    RemoveLetter();
    SpellThree();
  }

  lemma RemoveLetter()
    ensures ReplaceFirst("a", "a") == ""
  {
    assert OccursAt("a", "a", 0);
  }

  lemma SpellThree()
    ensures "a" + "" + "aa" == "aaa"
  {
  }

  /** So the library stubs `string (a{2,2})` with `aaa`, where the intended generation is `aa`. */
  lemma RepeatedPrefixString(rs: Entropy)
    ensures QuantifiersBound(Tokenize("a{2,2}").0)
    ensures GenerateString("a{2,2}", rs).0 == "aaa"
    ensures IntendedString("a{2,2}", rs).0 == "aa"
  {
    TokenizeRepeat();
    RepeatedPrefix(rs);
    IntendedRepeat(rs);
  }

  /** `[A-Z]`: no run for the range, nothing else in the set, so one generation yields "". */
  lemma UpperSetYieldsNothing(rs: Entropy)
    ensures SetPool("[A-Z]") == ""
    ensures GenerateToken(Token(SetToken, "[A-Z]"), rs).0 == ""
  {
    assert StripBrackets("[A-Z]") == "A-Z";
    assert HyphenAt("A-Z", 0);
    assert FindHyphen("A-Z", 0) == Some(0);
    assert "A-Z"[0..3] == "A-Z";
    assert ReplaceFirst("A-Z", "A-Z") == "" by {
      assert OccursAt("A-Z", "A-Z", 0);
    }
    UpperRangeRunEmpty('A', 'Z');
    assert Escapes("A-Z", 0) == [];
  }

  /** The literal of `a{2,2}` is written as is before the quantifier runs. */
  lemma LetterFirst(rs: Entropy)
    ensures QuantifiersBound(TwoLetters())
    ensures GenerateAsWritten(TwoLetters(), rs)
      == GenerateAsWrittenFrom([Token(QuantifierToken, "{2,2}")], "a", Some(Emitted(Token(LiteralToken, "a"), "a")), rs)
  {
    var ts := TwoLetters();
    TwoLettersBound();
    AsWrittenStart(ts, rs);
    AsWrittenTokenStep(ts, "", None, rs);
    LiteralEmitsItself(rs);
    assert ts[1..] == [Token(QuantifierToken, "{2,2}")];
    assert "" + "a" == "a";
  }

  lemma TwoLettersBound()
    ensures QuantifiersBound(TwoLetters()) && !Unquantified(TwoLetters())
  {
    assert TwoLetters()[1].cls == QuantifierToken;
  }

  /** With a quantifier in it, the library's loop starts from the empty string and no previous token. */
  lemma AsWrittenStart(ts: seq<Token>, rs: Entropy)
    requires QuantifiersBound(ts) && !Unquantified(ts)
    ensures ReadyFor(ts, None) && GenerateAsWritten(ts, rs) == GenerateAsWrittenFrom(ts, "", None, rs)
  {
  }

  /** A token that is not a quantifier is generated and appended; it becomes the previous token. */
  lemma AsWrittenTokenStep(ts: seq<Token>, out: string, last: Option<Emitted>, rs: Entropy)
    requires |ts| > 0 && ts[0].cls != QuantifierToken && ReadyFor(ts, last)
    ensures var g := GenerateToken(ts[0], rs);
      && ReadyFor(ts[1..], Some(Emitted(ts[0], g.0)))
      && GenerateAsWrittenFrom(ts, out, last, rs) == GenerateAsWrittenFrom(ts[1..], out + g.0, Some(Emitted(ts[0], g.0)), g.1)
  {
  }

  lemma LiteralEmitsItself(rs: Entropy)
    ensures GenerateToken(Token(LiteralToken, "a"), rs) == ("a", rs)
  {
  }

  /** The intended generation of `a{2,2}` is `aa`, whatever the entropy. */
  lemma IntendedRepeat(rs: Entropy)
    ensures QuantifiersBound(TwoLetters()) && Generate(TwoLetters(), rs).0 == "aa"
  {
    var ts := TwoLetters();
    BraceExact();
    var first := GenerateToken(ts[0], rs);
    var n := Draw(2, 2, first.1);
    RepeatLetterTwice(n.1);
    assert Generate(ts[2..], Repeat(ts[0], 2, n.1).1).0 == "";
  }

  /** `aaa` is not a string of `a{2,2}`: exactly two generations of `a` are allowed. */
  lemma RepeatedPrefixOutsideLanguage()
    ensures QuantifiersBound(TwoLetters()) && !InLanguage(TwoLetters(), "aaa")
  {
    if InLanguage(TwoLetters(), "aaa") {
      TwoLettersLength("aaa");
    }
  }

  /** Every string of `a{2,2}` has length two. */
  lemma TwoLettersLength(s: string)
    requires QuantifiersBound(TwoLetters()) && InLanguage(TwoLetters(), s)
    ensures |s| == 2
  {
    var ts := TwoLetters();
    BraceExact();
    var k: nat, j: nat :| 2 <= k <= 2 && j <= |s| && RepeatProduces(ts[0], k, s[..j]) && InLanguage(ts[2..], s[j..]);
    RepeatLength(ts[0], k, s[..j]);
    assert ts[2..] == [];
  }

  lemma {:induction false} RepeatLength(t: Token, k: nat, s: string)
    requires RepeatProduces(t, k, s)
    ensures |s| == k * Width(t)
    decreases k
  {
    if k > 0 {
      RepeatLength(t, k - 1, s[Width(t)..]);
    }
  }

  // ------------------------------------------------------------------
  // The default validation `.+`.
  // ------------------------------------------------------------------

  /** The token sequence of `.+`: the special `.` followed by the quantifier `+`. */
  function DotPlus(): seq<Token> {
    [Token(SpecialToken, "."), Token(QuantifierToken, "+")]
  }

  lemma ClassifyDot()
    ensures Classify(".") == Some(SpecialToken)
  {
    assert !HasSetFrom(".", 0);
    assert QuantifierMatch(".", 0) == None;
  }

  lemma ClassifyPlus()
    ensures Classify("+") == Some(QuantifierToken)
  {
    assert !HasSetFrom("+", 0);
    assert QuantifierAt("+", 0);
  }

  lemma DotPlusCuts()
    ensures WellCut(Token(SpecialToken, ".")) && WellCut(Token(QuantifierToken, "+"))
    ensures "." + "+" == ".+"
  {
    ClassifyDot();
    ClassifyPlus();
  }

  /** `.+` tokenizes to `.` and `+`, with nothing left over. */
  lemma TokenizeDotPlus()
    ensures Tokenize(".+") == (DotPlus(), "")
  {
    DotPlusCuts();
    PairTokenization(Token(SpecialToken, "."), Token(QuantifierToken, "+"));
    TokenizationUnique(".+", Tokenize(".+").0, Tokenize(".+").1, DotPlus(), "");
  }

  /**
   * The library's loop on a token followed by a quantifier: the token's output
   * `g`, then `g` less its own first occurrence, then the regenerations.
   */
  lemma AsWrittenPair(t: Token, q: Token, rs: Entropy)
    requires t.cls != QuantifierToken && q.cls == QuantifierToken
    ensures QuantifiersBound([t, q])
    ensures var g := GenerateToken(t, rs);
      var b := Repeats(q.value);
      var n := Draw(b.0, b.1, g.1);
      GenerateAsWritten([t, q], rs).0 == g.0 + ReplaceFirst(g.0, g.0) + Repeat(t, n.0 as nat, n.1).0
  {
    var ts := [t, q];
    assert ts[1].cls == QuantifierToken;
    AsWrittenStart(ts, rs);
    AsWrittenTokenStep(ts, "", None, rs);
    var g := GenerateToken(t, rs);
    assert ts[1..] == [q];
    assert "" + g.0 == g.0;
    AsWrittenQuantifierStep(g.0, Emitted(t, g.0), q, g.1);
  }

  /** Every generation of `.` is one letter or digit. */
  lemma {:induction false} RepeatDotAlnum(k: nat, s: string)
    requires RepeatProduces(Token(SpecialToken, "."), k, s)
    ensures forall i | 0 <= i < |s| :: IsAlnum(s[i])
    decreases k
  {
    if k > 0 {
      var t := Token(SpecialToken, ".");
      assert Width(t) == 1;
      RepeatDotAlnum(k - 1, s[1..]);
      forall i | 0 <= i < |s| ensures IsAlnum(s[i]) {
        if i > 0 {
          assert s[i] == s[1..][i - 1];
        } else {
          assert s[..1][0] == s[0];
        }
      }
    }
  }

  /**
   * `generator.string('.+')`, the default validation of a string rule, as the
   * library writes it: one letter or digit, then `+` draws 1 to 100 further
   * generations of `.` (the first output is removed from the copy, so none is
   * doubled). Every such string is non-empty and made of letters and digits.
   */
  lemma DefaultPatternString(rs: Entropy)
    ensures QuantifiersBound(Tokenize(".+").0)
    ensures var s := GenerateString(".+", rs).0;
      2 <= |s| <= 101 && forall i | 0 <= i < |s| :: IsAlnum(s[i])
  {
    var dot := Token(SpecialToken, ".");
    TokenizeDotPlus();
    AsWrittenPair(dot, Token(QuantifierToken, "+"), rs);
    var g := GenerateToken(dot, rs);
    StarPlusRepeats();
    var n := Draw(1, 100, g.1);
    var run := Repeat(dot, n.0 as nat, n.1).0;
    RepeatLength(dot, n.0 as nat, run);
    RepeatDotAlnum(n.0 as nat, run);
    ReplaceSelf(g.0);
    DotPlusParts(g.0, run);
  }

  lemma DotPlusParts(g: string, run: string)
    requires |g| == 1 && IsAlnum(g[0]) && 1 <= |run| <= 100
    requires forall i | 0 <= i < |run| :: IsAlnum(run[i])
    ensures var s := g + "" + run;
      2 <= |s| <= 101 && forall i | 0 <= i < |s| :: IsAlnum(s[i])
  {
    var s := g + "" + run;
    forall i | 0 <= i < |s| ensures IsAlnum(s[i]) {
      if i > 0 {
        assert s[i] == run[i - 1];
      }
    }
  }
}
