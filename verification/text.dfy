/**
 * Character classes and string operations with the meaning they have in
 * JavaScript: the `\w`, `\d`, `\s` and `.` classes of a regular expression
 * without flags, and `indexOf`, `replace` (first occurrence), `substring`,
 * `charAt`, `parseInt(_, 10)` on digit strings and `join`.
 */
module Text {
  import opened Wrappers

  predicate IsDigit(c: char) { '0' <= c <= '9' }

  predicate IsLower(c: char) { 'a' <= c <= 'z' }

  predicate IsUpper(c: char) { 'A' <= c <= 'Z' }

  predicate IsAlnum(c: char) { IsLower(c) || IsUpper(c) || IsDigit(c) }

  /** `\w`: ASCII letters, digits and the underscore. */
  predicate IsWordChar(c: char) { IsAlnum(c) || c == '_' }

  /** `\s`: the white space and line terminator code points of ECMAScript. */
  predicate IsSpace(c: char) {
    var n := c as int;
    (0x09 <= n <= 0x0D) || n == 0x20 || n == 0xA0 || n == 0x1680
    || (0x2000 <= n <= 0x200A) || n == 0x2028 || n == 0x2029
    || n == 0x202F || n == 0x205F || n == 0x3000 || n == 0xFEFF
  }

  /** The characters `.` does not match. */
  predicate IsLineTerminator(c: char) {
    var n := c as int;
    n == 0x0A || n == 0x0D || n == 0x2028 || n == 0x2029
  }

  /** The library's `ALPHA`, `NUMERIC` and `ALPHA_NUMERIC` alphabets. */
  function Alpha(): string { seq(26, i requires 0 <= i < 26 => (97 + i) as char) }
  function UpperAlpha(): string { seq(26, i requires 0 <= i < 26 => (65 + i) as char) }
  function Numeric(): string { seq(10, i requires 0 <= i < 10 => (48 + i) as char) }
  function AlphaNumeric(): string { Alpha() + UpperAlpha() + Numeric() }

  lemma AlphabetContents()
    ensures |Alpha()| == 26 && |Numeric()| == 10 && |AlphaNumeric()| == 62
    ensures forall c :: c in Alpha() <==> IsLower(c)
    ensures forall c :: c in Numeric() <==> IsDigit(c)
    ensures forall c :: c in AlphaNumeric() <==> IsAlnum(c)
  {
    forall c | IsLower(c) ensures c in Alpha() {
      assert Alpha()[c as int - 97] == c;
    }
    forall c | IsUpper(c) ensures c in UpperAlpha() {
      assert UpperAlpha()[c as int - 65] == c;
    }
    forall c | IsDigit(c) ensures c in Numeric() {
      assert Numeric()[c as int - 48] == c;
    }
  }

  /** `x` occurs in `s` starting at index `k`. */
  predicate OccursAt(s: string, x: string, k: nat) {
    k + |x| <= |s| && s[k..k + |x|] == x
  }

  /** `s.indexOf(x, from)`, with `None` for -1. */
  function IndexOf(s: string, x: string, from: nat): (r: Option<nat>)
    ensures r.Some? ==> from <= r.value && OccursAt(s, x, r.value)
    ensures r.Some? ==> forall k | from <= k < r.value :: !OccursAt(s, x, k)
    ensures r.None? ==> forall k | from <= k :: !OccursAt(s, x, k)
    decreases |s| - from
  {
    if from + |x| > |s| then None
    else if OccursAt(s, x, from) then Some(from)
    else IndexOf(s, x, from + 1)
  }

  predicate Contains(s: string, x: string) {
    IndexOf(s, x, 0).Some?
  }

  lemma ContainsIff(s: string, x: string)
    ensures Contains(s, x) <==> exists k: nat :: OccursAt(s, x, k)
  {
    if Contains(s, x) {
      assert OccursAt(s, x, IndexOf(s, x, 0).value);
    }
  }

  /** `s.replace(x, '')` for a string `x`: the first occurrence of `x` is removed. */
  function ReplaceFirst(s: string, x: string): (r: string)
    ensures forall c :: c in r ==> c in s
    ensures (forall k: nat :: !OccursAt(s, x, k)) ==> r == s
    ensures (exists k: nat :: OccursAt(s, x, k)) ==> |r| == |s| - |x|
  {
    match IndexOf(s, x, 0)
    case None => s
    case Some(i) =>
      assert forall c :: c in s[..i] + s[i + |x|..] ==> c in s by {
        forall c | c in s[..i] + s[i + |x|..] ensures c in s {
          if c in s[..i] {
            var k :| 0 <= k < i && s[..i][k] == c;
            assert s[k] == c;
          } else {
            var k :| 0 <= k < |s| - i - |x| && s[i + |x|..][k] == c;
            assert s[i + |x| + k] == c;
          }
        }
      }
      s[..i] + s[i + |x|..]
  }

  /** It is the first occurrence that goes: `s` is cut at the least `k` where `x` occurs. */
  lemma ReplaceFirstAt(s: string, x: string, k: nat)
    requires OccursAt(s, x, k) && forall j | 0 <= j < k :: !OccursAt(s, x, j)
    ensures ReplaceFirst(s, x) == s[..k] + s[k + |x|..]
  {
    var i := IndexOf(s, x, 0).value;
    assert i == k;
  }

  /** Removing a string from itself leaves nothing. */
  lemma ReplaceSelf(s: string)
    ensures ReplaceFirst(s, s) == ""
  {
    ReplaceFirstAt(s, s, 0);
  }

  /** A character that `x` does not contain survives the removal of `x`. */
  lemma ReplaceFirstKeeps(s: string, x: string, c: char)
    requires c in s && c !in x
    ensures c in ReplaceFirst(s, x)
  {
    match IndexOf(s, x, 0)
    case None =>
    case Some(i) =>
      var p :| 0 <= p < |s| && s[p] == c;
      if p < i {
        assert s[..i][p] == c;
      } else if p >= i + |x| {
        assert s[i + |x|..][p - i - |x|] == c;
      }
  }

  /** `s.substring(a, b)`: both ends clamped to `[0, |s|]`, swapped when reversed. */
  function Substring(s: string, a: int, b: int): (r: string)
    ensures forall c :: c in r ==> c in s
    ensures 0 <= a <= b <= |s| ==> r == s[a..b]
    ensures 0 <= b <= a <= |s| ==> r == s[b..a]
    ensures a <= 0 && 0 <= b <= |s| ==> r == s[..b]
    ensures b <= 0 && 0 <= a <= |s| ==> r == s[..a]
    ensures 0 <= a <= |s| <= b ==> r == s[a..]
    ensures 0 <= b <= |s| <= a ==> r == s[b..]
    ensures (a <= 0 && b <= 0) || (a >= |s| && b >= |s|) ==> r == ""
    ensures (a <= 0 && b >= |s|) || (b <= 0 && a >= |s|) ==> r == s
  {
    var a' := if a < 0 then 0 else if a > |s| then |s| else a;
    var b' := if b < 0 then 0 else if b > |s| then |s| else b;
    var lo := if a' <= b' then a' else b';
    var hi := if a' <= b' then b' else a';
    assert forall c :: c in s[lo..hi] ==> c in s by {
      forall c | c in s[lo..hi] ensures c in s {
        var k :| 0 <= k < hi - lo && s[lo..hi][k] == c;
        assert s[lo + k] == c;
      }
    }
    s[lo..hi]
  }

  /** `s.charAt(i)`: the one-character string at `i`, or "" out of range. */
  function CharAt(s: string, i: int): (r: string)
    ensures 0 <= i < |s| ==> r == [s[i]]
    ensures !(0 <= i < |s|) ==> r == ""
  {
    if 0 <= i < |s| then [s[i]] else ""
  }

  /** `s.indexOf(c)` for one character, -1 when absent. */
  function IndexOfChar(s: string, c: char): (r: int)
    ensures -1 <= r < |s|
    ensures r >= 0 ==> s[r] == c && forall k | 0 <= k < r :: s[k] != c
    ensures r == -1 ==> c !in s
  {
    if |s| == 0 then -1
    else if s[0] == c then 0
    else var k := IndexOfChar(s[1..], c); if k == -1 then -1 else k + 1
  }

  predicate AllDigits(s: string) {
    forall k | 0 <= k < |s| :: IsDigit(s[k])
  }

  /** `parseInt(s, 10)` for a non-empty string of decimal digits. */
  function DecimalValue(s: string): nat
    requires AllDigits(s)
  {
    if |s| == 0 then 0 else 10 * DecimalValue(s[..|s| - 1]) + (s[|s| - 1] as int - '0' as int)
  }

  /** The least index at or after `k` whose character is not a digit, or `|s|`. */
  function DigitRunEnd(s: string, k: nat): (r: nat)
    requires k <= |s|
    ensures k <= r <= |s| && AllDigits(s[k..r])
    ensures r < |s| ==> !IsDigit(s[r])
    decreases |s| - k
  {
    if k < |s| && IsDigit(s[k]) then DigitRunEnd(s, k + 1) else k
  }

  /** A digit run that reaches `m` and stops there ends at `m`. */
  lemma {:induction false} DigitRunEndAt(s: string, k: nat, m: nat)
    requires k <= m <= |s| && AllDigits(s[k..m]) && (m < |s| ==> !IsDigit(s[m]))
    ensures DigitRunEnd(s, k) == m
    decreases m - k
  {
    if k < m {
      assert IsDigit(s[k..m][0]);
      assert s[k + 1..m] == s[k..m][1..];
      DigitRunEndAt(s, k + 1, m);
    }
  }

  /** The least index at or after `k` whose character is not a comma, or `|s|`. */
  function CommaRunEnd(s: string, k: nat): (r: nat)
    requires k <= |s|
    ensures k <= r <= |s| && forall j | k <= j < r :: s[j] == ','
    ensures r < |s| ==> s[r] != ','
    decreases |s| - k
  {
    if k < |s| && s[k] == ',' then CommaRunEnd(s, k + 1) else k
  }

  /** A comma run that reaches `m` and stops there ends at `m`. */
  lemma {:induction false} CommaRunEndAt(s: string, k: nat, m: nat)
    requires k <= m <= |s| && (forall j | k <= j < m :: s[j] == ',') && (m < |s| ==> s[m] != ',')
    ensures CommaRunEnd(s, k) == m
    decreases m - k
  {
    if k < m {
      CommaRunEndAt(s, k + 1, m);
    }
  }

  /** `parts.join(sep)`. */
  function Join(parts: seq<string>, sep: string): string {
    if |parts| == 0 then ""
    else if |parts| == 1 then parts[0]
    else parts[0] + sep + Join(parts[1..], sep)
  }
}
