# JSONEnforcer in Dafny

A Dafny model of `lib/json_enforcer.js`, a small JSON schema interpreter. A
template is a nested object whose leaves are rule strings such as
`"number optional (1,3)"` or `"string (\d+)"`. The library offers three things
on a template:

- It **populates** the template into a tree of parsed rules (`Rules`,
  `Rules.populate`).
- It **enforces** the template on data: a walk that records one error, tagged
  with its key path, per failed check (`Template.enforce`).
- It **stubs** sample data for the template (`Stub.generate`). Strings are
  produced by a small pattern **lexer** that tokenizes a rule's validation
  source and generates a string token by token. The stub runs that generator
  as the library writes it (`Lexer.GenerateString`); the corrected generator
  (`Lexer.Generate`) defines the language a source describes.

The modules follow the library's structure:

| module | models |
|---|---|
| `Wrappers` | `Option` |
| `Text` | the string primitives the library calls (`indexOf`, `replace`, `substring`, `charAt`, digit runs) and its alphabets |
| `Random` | `Math.random` as a stream of naturals: `Draw(lo, hi, rs)` is `generator.number` |
| `Values` | JavaScript values as read from templates and data, with truthiness and property lookup |
| `Rules` | the `Rules` constructor: kind, `optional`, validation source, range |
| `Schema` | `Rules.populate` / `_populate_property` and `util.is_optional` |
| `Lexer` | `Lexer`: `_tokenize`, `_generate` and the `_generate_*` token generators |
| `Validator` | `Template`: `enforce`, `_error` and the `_enforce_*` walk |
| `Stub` | `Stub`: `generate` and the `_generate_*` value generators |
| `RoundTrip` | how stubs relate to validation |

Modelling choices:

- **Values and trees.** Objects are ordered `(key, value)` sequences in
  `for..in` order. Numbers are integers. `NaN` is a value of its own, because
  `parseInt('')` produces it.
- **Holes.** A populated template node is a `Hole` (the `undefined` that
  `_populate_property` returns for non-schema values and for `[]`), a `Leaf`
  rule, a `List` of element 0, or an `Object`.
- **Randomness.** `Math.random` is an explicit entropy stream. `Draw(lo, hi)`
  yields any integer between the two bounds, in either order, which is the
  range of `Math.round(Math.random() * (max - min) + min)`.
- **The regular-expression engine.** `validation.test(value.toString())` is a
  `Matcher` parameter of the validator. The round trip states what it needs
  of that matcher: on each validation source of the template at hand, it must
  accept every string `generator.string` can produce for that source
  (`RoundTrip.AcceptsStubStrings`). The default `.+` meets this under any
  engine that accepts non-empty strings without line terminators
  (`RoundTrip.DefaultPatternAccepted`).
- **The four token regexes.** The lexer's regexes are string predicates:
  - the set regex `\[[\w\d\s\-\\]+\]` and the quantifier regex are unanchored
    scans;
  - the special and literal regexes are whole-buffer tests.
- **Mutable state.** The `log` and `object_stack` push/pop pairs are always
  balanced, so they become a `path` parameter. The `errors` array is the
  `errors` field of a `Template` value threaded through `Enforce`.

Where the library's documented behaviour and its code differ, the model
follows the code:

- **`{m}` quantifier.** It draws from m..m + 100, because its missing upper
  group is falsy. A zero upper bound (`{m,0}`) does the same.
- **Range side left empty.** `number (,5)` yields `NaN` for the empty side,
  not a default. A stub for such a rule is `NaN`, and `Math.random` is still
  consumed.
- **Quantifier output.** At a quantifier, the library appends, after the
  string so far, a copy of that string with the first occurrence of the
  previous token's output removed, followed by `n` fresh generations of the
  previous token (finding 1). Stubs inherit this: `string (a{2,2})` stubs
  `aaa`, and the default `.+` yields 2 to 101 letters and digits.
- **Upper-case ranges.** A set range picks its master alphabet from the lower
  bound: letters are looked up in the lower-case alphabet only, so `[A-Z]`
  yields an empty pool and its token generates nothing.
- **Stale errors.** `enforce` keeps errors from earlier calls (finding 2).
- **Falsy stub values.** A falsy scalar (`0`, `""`, `NaN`) generated under a
  required node fails validation of its own template, because the enforcer
  reads a falsy value as missing. `RoundTrip.ZeroStubRejected` shows one. Under
  an optional node the falsy value is skipped and passes: the template
  `{ n: 'number optional (0,0)' }` can stub `{ n: 0 }`, which validates.
- **`array` and `object` rule leaves.** The stub generator gives `[]` for an
  `array` leaf (a rule has no element 0). It gives `{}` for an `object` leaf,
  because the keys `for..in` visits on a rule all generate `undefined`.

## Model

| member | source | states |
|---|---|---|
| Random.Draw | lib/json_enforcer.js:81-85 | The number drawn lies between the two bounds, in either order, and within `[lo, hi]` when `lo <= hi`. Each draw consumes one `Math.random` call. |
| Random.DrawCanYieldAny | lib/json_enforcer.js:84 | Every integer between the bounds is the draw of some entropy stream, so the integer oracle does not narrow the scaled-and-rounded random number. |
| Text.AlphabetContents | lib/json_enforcer.js:31-34 | `ALPHA` holds exactly the 26 lower-case letters and `NUMERIC` exactly the 10 digits. `ALPHA_NUMERIC` holds exactly the 62 ASCII letters and digits. |
| Text.ReplaceFirst | lib/json_enforcer.js:185 | A string `replace` with `''` keeps the text unchanged when the searched string is absent, and otherwise shortens it by exactly that string's length. It never introduces characters. |
| Text.ReplaceFirstAt | lib/json_enforcer.js:185 | The occurrence removed is the first one: when `x` first occurs at `k`, the result is the text before `k` followed by the text after that occurrence. |
| Text.ReplaceSelf | lib/json_enforcer.js:215 | Removing a string from itself leaves the empty string. |
| Text.ReplaceFirstKeeps | lib/json_enforcer.js:201 | A character that does not occur in the removed string survives the removal. |
| Text.Substring | lib/json_enforcer.js:183 | `substring` swaps reversed ends and clamps ends below 0 or above the length. It then yields the slice between them, and only characters of the master string. |
| Text.IndexOfChar | lib/json_enforcer.js:183 | `indexOf` of a character gives -1 exactly when the character is absent, and otherwise the position of its first occurrence. |
| Values.Truthy | lib/json_enforcer.js:334 | A value is falsy exactly when it is `undefined`, `null`, `false`, `0`, `NaN` or `""`. |
| Values.Get | lib/json_enforcer.js:327 | `data[key]` is `undefined` on anything but an object and for an absent key. Otherwise it is the value of the first field under that key. |
| Rules.KindOf | lib/json_enforcer.js:249-250 | There is no kind exactly when none of `string`, `array`, `object`, `number` occurs in the rule text. Otherwise the kind is the keyword whose occurrence starts first. |
| Rules.StringConstraint | lib/json_enforcer.js:254-255 | The validation source is the text between the leftmost `(` and the last `)` that closes it. It is `.+` when the text has no parenthesised part. |
| Rules.RangeAt | lib/json_enforcer.js:258 | At a `(`, the range regex matches exactly when the text there has the shape `(digits ,* digits)`. The two groups are then the digit runs of that shape. |
| Rules.NumberConstraint | lib/json_enforcer.js:258-259 | The range is the two digit groups of the leftmost `(digits ,* digits)` shape in the text, each `NaN` when empty. It is 0..100 when the text has no such shape. |
| Rules.ParseRule | lib/json_enforcer.js:245-264 | The raw text is kept and the kind is the first keyword. `optional` holds exactly when the text contains `optional`. A validation source exists exactly for string rules and a range exactly for number rules, so array and object rules get neither. |
| Rules.DefaultStringRule | lib/json_enforcer.js:254-255 | The rule `string` is required and validated by `.+`. |
| Rules.DefaultNumberRule | lib/json_enforcer.js:258-259 | The rule `number` is required, with range 0..100. |
| Rules.OptionalNumberRule | lib/json_enforcer.js:245-264 | `number optional (1,3)` is an optional number rule with range 1..3. |
| Rules.KindIsFirstKeyword | lib/json_enforcer.js:249-250 | `string array` is a string rule and `array of string` an array rule: the leftmost keyword wins. |
| Rules.EmptyRangeSideIsNaN | lib/json_enforcer.js:259 | `number (,5)` has the range `NaN`..5: an empty group parses to `NaN`. |
| Schema.Populate | lib/json_enforcer.js:266-289 | Strings become rules, arrays lists and objects objects with the same keys in the same order. Anything else becomes a hole, as does the element of `[]`. Every rule of the tree is the parse of its own text, with a constraint matching its kind. |
| Schema.OnlyFirstElementConsulted | lib/json_enforcer.js:284 | Elements after the first of a raw array never affect the populated template. |
| Schema.PopulateRender | lib/json_enforcer.js:266-289 | Populating is a left inverse of writing a tree back out as a raw template: every tree of parsed rules is recovered exactly. |
| Schema.OptionalCases | lib/json_enforcer.js:38-56 | `is_optional` case by case: a rule answers its flag and a list its element 0. An object is optional exactly when it has a key and every field is optional. A hole is not optional. |
| Schema.AllOptionalFrom | lib/json_enforcer.js:48-53 | The `for..in` loop of `is_optional` runs to its end exactly when every remaining field is optional. |
| Schema.OptionalIffNoRequiredTerminal | lib/json_enforcer.js:38-56 | A node is optional exactly when no terminal reached through lists and object fields is required. A leaf counts by its flag. Holes and empty objects count as required. |
| Schema.AllOptionalIffNoRequiredTerminal | lib/json_enforcer.js:48-55 | The `for..in` loop of `is_optional` finds every remaining field optional exactly when none of their terminals is required. |
| Lexer.Classify | lib/json_enforcer.js:101-124 | The buffer's class is the first of set, quantifier, special, literal whose regex accepts it, and none exactly when no regex does. The empty buffer has none. |
| Lexer.TokenizeFrom | lib/json_enforcer.js:114-128 | Starting from a buffer none of whose prefixes was accepted, the emitted token values followed by the leftover buffer spell the buffer plus the input. Each token's text is accepted by its class, first in the order set, quantifier, special, literal, and no shorter prefix of it was accepted. No prefix of the leftover was accepted. |
| Lexer.Tokenize | lib/json_enforcer.js:114-128 | `_tokenize` satisfies those three conditions for the whole pattern: concatenation, cut at first acceptance, unaccepted leftover. |
| Lexer.TokenizationUnique | lib/json_enforcer.js:114-128 | Those three conditions determine the tokens and the leftover completely, so they specify `_tokenize` independently of its loop. |
| Lexer.TokenizeRepeat | lib/json_enforcer.js:101-128 | `a{2,2}` tokenizes to a literal `a` followed by the quantifier `{2,2}`, with nothing left over. |
| Lexer.StripBrackets | lib/json_enforcer.js:172 | Removing a leading `[` and a trailing `]` leaves the text that, with those brackets put back where they were, spells the set token again. |
| Lexer.FindHyphen | lib/json_enforcer.js:173 | `value.match(/\w\-\w/)` finds the leftmost word character, hyphen, word character, or nothing when there is none. |
| Lexer.RangeRunSpan | lib/json_enforcer.js:178-183 | A range of two lower-case letters or two digits contributes every character from its low end to its high end. Written backwards, only the characters strictly between the two ends remain, because `substring` swaps its ends. |
| Lexer.UpperRangeRunEmpty | lib/json_enforcer.js:181-183 | A range of two upper-case letters contributes nothing: `indexOf` finds neither end in the lower-case alphabet. |
| Lexer.ExpandRanges | lib/json_enforcer.js:176-187 | Each `x-y` range adds only letters or digits to the pool, after what was there. No range is left in the value afterwards. The leftover holds only characters of the set's text and keeps every one that is neither a word character nor `-`. |
| Lexer.ExpandFirstRun | lib/json_enforcer.js:176-185 | The first range `x-y` of the set places its whole run in the pool right after what the pool held before. |
| Lexer.Escapes | lib/json_enforcer.js:174 | Each escape found is a backslash followed by a word character, and a set without a backslash has none. |
| Lexer.ApplyEscapes | lib/json_enforcer.js:189-202 | Each `\w` or `\d` escape adds only letters or digits to the pool, after what was there. The value left afterwards holds only characters it started with. |
| Lexer.EscapesAddAlphabets | lib/json_enforcer.js:192-199 | Every character of every escape's alphabet ends up in the pool: all letters and digits for `\w`, all digits for `\d`. |
| Lexer.EscapesKeepOthers | lib/json_enforcer.js:201 | A character of the value that occurs in no escape is still in the value after all escapes are removed. |
| Lexer.SetPool | lib/json_enforcer.js:169-205 | Every character a set token can emit is a letter, a digit, or a character written in the set's own text. |
| Lexer.SetPoolHasRange | lib/json_enforcer.js:176-183 | Every character of the run of the set's first range is in the pool. |
| Lexer.SetPoolHasEscapes | lib/json_enforcer.js:189-199 | A `\w` in the set puts every letter and digit in the pool, and a `\d` every digit. |
| Lexer.SetPoolKeepsLiterals | lib/json_enforcer.js:201-205 | Every character of the set that is neither a word character, `-` nor a backslash is in the pool. |
| Lexer.SetPoolOfLiterals | lib/json_enforcer.js:171-205 | A set with no hyphen and no backslash draws from exactly its own characters. |
| Lexer.SetPools | lib/json_enforcer.js:169-205 | The pool of `[a-c]` is `abc`, and the pool of `[\d]` is the ten digits. |
| Lexer.GenerateToken | lib/json_enforcer.js:146-207 | A literal emits itself, and `\w` and `.` emit one letter or digit. `\d` emits one digit, and any other special emits nothing. A set emits one character of its pool, or nothing when the pool is empty. |
| Lexer.BraceRepeats | lib/json_enforcer.js:224-236 | Every quantifier `{g1 ,* g2}` draws from `parseInt(g1) \|\| 0` to `parseInt(g2) \|\| min + 100`, so an empty or zero group falls back. `*` draws from 0..100 and `+` from 1..100. |
| Lexer.Repeat | lib/json_enforcer.js:215-219 | `n` fresh generations of the previous token, one after another. |
| Lexer.RepeatLength | lib/json_enforcer.js:215-219 | `k` generations of a token occupy exactly `k` times the token's width. |
| Lexer.BraceBothBounds | lib/json_enforcer.js:233-236 | `{2,5}` draws its count from 2..5. |
| Lexer.BraceLoneBound | lib/json_enforcer.js:233-236 | `{3}` draws from 3..103: the missing upper group falls back to `min + 100`. |
| Lexer.BraceUpperOnly | lib/json_enforcer.js:233-236 | `{,4}` draws from 0..4: the missing lower group falls back to 0. |
| Lexer.BraceZeroUpper | lib/json_enforcer.js:233-236 | `{2,0}` draws from 2..102: a zero upper bound is falsy too. |
| Lexer.Generate | lib/json_enforcer.js:130-144 | The corrected generator produces only strings of the pattern's language. In that language, a token followed by a quantifier contributes between the quantifier's bounds many generations of itself, and any other token one generation. |
| Lexer.IntendedString | lib/json_enforcer.js:87-89 | The corrected `generator.string` yields a string in the language of the source's tokens. |
| Lexer.GenerateAsWrittenFrom | lib/json_enforcer.js:130-144 | The library's loop only ever extends the string so far; it never rewrites it. |
| Lexer.GenerateAsWritten | lib/json_enforcer.js:130-144 | On a pattern without quantifiers, `_generate` as written is the corrected generator, so its string is in the pattern's language. |
| Lexer.GenerateString | lib/json_enforcer.js:87-89 | `generator.string` runs `_generate` as written. On a source that tokenizes without quantifiers it equals the corrected generator and stays in the source's language. |
| Lexer.AsWrittenAgreesWithoutQuantifiers | lib/json_enforcer.js:130-144 | On a pattern without quantifiers, the library's loop and the corrected generator produce the same string and consume the same entropy. |
| Lexer.AsWrittenQuantifierStep | lib/json_enforcer.js:136-141 | At a quantifier, the library appends, after the string so far, that same string less the previous token's first output, followed by `n` regenerations. |
| Lexer.RepeatedPrefix | lib/json_enforcer.js:138 | As written, `a{2,2}` yields `aaa` for every entropy stream. |
| Lexer.RepeatedPrefixString | lib/json_enforcer.js:87-89 | `generator.string('a{2,2}')` yields `aaa` for every entropy stream, where the corrected generator yields `aa`. |
| Lexer.IntendedRepeat | lib/json_enforcer.js:209-241 | The corrected generator yields `aa` for `a{2,2}` for every entropy stream. |
| Lexer.RepeatedPrefixOutsideLanguage | lib/json_enforcer.js:209-241 | `aaa` is not a string of the pattern `a{2,2}`. |
| Lexer.TokenizeDotPlus | lib/json_enforcer.js:101-128 | The default source `.+` tokenizes into a special `.` followed by the quantifier `+`, with nothing left over. |
| Lexer.AsWrittenPair | lib/json_enforcer.js:130-141 | As written, a token followed by a quantifier yields the token's output, then that output with itself removed (nothing), then `n` fresh outputs of the token, with `n` drawn from the quantifier's bounds. |
| Lexer.DefaultPatternString | lib/json_enforcer.js:87-89 | `generator.string('.+')` yields between 2 and 101 characters, each a letter or digit, on every entropy stream. |
| Lexer.UpperSetYieldsNothing | lib/json_enforcer.js:169-207 | The pool of `[A-Z]` is empty, so that set token generates the empty string. |
| Validator.CheckLeaf | lib/json_enforcer.js:354-368 | A leaf adds at most two errors, all at the current path. A type error is recorded exactly when the rule is required and the value is not of its kind. A validation error is recorded exactly when a validation exists and rejects the value. When both are recorded, the type error comes first. A present value gets no error exactly when it conforms. |
| Validator.CheckProperty | lib/json_enforcer.js:332-352 | Every error lies at the current path extended by a key path of the template. A falsy value gets at most one error, and none exactly when its node is optional. A present non-array against a list gets exactly one type error. `[]` against a list gets none. |
| Validator.CheckItems | lib/json_enforcer.js:370-381 | Every item is checked against element 0 at the list's own path; no key is pushed. |
| Validator.CheckFields | lib/json_enforcer.js:323-330 | Every error lies at the path extended by one of the object's keys, followed by a key path of that key's node. |
| Validator.FieldErrorsAt | lib/json_enforcer.js:323-330 | With distinct keys, the errors filed under `path + [k]` are exactly the errors of checking key `k`'s value against its node. |
| Validator.FieldErrorsInOrder | lib/json_enforcer.js:325-329 | With distinct keys, every error of an earlier template key comes before every error of a later one. |
| Validator.NoErrorsIffConforms | lib/json_enforcer.js:332-387 | The walk records no error exactly when the value conforms under the reference definition. |
| Validator.NoItemErrorsIffConform | lib/json_enforcer.js:370-381 | An array gets no errors exactly when every item conforms to element 0. |
| Validator.NoFieldErrorsIffConform | lib/json_enforcer.js:323-330 | The remaining keys get no errors exactly when each key's value conforms to its node. |
| Validator.Validate | lib/json_enforcer.js:305-309 | One pass over the base template reports errors only at key paths of the template. It reports none exactly when every template key's value conforms. |
| Validator.ValidateErrorsAt | lib/json_enforcer.js:305-309 | With distinct keys, the errors one pass files under a top-level key are exactly that key's own check. |
| Validator.NewTemplate | lib/json_enforcer.js:291-301 | A new template holds the populated raw template, with the same keys, and no errors. |
| Validator.Enforce | lib/json_enforcer.js:305-309 | As written, `enforce` keeps all earlier errors as a prefix of the new list. It answers true exactly when there were no earlier errors and the data conforms. |
| Validator.EnforceFresh | lib/json_enforcer.js:305-309 | Corrected, `enforce` answers true exactly when this call's data conforms. Its errors lie at key paths of the template. |
| Validator.SecondCallStillFails | lib/json_enforcer.js:300-308 | `{ name: 'string' }` enforced on `{}` and then on `{ name: 'brendan' }` answers false the second time, although that data conforms and the corrected check accepts it. |
| Stub.GenNumber | lib/json_enforcer.js:436-438 | A number leaf draws an integer between its bounds. A `NaN` bound yields `NaN`, and `Math.random` is still consumed. |
| Stub.GenLeaf | lib/json_enforcer.js:419-438 | A rule leaf yields a value of its kind. A string rule's value is exactly `generator.string` as written applied to its validation source, and lies in its pattern's language when the pattern has no quantifier. A number rule's value is the number drawn from its range. |
| Stub.GenProperty | lib/json_enforcer.js:413-430 | Only optional nodes and holes yield `undefined`. A node that is neither a hole nor a list is dropped exactly when it is optional and the coin shows 1. Leaves yield a value of their kind and lists an array of exactly one element, none for `[]`. Objects yield an object whose keys are template keys in template order, with every required key present. |
| Stub.GenList | lib/json_enforcer.js:440-451 | `[]` yields an empty array. `[x]` yields exactly `[v]` for the property `v` generated from `x`, or `undefined` only when `x` is optional. |
| Stub.GenFields | lib/json_enforcer.js:398-411 | The generated object has only template keys from the current field on, in template order and with no `undefined` value. Every required key other than a hole is present. |
| Stub.Generate | lib/json_enforcer.js:390-411 | A stub is an object whose keys are template keys in template order and whose values are all defined. Every required key other than a hole is present. |
| Stub.OmittableIffOptional | lib/json_enforcer.js:413-417 | A node other than a hole can be left out of a stub, for some coin, exactly when it is optional. |
| RoundTrip.PropertyConforms | lib/json_enforcer.js:413-451 | Every generated property conforms to the node it was generated for. This needs no falsy scalar, distinct keys, no hole as a field, and a matcher that accepts every string `generator.string` can produce for each of this template's validation sources. |
| RoundTrip.FieldsConformFrom | lib/json_enforcer.js:398-411 | Every template key from the current field on finds a conforming value in the generated object: lookup returns the first value under that key. |
| RoundTrip.StubValidates | lib/json_enforcer.js:311-313 | Enforcing a template on its own stub reports no error, given the same hypotheses as `RoundTrip.PropertyConforms`. |
| RoundTrip.LanguageSuffices | lib/json_enforcer.js:87-89 | On a source without quantifiers, a matcher that accepts the lexer's language of the source accepts every string `generator.string` produces for it. |
| RoundTrip.DefaultPatternAccepted | lib/json_enforcer.js:28 | The default validation `.+` of a string rule is covered: any engine that accepts every non-empty string without a line terminator accepts everything `generator.string('.+')` produces. |
| RoundTrip.ZeroStubRejected | lib/json_enforcer.js:334-337 | The no-falsy hypothesis is needed: the stub of `{ count: 'number (0,0)' }` is `{ count: 0 }`, and enforcing the template on it reports `count` missing. |

## Left out

- **`api.__exec__` and the `window.jasmine` check** (host and reflection glue).
- **Messages.** The text of error messages depends on `typeof` and `toString`; an error is its kind and key path.
- **Regular expressions.** The engine behind `validation.test` is the `Matcher` parameter. `RoundTrip.StubValidates` assumes it accepts what `generator.string` produces for the template's own sources. A validation source that `new RegExp` rejects (a `SyntaxError` when the rule is built) is not modelled.
- **Slashes in patterns.** The lexer works on the validation source as written. `RegExp.prototype.toString` escapes a `/` inside a pattern, and that escaping is not modelled.
- **Random floats.** `Math.random` and `Math.round` on floats are not modelled, nor is the distribution of draws; only the set of reachable integers is.
- **Number precision.** `parseInt` of a very long digit string loses precision in JavaScript; the model's numbers are unbounded integers.
- **Duck-typed `length`.** `util.is_array` and `util.is_object` test for a `length` property. The model treats arrays as arrays and objects as objects, so an object with a `length` key counts as an object.
- **Property reads on non-objects.** Reading a key of a string or array (its indices and `length`) is not modelled: `Get` answers `undefined` on anything but an object.
- **Prototype-chain reads.** `data[key]` also finds properties inherited from `Object.prototype`: on `{}` the keys `toString` or `constructor` read a truthy function, so the library reports a type error where the model (`Values.Get`) reads `undefined` and reports the key missing.
- **UTF-16 code units.** `split('')`, `length`, `charAt` and `substring` work on UTF-16 code units; the model's strings are sequences of Dafny `char`s, so a character outside the Basic Multilingual Plane is one character here and two units in JavaScript.
- **Lexer versus regular-expression engine.** The lexer's reading of a pattern is not the engine's. `[A-Z]` has an empty pool, so `x[A-Z]` generates `x`, which `/x[A-Z]/` rejects (`Lexer.UpperSetYieldsNothing`). `{,4}` is a quantifier to the lexer but literal text to a JavaScript engine (Annex B of ECMA-262). Specials other than `\w`, `\d` and `.`, such as `\s`, generate nothing where the engine demands a character. The round trip therefore assumes the matcher accepts the generator's output only for the validation sources of the template at hand (`RoundTrip.AcceptsStubStrings`), and templates using such sources fall outside it. For a source without quantifiers, accepting the lexer's language suffices (`RoundTrip.LanguageSuffices`).
- **Key order.** JavaScript enumerates integer-like keys first, and objects cannot repeat a key. The model keeps keys in template order, and the round trip assumes distinct keys.
- **Non-object templates.** A top-level template that is a string or an array (populated by index) is not modelled; templates are objects.
- **`Template.stub` and `new Stub(raw)`.** They are `Stub.Generate` on the template's root, or on `Populate(raw)`; there is no separate member.
- Validator.CheckProperty: requires every required rule to name a kind. The library throws a `TypeError` on a kindless required rule only when the value is present.
- Validator.Validate: requires data other than `undefined` or `null` when the template has keys, where the library throws a `TypeError`.
- Stub.GenProperty: requires every rule to name a kind. The library throws on a kindless rule only when the coin keeps it.
- Lexer.Generate: requires every quantifier to follow a non-quantifier token. The library throws on a leading quantifier; after another quantifier it appends a callback's source text.
- RoundTrip.StubValidates: holds only for stubs with no falsy scalar, only for templates with distinct keys and no hole as a field, and only for a matcher that accepts every string `generator.string` can produce for each of the template's sources. `RoundTrip.ZeroStubRejected` shows a falsy scalar under a required node failing; a falsy scalar under an optional node passes but is outside the hypothesis.
- PropertyConforms: the same hypotheses as `RoundTrip.StubValidates`.
- FieldsConformFrom: the same hypotheses as `RoundTrip.StubValidates`.
- GenLeaf: states language membership of a generated string only for a source without quantifiers; with one, `generator.string` as written leaves the language.
- GenerateString: relates the library's generator to the language only for a source without quantifiers, for the same reason.
- ExpandRanges: completeness is stated for the first range of a set (`Lexer.ExpandFirstRun`, `Lexer.SetPoolHasRange`) and as "no range survives"; the run each later range adds is not located.
- CheckFields: its own contract files each error under some key. Per-key attribution and template order are stated by `Validator.FieldErrorsAt` and `Validator.FieldErrorsInOrder`, which assume distinct keys, as JavaScript objects have.

## Findings

| source | as written | input that shows it | evidently intended | confidence | as-written member | corrected member |
|---|---|---|---|---|---|---|
| lib/json_enforcer.js:138 | `string += last_value = cb(string)` appends the callback's result, which starts from the string so far less the first occurrence of the previous token's output, so the prefix is written again | `generator.string('a{2,2}')` yields `aaa` | the quantified token is replaced by `n` of its generations, `aa` | high; not executed | Lexer.RepeatedPrefixString | Lexer.IntendedString |
| lib/json_enforcer.js:300-308 | `errors` is created once in the constructor, only ever appended to, and `enforce` answers `!this.errors.length` | on the template `{ name: 'string' }`, call `enforce({})`, then `enforce({ name: 'brendan' })`: the second call answers false | each call judges its own data, so the second answers true | medium; not executed | Validator.SecondCallStillFails | Validator.EnforceFresh |
