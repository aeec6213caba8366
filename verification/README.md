# assert-one in Dafny

This project models the core of `assert-one`, a JavaScript library of argument
assertions. Each assertion checks a value. When the check fails, it throws an
error whose message comes from a template rendered against a set of tokens. The
model has three engines.

- **Condition** (`condition.dfy`, laws in `condition_laws.dfy`): the value-condition
  evaluator and describer, `evaluateValueCondition`. A condition takes one of three forms:
  - a literal, which is sugar for `{eq: literal}`;
  - a map of operator keys, evaluated in declaration order as an AND that reports the
    first failing key;
  - a list of conditions, evaluated as an OR that reports `compound`.

  The keys are `type`, `eq`, `neq`, the four orderings, `integer`, `divides`,
  `multiple`, the four string keys and their `…Not` forms, `length` and `each`. A
  failure carries the operator, the reference, the value examined, an English phrase
  (`"greater than or equal to 200"`) and, for `each`, the failing index.
- **Message** (`message.dfy`, laws in `message_laws.dfy` and `condition_text_laws.dfy`):
  the template renderer, `replaceTokens`. A template mixes literal text, `%name%`
  placeholders and `(?condition message?)` blocks.
  - Blocks are cut out outermost first.
  - A block's condition is parsed by a small grammar: a bare name, or a name, an
    operator and a literal. It is then evaluated against the tokens.
  - A block whose condition holds is replaced by its recursively rendered message.
  - Placeholders are substituted last. The four macros `_TYPE_`, `_LEN_`, `_ACTUAL_`
    and `_VALUE_` take precedence over tokens of the same name.
- **Assert** (`assert.dfy`, laws in `assert_laws.dfy`, concrete cases in
  `assert_examples.dfy`): the drivers of `src/assert.js`.
  - `_applyDefaults` and `_reportAssertion`.
  - `_assertType` and `_assertValue`.
  - The four field loops and the allowed/forbidden key loops.
  - The shorthands.
  - The eight default message templates.
  - A report renders its template against a JSON copy of the tokens, completed with
    the default `varName` of `"argument"`. It hides `stackDepth` frames, which is 2
    by default; `_assertValue` adds its extra depth to that.

Support modules:

- `values.dfy`: JavaScript values, `typeof`, `String(v)`, a `JSON.stringify` that
  does not escape string contents (see Left out), and the JSON round trip.
- `numbers.dfy`: finite decimals in canonical form, with printing and parsing.
- `text.dfy`: trimming, joining and the `a, b or c` list.
- `wrappers.dfy`: `Option`.

The regular-expression engine enters as a function parameter `re`. A thrown error is
the `Verdict` value `Failed(message, stackDepth)`. Reading a field of `null` or
`undefined` is `TypeError`.

`src/condition.js` and `src/message.js` are not part of this model as text. Their
behaviour is modelled from their tests, `test/condition.js` and `test/message.js`,
which the rows below cite. Where the description of the library and the tests differ,
the tests are followed:

- A bare-name block condition is a presence test. It holds for a token that is
  `false` or `null` (test/message.js:37-43); it does not test truthiness.
- The tests disagree with each other, or with the code, in two places. The model
  follows the code.
  - `src/assert.js:24-25` gives the optional-field-types template `%actual%`, while
    `test/assert.js:18-19` expects `%_ACTUAL_%`. The model uses `%actual%`.
  - `test/condition.js:433-441` describes `divides` as "exact divider of", while
    `test/assert.js:648-657` expects "exact divisor of". The model uses "exact divider
    of", because that is the describer's own test.

## Model

| member | source | states |
|---|---|---|
| Assert.ApplyDefaults | src/assert.js:86-92 | A key that already has a value keeps it. A key missing from the defaults is untouched. The existing keys keep their order, and new keys are only appended. |
| AssertLaws.ApplyDefaultsFills | src/assert.js:86-92 | Every key that read as `undefined` reads the default's value afterwards. |
| AssertLaws.ApplyDefaultsIdempotent | src/assert.js:86-92 | Applying the same defaults twice reads the same as applying them once. |
| AssertLaws.ContextRead | src/assert.js:135-143 | The render context reads each token as its JSON copy. `varName` is never missing: it reads as `"argument"` when the caller gave none. |
| AssertLaws.DefaultOptionsRead | src/assert.js:68-70 | A driver that names no depth reports the template it passed and a stack depth of 2. |
| AssertLaws.DepthOptionsRead | src/assert.js:199-208 | A driver that names a depth reports that depth and its template. |
| Assert.ReportAssertion | src/assert.js:135-143 | A report passes exactly when the result is true, and it never raises `TypeError`. |
| AssertLaws.ReportFailed | src/assert.js:135-150 | A false result throws the template rendered against the completed JSON copy of the tokens, hiding the default 2 frames. |
| AssertLaws.ReportFailedAtDepth | src/assert.js:135-150 | A false result with an explicit depth throws the rendered template and hides that many frames. |
| AssertLaws.TokenText | src/assert.js:135-143 | A plain placeholder reads its token after the JSON round trip. |
| AssertLaws.VarNameText | src/assert.js:71-73 | `%varName%` reads the caller's name, or `argument` when there is none. |
| AssertLaws.TypeMacroText | src/assert.js:137-143 | `%_TYPE_%` reads the `typeof` of the JSON copy of `value`, not of the value itself. |
| AssertLaws.ActualMacroText | src/assert.js:137-143 | `%_ACTUAL_%` reads the JSON text of `actual`. The copy does not change it. |
| AssertLaws.PrettyCopied | src/assert.js:139-140 | The JSON round trip preserves the printed JSON form of every value. |
| AssertLaws.RenderTemplate | src/assert.js:12-34 | Each default template renders as its fixed text followed by ` in <funName>` exactly when `funName` is given. |
| AssertLaws.RenderWithFunName | src/assert.js:12-34 | The trailing `(?funName in %funName%?)` block adds text only when `funName` is present. |
| AssertLaws.FunSuffixSubstituted | src/assert.js:12-34 | When present, the function-name suffix is ` in ` followed by the name's string form. |
| Assert.AssertType | src/assert.js:170-183 | `_assertType` passes exactly when the value's `typeof` is in the type list. |
| AssertLaws.TypeFailure | src/assert.js:170-183 | A failing `_assertType` throws "Wrong type for '<name>', expected <types joined by />, got <typeof of the copied value>", plus the function suffix, at depth 2. |
| AssertLaws.TypeReport | src/assert.js:170-183 | The failing report is the type template rendered against the completed type tokens. |
| AssertLaws.TypeTemplateText | src/assert.js:12-13 | The type template reads the name, the joined types and the copied value's type. |
| AssertLaws.TypeMessageWith | test/assert.js:93-115 | Given the name, the type list text and the type shown, the report with no function name is exactly that sentence at depth 2. |
| AssertExamples.WrongTypeExample | test/assert.js:93-102 | `assertType(123, "string")` throws "Wrong type for 'argument', expected string, got number". |
| Assert.AssertValue | src/assert.js:199-215 | `_assertValue` passes exactly when the condition evaluates to a pass. |
| AssertLaws.ValueReport | src/assert.js:199-215 | A failing `_assertValue` is the value template rendered against the outcome's tokens. It hides 2 plus the extra depth frames. |
| AssertLaws.ValueFailure | test/assert.js:128-171 | A failing `_assertValue` throws "Wrong value for '<name>', expected <the describer's phrase>, got <JSON of the value examined>". |
| AssertLaws.ValueTemplateText | src/assert.js:14-16 | The value template reads the name, `expected` and the JSON text of `actual`. |
| Assert.FieldTypeReport | src/assert.js:236-258 | One entry of the type loop passes exactly when the field's `typeof` is listed. |
| Assert.OptionalFieldTypeReport | src/assert.js:313-328 | One present field of the optional type loop passes exactly when its `typeof` is listed. |
| Assert.FieldValueReport | src/assert.js:277-294 | One entry of the value loop passes exactly when the field meets its condition. |
| Assert.OptionalFieldValueReport | src/assert.js:352-367 | One present field of the optional value loop passes exactly when it meets its condition. |
| Assert.FirstUnmetType | src/assert.js:238-255 | Gives the first entry whose field type is not listed; every earlier entry holds. |
| Assert.FirstUnmetOptionalType | src/assert.js:311-326 | Gives the first entry whose field is present with an unlisted type; every earlier entry holds. |
| Assert.FirstUnmetValue | src/assert.js:277-290 | Gives the first entry whose field fails its condition; every earlier entry holds. |
| Assert.FirstUnmetOptionalValue | src/assert.js:349-364 | Gives the first entry whose field is present and fails its condition; every earlier entry holds. |
| Assert.AssertFieldTypes | src/assert.js:236-258 | Reading a field of `null`/`undefined` raises `TypeError` when there is an entry. Otherwise the loop passes iff every entry holds; when it fails, it reports the first failing entry. |
| Assert.AssertOptionalFieldTypes | src/assert.js:309-330 | The same, with absent fields counted as holding. |
| Assert.AssertFieldValues | src/assert.js:275-296 | The same for conditions: it passes iff every field meets its condition, and otherwise reports the first that does not. |
| Assert.AssertOptionalFieldValues | src/assert.js:347-368 | The same, with absent fields skipped. |
| AssertLaws.FieldTypeTemplateText | src/assert.js:18-19 | The field-type template reads the field, the name, the joined types and the `actual` token. |
| AssertLaws.FieldTypeFailure | src/assert.js:240-256 | A failing entry throws "Wrong type for field '<f>' of '<name>', expected <types>, got <typeof>". An absent field shows `<undefined>`. |
| AssertLaws.OptionalFieldTypeFailure | src/assert.js:313-326 | A failing present field throws the same sentence, with the field's `typeof`. |
| AssertLaws.FieldTypesFailure | test/assert.js:187-229 | A failing field type loop throws the message of its first failing entry. |
| AssertLaws.OptionalFieldTypesFailure | test/assert.js:256-284 | A failing optional type loop reports a field that is present, with the message of the first failing entry. |
| AssertLaws.OptionalTypesWhenPresent | src/assert.js:309-330 | With every field present and the same template, the optional loop behaves exactly like the plain one. |
| AssertLaws.FieldValueTemplateText | src/assert.js:20-22 | The field-value template reads the field, the name, `expected` and the JSON text of `actual`. |
| AssertLaws.FieldValueFailure | src/assert.js:279-291 | A failing entry throws "Wrong value for field '<f>' of '<name>', expected <phrase>, got <JSON of the value examined>". |
| AssertLaws.OptionalFieldValueFailure | src/assert.js:352-365 | A failing present field shows the value examined. When the evaluator reported none, it shows the `<undefined>` marker as a JSON string. |
| AssertLaws.FieldValuesFailure | test/assert.js:300-358 | A failing value loop throws the message of its first failing entry. An absent field shows `<undefined>`. |
| AssertLaws.OptionalFieldValuesFailure | test/assert.js:386-430 | A failing optional value loop reports a present field, with the message of its first failing entry. |
| Assert.KeyReport | src/assert.js:385-393 | One key passes exactly when its membership in the list is the wanted one. |
| Assert.FirstUnwanted | src/assert.js:385-393 | Gives the first key whose membership is not the wanted one; every earlier key is fine. |
| Assert.KeyReports | src/assert.js:385-393 | The key loop passes iff every key's membership is the wanted one. Otherwise it reports the first key that is not. |
| Assert.AssertAllowedFields | src/assert.js:381-401 | A non-object always passes. An object passes iff every own key is in the allowed list; otherwise the first unlisted key is reported. |
| Assert.AssertForbiddenFields | src/assert.js:410-430 | A non-object always passes. An object passes iff no own key is in the forbidden list; otherwise the first listed key is reported. |
| AssertLaws.AllowedTemplateText | src/assert.js:30-31 | The allowed-fields template reads "Unexpected field '<key>' in '<name>'". |
| AssertLaws.ForbiddenTemplateText | src/assert.js:32-34 | The forbidden-fields template reads "Field '<key>' not allowed in '<name>'". |
| AssertLaws.AllowedKeyFailure | src/assert.js:385-393 | An unlisted key throws the allowed-fields sentence. |
| AssertLaws.ForbiddenKeyFailure | src/assert.js:414-422 | A listed key throws the forbidden-fields sentence. |
| AssertLaws.AllowedFieldsFailure | test/assert.js:441-462 | A failing allowed-fields check names the first own key that is not allowed. |
| AssertLaws.ForbiddenFieldsFailure | test/assert.js:473-494 | A failing forbidden-fields check names the first own key that is forbidden. |
| Assert.AssertShorthand | src/assert.js:443-733 | `assertX(value, ref)` passes exactly when key `x` holds for the value and the reference. |
| AssertLaws.ShorthandFailure | src/assert.js:443-733 | A failing shorthand throws the value sentence with that key's phrase, one frame deeper (depth 3). |
| Assert.AssertInteger | src/assert.js:545-549 | `assertInteger` passes exactly when `integer` holds for the reference, which is `true` when it is omitted. |
| AssertLaws.IntegerDefaultsToWhole | src/assert.js:545-549 | With the reference omitted, `assertInteger` passes exactly for whole numbers. |
| AssertLaws.IntegerFailure | test/assert.js:628-637 | `assertInteger(x)` on a fractional number or a non-number throws "…expected integer number, got <x>". |
| Assert.AssertLength | src/assert.js:734-736 | `assertLength` passes exactly when the length meets the condition. |
| Assert.AssertEach | src/assert.js:751-753 | `assertEach` on an array passes exactly when every element meets the condition. |
| Assert.TypeContext | src/assert.js:170-183 | The corrected type context reads the uncopied `value` and agrees with the copied context on every other key. |
| Assert.AssertTypeIntended | src/assert.js:170-183 | The corrected `_assertType` passes exactly when the type is accepted. |
| AssertLaws.TypeIntendedFailure | src/assert.js:170-183 | The corrected driver's message shows the value's own `typeof`, for functions too. |
| AssertLaws.TypeIntendedMessageWith | src/assert.js:170-183 | The corrected driver's report, with no function name, is the type sentence with the value's own type. |
| AssertLaws.TypeContextTemplateText | src/assert.js:12-13 | Rendered against the corrected context, the type template shows `typeof` of the uncopied value. |
| AssertLaws.CopiedKeepsType | src/assert.js:139-140 | The JSON copy keeps a value's `typeof` exactly when the value is not a function. |
| AssertLaws.FunctionTypeLost | src/assert.js:139-143 | As written, a function that fails `_assertType` is reported as "got undefined". |
| AssertExamples.FunctionTypeLostExample | src/assert.js:170-183 | `assertType(function, "string")` as written reports "got undefined". |
| AssertExamples.FunctionTypeShownExample | src/assert.js:170-183 | The corrected driver reports "got function" for the same call. |
| AssertLaws.MarkerShown | src/assert.js:359 | The `<undefined>` marker of the optional value loop prints in JSON quotes. |
| ConditionLaws.ListReference | test/condition.js:109-127 | A positive key holds iff some alternative of a list reference is hit. |
| ConditionLaws.EqAndTypeMembership | test/condition.js:11-69 | `eq` holds iff the value is one of the alternatives. `type` holds iff its `typeof` is. |
| ConditionLaws.NumericKeysNeedNumbers | test/condition.js:397-418 | `integer`, `divides` and `multiple` never hold for a non-number. |
| ConditionLaws.IntegerKey | test/condition.js:363-419 | `integer: false` asks for a fractional number; any other reference asks for a whole one. |
| ConditionLaws.StrLessTrichotomy | test/condition.js:295-361 | String order is a strict total order. |
| ConditionLaws.AltListShape | test/condition.js:109-127 | A list reference is described as "x, y or z". |
| ConditionLaws.EvaluateLiteral | test/condition.js:129-165 | A bare literal passes exactly on the listed values; otherwise it fails as `eq` with the literal as reference, the value examined as actual, and the list of alternatives as its phrase. |
| ConditionLaws.DescribeNamesAlternatives | test/condition.js:559-581 | Every key's phrase ends with the list of the reference's alternatives, except `integer`, whose phrase ends with "integer number". |
| ConditionLaws.LiteralIsEq | test/condition.js:129-165 | A bare literal is `{eq: literal}`: it passes iff the value is an alternative, and otherwise fails as `eq`. |
| ConditionLaws.ClausesFirstFailure | test/assert.js:139-159 | A map's keys are an AND: it passes iff every key holds; otherwise the first failing key is reported. |
| ConditionLaws.SingleClause | test/condition.js:29-47 | A one-key map evaluates to that key's outcome. |
| ConditionLaws.SingleFirstFailure | test/assert.js:139-159 | A map condition passes iff all keys hold, and otherwise reports its first failing key. |
| ConditionLaws.CompoundIsOr | test/condition.js:1007-1029 | A list is an OR. When it fails, it reports `compound` with the value and all the element phrases as one list. |
| ConditionLaws.MergeRefsKeys | test/condition.js:1011-1021 | The merged reference has exactly the failing operators as keys, each once. |
| ConditionLaws.CompoundReference | test/condition.js:1007-1029 | A failed compound's reference is an object keyed by exactly the failing operators. |
| ConditionLaws.LengthKey | test/condition.js:931-973 | `length` tests the length. On failure it reports `length/<op>` and "length <phrase>". |
| ConditionLaws.EachPassesFrom | test/condition.js:975-1005 | Scanning from index `k`, `each` passes iff every later element passes. |
| ConditionLaws.EachFailureFrom | test/condition.js:987-1004 | When that scan fails, it reports the first failing element's outcome under `each/`, with its index. |
| ConditionLaws.EachKey | test/condition.js:975-1005 | `each` passes iff every element passes. Otherwise it reports the first failing element, with its index. |
| ConditionExamples.TypeMismatch | test/condition.js:29-38 | `{type: "number"}` on `"42"` reports the type it saw. |
| ConditionExamples.LengthMismatch | test/condition.js:949-957 | `{length: 5}` on `"abcdef"` fails as `length/eq` with "length 5" and actual 6. |
| ConditionExamples.EachMismatch | test/condition.js:987-996 | `{each: 0}` on `[0, 0, 1]` fails as `each/eq` at index 2. |
| Condition.MergeOne | test/condition.js:1011-1021 | Merging one failed outcome adds its operator as a new key holding its reference. A repeated operator keeps its place, and its value becomes the concatenation of both alternative lists; no other key changes. |
| Message.ParseCondition | test/message.js:10-31 | The condition is a presence test exactly when no operator occurs in the trimmed text, and it then names the whole trimmed text. |
| Message.EvaluateCondition | test/message.js:37-50 | An unreadable literal makes only `!==` and `!=` hold. `===` holds only between values of the same type. |
| Message.RunMacro | test/message.js:56-77 | Exactly the four macro names have a value. `_TYPE_` gives one of the six `typeof` names, and `_LEN_` of a string or array gives a decimal number. |
| Message.ExtractSubs | test/message.js:83-100 | The entries are keyed by raw block text, each key once. Every entry comes from a block of the template, and every block's raw text is a key. |
| Message.ReplaceTokens | test/message.js:106-109 | A template with neither `%` nor a block opener renders to itself. |
| Message.Substitute | test/message.js:106-115 | Text without `%` is returned unchanged. |
| MessageLaws.ExtractRepeatedBlock | test/message.js:83-100 | A block written twice gives one entry, as the second write of the same key replaces the first. |
| MessageLaws.RawDeterminesSub | test/message.js:88-93 | Two blocks have the same key exactly when they have the same entry, so keying by raw text loses nothing. |
| MessageLaws.SubstituteUnresolved | test/message.js:106-115 | When no `%name%` at any position resolves, substitution returns the text unchanged. |
| MessageLaws.RenderFixedPoint | test/message.js:106-115 | A template that has no block and in which no placeholder resolves renders to itself. |
| MessageLaws.SegmentsReconstruct | test/message.js:83-100 | Cutting a template into text and blocks loses and reorders nothing. |
| MessageLaws.BlocksAreBalanced | test/message.js:95-100 | Every block found is an outermost one, so nested blocks stay whole inside it. |
| MessageLaws.FindCloseShift | test/message.js:95-100 | The closer scan depends only on the characters it passes over. |
| MessageLaws.SegmentsOfBlock | test/message.js:88-93 | A balanced block after opener-free text is cut out whole, and the scan resumes after it. |
| MessageLaws.ExtractOneBlock | test/message.js:95-100 | A block holding nested blocks is extracted as one block. |
| MessageLaws.ResolveBlock | test/message.js:129-151 | A block is replaced by its rendered message when its condition holds and dropped otherwise; the text around it is kept. |
| MessageLaws.PlainTextUnchanged | test/message.js:106-109 | A template with neither `%` nor `(?` renders to itself. |
| MessageLaws.RenderIdempotent | test/message.js:106-115 | Rendering again changes nothing when the first output has no block and no placeholder that resolves. |
| MessageLaws.SubstitutePlaceholder | test/message.js:111-115 | `%name%` is replaced, and the scan resumes right after it. |
| MessageLaws.SubstituteNoPercent | test/message.js:106-109 | Text without `%` has nothing to substitute. |
| MessageLaws.PlaceholderOrder | test/message.js:111-127 | A `%name%` placeholder renders as its macro for the four macro names, whatever the tokens hold; any other name renders as its token's string form, and one with no token stays as written. The scan resumes after the placeholder. |
| MessageLaws.LengthReadsBack | test/message.js:62-65 | `%_LEN_%` of a string or array reads back as its length. |
| ConditionTextLaws.OpFollowedBy | test/message.js:15-31 | An operator followed by a non-operator character is read as itself, longest match first. |
| ConditionTextLaws.OpOrderLongestFirst | test/message.js:15-31 | An operator whose text begins another's is tried after it. |
| ConditionTextLaws.LiteralRoundTrip | test/message.js:15-31 | Every written literal parses back to its value. |
| ConditionTextLaws.ParsePresence | test/message.js:10-13 | A bare name, with any surrounding whitespace, parses as a presence test. |
| ConditionTextLaws.ParseBinary | test/message.js:15-31 | A name, an operator and a literal, with any surrounding whitespace, parse back to that condition. |
| ConditionTextLaws.BlockPresence | test/message.js:88-93 | A block holding a bare name has a presence condition, and the rest of the body, right-trimmed, is its message. |
| ConditionTextLaws.BlockBinary | test/message.js:88-93 | A block holding a written condition parses it back, and its message starts after the literal. |
| ConditionTextLaws.NegationsComplement | test/message.js:46-50 | `!==` and `!=` are the complements of `===` and `==`. |
| ConditionTextLaws.NaNOrdersNothing | test/message.js:46-50 | An unreadable literal makes every ordering and `==` false, and `!=` true. |
| ConditionTextLaws.StrictImpliesLoose | test/message.js:46-50 | `===` with a literal implies `==`. |
| ConditionTextLaws.NumberTextLooselyEqual | test/message.js:46-50 | A printed number loosely equals the number, in both orders. |
| ConditionTextLaws.ReadsAsNumber | test/message.js:46-50 | Any string that reads as `n` loosely equals `n`. |
| ConditionTextLaws.StrictNeverCoerces | test/message.js:46-50 | `===` never holds across types: `"42" === 42` is false. |
| ConditionTextLaws.AbsentName | test/message.js:37-43 | A missing name fails the presence test and every comparison except the two negated equalities. |
| ConditionTextLaws.NumberOrdering | test/message.js:26-31 | Between numbers, `<` and `>` are the numeric order, and `>=` and `<=` are their complements. |
| ConditionTextLaws.StringOrdering | test/message.js:26-31 | Between strings, `>=` and `<=` are the complements of `<` and `>`, and `<` excludes `>`. |
| Values.GetClone | src/assert.js:139-140 | A key of the copied object reads the copy of the original property. |
| Values.JsonCloneText | src/assert.js:139-140 | The JSON round trip preserves a value's JSON text. |
| Values.Copied | src/assert.js:139-140 | The copy of a value is `undefined` exactly when JSON drops it (`undefined` or a function). |
| Values.GetProp | src/assert.js:240-241 | `value[i]` reads an object's own key and the `length` of a string or array. An array or string at a decimal index below its length reads that element or character. Any other key of an array or string, and any key of another value, reads `undefined`: inherited members are not modelled. |
| Values.IndexIn | src/assert.js:240-241 | A key names an index below `n` exactly when it is that index's decimal text, and then it names that index alone. |
| Values.TypeOfUndefined | src/assert.js:241-243 | `typeof` is "undefined" exactly for `undefined`. |
| Numbers.NumTextRoundTrip | test/message.js:26-31 | Every number prints to a text that parses back to it. |
| Numbers.NormalizeValue | test/condition.js:421-535 | Canonical form keeps the rational value. |
| Numbers.IsIntegerIffWhole | test/condition.js:363-419 | A number is whole iff its mantissa is divisible by its scale. |
| Text.TrimSurrounded | test/message.js:10-13 | Trimming removes exactly the surrounding whitespace. |
| Text.OxfordListShape | test/condition.js:1007-1029 | A list of two or more phrases reads "a, b or c". |

## Left out

- The error class and stack trimming: a failure is a `Verdict` that carries the message and the number of frames to hide. The `errorClass` argument and `Error.stack` are not modelled.
- Message templates are fixed strings, held per instance in `Messages`. A non-string template, a non-integer `stackDepth`, and the `new()` factory are not modelled.
- Key enumeration order: an object is a list of fields, and `for … in` visits them in list order. JavaScript's rule of enumerating integer-like keys first is not modelled.
- Values.GetProp: only own properties are read. Inherited members such as `toString`, `constructor`, `hasOwnProperty`, and the methods of strings and arrays read `undefined` here, where JavaScript's `value[i]` finds them. For example, `_assertOptionalFieldTypes({}, {constructor: "string"})` throws in JavaScript and passes here, and `_assertFieldTypes({}, {toString: "function"})` passes in JavaScript and fails here.
- Message.TextToNumber: narrower than JavaScript's `Number(s)`. It reads only an optional sign, digits and an optional fraction with digits on both sides of the point. `.5`, `5.`, the `0x`, `0b` and `0o` prefixes, exponent notation and `Infinity` do not read as numbers. It trims only space, tab, line feed and carriage return, not `\v`, `\f` or the Unicode spaces. So a token `".5"` is not loosely equal to `0.5` here, though it is in JavaScript.
- Message.Lookup: a macro name shadows a token of the same name. The tests never pass such a token, so this order is the model's choice, proved in MessageLaws.PlaceholderOrder.
- `indexOf` on a type list or field list that is not an array, and property reads on functions and regular expressions, are not modelled. Such a read gives `undefined`.
- `%_LEN_%` of a value without a length (JavaScript prints `undefined`, or throws on `null`) gives `"undefined"` here. The `TypeError` is not modelled.
- Assert.AssertAllowedFields: a non-object passes as `Passed`. The source returns `undefined` instead of `true`, and passing objects also return `undefined`.
- Assert.AssertForbiddenFields: a non-object passes as `Passed`. The source returns `undefined` instead of `true`.
- The default templates are built from pieces (literal text and `%name%` holes) followed by the function-name block. Each piece's text is the source's.
- Strings are sequences of Unicode code points, not of UTF-16 code units. A string's `length`, `%_LEN_%`, reading a character by index, and string ordering (`<`, `>=`, `lt`, `gte`, …) therefore differ from JavaScript for characters outside the Basic Multilingual Plane.
- Values.JsonText: strings are written between double quotes without escaping `"`, `\` or control characters, unlike `JSON.stringify`; Text.Quote and Values.Show, which print the same way, share this.
- Condition.Hit: the string keys (`contains`, `begins`, `ends`, `matches`) fail on a value or reference that is not a string. The evaluator's source is not part of this model, and its tests only use strings.
- Condition.Below: `lt`, `lte`, `gt` and `gte` hold only between two numbers or two strings; JavaScript's coercing comparison of mixed types is not modelled, because the tests compare like with like.
- Condition.LengthOf: `length` of a value that is neither a string nor an array is `undefined`. The tests only give strings and arrays.
- Condition.Evaluate: which form a condition takes (a literal, a map of keys, or a list) is chosen by whoever builds the `Condition`; the evaluator's own test of the JavaScript value's shape is not modelled. `Lit` of an object has no JavaScript counterpart, since an object condition is a map of keys.
- Values.ToText: `String(f)` of a function prints its source text in JavaScript; here it is the word `function`.
- Regular expressions: `matches`/`matchesNot` call a matcher parameter `re` rather than a regex engine.
- Numbers are exact finite decimals. IEEE-754 rounding, `NaN`, infinities and exponent notation are not modelled. `divides` and `multiple` are exact divisibility.
- Assert.AssertEach: `each` on a non-array passes. The evaluator's source is not part of this model, and its tests do not cover that case.
- ConditionTextLaws.BlockBinary: stated for string literals without a quote character inside, because the block grammar ends a string at its first closing quote.

## Findings

| source | as written | input that shows it | evidently intended | confidence | as-written member | corrected member |
|---|---|---|---|---|---|---|
| src/assert.js:135-143 | `_reportAssertion` JSON-copies the tokens before rendering. The copy drops a function, so `%_TYPE_%` reads `typeof undefined`. | `assertType(function () {}, "string")` reports "…expected string, got undefined". | The message shows "got function", the type that failed the check. | not executed | AssertLaws.FunctionTypeLost | AssertLaws.TypeIntendedFailure |
