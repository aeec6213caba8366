/**
 * The assertion drivers of src/assert.js. Every driver evaluates a check and
 * hands the outcome to one reporting step, which either lets the call pass or
 * produces the error the library throws: the message template rendered against
 * a JSON copy of the call's tokens, completed with the instance defaults, and the
 * number of stack frames the error hides.
 *
 * A thrown error is a `Verdict` here. The error class and the stack trimming are
 * not modelled; the number of frames to hide is kept as the `stackDepth` option.
 */
module Assert {
  import opened Wrappers
  import opened Text
  import opened Numbers
  import opened Values
  import opened Message
  import Condition
  import ConditionLaws

  /** The template of each driver, as assigned to `assertType.message` and its siblings. */
  datatype Messages = Messages(
    assertType: string,
    assertValue: string,
    assertFieldTypes: string,
    assertFieldValues: string,
    assertOptionalFieldTypes: string,
    assertOptionalFieldValues: string,
    assertAllowedFields: string,
    assertForbiddenFields: string)

  /** A stretch of template text without blocks: literal text or a `%name%` placeholder. */
  datatype Piece = Lit(text: string) | Hole(name: string)

  predicate PlainText(s: string) {
    forall i :: 0 <= i < |s| ==> s[i] != '%' && s[i] != '('
  }

  /** Literal text holds no `%` or `(`, and every placeholder name is a non-empty run of word characters. */
  predicate WellFormed(ps: seq<Piece>) {
    forall i :: 0 <= i < |ps| ==>
      match ps[i]
      case Lit(s) => PlainText(s)
      case Hole(n) => |n| > 0 && AllNameChars(n)
  }

  function PieceText(p: Piece): string
  {
    match p
    case Lit(s) => s
    case Hole(n) => "%" + n + "%"
  }

  /** The template text the pieces spell. */
  function Spell(ps: seq<Piece>): string
  {
    if |ps| == 0 then "" else PieceText(ps[0]) + Spell(ps[1..])
  }

  /** The message of the block every default template ends with, " in %funName%". */
  const FunNameMessage := " in " + "%" + "funName" + "%"
  /** The body of that block: a presence test of `funName` followed by its message. */
  const FunNameBody := "funName" + FunNameMessage
  /** `(?funName in %funName%?)`. */
  const FunNameBlock := "(?" + FunNameBody + "?)"

  const TypePieces := [Lit("Wrong type for '"), Hole("varName"), Lit("', expected "), Hole("type"), Lit(", got "), Hole("_TYPE_")]
  const ValuePieces := [Lit("Wrong value for '"), Hole("varName"), Lit("', expected "), Hole("expected"), Lit(", got "), Hole("_ACTUAL_")]
  const FieldTypePieces := [Lit("Wrong type for field '"), Hole("field"), Lit("' of '"), Hole("varName"), Lit("', expected "), Hole("type"), Lit(", got "), Hole("actual")]
  const FieldValuePieces := [Lit("Wrong value for field '"), Hole("field"), Lit("' of '"), Hole("varName"), Lit("', expected "), Hole("expected"), Lit(", got "), Hole("_ACTUAL_")]
  const AllowedPieces := [Lit("Unexpected field '"), Hole("field"), Lit("' in '"), Hole("varName"), Lit("'")]
  const ForbiddenPieces := [Lit("Field '"), Hole("field"), Lit("' not allowed in '"), Hole("varName"), Lit("'")]

  /** The default templates, spelled piece by piece and closed by the function-name block. */
  const MsgAssertType := Spell(TypePieces) + FunNameBlock
  const MsgAssertValue := Spell(ValuePieces) + FunNameBlock
  const MsgAssertFieldTypes := Spell(FieldTypePieces) + FunNameBlock
  const MsgAssertFieldValues := Spell(FieldValuePieces) + FunNameBlock
  const MsgAssertOptionalFieldTypes := Spell(FieldTypePieces) + FunNameBlock
  const MsgAssertOptionalFieldValues := Spell(FieldValuePieces) + FunNameBlock
  const MsgAssertAllowedFields := Spell(AllowedPieces) + FunNameBlock
  const MsgAssertForbiddenFields := Spell(ForbiddenPieces) + FunNameBlock

  /** The templates every new instance starts with. */
  const DefaultMessages := Messages(
    MsgAssertType, MsgAssertValue, MsgAssertFieldTypes, MsgAssertFieldValues,
    MsgAssertOptionalFieldTypes, MsgAssertOptionalFieldValues,
    MsgAssertAllowedFields, MsgAssertForbiddenFields)

  /** Stack frames a report hides when the driver names none: the driver and the report itself. */
  const DefaultStackDepth := 2

  /** `defaultOptions` and `defaultTokens` of a new instance. */
  const DefaultOptions: Fields := [Field("stackDepth", Num(FromInt(DefaultStackDepth)))]
  const DefaultTokens: Fields := [Field("varName", Str("argument"))]

  /**
   * What a call ends with: it passes, or throws an error carrying the rendered
   * message and the number of stack frames to hide, or the host throws a
   * `TypeError` first (reading a field of `null` or `undefined`).
   */
  datatype Verdict = Passed | Failed(message: string, stackDepth: Value) | TypeError

  /* ---------------------------------------------------------------------------
   * Defaults and reporting
   * ------------------------------------------------------------------------- */

  /**
   * `_applyDefaults(o, defaults)`: every default is copied into `o`, in order,
   * when `o` has no value (reads as `undefined`) under its key.
   */
  function ApplyDefaults(o: Fields, defaults: Fields): (r: Fields)
    ensures forall k :: Get(o, k) != Undefined ==> Get(r, k) == Get(o, k)
    ensures forall k :: !HasKey(defaults, k) ==> Get(r, k) == Get(o, k)
    ensures |Keys(o)| <= |Keys(r)| && Keys(r)[..|Keys(o)|] == Keys(o)
    decreases |defaults|
  {
    if |defaults| == 0 then o
    else
      var next := ApplyOne(o, defaults[0]);
      var r := ApplyDefaults(next, defaults[1..]);
      HasKeyTail(defaults);
      assert Keys(r)[..|Keys(o)|] == Keys(r)[..|Keys(next)|][..|Keys(o)|];
      r
  }

  /** One step of `_applyDefaults`: the default is copied when `o` has no value under its key. */
  function ApplyOne(o: Fields, d: Field): (r: Fields)
    ensures forall k :: Get(o, k) != Undefined ==> Get(r, k) == Get(o, k)
    ensures forall k :: k != d.key ==> Get(r, k) == Get(o, k)
    ensures |Keys(o)| <= |Keys(r)| && Keys(r)[..|Keys(o)|] == Keys(o)
  {
    if Get(o, d.key) == Undefined then Set(o, d.key, d.val) else o
  }

  /** The tokens a message is rendered against: a JSON copy, completed with the default tokens. */
  function RenderContext(tokens: Fields): Fields
  {
    ApplyDefaults(CloneFields(tokens), DefaultTokens)
  }

  /** The options a report reads: a JSON copy, completed with the default options. */
  function ReportOptions(options: Fields): Fields
  {
    ApplyDefaults(CloneFields(options), DefaultOptions)
  }

  /**
   * `_reportAssertion(result, errorClass, options, tokens)`: a true result passes;
   * a false one renders `options.message` against the completed tokens and
   * hides `options.stackDepth` frames.
   */
  function ReportAssertion(result: bool, options: Fields, tokens: Fields): (v: Verdict)
    ensures v.Passed? <==> result
    ensures !v.TypeError?
  {
    if result then Passed
    else
      var o := ReportOptions(options);
      Failed(ReplaceTokens(ToText(Get(o, "message")), RenderContext(tokens)), Get(o, "stackDepth"))
  }

  /** The options object of a driver that names no stack depth. */
  function MessageOption(template: string): Fields
  {
    [Field("message", Str(template))]
  }

  /* ---------------------------------------------------------------------------
   * Argument-level assertions
   * ------------------------------------------------------------------------- */

  /** A type list: an array of type names, or a single name standing for a one-element list. */
  function TypeList(types: Value): (ts: seq<Value>)
    ensures types.Arr? ==> ts == types.elems
    ensures !types.Arr? ==> ts == [types]
  {
    if types.Arr? then types.elems else [types]
  }

  /** `type.indexOf(typeof(x)) !== -1`. */
  predicate Accepts(types: Value, x: Value)
  {
    Str(TypeOf(x)) in TypeList(types)
  }

  /** `type.join("/")`, the `%type%` token. */
  function TypeText(types: Value): string
  {
    Join(ElementTexts(TypeList(types)), "/")
  }

  /** The tokens `_assertType` reports. */
  function TypeTokens(v: Value, types: Value, varName: Value, funName: Value): Fields
  {
    [Field("value", v), Field("type", Str(TypeText(types))), Field("varName", varName), Field("funName", funName)]
  }

  /** `_assertType(value, type, errorClass, varName, funName)`. */
  function AssertType(m: Messages, v: Value, types: Value, varName: Value, funName: Value): (r: Verdict)
    ensures r.Passed? <==> Str(TypeOf(v)) in TypeList(types)
    ensures !r.TypeError?
  {
    ReportAssertion(Accepts(types, v), MessageOption(m.assertType), TypeTokens(v, types, varName, funName))
  }

  /**
   * The context `%_TYPE_%` evidently means to read: the JSON copy of the tokens,
   * but with the checked value as the caller passed it, so that a function
   * (which the copy drops) still reports its own type.
   */
  function TypeContext(tokens: Fields): (ctx: Fields)
    ensures Get(ctx, "value") == Get(tokens, "value")
    ensures forall k :: k != "value" ==> Get(ctx, k) == Get(RenderContext(tokens), k)
  {
    Set(RenderContext(tokens), "value", Get(tokens, "value"))
  }

  /** `_assertType` with the `%_TYPE_%` macro reading the uncopied value: the corrected driver. */
  function AssertTypeIntended(m: Messages, v: Value, types: Value, varName: Value, funName: Value): (r: Verdict)
    ensures r.Passed? <==> Accepts(types, v)
    ensures !r.TypeError?
  {
    if Accepts(types, v) then Passed
    else
      var o := ReportOptions(MessageOption(m.assertType));
      Failed(ReplaceTokens(ToText(Get(o, "message")), TypeContext(TypeTokens(v, types, varName, funName))),
             Get(o, "stackDepth"))
  }

  /** The `expected` and `actual` tokens of an outcome: present only when it failed. */
  function Expected(o: Condition.Outcome): Value
  {
    if o.Fail? then Str(o.details) else Undefined
  }

  function Actual(o: Condition.Outcome): Value
  {
    if o.Fail? then o.actual else Undefined
  }

  /** The tokens `_assertValue` reports for the outcome `o` of the evaluation. */
  function ValueTokens(v: Value, o: Condition.Outcome, varName: Value, funName: Value): Fields
  {
    [Field("value", v), Field("expected", Expected(o)), Field("actual", Actual(o)),
     Field("varName", varName), Field("funName", funName)]
  }

  /** The options of a report that hides `depth` frames. */
  function DepthOptions(template: string, depth: int): Fields
  {
    [Field("message", Str(template)), Field("stackDepth", Num(FromInt(depth)))]
  }

  /** The stack depth `_assertValue` reports: the default two frames plus the extra ones. */
  function ValueDepth(extra: Option<int>): int
  {
    DefaultStackDepth + if extra.Some? then extra.value else 0
  }

  /**
   * `_assertValue(value, condition, errorClass, varName, funName, stackDepth)`:
   * the extra depth (zero when omitted) is added to the instance default.
   */
  function AssertValue(m: Messages, v: Value, c: Condition.Condition, re: Condition.Matcher,
                       varName: Value, funName: Value, extra: Option<int>): (r: Verdict)
    ensures r.Passed? <==> Condition.Evaluate(v, c, re).Pass?
    ensures !r.TypeError?
  {
    var o := Condition.Evaluate(v, c, re);
    ReportAssertion(o.Pass?, DepthOptions(m.assertValue, ValueDepth(extra)), ValueTokens(v, o, varName, funName))
  }

  /* ---------------------------------------------------------------------------
   * Assertions on object fields
   * ------------------------------------------------------------------------- */

  /** One entry of a `fields` object for the type drivers: a field name and its type list. */
  datatype TypeRule = TypeRule(field: string, types: Value)

  /** One entry of a `fields` object for the value drivers: a field name and its condition. */
  datatype ValueRule = ValueRule(field: string, cond: Condition.Condition)

  /** Reading `value[i]` throws a `TypeError` exactly for these two. */
  predicate Unreadable(v: Value) {
    v.Undefined? || v.Null?
  }

  /** The tokens of a field-type report; `actual` is the type name the message shows. */
  function FieldTypeTokens(x: Value, types: Value, actual: string, field: string, varName: Value, funName: Value): Fields
  {
    [Field("value", x), Field("type", Str(TypeText(types))), Field("actual", Str(actual)),
     Field("varName", varName), Field("field", Str(field)), Field("funName", funName)]
  }

  /** The tokens of a field-value report; `actual` is the value the message shows. */
  function FieldValueTokens(x: Value, o: Condition.Outcome, actual: Value, field: string, varName: Value, funName: Value): Fields
  {
    [Field("value", x), Field("expected", Expected(o)), Field("actual", actual),
     Field("varName", varName), Field("field", Str(field)), Field("funName", funName)]
  }

  /** An entry of the type drivers holds when its field has one of the accepted types. */
  predicate TypeHolds(v: Value, rule: TypeRule) {
    Accepts(rule.types, GetProp(v, rule.field))
  }

  /** An entry of the optional type driver holds when its field is absent or has an accepted type. */
  predicate OptionalTypeHolds(v: Value, rule: TypeRule) {
    GetProp(v, rule.field) == Undefined || TypeHolds(v, rule)
  }

  /** An entry of the value drivers holds when its field meets its condition. */
  predicate ValueHolds(v: Value, rule: ValueRule, re: Condition.Matcher) {
    Condition.Evaluate(GetProp(v, rule.field), rule.cond, re).Pass?
  }

  /** An entry of the optional value driver holds when its field is absent or meets its condition. */
  predicate OptionalValueHolds(v: Value, rule: ValueRule, re: Condition.Matcher) {
    GetProp(v, rule.field) == Undefined || ValueHolds(v, rule, re)
  }

  /** The report for one entry of `_assertFieldTypes`; an absent field's type shows as `<undefined>`. */
  function FieldTypeReport(m: Messages, v: Value, rule: TypeRule, varName: Value, funName: Value): (r: Verdict)
    ensures r.Passed? <==> TypeHolds(v, rule)
    ensures !r.TypeError?
  {
    var x := GetProp(v, rule.field);
    var actual := if TypeOf(x) == "undefined" then "<undefined>" else TypeOf(x);
    ReportAssertion(Accepts(rule.types, x), MessageOption(m.assertFieldTypes),
      FieldTypeTokens(x, rule.types, actual, rule.field, varName, funName))
  }

  /** The report for one present field of `_assertOptionalFieldTypes`; the type shows as `typeof` names it. */
  function OptionalFieldTypeReport(m: Messages, v: Value, rule: TypeRule, varName: Value, funName: Value): (r: Verdict)
    ensures r.Passed? <==> TypeHolds(v, rule)
    ensures !r.TypeError?
  {
    var x := GetProp(v, rule.field);
    ReportAssertion(Accepts(rule.types, x), MessageOption(m.assertOptionalFieldTypes),
      FieldTypeTokens(x, rule.types, TypeOf(x), rule.field, varName, funName))
  }

  /** The report for one entry of `_assertFieldValues`. */
  function FieldValueReport(m: Messages, v: Value, rule: ValueRule, re: Condition.Matcher,
                            varName: Value, funName: Value): (r: Verdict)
    ensures r.Passed? <==> ValueHolds(v, rule, re)
    ensures !r.TypeError?
  {
    var x := GetProp(v, rule.field);
    var o := Condition.Evaluate(x, rule.cond, re);
    ReportAssertion(o.Pass?, MessageOption(m.assertFieldValues),
      FieldValueTokens(x, o, Actual(o), rule.field, varName, funName))
  }

  /** `res.actual === undefined ? "<undefined>" : res.actual`. */
  function ActualOrMarker(o: Condition.Outcome): Value
  {
    if Actual(o) == Undefined then Str("<undefined>") else Actual(o)
  }

  /** The report for one present field of `_assertOptionalFieldValues`. */
  function OptionalFieldValueReport(m: Messages, v: Value, rule: ValueRule, re: Condition.Matcher,
                                    varName: Value, funName: Value): (r: Verdict)
    ensures r.Passed? <==> ValueHolds(v, rule, re)
    ensures !r.TypeError?
  {
    var x := GetProp(v, rule.field);
    var o := Condition.Evaluate(x, rule.cond, re);
    ReportAssertion(o.Pass?, MessageOption(m.assertOptionalFieldValues),
      FieldValueTokens(x, o, ActualOrMarker(o), rule.field, varName, funName))
  }

  /** The first of `rules` that `holds` rejects, or `|rules|` when every one holds. */
  function FirstFailing<R>(rules: seq<R>, holds: R -> bool): (i: nat)
    ensures i <= |rules|
    ensures i < |rules| ==> !holds(rules[i])
    ensures forall j :: 0 <= j < i ==> holds(rules[j])
    decreases |rules|
  {
    if |rules| == 0 || !holds(rules[0]) then 0
    else
      var rest := rules[1..];
      var k := FirstFailing(rest, holds);
      assert forall j :: 0 <= j < k ==> holds(rest[j]);
      assert forall j :: 0 < j < k + 1 ==> holds(rules[j]) by {
        forall j | 0 < j < k + 1 ensures holds(rules[j]) {
          assert rules[j] == rest[j - 1];
        }
      }
      assert k < |rest| ==> rules[k + 1] == rest[k] && !holds(rules[k + 1]);
      k + 1
  }

  /** The position of the first entry of the type loop that does not hold, or the number of entries. */
  function FirstUnmetType(v: Value, rules: seq<TypeRule>): (i: nat)
    ensures i <= |rules|
    ensures i < |rules| ==> !TypeHolds(v, rules[i])
    ensures forall j :: 0 <= j < i ==> TypeHolds(v, rules[j])
  {
    FirstFailing(rules, (r: TypeRule) => TypeHolds(v, r))
  }

  function FirstUnmetOptionalType(v: Value, rules: seq<TypeRule>): (i: nat)
    ensures i <= |rules|
    ensures i < |rules| ==> !OptionalTypeHolds(v, rules[i])
    ensures forall j :: 0 <= j < i ==> OptionalTypeHolds(v, rules[j])
  {
    FirstFailing(rules, (r: TypeRule) => OptionalTypeHolds(v, r))
  }

  function FirstUnmetValue(v: Value, rules: seq<ValueRule>, re: Condition.Matcher): (i: nat)
    ensures i <= |rules|
    ensures i < |rules| ==> !ValueHolds(v, rules[i], re)
    ensures forall j :: 0 <= j < i ==> ValueHolds(v, rules[j], re)
  {
    FirstFailing(rules, (r: ValueRule) => ValueHolds(v, r, re))
  }

  function FirstUnmetOptionalValue(v: Value, rules: seq<ValueRule>, re: Condition.Matcher): (i: nat)
    ensures i <= |rules|
    ensures i < |rules| ==> !OptionalValueHolds(v, rules[i], re)
    ensures forall j :: 0 <= j < i ==> OptionalValueHolds(v, rules[j], re)
  {
    FirstFailing(rules, (r: ValueRule) => OptionalValueHolds(v, r, re))
  }

  /**
   * `_assertFieldTypes(value, fields, ...)`: entries in order, the first failing
   * one throws; reading a field of `null` or `undefined` throws first.
   */
  function AssertFieldTypes(m: Messages, v: Value, rules: seq<TypeRule>, varName: Value, funName: Value): (r: Verdict)
    ensures r.TypeError? <==> Unreadable(v) && |rules| > 0
    ensures r.Failed? <==> !Unreadable(v) && FirstUnmetType(v, rules) < |rules|
    ensures r.Passed? <==> |rules| == 0 || (!Unreadable(v) && forall i :: 0 <= i < |rules| ==> TypeHolds(v, rules[i]))
    ensures r.Failed? ==> r == FieldTypeReport(m, v, rules[FirstUnmetType(v, rules)], varName, funName)
    decreases |rules|
  {
    if |rules| == 0 then Passed
    else if Unreadable(v) then TypeError
    else
      var head := FieldTypeReport(m, v, rules[0], varName, funName);
      if head.Failed? then head
      else
        var k := FirstUnmetType(v, rules[1..]);
        assert k < |rules[1..]| ==> rules[1..][k] == rules[k + 1];
        AssertFieldTypes(m, v, rules[1..], varName, funName)
  }

  /** `_assertOptionalFieldTypes(value, fields, ...)`: as above, but absent fields are skipped. */
  function AssertOptionalFieldTypes(m: Messages, v: Value, rules: seq<TypeRule>, varName: Value, funName: Value): (r: Verdict)
    ensures r.TypeError? <==> Unreadable(v) && |rules| > 0
    ensures r.Failed? <==> !Unreadable(v) && FirstUnmetOptionalType(v, rules) < |rules|
    ensures r.Passed? <==> |rules| == 0 || (!Unreadable(v) && forall i :: 0 <= i < |rules| ==> OptionalTypeHolds(v, rules[i]))
    ensures r.Failed? ==> r == OptionalFieldTypeReport(m, v, rules[FirstUnmetOptionalType(v, rules)], varName, funName)
    decreases |rules|
  {
    if |rules| == 0 then Passed
    else if Unreadable(v) then TypeError
    else
      var head := if GetProp(v, rules[0].field) == Undefined then Passed
                  else OptionalFieldTypeReport(m, v, rules[0], varName, funName);
      if head.Failed? then head
      else
        var k := FirstUnmetOptionalType(v, rules[1..]);
        assert k < |rules[1..]| ==> rules[1..][k] == rules[k + 1];
        AssertOptionalFieldTypes(m, v, rules[1..], varName, funName)
  }

  /** `_assertFieldValues(value, fields, ...)`: entries in order, the first failing one throws. */
  function AssertFieldValues(m: Messages, v: Value, rules: seq<ValueRule>, re: Condition.Matcher,
                             varName: Value, funName: Value): (r: Verdict)
    ensures r.TypeError? <==> Unreadable(v) && |rules| > 0
    ensures r.Failed? <==> !Unreadable(v) && FirstUnmetValue(v, rules, re) < |rules|
    ensures r.Passed? <==> |rules| == 0 || (!Unreadable(v) && forall i :: 0 <= i < |rules| ==> ValueHolds(v, rules[i], re))
    ensures r.Failed? ==> r == FieldValueReport(m, v, rules[FirstUnmetValue(v, rules, re)], re, varName, funName)
    decreases |rules|
  {
    if |rules| == 0 then Passed
    else if Unreadable(v) then TypeError
    else
      var head := FieldValueReport(m, v, rules[0], re, varName, funName);
      if head.Failed? then head
      else
        var k := FirstUnmetValue(v, rules[1..], re);
        assert k < |rules[1..]| ==> rules[1..][k] == rules[k + 1];
        AssertFieldValues(m, v, rules[1..], re, varName, funName)
  }

  /** `_assertOptionalFieldValues(value, fields, ...)`: as above, but absent fields are skipped. */
  function AssertOptionalFieldValues(m: Messages, v: Value, rules: seq<ValueRule>, re: Condition.Matcher,
                                     varName: Value, funName: Value): (r: Verdict)
    ensures r.TypeError? <==> Unreadable(v) && |rules| > 0
    ensures r.Failed? <==> !Unreadable(v) && FirstUnmetOptionalValue(v, rules, re) < |rules|
    ensures r.Passed? <==> |rules| == 0 || (!Unreadable(v) && forall i :: 0 <= i < |rules| ==> OptionalValueHolds(v, rules[i], re))
    ensures r.Failed? ==> r == OptionalFieldValueReport(m, v, rules[FirstUnmetOptionalValue(v, rules, re)], re, varName, funName)
    decreases |rules|
  {
    if |rules| == 0 then Passed
    else if Unreadable(v) then TypeError
    else
      var head := if GetProp(v, rules[0].field) == Undefined then Passed
                  else OptionalFieldValueReport(m, v, rules[0], re, varName, funName);
      if head.Failed? then head
      else
        var k := FirstUnmetOptionalValue(v, rules[1..], re);
        assert k < |rules[1..]| ==> rules[1..][k] == rules[k + 1];
        AssertOptionalFieldValues(m, v, rules[1..], re, varName, funName)
  }

  /** The report for one own key: it passes when the key's membership in `names` is `wanted`. */
  function KeyReport(template: string, key: string, names: seq<string>, wanted: bool,
                     varName: Value, funName: Value): (r: Verdict)
    ensures r.Passed? <==> (key in names) == wanted
    ensures !r.TypeError?
  {
    ReportAssertion((key in names) == wanted, MessageOption(template), KeyTokens(key, varName, funName))
  }

  /** The tokens of a key report. */
  function KeyTokens(key: string, varName: Value, funName: Value): Fields
  {
    [Field("field", Str(key)), Field("varName", varName), Field("funName", funName)]
  }

  /** The position of the first key whose membership in `names` is not `wanted`, or the number of keys. */
  function FirstUnwanted(keys: seq<string>, names: seq<string>, wanted: bool): (i: nat)
    ensures i <= |keys|
    ensures i < |keys| ==> (keys[i] in names) != wanted
    ensures forall j :: 0 <= j < i ==> (keys[j] in names) == wanted
    decreases |keys|
  {
    if |keys| == 0 || (keys[0] in names) != wanted then 0
    else
      var rest := keys[1..];
      var k := FirstUnwanted(rest, names, wanted);
      assert forall j :: 0 < j < k + 1 ==> (keys[j] in names) == wanted by {
        forall j | 0 < j < k + 1 ensures (keys[j] in names) == wanted {
          assert keys[j] == rest[j - 1];
        }
      }
      assert k < |rest| ==> keys[k + 1] == rest[k];
      k + 1
  }

  /**
   * One report per own key of the checked object, in enumeration order; the
   * first key whose membership in `names` is not `wanted` throws.
   */
  function KeyReports(template: string, keys: seq<string>, names: seq<string>, wanted: bool,
                      varName: Value, funName: Value): (r: Verdict)
    ensures !r.TypeError?
    ensures r.Passed? <==> forall i :: 0 <= i < |keys| ==> (keys[i] in names) == wanted
    ensures r.Failed? ==> r == KeyReport(template, keys[FirstUnwanted(keys, names, wanted)], names, wanted, varName, funName)
    decreases |keys|
  {
    if |keys| == 0 then Passed
    else
      var head := KeyReport(template, keys[0], names, wanted, varName, funName);
      if head.Failed? then head
      else
        var rest := keys[1..];
        var r := KeyReports(template, rest, names, wanted, varName, funName);
        assert (keys[0] in names) == wanted;
        var k := FirstUnwanted(rest, names, wanted);
        assert FirstUnwanted(keys, names, wanted) == k + 1;
        assert k < |rest| ==> keys[k + 1] == rest[k];
        assert r.Passed? ==> forall i :: 0 <= i < |keys| ==> (keys[i] in names) == wanted by {
          if r.Passed? {
            forall i | 0 <= i < |keys| ensures (keys[i] in names) == wanted {
              if i > 0 { assert keys[i] == rest[i - 1]; }
            }
          }
        }
        r
  }

  /** `_assertAllowedFields(value, fields, ...)`: only objects are checked; every own key must be listed. */
  function AssertAllowedFields(m: Messages, v: Value, allowed: seq<string>, varName: Value, funName: Value): (r: Verdict)
    ensures !r.TypeError?
    ensures r.Passed? <==> TypeOf(v) != "object" || forall k :: k in OwnKeys(v) ==> k in allowed
    ensures r.Failed? ==> (TypeOf(v) == "object"
      && r == KeyReport(m.assertAllowedFields, OwnKeys(v)[FirstUnwanted(OwnKeys(v), allowed, true)], allowed, true, varName, funName))
  {
    if TypeOf(v) != "object" then Passed
    else
      var r := KeyReports(m.assertAllowedFields, OwnKeys(v), allowed, true, varName, funName);
      assert r.Passed? <==> forall k :: k in OwnKeys(v) ==> k in allowed by {
        var ks := OwnKeys(v);
        assert (forall i :: 0 <= i < |ks| ==> (ks[i] in allowed) == true) <==> (forall k :: k in ks ==> k in allowed);
      }
      r
  }

  /** `_assertForbiddenFields(value, fields, ...)`: only objects are checked; no own key may be listed. */
  function AssertForbiddenFields(m: Messages, v: Value, forbidden: seq<string>, varName: Value, funName: Value): (r: Verdict)
    ensures !r.TypeError?
    ensures r.Passed? <==> TypeOf(v) != "object" || forall k :: k in OwnKeys(v) ==> k !in forbidden
    ensures r.Failed? ==> (TypeOf(v) == "object"
      && r == KeyReport(m.assertForbiddenFields, OwnKeys(v)[FirstUnwanted(OwnKeys(v), forbidden, false)], forbidden, false, varName, funName))
  {
    if TypeOf(v) != "object" then Passed
    else
      var r := KeyReports(m.assertForbiddenFields, OwnKeys(v), forbidden, false, varName, funName);
      assert r.Passed? <==> forall k :: k in OwnKeys(v) ==> k !in forbidden by {
        var ks := OwnKeys(v);
        assert (forall i :: 0 <= i < |ks| ==> (ks[i] in forbidden) == false) <==> (forall k :: k in ks ==> k !in forbidden);
      }
      r
  }

  /* ---------------------------------------------------------------------------
   * Shorthands
   * ------------------------------------------------------------------------- */

  /** The shorthands that take a scalar reference (`assertEqual` ... `assertMatchesNot`). */
  datatype Shorthand =
    | Equal | NotEqual | Lt | Lte | Gt | Gte | Divides | Multiple
    | Contains | Begins | Ends | Matches | ContainsNot | BeginsNot | EndsNot | MatchesNot

  /** The condition key each shorthand wraps its reference in. */
  function ShorthandKey(s: Shorthand): (op: Condition.Op)
    ensures op != Condition.Type && op != Condition.Integer
  {
    match s
    case Equal => Condition.Eq
    case NotEqual => Condition.Neq
    case Lt => Condition.Lt
    case Lte => Condition.Lte
    case Gt => Condition.Gt
    case Gte => Condition.Gte
    case Divides => Condition.Divides
    case Multiple => Condition.Multiple
    case Contains => Condition.Contains
    case Begins => Condition.Begins
    case Ends => Condition.Ends
    case Matches => Condition.Matches
    case ContainsNot => Condition.ContainsNot
    case BeginsNot => Condition.BeginsNot
    case EndsNot => Condition.EndsNot
    case MatchesNot => Condition.MatchesNot
  }

  /** `assertX(value, reference, ...)`: `_assertValue` with `{x: reference}` and one extra frame. */
  function AssertShorthand(m: Messages, s: Shorthand, v: Value, ref: Value, re: Condition.Matcher,
                           varName: Value, funName: Value): (r: Verdict)
    ensures r.Passed? <==> Condition.Holds(ShorthandKey(s), v, ref, re)
  {
    ConditionLaws.SingleClause(v, Condition.Check(ShorthandKey(s), ref), re);
    AssertValue(m, v, Condition.Single([Condition.Check(ShorthandKey(s), ref)]), re, varName, funName, Some(1))
  }

  /** `assertInteger(value, reference, ...)`: an omitted reference means `true`. */
  function AssertInteger(m: Messages, v: Value, ref: Value, re: Condition.Matcher,
                         varName: Value, funName: Value): (r: Verdict)
    ensures r.Passed? <==> Condition.Holds(Condition.Integer, v, if ref == Undefined then Bool(true) else ref, re)
  {
    var reference := if ref == Undefined then Bool(true) else ref;
    ConditionLaws.SingleClause(v, Condition.Check(Condition.Integer, reference), re);
    AssertValue(m, v, Condition.Single([Condition.Check(Condition.Integer, reference)]), re, varName, funName, Some(1))
  }

  /** `assertLength(value, reference, ...)`: `{length: reference}`. */
  function AssertLength(m: Messages, v: Value, c: Condition.Condition, re: Condition.Matcher,
                        varName: Value, funName: Value): (r: Verdict)
    ensures r.Passed? <==> Condition.Evaluate(Condition.LengthOf(v), c, re).Pass?
  {
    ConditionLaws.SingleClause(v, Condition.Length(c), re);
    ConditionLaws.LengthKey(v, c, re);
    AssertValue(m, v, Condition.Single([Condition.Length(c)]), re, varName, funName, Some(1))
  }

  /** `assertEach(value, reference, ...)`: `{each: reference}`. */
  function AssertEach(m: Messages, v: Value, c: Condition.Condition, re: Condition.Matcher,
                      varName: Value, funName: Value): (r: Verdict)
    ensures r.Passed? <==> !v.Arr? || forall i :: 0 <= i < |v.elems| ==> Condition.Evaluate(v.elems[i], c, re).Pass?
  {
    var cl := Condition.Each(c);
    ConditionLaws.SingleClause(v, cl, re);
    var r := AssertValue(m, v, Condition.Single([cl]), re, varName, funName, Some(1));
    assert r.Passed? <==> Condition.EvalClause(v, cl, re).Pass?;
    assert Condition.EvalClause(v, cl, re).Pass? <==>
           !v.Arr? || forall i :: 0 <= i < |v.elems| ==> Condition.Evaluate(v.elems[i], c, re).Pass? by {
      if v.Arr? {
        ConditionLaws.EachKey(v.elems, c, re);
        assert Arr(v.elems) == v;
      }
    }
    r
  }
}
