/**
 * The condition evaluator and describer (`evaluateValueCondition` in
 * src/condition.js). A condition is a literal (sugar for `{eq: literal}`), a map
 * of operator keys evaluated in declaration order (AND, first failure reported),
 * or a list of conditions (OR). A failed evaluation is an ordinary result that
 * names the failing operator, its reference, the value examined and an English
 * phrase describing what was expected.
 */
module Condition {
  import opened Wrappers
  import opened Text
  import opened Numbers
  import opened Values

  /** Operator keys whose reference is a scalar or a list of scalar alternatives. */
  datatype Op =
    | Type | Eq | Neq | Lt | Lte | Gt | Gte | Integer | Divides | Multiple
    | Contains | Begins | Ends | Matches
    | ContainsNot | BeginsNot | EndsNot | MatchesNot

  /** One key of a condition map; `length` and `each` take a nested condition. */
  datatype Clause =
    | Check(op: Op, ref: Value)
    | Length(inner: Condition)
    | Each(inner: Condition)

  datatype Condition =
    | Lit(lit: Value)
    | Single(clauses: seq<Clause>)
    | Compound(alts: seq<Condition>)

  /** A `matches` reference: pattern text, or a compiled expression with its flags. */
  datatype Pattern = Literal(text: string) | Compiled(source: string, flags: string)

  /** The host regular-expression engine: does the pattern match somewhere in the string. */
  type Matcher = (Pattern, string) -> bool

  /**
   * `{result: true}` or `{result: false, what, reference, actual, details[, index]}`;
   * `index` is present only when an `each` clause failed.
   */
  datatype Outcome =
    | Pass
    | Fail(what: string, reference: Value, actual: Value, details: string, index: Option<nat>)

  function OpName(op: Op): string
  {
    match op
    case Type => "type"
    case Eq => "eq"
    case Neq => "neq"
    case Lt => "lt"
    case Lte => "lte"
    case Gt => "gt"
    case Gte => "gte"
    case Integer => "integer"
    case Divides => "divides"
    case Multiple => "multiple"
    case Contains => "contains"
    case Begins => "begins"
    case Ends => "ends"
    case Matches => "matches"
    case ContainsNot => "containsNot"
    case BeginsNot => "beginsNot"
    case EndsNot => "endsNot"
    case MatchesNot => "matchesNot"
  }

  /** `neq` and the four `…Not` string operators. */
  predicate IsNegated(op: Op) {
    op == Neq || op == ContainsNot || op == BeginsNot || op == EndsNot || op == MatchesNot
  }

  /** The positive operator a negated one denies. */
  function Positive(op: Op): (p: Op)
    ensures !IsNegated(p)
  {
    match op
    case Neq => Eq
    case ContainsNot => Contains
    case BeginsNot => Begins
    case EndsNot => Ends
    case MatchesNot => Matches
    case _ => if IsNegated(op) then Eq else op
  }

  /** A list reference is an OR of its elements; anything else is a single alternative. */
  function Alternatives(ref: Value): (alts: seq<Value>)
    ensures !ref.Arr? ==> alts == [ref]
    ensures ref.Arr? ==> alts == ref.elems
  {
    if ref.Arr? then ref.elems else [ref]
  }

  /* ---------------------------------------------------------------------------
   * Operator semantics
   * ------------------------------------------------------------------------- */

  /** Lexicographic order on strings by character code. */
  predicate StrLess(a: string, b: string)
  {
    if |a| == 0 then |b| > 0
    else if |b| == 0 then false
    else if a[0] != b[0] then a[0] < b[0]
    else StrLess(a[1..], b[1..])
  }

  /** `a < b` for two numbers or two strings; values of different kinds are unordered. */
  predicate Below(a: Value, b: Value)
  {
    (a.Num? && b.Num? && Less(a.n, b.n)) || (a.Str? && b.Str? && StrLess(a.s, b.s))
  }

  /** `a <= b` for two numbers or two strings. */
  predicate AtMost(a: Value, b: Value)
  {
    (a.Num? && b.Num? && !Less(b.n, a.n)) || (a.Str? && b.Str? && !StrLess(b.s, a.s))
  }

  predicate IsPrefix(p: string, s: string) {
    |p| <= |s| && s[..|p|] == p
  }

  predicate IsSuffix(p: string, s: string) {
    |p| <= |s| && s[|s| - |p|..] == p
  }

  /** `p` occurs in `s` starting at index `i`. */
  predicate OccursAt(p: string, s: string, i: int) {
    0 <= i <= |s| - |p| && s[i..i + |p|] == p
  }

  predicate IsSubstring(p: string, s: string) {
    exists i | 0 <= i <= |s| :: OccursAt(p, s, i)
  }

  /** How a `matches` reference is read: strings are pattern text, regex objects compiled. */
  function PatternOf(ref: Value): Option<Pattern>
  {
    match ref
    case Str(s) => Some(Literal(s))
    case RegExp(src, flags) => Some(Compiled(src, flags))
    case _ => None
  }

  /** Does `v` satisfy the positive operator `op` against the single alternative `alt`. */
  predicate Hit(op: Op, v: Value, alt: Value, re: Matcher)
  {
    match op
    case Type => alt == Str(TypeOf(v))
    case Eq => v == alt
    case Lt => Below(v, alt)
    case Lte => AtMost(v, alt)
    case Gt => Below(alt, v)
    case Gte => AtMost(alt, v)
    case Divides => v.Num? && alt.Num? && DividesExactly(v.n, alt.n)
    case Multiple => v.Num? && alt.Num? && DividesExactly(alt.n, v.n)
    case Contains => v.Str? && alt.Str? && IsSubstring(alt.s, v.s)
    case Begins => v.Str? && alt.Str? && IsPrefix(alt.s, v.s)
    case Ends => v.Str? && alt.Str? && IsSuffix(alt.s, v.s)
    case Matches => v.Str? && PatternOf(alt).Some? && re(PatternOf(alt).value, v.s)
    case _ => false
  }

  /** Some alternative of `ref` is hit by `v` under the positive operator `op`. */
  predicate AnyHit(op: Op, v: Value, ref: Value, re: Matcher)
  {
    exists i :: 0 <= i < |Alternatives(ref)| && Hit(op, v, Alternatives(ref)[i], re)
  }

  /** An `integer` reference asks for an integer unless it is `false`. */
  predicate WantsInteger(ref: Value) {
    ref != Bool(false)
  }

  /** Does `v` satisfy the key `op` with reference `ref`. */
  predicate Holds(op: Op, v: Value, ref: Value, re: Matcher)
  {
    if op == Integer then v.Num? && IsInteger(v.n) == WantsInteger(ref)
    else if IsNegated(op) then !AnyHit(Positive(op), v, ref, re)
    else AnyHit(op, v, ref, re)
  }

  /* ---------------------------------------------------------------------------
   * Describer
   * ------------------------------------------------------------------------- */

  /** `"A", "B" or "C"`: each alternative rendered by `Show`, joined as an English list. */
  function AltList(ref: Value): string
  {
    OxfordList(ShowAll(Alternatives(ref)))
  }

  function ShowAll(vs: seq<Value>): (ts: seq<string>)
    ensures |ts| == |vs| && forall i :: 0 <= i < |vs| ==> ts[i] == Show(vs[i])
  {
    if |vs| == 0 then [] else [Show(vs[0])] + ShowAll(vs[1..])
  }

  /** The phrase naming what key `op` with reference `ref` expects. */
  function Describe(op: Op, ref: Value): string
  {
    match op
    case Type => "type " + AltList(ref)
    case Eq => AltList(ref)
    case Neq => "not " + AltList(ref)
    case Lt => "less than " + AltList(ref)
    case Lte => "less than or equal to " + AltList(ref)
    case Gt => "greater than " + AltList(ref)
    case Gte => "greater than or equal to " + AltList(ref)
    case Integer => if WantsInteger(ref) then "integer number" else "non-integer number"
    case Divides => "exact divider of " + AltList(ref)
    case Multiple => "exact multiple of " + AltList(ref)
    case Contains => "string containing " + AltList(ref)
    case Begins => "string beginning with " + AltList(ref)
    case Ends => "string ending with " + AltList(ref)
    case Matches => "string matching " + AltList(ref)
    case ContainsNot => "string not containing " + AltList(ref)
    case BeginsNot => "string not beginning with " + AltList(ref)
    case EndsNot => "string not ending with " + AltList(ref)
    case MatchesNot => "string not matching " + AltList(ref)
  }

  /* ---------------------------------------------------------------------------
   * Evaluator
   * ------------------------------------------------------------------------- */

  /** `value.length` as the `length` key reads it: characters or elements. */
  function LengthOf(v: Value): Value
  {
    match v
    case Str(s) => Num(FromInt(|s|))
    case Arr(es) => Num(FromInt(|es|))
    case _ => Undefined
  }

  /** `evaluateValueCondition(value, condition)`. */
  function Evaluate(v: Value, c: Condition, re: Matcher): Outcome
    decreases c, 0
  {
    match c
    case Lit(x) => CheckOutcome(Eq, x, v, re)
    case Single(cs) => EvalClauses(v, cs, re)
    case Compound(alts) =>
      var os := EvalAll(v, alts, re);
      if exists i :: 0 <= i < |os| && os[i].Pass? then Pass
      else Fail("compound", Obj(MergeRefs(os, [])), v, OxfordList(DetailsOf(os)), None)
  }

  /** One scalar key; a failed `type` key reports the value's type tag as the actual. */
  function CheckOutcome(op: Op, ref: Value, v: Value, re: Matcher): Outcome
  {
    if Holds(op, v, ref, re) then Pass
    else Fail(OpName(op), ref, if op == Type then Str(TypeOf(v)) else v, Describe(op, ref), None)
  }

  /** Keys in declaration order; the first failing key is the result. */
  function EvalClauses(v: Value, cs: seq<Clause>, re: Matcher): Outcome
    decreases cs, 0
  {
    if |cs| == 0 then Pass
    else
      var o := EvalClause(v, cs[0], re);
      if o.Fail? then o else EvalClauses(v, cs[1..], re)
  }

  function EvalClause(v: Value, cl: Clause, re: Matcher): Outcome
    decreases cl, 0
  {
    match cl
    case Check(op, ref) => CheckOutcome(op, ref, v, re)
    case Length(inner) =>
      var o := Evaluate(LengthOf(v), inner, re);
      if o.Pass? then Pass
      else Fail("length/" + o.what, o.reference, o.actual, "length " + o.details, o.index)
    case Each(inner) =>
      if v.Arr? then EvalEach(v.elems, 0, inner, re) else Pass
  }

  /** Elements from index `i` on; the first failing element is reported with its index. */
  function EvalEach(es: seq<Value>, i: nat, inner: Condition, re: Matcher): Outcome
    requires i <= |es|
    decreases inner, |es| - i + 1
  {
    if i == |es| then Pass
    else
      match Evaluate(es[i], inner, re)
      case Pass => EvalEach(es, i + 1, inner, re)
      case Fail(w, r, a, d, _) => Fail("each/" + w, r, a, d, Some(i))
  }

  /** The outcome of every element of a compound condition. */
  function EvalAll(v: Value, alts: seq<Condition>, re: Matcher): (os: seq<Outcome>)
    ensures |os| == |alts|
    ensures forall i :: 0 <= i < |alts| ==> os[i] == Evaluate(v, alts[i], re)
    decreases alts, 0
  {
    if |alts| == 0 then [] else [Evaluate(v, alts[0], re)] + EvalAll(v, alts[1..], re)
  }

  function DetailsOf(os: seq<Outcome>): (ds: seq<string>)
    ensures |ds| <= |os|
  {
    if |os| == 0 then []
    else if os[0].Fail? then [os[0].details] + DetailsOf(os[1..])
    else DetailsOf(os[1..])
  }

  /**
   * Reference report of a failed compound condition: one key per failing operator
   * in first-occurrence order; a key that fails in several elements collects all
   * their alternatives in one list.
   */
  function MergeRefs(os: seq<Outcome>, acc: Fields): Fields
  {
    if |os| == 0 then acc
    else if os[0].Pass? then MergeRefs(os[1..], acc)
    else MergeRefs(os[1..], MergeOne(acc, os[0].what, os[0].reference))
  }

  function MergeOne(acc: Fields, key: string, ref: Value): (r: Fields)
    ensures HasKey(acc, key) ==> Keys(r) == Keys(acc)
    ensures !HasKey(acc, key) ==> Keys(r) == Keys(acc) + [key]
    ensures !HasKey(acc, key) ==> Get(r, key) == ref
    ensures HasKey(acc, key) ==> Get(r, key) == Arr(Alternatives(Get(acc, key)) + Alternatives(ref))
    ensures forall k :: k != key ==> Get(r, k) == Get(acc, k)
  {
    if HasKey(acc, key) then Set(acc, key, Arr(Alternatives(Get(acc, key)) + Alternatives(ref)))
    else Set(acc, key, ref)
  }
}
