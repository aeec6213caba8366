/**
 * The template renderer (`parseCondition`, `evaluateCondition`, `runMacro`,
 * `extractSubs` and `replaceTokens` in src/message.js). A template mixes literal
 * text, `%name%` placeholders and `(?condition text?)` blocks. Blocks are resolved
 * first, outermost first and recursively; placeholders are substituted afterwards
 * on the block-resolved text.
 */
module Message {
  import opened Wrappers
  import opened Text
  import opened Numbers
  import opened Values
  import Condition

  /* ---------------------------------------------------------------------------
   * Block conditions
   * ------------------------------------------------------------------------- */

  datatype BinOp = StrictEq | StrictNeq | LooseEq | LooseNeq | AtLeast | AtMost | Above | Below

  function OpText(op: BinOp): (r: string)
    ensures 1 <= |r| <= 3
  {
    match op
    case StrictEq => "==="
    case StrictNeq => "!=="
    case LooseEq => "=="
    case LooseNeq => "!="
    case AtLeast => ">="
    case AtMost => "<="
    case Above => ">"
    case Below => "<"
  }

  /** The order operators are tried in at one position: every operator before its prefixes. */
  const OpOrder: seq<BinOp> := [StrictEq, StrictNeq, LooseEq, LooseNeq, AtLeast, AtMost, Above, Below]

  /** A right-hand literal; a literal that is neither quoted, boolean nor numeric reads as NaN. */
  datatype Rho = Known(v: Value) | NaN

  /** `{operator: "boolean", lho}` or `{operator, lho, rho}`. */
  datatype ConditionExpr = Presence(lho: string) | Binary(op: BinOp, lho: string, rho: Rho)

  predicate IsPrefix(p: string, s: string) {
    |p| <= |s| && s[..|p|] == p
  }

  /** The first operator of `ops` whose text starts `s`. */
  function FirstOpIn(ops: seq<BinOp>, s: string): (r: Option<BinOp>)
    ensures r.Some? ==> r.value in ops && IsPrefix(OpText(r.value), s)
    ensures r.None? ==> forall i :: 0 <= i < |ops| ==> !IsPrefix(OpText(ops[i]), s)
  {
    if |ops| == 0 then None
    else if IsPrefix(OpText(ops[0]), s) then Some(ops[0])
    else FirstOpIn(ops[1..], s)
  }

  /** The operator starting at position `i` of `t`, longest first. */
  function OpAt(t: string, i: nat): (r: Option<BinOp>)
    requires i <= |t|
    ensures r.Some? ==> i + |OpText(r.value)| <= |t| && t[i..i + |OpText(r.value)|] == OpText(r.value)
  {
    FirstOpIn(OpOrder, t[i..])
  }

  /** The first position at or after `i` where an operator starts. */
  function FindOp(t: string, i: nat): (r: Option<(nat, BinOp)>)
    requires i <= |t|
    ensures r.Some? ==> i <= r.value.0 < |t| && OpAt(t, r.value.0) == Some(r.value.1)
    ensures r.Some? ==> r.value.0 + |OpText(r.value.1)| <= |t|
    ensures r.Some? ==> forall q :: i <= q < r.value.0 ==> OpAt(t, q).None?
    ensures r.None? ==> forall q :: i <= q <= |t| ==> OpAt(t, q).None?
    decreases |t| - i
  {
    if i == |t| then None
    else match OpAt(t, i)
      case Some(op) => Some((i, op))
      case None => FindOp(t, i + 1)
  }

  /** A right-hand literal: `'text'`, `true`, `false`, or a signed decimal number. */
  function ParseLiteral(s: string): Rho
  {
    if |s| >= 2 && s[0] == '\'' && s[|s| - 1] == '\'' then Known(Str(s[1..|s| - 1]))
    else if s == "true" then Known(Bool(true))
    else if s == "false" then Known(Bool(false))
    else match ParseNumber(s)
      case Some(n) => Known(Num(n))
      case None => NaN
  }

  /** The text after the operator `op` found at position `i`. */
  function AfterOp(t: string, i: nat, op: BinOp): (r: string)
    requires i + |OpText(op)| <= |t|
    ensures |r| == |t| - i - |OpText(op)|
  {
    t[i + |OpText(op)|..]
  }

  /** `parseCondition(text)`: split at the first operator; without one, a presence test. */
  function ParseCondition(text: string): (c: ConditionExpr)
    ensures c.Presence? <==> forall q :: 0 <= q <= |Trim(text)| ==> OpAt(Trim(text), q).None?
    ensures c.Presence? ==> c.lho == Trim(text)
  {
    var t := Trim(text);
    match FindOp(t, 0)
    case None => Presence(t)
    case Some((i, op)) =>
      Binary(op, Trim(t[..i]), ParseLiteral(Trim(AfterOp(t, i, op))))
  }

  /* ---------------------------------------------------------------------------
   * Comparisons with JavaScript coercions
   * ------------------------------------------------------------------------- */

  /** `Number(v)` for the values a context holds; `None` is NaN. */
  function ToNumber(v: Value): Option<Number>
  {
    match v
    case Num(n) => Some(n)
    case Bool(b) => Some(FromInt(if b then 1 else 0))
    case Null => Some(FromInt(0))
    case Undefined => None
    case Func => None
    case Str(s) => TextToNumber(s)
    case _ => TextToNumber(ToText(v))
  }

  /** `Number(s)` for plain decimal text: surrounding whitespace ignored, empty text is zero. */
  function TextToNumber(s: string): Option<Number>
  {
    var t := Trim(s);
    if t == "" then Some(FromInt(0)) else ParseNumber(t)
  }

  /** Objects, arrays and patterns compare through their string form. */
  function ToPrimitive(v: Value): Value
  {
    if v.Arr? || v.Obj? || v.RegExp? then Str(ToText(v)) else v
  }

  predicate SameNumber(x: Option<Number>, y: Option<Number>) {
    x.Some? && y.Some? && x.value == y.value
  }

  /** `a == b` where `b` is a literal (a string, a boolean or a number). */
  predicate LooselyEqual(a: Value, b: Value)
  {
    if a.Undefined? || a.Null? || a.Func? then false
    else
      var p := ToPrimitive(a);
      if p.Str? && b.Str? then p.s == b.s
      else SameNumber(ToNumber(p), ToNumber(b))
  }

  /** `a < b` after coercion: two strings compare as text, anything else as numbers. */
  predicate LessThan(a: Value, b: Value)
  {
    var p, q := ToPrimitive(a), ToPrimitive(b);
    if p.Str? && q.Str? then Condition.StrLess(p.s, q.s)
    else
      var x, y := ToNumber(p), ToNumber(q);
      x.Some? && y.Some? && Less(x.value, y.value)
  }

  /** `a <= b` after coercion: false whenever either side is NaN. */
  predicate AtMostThan(a: Value, b: Value)
  {
    var p, q := ToPrimitive(a), ToPrimitive(b);
    if p.Str? && q.Str? then !Condition.StrLess(q.s, p.s)
    else
      var x, y := ToNumber(p), ToNumber(q);
      x.Some? && y.Some? && !Less(y.value, x.value)
  }

  /** `evaluateCondition(con, tokens)`. */
  function EvaluateCondition(c: ConditionExpr, ctx: Fields): (b: bool)
    ensures c.Binary? && c.rho.NaN? ==> (b <==> c.op == StrictNeq || c.op == LooseNeq)
    ensures c.Binary? && c.op == StrictEq && b ==> TypeOf(Get(ctx, c.lho)) == TypeOf(c.rho.v)
  {
    match c
    case Presence(name) => Get(ctx, name) != Undefined
    case Binary(op, name, rho) =>
      var a := Get(ctx, name);
      match op
      case StrictEq => rho.Known? && a == rho.v
      case StrictNeq => !(rho.Known? && a == rho.v)
      case LooseEq => rho.Known? && LooselyEqual(a, rho.v)
      case LooseNeq => !(rho.Known? && LooselyEqual(a, rho.v))
      case AtLeast => rho.Known? && AtMostThan(rho.v, a)
      case AtMost => rho.Known? && AtMostThan(a, rho.v)
      case Above => rho.Known? && LessThan(rho.v, a)
      case Below => rho.Known? && LessThan(a, rho.v)
  }

  /* ---------------------------------------------------------------------------
   * Macros and placeholders
   * ------------------------------------------------------------------------- */

  /** `runMacro(name, tokens)`; `None` when `name` is not one of the four macros. */
  function RunMacro(name: string, ctx: Fields): (r: Option<string>)
    ensures r.Some? <==> name in {"_TYPE_", "_LEN_", "_ACTUAL_", "_VALUE_"}
    ensures name == "_TYPE_" ==>
      r.value in {"undefined", "object", "boolean", "number", "string", "function"}
    ensures name == "_LEN_" && (Get(ctx, "value").Str? || Get(ctx, "value").Arr?) ==> AllDigits(r.value)
  {
    if name == "_TYPE_" then Some(TypeOf(Get(ctx, "value")))
    else if name == "_LEN_" then Some(LengthText(Get(ctx, "value")))
    else if name == "_ACTUAL_" then Some(Pretty(Get(ctx, "actual")))
    else if name == "_VALUE_" then Some(Pretty(Get(ctx, "value")))
    else None
  }

  /** `value.length` as text. */
  function LengthText(v: Value): string
  {
    match v
    case Str(s) => NatText(|s|)
    case Arr(es) => NatText(|es|)
    case Obj(fs) => ToText(Get(fs, "length"))
    case _ => "undefined"
  }

  /** What `%name%` becomes: a macro, else the context value's string form; `None` leaves it. */
  function Lookup(name: string, ctx: Fields): Option<string>
  {
    match RunMacro(name, ctx)
    case Some(r) => Some(r)
    case None => if Get(ctx, name) != Undefined then Some(ToText(Get(ctx, name))) else None
  }

  /** Length of the run of name characters at the start of `s`. */
  function NameRun(s: string): (k: nat)
    ensures k <= |s| && AllNameChars(s[..k])
    ensures k == |s| || !IsNameChar(s[k])
  {
    if |s| > 0 && IsNameChar(s[0]) then
      var k := 1 + NameRun(s[1..]);
      assert s[..k] == [s[0]] + s[1..][..k - 1];
      k
    else 0
  }

  /** Global `%name%` replacement, left to right; an unresolved placeholder stays as written. */
  function Substitute(t: string, ctx: Fields): (r: string)
    ensures NoPercent(t) ==> r == t
    decreases |t|
  {
    if |t| == 0 then ""
    else if t[0] != '%' then
      assert [t[0]] + t[1..] == t;
      [t[0]] + Substitute(t[1..], ctx)
    else
      var k := NameRun(t[1..]);
      if k > 0 && k + 1 < |t| && t[k + 1] == '%' then
        var name := t[1..k + 1];
        match Lookup(name, ctx)
        case Some(r) => r + Substitute(t[k + 2..], ctx)
        case None => t[..k + 2] + Substitute(t[k + 2..], ctx)
      else [t[0]] + Substitute(t[1..], ctx)
  }

  /* ---------------------------------------------------------------------------
   * Blocks
   * ------------------------------------------------------------------------- */

  predicate NoPercent(s: string) {
    forall i :: 0 <= i < |s| ==> s[i] != '%'
  }

  predicate OpenAt(t: string, i: int) {
    0 <= i && i + 1 < |t| && t[i] == '(' && t[i + 1] == '?'
  }

  predicate NoOpener(s: string) {
    forall q :: 0 <= q < |s| ==> !OpenAt(s, q)
  }

  predicate CloseAt(t: string, i: int) {
    0 <= i && i + 1 < |t| && t[i] == '?' && t[i + 1] == ')'
  }

  /** The first block opener at or after `i`. */
  function FirstOpen(t: string, i: nat): (r: Option<nat>)
    ensures r.Some? ==> i <= r.value && OpenAt(t, r.value)
    ensures r.Some? ==> forall q :: i <= q < r.value ==> !OpenAt(t, q)
    ensures r.None? ==> forall q :: i <= q ==> !OpenAt(t, q)
    decreases |t| - i
  {
    if i + 1 >= |t| then None
    else if OpenAt(t, i) then Some(i)
    else FirstOpen(t, i + 1)
  }

  /**
   * The closer that returns the nesting depth to zero, scanning from `i` at depth
   * `d` (the number of blocks opened since the outer opener).
   */
  function FindClose(t: string, i: nat, d: nat): (r: Option<nat>)
    ensures r.Some? ==> i <= r.value && CloseAt(t, r.value)
    decreases |t| - i
  {
    if i + 1 >= |t| then None
    else if OpenAt(t, i) then FindClose(t, i + 2, d + 1)
    else if CloseAt(t, i) then (if d == 0 then Some(i) else FindClose(t, i + 2, d - 1))
    else FindClose(t, i + 1, d)
  }

  /** Literal text, or an outermost block `(?body?)`. */
  datatype Segment = Text(text: string) | Block(body: string)

  function Raw(s: Segment): string {
    match s
    case Text(x) => x
    case Block(b) => "(?" + b + "?)"
  }

  /**
   * The template cut into literal text and outermost blocks; a block's nested
   * blocks stay inside its body. An opener without a closer stays literal text.
   */
  function Segments(t: string): (segs: seq<Segment>)
    ensures forall i :: 0 <= i < |segs| && segs[i].Block? ==> |segs[i].body| + 4 <= |t|
    decreases |t|
  {
    match FirstOpen(t, 0)
    case None => if t == "" then [] else [Text(t)]
    case Some(p) =>
      match FindClose(t, p + 2, 0)
      case None => [Text(t)]
      case Some(j) =>
        (if p == 0 then [] else [Text(t[..p])]) + [Block(t[p + 2..j])] + Segments(t[j + 2..])
  }

  /** Where the right-hand literal of a block condition starting at `l` ends. */
  function LiteralEnd(b: string, l: nat): (e: nat)
    requires l <= |b|
    ensures l <= e <= |b|
  {
    if l < |b| && b[l] == '\'' && exists q :: l < q < |b| && b[q] == '\'' then
      l + 2 + QuoteRun(b[l + 1..])
    else l + NonSpaceRun(b[l..])
  }

  /** Length of the text before the first `'` of `s`. */
  function QuoteRun(s: string): (k: nat)
    ensures k <= |s| && (k < |s| ==> s[k] == '\'')
    ensures (exists q :: 0 <= q < |s| && s[q] == '\'') ==> k < |s|
  {
    if |s| == 0 then 0
    else if s[0] == '\'' then 0
    else
      var k := 1 + QuoteRun(s[1..]);
      assert (exists q :: 0 <= q < |s| && s[q] == '\'') ==> exists q :: 0 <= q < |s[1..]| && s[1..][q] == '\'' by {
        if exists q :: 0 <= q < |s| && s[q] == '\'' {
          var q :| 0 <= q < |s| && s[q] == '\'';
          assert s[1..][q - 1] == '\'';
        }
      }
      k
  }

  function NonSpaceRun(s: string): (k: nat)
    ensures k <= |s|
    ensures forall i :: 0 <= i < k ==> !IsSpace(s[i])
    ensures k == |s| || IsSpace(s[k])
  {
    if |s| > 0 && !IsSpace(s[0]) then 1 + NonSpaceRun(s[1..]) else 0
  }

  /** The first position at or after `i` that does not hold whitespace. */
  function SkipSpaces(b: string, i: nat): (j: nat)
    requires i <= |b|
    ensures i <= j <= |b|
  {
    i + LeadingSpaces(b[i..])
  }

  /** Where the name at the start of a block body ends. */
  function NameEnd(b: string): (e: nat)
    ensures e <= |b|
  {
    var i := SkipSpaces(b, 0);
    i + NameRun(b[i..])
  }

  /** Where the condition of a block body ends: a name, then optionally an operator and a literal. */
  function ConditionEnd(b: string): (e: nat)
    ensures e <= |b|
  {
    var e := NameEnd(b);
    var w := SkipSpaces(b, e);
    match OpAt(b, w)
    case None => e
    case Some(op) => LiteralEnd(b, LiteralStart(b, w, op))
  }

  /** Where the literal after the operator `op` found at `w` starts. */
  function LiteralStart(b: string, w: nat, op: BinOp): (l: nat)
    requires w + |OpText(op)| <= |b|
    ensures l <= |b|
  {
    SkipSpaces(b, w + |OpText(op)|)
  }

  /** `{con, msg}` of one block: the parsed condition and the right-trimmed rest of its body. */
  datatype Sub = Sub(raw: string, con: ConditionExpr, msg: string)

  function ParseBlock(b: string): (s: Sub)
    ensures |s.msg| <= |b|
  {
    var e := ConditionEnd(b);
    Sub("(?" + b + "?)", ParseCondition(b[..e]), TrimRight(b[e..]))
  }

  /**
   * `extractSubs(text)`: an object keyed by the raw text of each outermost block, so a
   * block written twice is one entry; the keys keep the order of first appearance.
   */
  function ExtractSubs(t: string): (subs: seq<Sub>)
    ensures forall i, j :: 0 <= i < j < |subs| ==> subs[i].raw != subs[j].raw
    ensures forall s :: s in subs ==> s in BlockSubs(Segments(t))
    ensures forall s :: s in BlockSubs(Segments(t)) ==> exists i :: 0 <= i < |subs| && subs[i].raw == s.raw
  {
    FirstByRaw(BlockSubs(Segments(t)), [])
  }

  /** `seen`, then each of `subs` whose raw text is not yet a key, in order. */
  function FirstByRaw(subs: seq<Sub>, seen: seq<Sub>): (r: seq<Sub>)
    requires forall i, j :: 0 <= i < j < |seen| ==> seen[i].raw != seen[j].raw
    ensures forall i, j :: 0 <= i < j < |r| ==> r[i].raw != r[j].raw
    ensures forall s :: s in r ==> s in seen || s in subs
    ensures forall s :: s in seen || s in subs ==> exists i :: 0 <= i < |r| && r[i].raw == s.raw
    decreases |subs|
  {
    if |subs| == 0 then seen
    else if exists i :: 0 <= i < |seen| && seen[i].raw == subs[0].raw then FirstByRaw(subs[1..], seen)
    else FirstByRaw(subs[1..], seen + [subs[0]])
  }

  function BlockSubs(segs: seq<Segment>): seq<Sub>
  {
    if |segs| == 0 then []
    else if segs[0].Block? then [ParseBlock(segs[0].body)] + BlockSubs(segs[1..])
    else BlockSubs(segs[1..])
  }

  /* ---------------------------------------------------------------------------
   * Rendering
   * ------------------------------------------------------------------------- */

  /** `replaceTokens(text, tokens)`. */
  function ReplaceTokens(t: string, ctx: Fields): (r: string)
    ensures NoPercent(t) && NoOpener(t) ==> r == t
    decreases |t| + 1, 0
  {
    var segs := Segments(t);
    assert NoOpener(t) ==> segs == if t == "" then [] else [Text(t)];
    assert NoOpener(t) && t != "" ==> segs[1..] == [] && ResolveSegments(t, segs, ctx) == t + "";
    Substitute(ResolveSegments(t, segs, ctx), ctx)
  }

  /** Blocks whose condition holds become their rendered message; the others vanish. */
  function ResolveSegments(t: string, segs: seq<Segment>, ctx: Fields): string
    requires forall i :: 0 <= i < |segs| && segs[i].Block? ==> |segs[i].body| + 4 <= |t|
    decreases |t|, |segs|
  {
    if |segs| == 0 then ""
    else
      var head :=
        match segs[0]
        case Text(x) => x
        case Block(b) =>
          var sub := ParseBlock(b);
          if EvaluateCondition(sub.con, ctx) then ReplaceTokens(sub.msg, ctx) else "";
      head + ResolveSegments(t, segs[1..], ctx)
  }
}
