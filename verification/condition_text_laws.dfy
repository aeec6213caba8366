/**
 * Laws of the block-condition grammar of the template renderer: `parseCondition`
 * reads back every condition written as a name, an operator and a literal with
 * any surrounding whitespace; a bare name is a presence test; and the evaluator's
 * comparisons follow JavaScript's coercions.
 */
module ConditionTextLaws {
  import opened Wrappers
  import opened Text
  import opened Numbers
  import opened Values
  import opened Message
  import ConditionLaws
  import MessageLaws

  /* ---------------------------------------------------------------------------
   * Operator scanning
   * ------------------------------------------------------------------------- */

  /** The characters an operator can start with. */
  predicate IsOpChar(c: char) {
    c == '=' || c == '!' || c == '<' || c == '>'
  }

  lemma OpTextStart(op: BinOp)
    ensures IsOpChar(OpText(op)[0])
  {
  }

  /** No operator starts at a position that does not hold an operator character. */
  lemma NoOpHere(t: string, q: nat)
    requires q <= |t| && (q == |t| || !IsOpChar(t[q]))
    ensures OpAt(t, q).None?
  {
    forall op: BinOp ensures !IsPrefix(OpText(op), t[q..]) {
      OpTextStart(op);
      if q < |t| {
        assert t[q..][0] == t[q];
      }
    }
  }

  /** The first operator of a text whose prefix holds no operator character. */
  lemma {:induction false} FindOpAt(t: string, i: nat, p: nat, op: BinOp)
    requires i <= p < |t| && OpAt(t, p) == Some(op)
    requires forall q :: i <= q < p ==> !IsOpChar(t[q])
    ensures FindOp(t, i) == Some((p, op))
    decreases p - i
  {
    if i < p {
      NoOpHere(t, i);
      FindOpAt(t, i + 1, p, op);
    }
  }

  /** Text without operator characters holds no operator. */
  lemma FindOpNone(t: string)
    requires forall q :: 0 <= q < |t| ==> !IsOpChar(t[q])
    ensures FindOp(t, 0).None?
  {
    var r := FindOp(t, 0);
    if r.Some? {
      NoOpHere(t, r.value.0);
    }
  }

  /** Every character of an operator is an operator character. */
  lemma OpTextChars(op: BinOp)
    ensures forall i :: 0 <= i < |OpText(op)| ==> IsOpChar(OpText(op)[i])
  {
  }

  /** Where an operator stands in `OpOrder`. */
  function OpIndex(op: BinOp): (k: nat)
    ensures k < |OpOrder| && OpOrder[k] == op
  {
    match op
    case StrictEq => 0
    case StrictNeq => 1
    case LooseEq => 2
    case LooseNeq => 3
    case AtLeast => 4
    case AtMost => 5
    case Above => 6
    case Below => 7
  }

  /** `OpOrder` is longest first: an operator whose text starts another's is tried after it. */
  lemma OpOrderLongestFirst(o: BinOp, op: BinOp)
    ensures IsPrefix(OpText(o), OpText(op)) ==> OpIndex(op) <= OpIndex(o)
  {
    var w, u := OpText(o), OpText(op);
    assert IsPrefix(w, u) ==> w[0] == u[..|w|][0] == u[0];
    assert IsPrefix(w, u) && |w| >= 2 ==> w[1] == u[..|w|][1] == u[1];
  }

  /** An operator followed by a non-operator character only has its own prefixes there. */
  lemma PrefixOfWritten(o: BinOp, op: BinOp, rest: string)
    requires |rest| == 0 || !IsOpChar(rest[0])
    ensures IsPrefix(OpText(o), OpText(op) + rest) ==> IsPrefix(OpText(o), OpText(op))
  {
    if IsPrefix(OpText(o), OpText(op) + rest) {
      PrefixOfWrittenAt(o, op, rest);
    }
  }

  lemma PrefixOfWrittenAt(o: BinOp, op: BinOp, rest: string)
    requires |rest| == 0 || !IsOpChar(rest[0])
    requires IsPrefix(OpText(o), OpText(op) + rest)
    ensures IsPrefix(OpText(o), OpText(op))
  {
    var s := OpText(op) + rest;
    var w := OpText(o);
    OpTextChars(o);
    assert forall i :: 0 <= i < |w| ==> IsOpChar(s[i]) by {
      forall i | 0 <= i < |w| ensures IsOpChar(s[i]) { assert s[..|w|][i] == s[i]; }
    }
    assert |s| > |OpText(op)| ==> s[|OpText(op)|] == rest[0];
    assert s[..|w|] == OpText(op)[..|w|];
  }

  /** The first operator of `ops` is the one at the first index whose text starts `s`. */
  lemma {:induction false} FirstOpInIndex(ops: seq<BinOp>, s: string, k: nat)
    requires k < |ops| && IsPrefix(OpText(ops[k]), s)
    requires forall j :: 0 <= j < k ==> !IsPrefix(OpText(ops[j]), s)
    ensures FirstOpIn(ops, s) == Some(ops[k])
    decreases k
  {
    if k > 0 {
      FirstOpInIndex(ops[1..], s, k - 1);
    }
  }

  /**
   * Longest match: an operator followed by anything but another operator
   * character is read as itself, not as a shorter or longer one.
   */
  lemma OpFollowedBy(op: BinOp, rest: string)
    requires |rest| == 0 || !IsOpChar(rest[0])
    ensures FirstOpIn(OpOrder, OpText(op) + rest) == Some(op)
  {
    var s := OpText(op) + rest;
    var k := OpIndex(op);
    assert s[..|OpText(op)|] == OpText(op);
    forall j | 0 <= j < k ensures !IsPrefix(OpText(OpOrder[j]), s) {
      var o := OpOrder[j];
      assert OpIndex(o) == j;
      PrefixOfWritten(o, op, rest);
      OpOrderLongestFirst(o, op);
    }
    FirstOpInIndex(OpOrder, s, k);
  }

  /* ---------------------------------------------------------------------------
   * Literals
   * ------------------------------------------------------------------------- */

  /** A right-hand side the grammar can write: a string, a boolean or a number. */
  predicate IsLiteral(v: Value) {
    v.Str? || v.Bool? || v.Num?
  }

  /** The written form of a literal: `'text'`, `true`, `false`, `-42.5`. */
  function LitText(v: Value): string
    requires IsLiteral(v)
  {
    match v
    case Str(s) => "'" + s + "'"
    case Bool(b) => if b then "true" else "false"
    case Num(n) => NumText(n)
  }

  /** Every literal reads back as the value it was written from. */
  lemma LiteralRoundTrip(v: Value)
    requires IsLiteral(v)
    ensures ParseLiteral(LitText(v)) == Known(v)
  {
    match v
    case Str(s) =>
      var t := LitText(v);
      assert t[1..|t| - 1] == s;
    case Bool(b) =>
    case Num(n) =>
      NumTextEnds(n);
      NumTextRoundTrip(n);
      var t := NumText(n);
      assert t != "true" && t != "false" by {
        assert t[0] != 't' && t[0] != 'f';
      }
  }

  /** A written literal is delimited by characters that are neither space nor operator. */
  lemma LitTextEnds(v: Value)
    requires IsLiteral(v)
    ensures |LitText(v)| > 0
    ensures !IsSpace(LitText(v)[0]) && !IsOpChar(LitText(v)[0])
    ensures !IsSpace(LitText(v)[|LitText(v)| - 1])
  {
    if v.Num? {
      NumTextEnds(v.n);
    }
  }

  /* ---------------------------------------------------------------------------
   * parseCondition
   * ------------------------------------------------------------------------- */

  lemma NameChars(n: string)
    requires AllNameChars(n)
    ensures forall q :: 0 <= q < |n| ==> !IsSpace(n[q]) && !IsOpChar(n[q])
  {
  }

  /** A bare name, with any whitespace around it, is a presence test of that name. */
  lemma ParsePresence(s1: string, n: string, s2: string)
    requires AllSpace(s1) && AllSpace(s2)
    requires |n| > 0 && AllNameChars(n)
    ensures ParseCondition(s1 + n + s2) == Presence(n)
  {
    NameChars(n);
    TrimSurrounded(s1, n, s2);
    FindOpNone(n);
  }

  /** The trimmed text of a written condition, split where the operator starts. */
  lemma BinaryPieces(n: string, s2: string, op: BinOp, s3: string, l: string, t: string, p: nat)
    requires AllSpace(s2) && AllSpace(s3) && |n| > 0 && AllNameChars(n)
    requires |l| > 0 && !IsSpace(l[0]) && !IsOpChar(l[0])
    requires t == n + s2 + OpText(op) + s3 + l && p == |n| + |s2|
    ensures p + |OpText(op)| <= |t| && t[..p] == n + s2
    ensures t[p..] == OpText(op) + (s3 + l) && t[p + |OpText(op)|..] == s3 + l
    ensures forall q :: 0 <= q < p ==> !IsOpChar(t[q])
    ensures |s3 + l| == 0 || !IsOpChar((s3 + l)[0])
  {
    NameChars(n);
    assert t == (n + s2) + (OpText(op) + (s3 + l));
    forall q | 0 <= q < p ensures !IsOpChar(t[q]) {
      assert t[q] == (n + s2)[q];
      if q >= |n| {
        assert (n + s2)[q] == s2[q - |n|];
      }
    }
    if |s3| == 0 {
      assert s3 + l == l;
    } else {
      assert (s3 + l)[0] == s3[0];
    }
  }

  /**
   * Round trip of the condition grammar: a name, an operator and a literal, with
   * any whitespace before, between and after them, parse back to exactly that
   * binary condition. Whitespace between the operator and the literal is optional
   * because no literal starts with an operator character.
   */
  lemma ParseBinary(s1: string, n: string, s2: string, op: BinOp, s3: string, v: Value, s4: string)
    requires AllSpace(s1) && AllSpace(s2) && AllSpace(s3) && AllSpace(s4)
    requires |n| > 0 && AllNameChars(n) && IsLiteral(v)
    ensures ParseCondition(s1 + n + s2 + OpText(op) + s3 + LitText(v) + s4) == Binary(op, n, Known(v))
  {
    var text := s1 + n + s2 + OpText(op) + s3 + LitText(v) + s4;
    var t := n + s2 + OpText(op) + s3 + LitText(v);
    var p := |n| + |s2|;
    WrittenTrim(s1, n, s2, op, s3, v, s4, text, t);
    WrittenOp(n, s2, op, s3, v, t, p);
    WrittenSides(n, s2, op, s3, v, t, p);
    ParseConditionAt(text, t, p, op, n, Known(v));
  }

  lemma WrittenTrim(s1: string, n: string, s2: string, op: BinOp, s3: string, v: Value, s4: string,
                    text: string, t: string)
    requires AllSpace(s1) && AllSpace(s4)
    requires |n| > 0 && AllNameChars(n) && IsLiteral(v)
    requires text == s1 + n + s2 + OpText(op) + s3 + LitText(v) + s4
    requires t == n + s2 + OpText(op) + s3 + LitText(v)
    ensures Trim(text) == t
  {
    var l := LitText(v);
    LitTextEnds(v);
    NameChars(n);
    Enclose(s1, n, s2, OpText(op), s3, l, s4);
    assert t[0] == n[0] && t[|t| - 1] == l[|l| - 1];
    TrimSurrounded(s1, t, s4);
  }

  lemma WrittenOp(n: string, s2: string, op: BinOp, s3: string, v: Value, t: string, p: nat)
    requires AllSpace(s2) && AllSpace(s3) && |n| > 0 && AllNameChars(n) && IsLiteral(v)
    requires t == n + s2 + OpText(op) + s3 + LitText(v) && p == |n| + |s2|
    ensures p + |OpText(op)| <= |t| && FindOp(t, 0) == Some((p, op))
  {
    var l := LitText(v);
    LitTextEnds(v);
    BinaryPieces(n, s2, op, s3, l, t, p);
    OpFollowedBy(op, s3 + l);
    FindOpAt(t, 0, p, op);
  }

  lemma WrittenSides(n: string, s2: string, op: BinOp, s3: string, v: Value, t: string, p: nat)
    requires AllSpace(s2) && AllSpace(s3) && |n| > 0 && AllNameChars(n) && IsLiteral(v)
    requires t == n + s2 + OpText(op) + s3 + LitText(v) && p == |n| + |s2|
    ensures p + |OpText(op)| <= |t| && Trim(t[..p]) == n
    ensures p + |OpText(op)| <= |t| && ParseLiteral(Trim(AfterOp(t, p, op))) == Known(v)
  {
    var l := LitText(v);
    LitTextEnds(v);
    BinaryPieces(n, s2, op, s3, l, t, p);
    LeftSide(n, s2, t[..p]);
    RightSide(s3, v, AfterOp(t, p, op));
  }

  lemma LeftSide(n: string, s2: string, r: string)
    requires AllSpace(s2) && |n| > 0 && AllNameChars(n) && r == n + s2
    ensures Trim(r) == n
  {
    NameChars(n);
    assert r == "" + n + s2;
    TrimSurrounded("", n, s2);
  }

  lemma RightSide(s3: string, v: Value, r: string)
    requires AllSpace(s3) && IsLiteral(v) && r == s3 + LitText(v)
    ensures ParseLiteral(Trim(r)) == Known(v)
  {
    var l := LitText(v);
    LitTextEnds(v);
    assert r == s3 + l + "";
    TrimSurrounded(s3, l, "");
    LiteralRoundTrip(v);
  }

  /** `parseCondition` splits the trimmed text where the first operator starts. */
  lemma ParseConditionAt(text: string, t: string, p: nat, op: BinOp, n: string, rho: Rho)
    requires Trim(text) == t && FindOp(t, 0) == Some((p, op))
    requires p + |OpText(op)| <= |t|
    requires Trim(t[..p]) == n && ParseLiteral(Trim(AfterOp(t, p, op))) == rho
    ensures ParseCondition(text) == Binary(op, n, rho)
  {
  }

  /* ---------------------------------------------------------------------------
   * Block bodies (extractSubs)
   * ------------------------------------------------------------------------- */

  /** A block body starts with optional whitespace and the condition's name. */
  lemma BodyHead(s1: string, n: string, rest: string, b: string)
    requires AllSpace(s1) && |n| > 0 && AllNameChars(n) && (|rest| == 0 || !IsNameChar(rest[0]))
    requires b == s1 + n + rest
    ensures NameEnd(b) == |s1| + |n| && b[|s1| + |n|..] == rest
  {
    NameChars(n);
    assert b == s1 + (n + rest);
    assert b[0..] == b;
    LeadingSpacesOf(s1, n + rest);
    assert b[|s1|..] == n + rest;
    MessageLaws.NameRunOf(n, rest);
  }

  /** Skipping whitespace that is followed by a non-space character. */
  lemma SkipOver(b: string, i: nat, sp: string, rest: string)
    requires i <= |b| && b[i..] == sp + rest && AllSpace(sp) && |rest| > 0 && !IsSpace(rest[0])
    ensures SkipSpaces(b, i) == i + |sp|
  {
    LeadingSpacesOf(sp, rest);
  }

  /** Where the condition ends when no operator follows the name. */
  lemma ConditionEndPresence(b: string, e: nat, w: nat)
    requires NameEnd(b) == e && SkipSpaces(b, e) == w && OpAt(b, w).None?
    ensures ConditionEnd(b) == e
  {
  }

  /** Where the condition ends when an operator follows the name: after the literal. */
  lemma ConditionEndBinary(b: string, e: nat, w: nat, op: BinOp, l0: nat)
    requires NameEnd(b) == e && SkipSpaces(b, e) == w && OpAt(b, w) == Some(op)
    requires w + |OpText(op)| <= |b| && LiteralStart(b, w, op) == l0
    ensures ConditionEnd(b) == LiteralEnd(b, l0)
  {
  }

  /** A literal that the block grammar can delimit: a string literal holds no quote. */
  predicate Unquoted(v: Value) {
    v.Str? ==> forall i :: 0 <= i < |v.s| ==> v.s[i] != '\''
  }

  lemma {:induction false} QuoteRunOf(x: string, rest: string)
    requires forall i :: 0 <= i < |x| ==> x[i] != '\''
    requires |rest| > 0 && rest[0] == '\''
    ensures QuoteRun(x + rest) == |x|
    decreases |x|
  {
    if |x| > 0 {
      assert (x + rest)[0] == x[0];
      assert (x + rest)[1..] == x[1..] + rest;
      QuoteRunOf(x[1..], rest);
    } else {
      assert x + rest == rest;
    }
  }

  lemma {:induction false} NonSpaceRunOf(x: string, rest: string)
    requires forall i :: 0 <= i < |x| ==> !IsSpace(x[i])
    requires |rest| == 0 || IsSpace(rest[0])
    ensures NonSpaceRun(x + rest) == |x|
    decreases |x|
  {
    if |x| > 0 {
      assert (x + rest)[0] == x[0];
      assert (x + rest)[1..] == x[1..] + rest;
      NonSpaceRunOf(x[1..], rest);
    } else {
      assert x + rest == rest;
    }
  }

  /** Booleans and numbers are written without whitespace or quotes. */
  lemma BareLiteralChars(v: Value)
    requires v.Bool? || v.Num?
    ensures forall i :: 0 <= i < |LitText(v)| ==> !IsSpace(LitText(v)[i]) && LitText(v)[i] != '\''
  {
    if v.Num? {
      NumTextChars(v.n);
    }
  }

  /**
   * How a written literal can be delimited: a quoted string holding no other
   * quote, or a run of characters that are neither whitespace nor quotes.
   */
  predicate Delimited(l: string) {
    && |l| > 0 && !IsSpace(l[0]) && !IsOpChar(l[0])
    && if l[0] == '\'' then |l| >= 2 && l[|l| - 1] == '\'' && forall i :: 0 < i < |l| - 1 ==> l[i] != '\''
       else forall i :: 0 <= i < |l| ==> !IsSpace(l[i]) && l[i] != '\''
  }

  lemma LitTextDelimited(v: Value)
    requires IsLiteral(v) && Unquoted(v)
    ensures Delimited(LitText(v))
  {
    LitTextEnds(v);
    var l := LitText(v);
    if v.Str? {
      forall i | 0 < i < |l| - 1 ensures l[i] != '\'' {
        assert l[i] == v.s[i - 1];
      }
    } else {
      BareLiteralChars(v);
    }
  }

  /** The block grammar finds the end of a delimited literal followed by whitespace or the body's end. */
  lemma LiteralEndOf(b: string, l0: nat, l: string, m: string)
    requires Delimited(l) && (|m| == 0 || IsSpace(m[0]))
    requires l0 <= |b| && b[l0..] == l + m
    ensures LiteralEnd(b, l0) == l0 + |l|
  {
    assert b[l0] == l[0];
    if l[0] == '\'' {
      var x := l[1..|l| - 1];
      assert l == "'" + x + "'";
      forall i | 0 <= i < |x| ensures x[i] != '\'' {
        assert x[i] == l[i + 1];
      }
      assert b[l0 + |x| + 1] == '\'';
      assert b[l0 + 1..] == x + ("'" + m);
      QuoteRunOf(x, "'" + m);
    } else {
      NonSpaceRunOf(l, m);
    }
  }

  /**
   * `extractSubs` on a block holding a bare name: the condition is a presence
   * test of that name and the message is the rest of the body, right-trimmed,
   * whitespace after the name included.
   */
  lemma BlockPresence(s1: string, n: string, m: string)
    requires AllSpace(s1) && |n| > 0 && AllNameChars(n)
    requires |m| == 0 || !IsNameChar(m[0])
    requires TrimLeft(m) == [] || !IsOpChar(TrimLeft(m)[0])
    ensures ParseBlock(s1 + n + m) == Sub("(?" + (s1 + n + m) + "?)", Presence(n), TrimRight(m))
  {
    var b := s1 + n + m;
    var e := |s1| + |n|;
    BodyHead(s1, n, m, b);
    var w := SkipSpaces(b, e);
    assert w == e + LeadingSpaces(m);
    if w < |b| {
      assert b[w] == TrimLeft(m)[0];
    }
    NoOpHere(b, w);
    ConditionEndPresence(b, e, w);
    assert b[..e] == s1 + n + "";
    ParsePresence(s1, n, "");
  }

  /**
   * `extractSubs` on a block holding a written condition and a message: the
   * condition parses back to the written one and the message starts after the
   * literal (a string literal ends at its closing quote, any other at whitespace).
   */
  lemma BlockBinary(s1: string, n: string, s2: string, op: BinOp, s3: string, v: Value, m: string)
    requires AllSpace(s1) && AllSpace(s2) && AllSpace(s3)
    requires |n| > 0 && AllNameChars(n) && IsLiteral(v) && Unquoted(v)
    requires |m| == 0 || IsSpace(m[0])
    ensures var b := s1 + n + s2 + OpText(op) + s3 + LitText(v) + m;
      ParseBlock(b) == Sub("(?" + b + "?)", Binary(op, n, Known(v)), TrimRight(m))
  {
    var c := s1 + n + s2 + OpText(op) + s3 + LitText(v);
    var b := c + m;
    Regroup(s1, n, s2, OpText(op), s3, LitText(v), m);
    BinaryEnd(s1, n, s2, op, s3, v, m, b);
    assert b[..|c|] == c + "";
    assert b[|c|..] == m;
    ParseBinary(s1, n, s2, op, s3, v, "");
  }

  /** The condition of a block ends right after its literal. */
  lemma BinaryEnd(s1: string, n: string, s2: string, op: BinOp, s3: string, v: Value, m: string, b: string)
    requires AllSpace(s1) && AllSpace(s2) && AllSpace(s3)
    requires |n| > 0 && AllNameChars(n) && IsLiteral(v) && Unquoted(v)
    requires |m| == 0 || IsSpace(m[0])
    requires b == s1 + n + (s2 + (OpText(op) + (s3 + (LitText(v) + m))))
    ensures ConditionEnd(b) == |s1| + |n| + |s2| + |OpText(op)| + |s3| + |LitText(v)|
  {
    var l := LitText(v);
    LitTextDelimited(v);
    BinaryFront(s1, n, s2, op, s3 + (l + m), b);
    BinaryTail(b, |s1| + |n|, |s1| + |n| + |s2|, op, s3, l, m);
  }

  /** Past the operator, the condition ends right after the literal. */
  lemma BinaryTail(b: string, e: nat, w: nat, op: BinOp, s3: string, l: string, m: string)
    requires AllSpace(s3) && Delimited(l)
    requires |m| == 0 || IsSpace(m[0])
    requires NameEnd(b) == e && SkipSpaces(b, e) == w
    requires w <= |b| && b[w..] == OpText(op) + (s3 + (l + m))
    ensures ConditionEnd(b) == w + |OpText(op)| + |s3| + |l|
  {
    var l0 := w + |OpText(op)| + |s3|;
    BinaryBack(b, w, op, s3, l, m);
    assert OpAt(b, w) == Some(op) && LiteralStart(b, w, op) == l0;
    assert l0 <= |b| && b[l0..] == l + m;
    BinaryLiteral(b, e, w, op, l0, l, m);
  }

  /** Once the operator is read, the condition ends where its delimited literal does. */
  lemma BinaryLiteral(b: string, e: nat, w: nat, op: BinOp, l0: nat, l: string, m: string)
    requires Delimited(l) && (|m| == 0 || IsSpace(m[0]))
    requires NameEnd(b) == e && SkipSpaces(b, e) == w && OpAt(b, w) == Some(op)
    requires w + |OpText(op)| <= l0 <= |b| && LiteralStart(b, w, op) == l0
    requires b[l0..] == l + m
    ensures ConditionEnd(b) == l0 + |l|
  {
    LiteralEndOf(b, l0, l, m);
    ConditionEndBinary(b, e, w, op, l0);
  }

  lemma Enclose(a: string, b: string, c: string, d: string, e: string, f: string, g: string)
    ensures a + b + c + d + e + f + g == a + (b + c + d + e + f) + g
  {
  }

  lemma Regroup(a: string, b: string, c: string, d: string, e: string, f: string, g: string)
    ensures a + b + c + d + e + f + g == a + b + (c + (d + (e + (f + g))))
    ensures |a + b + c + d + e + f| == |a| + |b| + |c| + |d| + |e| + |f|
  {
  }

  /** The grammar reads the name up to the spaces before the operator and skips those spaces. */
  lemma BinaryFront(s1: string, n: string, s2: string, op: BinOp, tail: string, b: string)
    requires AllSpace(s1) && AllSpace(s2)
    requires |n| > 0 && AllNameChars(n)
    requires b == s1 + n + (s2 + (OpText(op) + tail))
    ensures NameEnd(b) == |s1| + |n|
    ensures SkipSpaces(b, |s1| + |n|) == |s1| + |n| + |s2|
    ensures b[|s1| + |n| + |s2|..] == OpText(op) + tail
  {
    OpTextStart(op);
    var rest := s2 + (OpText(op) + tail);
    assert |rest| == 0 || !IsNameChar(rest[0]) by {
      if |s2| > 0 { assert rest[0] == s2[0]; } else { assert rest[0] == OpText(op)[0]; }
    }
    BodyHead(s1, n, rest, b);
    assert (OpText(op) + tail)[0] == OpText(op)[0];
    SkipOver(b, |s1| + |n|, s2, OpText(op) + tail);
    assert b[|s1| + |n| + |s2|..] == b[|s1| + |n|..][|s2|..];
  }

  /** From the operator on: the operator is found and the literal starts after the spaces that follow it. */
  lemma BinaryBack(b: string, w: nat, op: BinOp, s3: string, l: string, m: string)
    requires AllSpace(s3) && Delimited(l)
    requires w <= |b| && b[w..] == OpText(op) + (s3 + (l + m))
    ensures OpAt(b, w) == Some(op)
    ensures w + |OpText(op)| + |s3| <= |b|
    ensures LiteralStart(b, w, op) == w + |OpText(op)| + |s3|
    ensures b[w + |OpText(op)| + |s3|..] == l + m
  {
    var tail := s3 + (l + m);
    assert |tail| == 0 || !IsOpChar(tail[0]) by {
      if |s3| > 0 { assert tail[0] == s3[0]; } else { assert tail[0] == (l + m)[0] == l[0]; }
    }
    BodyOp(b, w, op, tail);
    assert b[w + |OpText(op)|..] == b[w..][|OpText(op)|..];
    assert (l + m)[0] == l[0];
    BodyLiteralStart(b, w, op, s3, l + m);
  }

  lemma BodyOp(b: string, w: nat, op: BinOp, tail: string)
    requires w <= |b| && b[w..] == OpText(op) + tail
    requires |tail| == 0 || !IsOpChar(tail[0])
    ensures OpAt(b, w) == Some(op)
  {
    OpFollowedBy(op, tail);
  }

  lemma BodyLiteralStart(b: string, w: nat, op: BinOp, s3: string, rest: string)
    requires w + |OpText(op)| <= |b| && b[w + |OpText(op)|..] == s3 + rest
    requires AllSpace(s3) && |rest| > 0 && !IsSpace(rest[0])
    ensures LiteralStart(b, w, op) == w + |OpText(op)| + |s3|
    ensures b[w + |OpText(op)| + |s3|..] == rest
  {
    SkipAfter(b, w + |OpText(op)|, s3, rest);
  }

  lemma SkipAfter(b: string, a: nat, s3: string, rest: string)
    requires a <= |b| && b[a..] == s3 + rest
    requires AllSpace(s3) && |rest| > 0 && !IsSpace(rest[0])
    ensures SkipSpaces(b, a) == a + |s3|
    ensures b[a + |s3|..] == rest
  {
    SkipOver(b, a, s3, rest);
    assert b[a + |s3|..] == b[a..][|s3|..];
  }


  /* ---------------------------------------------------------------------------
   * evaluateCondition
   * ------------------------------------------------------------------------- */

  /** The negated operators are the exact complements of their positive forms, NaN included. */
  lemma NegationsComplement(name: string, rho: Rho, ctx: Fields)
    ensures EvaluateCondition(Binary(StrictNeq, name, rho), ctx)
      == !EvaluateCondition(Binary(StrictEq, name, rho), ctx)
    ensures EvaluateCondition(Binary(LooseNeq, name, rho), ctx)
      == !EvaluateCondition(Binary(LooseEq, name, rho), ctx)
  {
  }

  /** A literal that is not a number, a string or a boolean makes every ordering false. */
  lemma NaNOrdersNothing(name: string, ctx: Fields)
    ensures !EvaluateCondition(Binary(AtLeast, name, NaN), ctx)
    ensures !EvaluateCondition(Binary(AtMost, name, NaN), ctx)
    ensures !EvaluateCondition(Binary(Above, name, NaN), ctx)
    ensures !EvaluateCondition(Binary(Below, name, NaN), ctx)
    ensures !EvaluateCondition(Binary(LooseEq, name, NaN), ctx)
    ensures EvaluateCondition(Binary(LooseNeq, name, NaN), ctx)
  {
  }

  /** Strict equality with a literal implies loose equality. */
  lemma StrictImpliesLoose(name: string, v: Value, ctx: Fields)
    requires IsLiteral(v)
    ensures EvaluateCondition(Binary(StrictEq, name, Known(v)), ctx)
      ==> EvaluateCondition(Binary(LooseEq, name, Known(v)), ctx)
  {
  }

  /** `"42" == 42` and `42 == "42"`: a string holding a printed number loosely equals it. */
  lemma NumberTextLooselyEqual(n: Number)
    ensures LooselyEqual(Str(NumText(n)), Num(n))
    ensures LooselyEqual(Num(n), Str(NumText(n)))
  {
    NumberTextReads(n);
    ReadsAsNumber(NumText(n), n);
  }

  /** Any string that `Number()` reads as `n` loosely equals `n`, in both orders. */
  lemma ReadsAsNumber(t: string, n: Number)
    requires TextToNumber(t) == Some(n)
    ensures LooselyEqual(Str(t), Num(n)) && LooselyEqual(Num(n), Str(t))
  {
    assert ToPrimitive(Str(t)) == Str(t) && ToPrimitive(Num(n)) == Num(n);
    assert ToNumber(Str(t)) == Some(n) && ToNumber(Num(n)) == Some(n);
    assert SameNumber(Some(n), Some(n));
  }

  /** `Number(String(n))` is `n`. */
  lemma NumberTextReads(n: Number)
    ensures TextToNumber(NumText(n)) == Some(n)
  {
    NumTextEnds(n);
    assert "" + NumText(n) + "" == NumText(n);
    TrimSurrounded("", NumText(n), "");
    NumTextRoundTrip(n);
  }

  /** `"42" === 42` is false: strict equality never crosses types. */
  lemma StrictNeverCoerces(name: string, v: Value, ctx: Fields)
    requires TypeOf(Get(ctx, name)) != TypeOf(v)
    ensures !EvaluateCondition(Binary(StrictEq, name, Known(v)), ctx)
  {
  }

  /** A name missing from the tokens fails every test against a literal but the negated equalities. */
  lemma AbsentName(name: string, op: BinOp, rho: Rho, ctx: Fields)
    requires Get(ctx, name) == Undefined
    requires rho.Known? ==> IsLiteral(rho.v)
    ensures !EvaluateCondition(Presence(name), ctx)
    ensures EvaluateCondition(Binary(op, name, rho), ctx) <==> op == StrictNeq || op == LooseNeq
  {
  }

  /** Between two numbers the orderings are the numeric order, each the complement of its mirror. */
  lemma NumberOrdering(name: string, x: Number, y: Number, ctx: Fields)
    requires Get(ctx, name) == Num(x)
    ensures EvaluateCondition(Binary(Below, name, Known(Num(y))), ctx) <==> Less(x, y)
    ensures EvaluateCondition(Binary(Above, name, Known(Num(y))), ctx) <==> Less(y, x)
    ensures EvaluateCondition(Binary(AtLeast, name, Known(Num(y))), ctx)
      <==> !EvaluateCondition(Binary(Below, name, Known(Num(y))), ctx)
    ensures EvaluateCondition(Binary(AtMost, name, Known(Num(y))), ctx)
      <==> !EvaluateCondition(Binary(Above, name, Known(Num(y))), ctx)
  {
  }

  /** Between two strings the orderings are the lexicographic order, each the complement of its mirror. */
  lemma StringOrdering(name: string, x: string, y: string, ctx: Fields)
    requires Get(ctx, name) == Str(x)
    ensures EvaluateCondition(Binary(AtLeast, name, Known(Str(y))), ctx)
      <==> !EvaluateCondition(Binary(Below, name, Known(Str(y))), ctx)
    ensures EvaluateCondition(Binary(AtMost, name, Known(Str(y))), ctx)
      <==> !EvaluateCondition(Binary(Above, name, Known(Str(y))), ctx)
    ensures EvaluateCondition(Binary(Below, name, Known(Str(y))), ctx)
      ==> !EvaluateCondition(Binary(Above, name, Known(Str(y))), ctx)
  {
    ConditionLaws.StrLessTrichotomy(x, y);
  }
}
