/**
 * Laws of the condition evaluator: how the three condition shapes combine their
 * parts, what a list reference and a negated operator mean, and what the
 * `length` and `each` keys report.
 */
module ConditionLaws {
  import opened Wrappers
  import opened Text
  import opened Numbers
  import opened Values
  import opened Condition

  /* ---------------------------------------------------------------------------
   * Scalar keys
   * ------------------------------------------------------------------------- */

  /** A positive key holds iff some alternative of its reference is hit. */
  lemma ListReference(op: Op, v: Value, ref: Value, re: Matcher)
    requires op != Integer && !IsNegated(op)
    ensures Holds(op, v, ref, re) <==> exists a :: a in Alternatives(ref) && Hit(op, v, a, re)
  {
    var alts := Alternatives(ref);
    assert Holds(op, v, ref, re) == AnyHit(op, v, ref, re);
    if AnyHit(op, v, ref, re) {
      var i :| 0 <= i < |alts| && Hit(op, v, alts[i], re);
      assert alts[i] in alts;
    }
    if exists a :: a in alts && Hit(op, v, a, re) {
      var a :| a in alts && Hit(op, v, a, re);
      var i :| 0 <= i < |alts| && alts[i] == a;
      assert AnyHit(op, v, ref, re);
    }
  }

  /** The words a phrase puts before the list of alternatives. */
  function Lead(op: Op): string
  {
    match op
    case Type => "type "
    case Eq => ""
    case Neq => "not "
    case Lt => "less than "
    case Lte => "less than or equal to "
    case Gt => "greater than "
    case Gte => "greater than or equal to "
    case Integer => ""
    case Divides => "exact divider of "
    case Multiple => "exact multiple of "
    case Contains => "string containing "
    case Begins => "string beginning with "
    case Ends => "string ending with "
    case Matches => "string matching "
    case ContainsNot => "string not containing "
    case BeginsNot => "string not beginning with "
    case EndsNot => "string not ending with "
    case MatchesNot => "string not matching "
  }

  /** Every phrase but the `integer` one ends with the list of the reference's alternatives. */
  lemma DescribeNamesAlternatives(op: Op, ref: Value)
    ensures op != Integer ==> IsSuffix(AltList(ref), Describe(op, ref))
    ensures op == Integer ==> IsSuffix("integer number", Describe(op, ref))
  {
    if op != Integer {
      DescribeLead(op, ref);
      SuffixAfter(Lead(op), AltList(ref));
    } else if !WantsInteger(ref) {
      assert "non-integer number"[4..] == "integer number";
    }
  }

  lemma DescribeLead(op: Op, ref: Value)
    requires op != Integer
    ensures Describe(op, ref) == Lead(op) + AltList(ref)
  {
    if op == Eq {
      assert "" + AltList(ref) == AltList(ref);
    }
  }

  lemma SuffixAfter(p: string, s: string)
    ensures IsSuffix(s, p + s)
  {
    assert (p + s)[|p|..] == s;
  }

  /** `eq`: the value is one of the alternatives; `type`: its type tag is. */
  lemma EqAndTypeMembership(v: Value, ref: Value, re: Matcher)
    ensures Holds(Eq, v, ref, re) <==> v in Alternatives(ref)
    ensures Holds(Type, v, ref, re) <==> Str(TypeOf(v)) in Alternatives(ref)
  {
    ListReference(Eq, v, ref, re);
    ListReference(Type, v, ref, re);
  }

  /**
   * A plain value or list of values used as the whole condition is an `eq` key:
   * it passes exactly on the listed values and otherwise reports the value itself.
   */
  lemma EvaluateLiteral(v: Value, x: Value, re: Matcher)
    ensures Evaluate(v, Lit(x), re).Pass? <==> v in Alternatives(x)
    ensures Evaluate(v, Lit(x), re).Fail? ==> Evaluate(v, Lit(x), re) == Fail("eq", x, v, AltList(x), None)
  {
    EqAndTypeMembership(v, x, re);
    assert Describe(Eq, x) == "" + AltList(x);
  }

  /** The numeric keys never hold for a value that is not a number. */
  lemma NumericKeysNeedNumbers(v: Value, ref: Value, re: Matcher)
    requires !v.Num?
    ensures !Holds(Integer, v, ref, re)
    ensures !Holds(Divides, v, ref, re) && !Holds(Multiple, v, ref, re)
  {
  }

  /** `integer: false` asks for a fractional number, any other reference for a whole one. */
  lemma IntegerKey(v: Value, ref: Value, re: Matcher)
    ensures Holds(Integer, v, ref, re) <==>
      v.Num? && (v.n.mant % Pow10(v.n.scale) == 0 <==> ref != Bool(false))
  {
    if v.Num? {
      IsIntegerIffWhole(v.n);
    }
  }

  /** The `integer` key is described by whether it asks for a whole number. */
  lemma DescribeInteger(ref: Value)
    ensures Describe(Integer, ref) == if ref != Bool(false) then "integer number" else "non-integer number"
  {
  }

  /** The positive string keys fail, and the negated ones hold, for a value that is not a string. */
  lemma StringKeysNeedStrings(op: Op, v: Value, ref: Value, re: Matcher)
    requires op in {Contains, Begins, Ends, Matches}
    requires !v.Str?
    ensures !Holds(op, v, ref, re)
    ensures Holds(if op == Contains then ContainsNot else if op == Begins then BeginsNot
                  else if op == Ends then EndsNot else MatchesNot, v, ref, re)
  {
    var neg := if op == Contains then ContainsNot else if op == Begins then BeginsNot
               else if op == Ends then EndsNot else MatchesNot;
    assert IsNegated(neg) && Positive(neg) == op;
    assert forall i :: 0 <= i < |Alternatives(ref)| ==> !Hit(op, v, Alternatives(ref)[i], re);
    assert !AnyHit(op, v, ref, re);
  }

  /** String order is a strict total order: exactly one of `a < b`, `a == b`, `b < a`. */
  lemma {:induction false} StrLessTrichotomy(a: string, b: string)
    ensures StrLess(a, b) || a == b || StrLess(b, a)
    ensures !(StrLess(a, b) && StrLess(b, a))
    ensures !StrLess(a, a)
    decreases |a|
  {
    if |a| > 0 && |b| > 0 && a[0] == b[0] {
      StrLessTrichotomy(a[1..], b[1..]);
      if a[1..] == b[1..] {
        assert a == [a[0]] + a[1..] && b == [b[0]] + b[1..];
      }
    }
    if |a| > 0 {
      StrLessTrichotomy(a[1..], a[1..]);
    }
  }

  /** A list reference is described as `x, y or z` with each element rendered by `Show`. */
  lemma {:induction false} AltListShape(ref: Value)
    requires ref.Arr? && |ref.elems| >= 2
    ensures AltList(ref) ==
      Join(ShowAll(ref.elems[..|ref.elems| - 1]), ", ") + " or " + Show(ref.elems[|ref.elems| - 1])
  {
    var ts := ShowAll(ref.elems);
    OxfordListShape(ts);
    assert ts[..|ts| - 1] == ShowAll(ref.elems[..|ref.elems| - 1]);
  }

  /* ---------------------------------------------------------------------------
   * Condition shapes
   * ------------------------------------------------------------------------- */

  /** A bare literal is `{eq: literal}`: it passes iff the value is one of its alternatives. */
  lemma LiteralIsEq(v: Value, x: Value, re: Matcher)
    ensures Evaluate(v, Lit(x), re) == Evaluate(v, Single([Check(Eq, x)]), re)
    ensures Evaluate(v, Lit(x), re).Pass? <==> v in Alternatives(x)
    ensures Evaluate(v, Lit(x), re).Fail? ==>
      Evaluate(v, Lit(x), re) == Fail("eq", x, v, AltList(x), None)
  {
    EqAndTypeMembership(v, x, re);
    var cs := [Check(Eq, x)];
    assert cs[0] == Check(Eq, x) && cs[1..] == [];
    assert EvalClauses(v, cs, re) == CheckOutcome(Eq, x, v, re);
  }

  /**
   * The keys of a condition map are an AND evaluated in order: it passes iff every
   * key holds, and otherwise reports the first key that fails.
   */
  lemma {:induction false} ClausesFirstFailure(v: Value, cs: seq<Clause>, re: Matcher)
    ensures EvalClauses(v, cs, re).Pass? <==> forall i :: 0 <= i < |cs| ==> EvalClause(v, cs[i], re).Pass?
    ensures EvalClauses(v, cs, re).Fail? ==>
      exists j :: 0 <= j < |cs| && EvalClauses(v, cs, re) == EvalClause(v, cs[j], re) &&
        forall i :: 0 <= i < j ==> EvalClause(v, cs[i], re).Pass?
  {
    if |cs| > 0 {
      var rest := cs[1..];
      var o := EvalClause(v, cs[0], re);
      ClausesFirstFailure(v, rest, re);
      assert EvalClauses(v, cs, re) == if o.Fail? then o else EvalClauses(v, rest, re);
      if o.Pass? {
        if EvalClauses(v, rest, re).Fail? {
          var j :| 0 <= j < |rest| && EvalClauses(v, rest, re) == EvalClause(v, rest[j], re) &&
            forall i :: 0 <= i < j ==> EvalClause(v, rest[i], re).Pass?;
          assert cs[j + 1] == rest[j];
          forall i | 0 <= i < j + 1 ensures EvalClause(v, cs[i], re).Pass? {
            if i > 0 { assert cs[i] == rest[i - 1]; }
          }
        } else {
          forall i | 0 <= i < |cs| ensures EvalClause(v, cs[i], re).Pass? {
            if i > 0 { assert cs[i] == rest[i - 1]; }
          }
        }
      }
    }
  }

  /** A map with one key evaluates to that key's outcome. */
  lemma SingleClause(v: Value, cl: Clause, re: Matcher)
    ensures Evaluate(v, Single([cl]), re) == EvalClause(v, cl, re)
  {
    var cs := [cl];
    assert cs[0] == cl && cs[1..] == [];
    assert EvalClauses(v, cs[1..], re) == Pass;
  }

  lemma SingleFirstFailure(v: Value, cs: seq<Clause>, re: Matcher)
    ensures Evaluate(v, Single(cs), re).Pass? <==> forall i :: 0 <= i < |cs| ==> EvalClause(v, cs[i], re).Pass?
    ensures Evaluate(v, Single(cs), re).Fail? ==>
      exists j :: 0 <= j < |cs| && Evaluate(v, Single(cs), re) == EvalClause(v, cs[j], re) &&
        forall i :: 0 <= i < j ==> EvalClause(v, cs[i], re).Pass?
  {
    ClausesFirstFailure(v, cs, re);
  }

  /** The failure phrases of a list of failed outcomes, one per element. */
  lemma {:induction false} DetailsOfFailures(os: seq<Outcome>)
    requires forall i :: 0 <= i < |os| ==> os[i].Fail?
    ensures |DetailsOf(os)| == |os|
    ensures forall i :: 0 <= i < |os| ==> DetailsOf(os)[i] == os[i].details
  {
    if |os| > 0 {
      DetailsOfFailures(os[1..]);
    }
  }

  /**
   * A list of conditions is an OR: it passes iff some element passes; otherwise it
   * reports `compound` with the value itself and the element phrases as one list.
   */
  lemma CompoundIsOr(v: Value, alts: seq<Condition>, re: Matcher)
    ensures Evaluate(v, Compound(alts), re).Pass? <==>
      exists i :: 0 <= i < |alts| && Evaluate(v, alts[i], re).Pass?
    ensures Evaluate(v, Compound(alts), re).Fail? ==>
      var o := Evaluate(v, Compound(alts), re);
      o.what == "compound" && o.actual == v && o.index == None &&
      exists ds: seq<string> ::
        |ds| == |alts| && o.details == OxfordList(ds) &&
        forall i :: 0 <= i < |alts| ==> ds[i] == Evaluate(v, alts[i], re).details
  {
    var os := EvalAll(v, alts, re);
    var o := Evaluate(v, Compound(alts), re);
    if exists i :: 0 <= i < |os| && os[i].Pass? {
      var i :| 0 <= i < |os| && os[i].Pass?;
      assert o == Pass && Evaluate(v, alts[i], re).Pass?;
    } else {
      assert o == Fail("compound", Obj(MergeRefs(os, [])), v, OxfordList(DetailsOf(os)), None);
      assert forall i :: 0 <= i < |os| ==> os[i].Fail?;
      DetailsOfFailures(os);
      var ds := DetailsOf(os);
      assert |ds| == |alts| && forall i :: 0 <= i < |alts| ==> ds[i] == Evaluate(v, alts[i], re).details;
    }
  }

  /** Every failing element's operator is a key of the merged reference, and no other key is. */
  lemma {:induction false} MergeRefsKeys(os: seq<Outcome>, acc: Fields)
    requires UniqueKeys(acc)
    ensures UniqueKeys(MergeRefs(os, acc))
    ensures forall k :: HasKey(MergeRefs(os, acc), k) <==>
      HasKey(acc, k) || exists i :: 0 <= i < |os| && os[i].Fail? && os[i].what == k
  {
    if |os| > 0 {
      var next := if os[0].Pass? then acc else MergeOne(acc, os[0].what, os[0].reference);
      assert MergeRefs(os, acc) == MergeRefs(os[1..], next);
      KeysUnique(acc, next, if os[0].Pass? then "" else os[0].what);
      MergeRefsKeys(os[1..], next);
      forall k ensures HasKey(MergeRefs(os, acc), k) <==>
        HasKey(acc, k) || exists i :: 0 <= i < |os| && os[i].Fail? && os[i].what == k
      {
        HasKeyViaKeys(acc, k);
        HasKeyViaKeys(next, k);
        if exists i :: 0 <= i < |os[1..]| && os[1..][i].Fail? && os[1..][i].what == k {
          var i :| 0 <= i < |os[1..]| && os[1..][i].Fail? && os[1..][i].what == k;
          assert os[i + 1].Fail? && os[i + 1].what == k;
        }
        if exists i :: 0 <= i < |os| && os[i].Fail? && os[i].what == k {
          var i :| 0 <= i < |os| && os[i].Fail? && os[i].what == k;
          if i > 0 { assert os[1..][i - 1] == os[i]; }
        }
      }
    }
  }

  lemma HasKeyViaKeys(fs: Fields, k: string)
    ensures HasKey(fs, k) <==> k in Keys(fs)
  {
    if k in Keys(fs) {
      var i :| 0 <= i < |Keys(fs)| && Keys(fs)[i] == k;
    }
    if HasKey(fs, k) {
      var i :| 0 <= i < |fs| && fs[i].key == k;
      assert Keys(fs)[i] == k;
    }
  }

  /** One merge step keeps the keys duplicate-free. */
  lemma KeysUnique(acc: Fields, next: Fields, key: string)
    requires UniqueKeys(acc)
    requires Keys(next) == Keys(acc) || (!HasKey(acc, key) && Keys(next) == Keys(acc) + [key])
    ensures UniqueKeys(next)
  {
    if Keys(next) != Keys(acc) {
      forall i, j | 0 <= i < j < |next| ensures next[i].key != next[j].key {
        assert Keys(next)[i] == next[i].key && Keys(next)[j] == next[j].key;
        if j == |acc| {
          assert Keys(acc)[i] == acc[i].key;
        }
      }
    } else {
      forall i, j | 0 <= i < j < |next| ensures next[i].key != next[j].key {
        assert Keys(next)[i] == next[i].key && Keys(next)[j] == next[j].key;
        assert Keys(acc)[i] == acc[i].key && Keys(acc)[j] == acc[j].key;
      }
    }
  }

  /** The reference report of a failed compound condition names every failing operator once. */
  lemma CompoundReference(v: Value, alts: seq<Condition>, re: Matcher)
    requires Evaluate(v, Compound(alts), re).Fail?
    ensures Evaluate(v, Compound(alts), re).reference.Obj?
    ensures UniqueKeys(Evaluate(v, Compound(alts), re).reference.fields)
    ensures forall k :: HasKey(Evaluate(v, Compound(alts), re).reference.fields, k) <==>
      exists i :: 0 <= i < |alts| && Evaluate(v, alts[i], re).Fail? && Evaluate(v, alts[i], re).what == k
  {
    var os := EvalAll(v, alts, re);
    MergeRefsKeys(os, []);
  }

  /* ---------------------------------------------------------------------------
   * Nested keys
   * ------------------------------------------------------------------------- */

  /**
   * `length` applies its condition to the string or array length and, on failure,
   * prefixes the inner operator with `length/` and the phrase with `length `.
   */
  lemma LengthKey(v: Value, c: Condition, re: Matcher)
    ensures (v.Str? ==> LengthOf(v) == Num(FromInt(|v.s|))) && (v.Arr? ==> LengthOf(v) == Num(FromInt(|v.elems|)))
    ensures EvalClause(v, Length(c), re).Pass? <==> Evaluate(LengthOf(v), c, re).Pass?
    ensures EvalClause(v, Length(c), re).Fail? ==>
      var inner := Evaluate(LengthOf(v), c, re);
      EvalClause(v, Length(c), re) ==
        Fail("length/" + inner.what, inner.reference, inner.actual, "length " + inner.details, inner.index)
  {
  }

  lemma {:induction false} EachPassesFrom(es: seq<Value>, k: nat, c: Condition, re: Matcher)
    requires k <= |es|
    ensures EvalEach(es, k, c, re).Pass? <==> forall i :: k <= i < |es| ==> Evaluate(es[i], c, re).Pass?
    decreases |es| - k
  {
    if k < |es| {
      var o := Evaluate(es[k], c, re);
      if o.Pass? {
        assert EvalEach(es, k, c, re) == EvalEach(es, k + 1, c, re);
        EachPassesFrom(es, k + 1, c, re);
        if EvalEach(es, k + 1, c, re).Pass? {
          forall i | k <= i < |es| ensures Evaluate(es[i], c, re).Pass? {
            if i == k { assert Evaluate(es[i], c, re) == o; }
          }
        }
      } else {
        assert EvalEach(es, k, c, re) == Fail("each/" + o.what, o.reference, o.actual, o.details, Some(k));
      }
    }
  }

  lemma {:induction false} EachFailureFrom(es: seq<Value>, k: nat, c: Condition, re: Matcher) returns (j: nat)
    requires k <= |es| && EvalEach(es, k, c, re).Fail?
    ensures k <= j < |es| && Evaluate(es[j], c, re).Fail?
    ensures forall i :: k <= i < j ==> Evaluate(es[i], c, re).Pass?
    ensures EvalEach(es, k, c, re) == EachFailure(Evaluate(es[j], c, re), j)
    decreases |es| - k
  {
    if Evaluate(es[k], c, re).Pass? {
      j := EachFailureFrom(es, k + 1, c, re);
    } else {
      j := k;
    }
  }

  /** What a failing element at index `j` makes `each` report. */
  function EachFailure(inner: Outcome, j: nat): Outcome
    requires inner.Fail?
  {
    Fail("each/" + inner.what, inner.reference, inner.actual, inner.details, Some(j))
  }

  /**
   * `each` on an array passes iff every element passes; otherwise it reports the
   * first failing element's result, with `each/` in front of the operator and the
   * element's index.
   */
  lemma EachKey(es: seq<Value>, c: Condition, re: Matcher)
    ensures EvalClause(Arr(es), Each(c), re).Pass? <==> forall i :: 0 <= i < |es| ==> Evaluate(es[i], c, re).Pass?
    ensures EvalClause(Arr(es), Each(c), re).Fail? ==>
      exists j :: 0 <= j < |es| && Evaluate(es[j], c, re).Fail? &&
        (forall i :: 0 <= i < j ==> Evaluate(es[i], c, re).Pass?) &&
        EvalClause(Arr(es), Each(c), re) == EachFailure(Evaluate(es[j], c, re), j)
  {
    EachPassesFrom(es, 0, c, re);
    if EvalClause(Arr(es), Each(c), re).Fail? {
      var j := EachFailureFrom(es, 0, c, re);
    }
  }
}

/** Concrete evaluations matching the expectations of the condition tests. */
module ConditionExamples {
  import opened Wrappers
  import opened Numbers
  import opened Values
  import opened Condition

  function N(i: int): Value { Num(FromInt(i)) }

  /** `evaluateValueCondition("42", {type: "number"})` reports the type tag it saw. */
  lemma TypeMismatch(re: Matcher)
    ensures Evaluate(Str("42"), Single([Check(Type, Str("number"))]), re)
      == Fail("type", Str("number"), Str("string"), "type \"number\"", None)
  {
    var cs := [Check(Type, Str("number"))];
    assert cs[1..] == [];
    assert Alternatives(Str("number")) == [Str("number")];
    assert !Hit(Type, Str("42"), Str("number"), re);
    assert !AnyHit(Type, Str("42"), Str("number"), re);
  }

  /** `evaluateValueCondition("abcdef", {length: 5})`. */
  lemma LengthMismatch(re: Matcher)
    ensures Evaluate(Str("abcdef"), Single([Length(Lit(N(5)))]), re)
      == Fail("length/eq", N(5), N(6), "length 5", None)
  {
    var cs := [Length(Lit(N(5)))];
    assert cs[1..] == [];
    assert LengthOf(Str("abcdef")) == N(6);
    NumberMismatch(6, 5, re);
    assert [DigitChar(5)] == "5";
    var o := Evaluate(N(6), Lit(N(5)), re);
    assert o == Fail("eq", N(5), N(6), "5", None);
    assert EvalClause(Str("abcdef"), cs[0], re) == Fail("length/" + "eq", N(5), N(6), "length " + "5", None);
    assert "length/" + "eq" == "length/eq" && "length " + "5" == "length 5";
  }

  /** `evaluateValueCondition([0, 0, 1], {each: 0})` names the failing index. */
  lemma EachMismatch(re: Matcher)
    ensures Evaluate(Arr([N(0), N(0), N(1)]), Single([Each(Lit(N(0)))]), re)
      == Fail("each/eq", N(0), N(1), "0", Some(2))
  {
    var cs := [Each(Lit(N(0)))];
    assert cs[1..] == [];
    NumberMismatch(1, 0, re);
    assert [DigitChar(0)] == "0";
    var es := [N(0), N(0), N(1)];
    assert Alternatives(N(0)) == [N(0)];
    assert Evaluate(es[0], Lit(N(0)), re) == Pass;
    assert EvalEach(es, 2, Lit(N(0)), re) == Fail("each/" + "eq", N(0), N(1), "0", Some(2));
    assert EvalEach(es, 0, Lit(N(0)), re) == EvalEach(es, 1, Lit(N(0)), re) == EvalEach(es, 2, Lit(N(0)), re);
    assert "each/" + "eq" == "each/eq";
  }

  /** A number literal fails on a different number, described by its decimal text. */
  lemma NumberMismatch(a: nat, b: nat, re: Matcher)
    requires a != b && b < 10
    ensures Evaluate(N(a), Lit(N(b)), re) == Fail("eq", N(b), N(a), [DigitChar(b)], None)
  {
    assert Alternatives(N(b)) == [N(b)];
    assert N(a) != N(b) by {
      assert FromInt(a).mant == a;
    }
    assert !Hit(Eq, N(a), N(b), re);
    assert !AnyHit(Eq, N(a), N(b), re);
    assert Describe(Eq, N(b)) == "" + AltList(N(b));
  }
}
