/**
 * JavaScript numbers as they appear in this system's conditions and messages:
 * finite decimals in canonical form, so that structural equality is numeric
 * equality. Printing follows `String(n)` for such decimals and parsing follows the
 * signed-decimal literals of the template condition grammar.
 */
module Numbers {
  import opened Wrappers
  import opened Text

  /** The rational `mant / 10^scale`. */
  datatype Decimal = Decimal(mant: int, scale: nat)

  /** No trailing zero after the decimal point: every rational has one canonical form. */
  predicate Canonical(d: Decimal) {
    d.scale == 0 || d.mant % 10 != 0
  }

  type Number = d: Decimal | Canonical(d) witness Decimal(0, 0)

  function Pow10(k: nat): (r: nat)
    ensures r >= 1
  {
    if k == 0 then 1 else 10 * Pow10(k - 1)
  }

  function FromInt(i: int): Number {
    Decimal(i, 0)
  }

  /** The canonical form of `m / 10^s`. */
  function Normalize(m: int, s: nat): (r: Number)
    ensures r.scale <= s
    decreases s
  {
    if s > 0 && m % 10 == 0 then Normalize(m / 10, s - 1) else Decimal(m, s)
  }

  /** Normalizing only strips common factors of ten: the rational value is unchanged. */
  lemma {:induction false} NormalizeValue(m: int, s: nat)
    ensures m == Normalize(m, s).mant * Pow10(s - Normalize(m, s).scale)
    decreases s
  {
    if s > 0 && m % 10 == 0 {
      NormalizeValue(m / 10, s - 1);
      var r := Normalize(m / 10, s - 1);
      assert Pow10(s - r.scale) == 10 * Pow10(s - 1 - r.scale);
    }
  }

  function Negate(d: Number): (r: Number)
    ensures r.scale == d.scale && r.mant == -d.mant
  {
    Decimal(-d.mant, d.scale)
  }

  /** Numeric order `a < b`. */
  predicate Less(a: Number, b: Number) {
    a.mant * Pow10(b.scale) < b.mant * Pow10(a.scale)
  }

  /** The number has no fractional part. */
  predicate IsInteger(a: Number) {
    a.scale == 0
  }

  /** `n / d` is an integer (JavaScript `n % d === 0` without rounding error). */
  predicate DividesExactly(d: Number, n: Number) {
    d.mant != 0 && (n.mant * Pow10(d.scale)) % (d.mant * Pow10(n.scale)) == 0
  }

  /** For a canonical number, "no fractional part" is exactly divisibility of its mantissa. */
  lemma IsIntegerIffWhole(a: Number)
    ensures IsInteger(a) <==> a.mant % Pow10(a.scale) == 0
  {
    if a.scale > 0 {
      var p := Pow10(a.scale - 1);
      assert Pow10(a.scale) == 10 * p;
      MultipleOfTenK(a.mant, p);
    }
  }

  lemma MultipleOfTenK(x: int, k: nat)
    requires k >= 1
    ensures x % (10 * k) == 0 ==> x % 10 == 0
  {
    var q := x / (10 * k);
    assert x == (10 * k) * q + x % (10 * k);
    if x % (10 * k) == 0 {
      assert x == 10 * (k * q);
    }
  }

  lemma DivModNat(a: nat, p: nat)
    requires p >= 1
    ensures a / p >= 0 && 0 <= a % p < p && a == p * (a / p) + a % p
  {
  }

  /* ---------------------------------------------------------------------------
   * Printing
   * ------------------------------------------------------------------------- */

  function DigitChar(d: nat): (c: char)
    requires d < 10
    ensures IsDigit(c)
  {
    (d + '0' as int) as char
  }

  function DigitValue(c: char): (d: nat)
    requires IsDigit(c)
    ensures d < 10
  {
    (c as int - '0' as int) as nat
  }

  /** Decimal digits of `n`, without leading zeros. */
  function NatText(n: nat): (r: string)
    ensures |r| > 0 && AllDigits(r)
  {
    if n < 10 then [DigitChar(n)] else NatText(n / 10) + [DigitChar(n % 10)]
  }

  /** `t` left-padded with zeros to at least `w` characters. */
  function PadZeros(t: string, w: nat): (r: string)
    ensures |r| == if |t| >= w then |t| else w
    ensures AllDigits(t) ==> AllDigits(r)
    ensures r[|r| - |t|..] == t
  {
    var k := if |t| >= w then 0 else w - |t|;
    seq(k, _ => '0') + t
  }

  /** Digits and decimal points only. */
  predicate DecimalChars(s: string) {
    forall i :: 0 <= i < |s| ==> IsDigit(s[i]) || s[i] == '.'
  }

  /** `String(n)` for a canonical decimal: `42`, `-42`, `42.42`, `0.5`. */
  function NumText(n: Number): string
  {
    var sign := if n.mant < 0 then "-" else "";
    var a: nat := if n.mant < 0 then -n.mant else n.mant;
    sign + MagnitudeText(a, n.scale)
  }

  /** `a / 10^s` unsigned, with no fractional part when `s == 0`. */
  function MagnitudeText(a: nat, s: nat): (t: string)
    ensures |t| > 0 && IsDigit(t[0]) && IsDigit(t[|t| - 1])
    ensures DecimalChars(t)
  {
    if s == 0 then NatText(a) else UnsignedText(a, s)
  }

  /** `a / 10^s` printed with exactly `s` fractional digits. */
  function UnsignedText(a: nat, s: nat): (t: string)
    ensures |t| > 0 && IsDigit(t[0]) && IsDigit(t[|t| - 1])
    ensures DecimalChars(t)
  {
    var p := Pow10(s);
    DivModNat(a, p);
    var q: nat := a / p;
    var r: nat := a % p;
    var f := PadZeros(NatText(r), s);
    PointTextEnds(NatText(q), f);
    NatText(q) + "." + f
  }

  /* ---------------------------------------------------------------------------
   * Parsing
   * ------------------------------------------------------------------------- */

  /** Value of a digit string, most significant digit first. */
  function DigitsValue(s: string): nat
    requires AllDigits(s)
  {
    if |s| == 0 then 0 else DigitsValue(s[..|s| - 1]) * 10 + DigitValue(s[|s| - 1])
  }

  /** Length of the digit prefix of `s`. */
  function DigitRun(s: string): (k: nat)
    ensures k <= |s|
    ensures AllDigits(s[..k])
    ensures k == |s| || !IsDigit(s[k])
  {
    if |s| > 0 && IsDigit(s[0]) then
      var k := 1 + DigitRun(s[1..]);
      assert s[..k] == [s[0]] + s[1..][..k - 1];
      k
    else 0
  }

  /** `digits` or `digits.digits`. */
  function ParseUnsigned(s: string): Option<Number>
  {
    var k := DigitRun(s);
    if k == 0 then None
    else if k == |s| then Some(Decimal(DigitsValue(s), 0))
    else ParseFraction(s[..k], s[k..])
  }

  /** The integer digits `ip` followed by `rest`, which must read `.digits`. */
  function ParseFraction(ip: string, rest: string): Option<Number>
    requires AllDigits(ip)
  {
    if |rest| >= 2 && rest[0] == '.' && AllDigits(rest[1..]) then
      var f := |rest| - 1;
      Some(Normalize(DigitsValue(ip) * Pow10(f) + DigitsValue(rest[1..]), f))
    else None
  }

  /** A signed decimal literal (`42`, `-42`, `+42`, `42.5`); `None` for anything else. */
  function ParseNumber(s: string): Option<Number>
  {
    if |s| > 0 && (s[0] == '-' || s[0] == '+') then
      match ParseUnsigned(s[1..])
      case None => None
      case Some(d) => Some(if s[0] == '-' then Negate(d) else d)
    else ParseUnsigned(s)
  }

  /* ---------------------------------------------------------------------------
   * Printing and parsing are inverse
   * ------------------------------------------------------------------------- */

  lemma {:induction false} NatTextValue(n: nat)
    ensures DigitsValue(NatText(n)) == n
  {
    if n >= 10 {
      NatTextValue(n / 10);
      var t := NatText(n);
      assert t[..|t| - 1] == NatText(n / 10);
    }
  }

  lemma {:induction false} NatTextLength(n: nat, k: nat)
    requires k >= 1 && n < Pow10(k)
    ensures |NatText(n)| <= k
  {
    if n >= 10 {
      assert k >= 2;
      var p := Pow10(k - 1);
      assert n < 10 * p;
      assert n / 10 < p;
      NatTextLength(n / 10, k - 1);
    }
  }

  lemma {:induction false} DigitsValueConcat(a: string, b: string)
    requires AllDigits(a) && AllDigits(b)
    ensures AllDigits(a + b)
    ensures DigitsValue(a + b) == DigitsValue(a) * Pow10(|b|) + DigitsValue(b)
  {
    assert AllDigits(a + b);
    if |b| == 0 {
      assert a + b == a;
    } else {
      var b' := b[..|b| - 1];
      assert (a + b)[..|a + b| - 1] == a + b';
      DigitsValueConcat(a, b');
      assert b[..|b| - 1] == b';
      assert (a + b)[|a + b| - 1] == b[|b| - 1];
      ShiftDigit(DigitsValue(a), Pow10(|b'|), DigitsValue(b'), DigitValue(b[|b| - 1]));
    }
  }

  lemma ShiftDigit(x: int, p: int, y: int, d: int)
    ensures (x * p + y) * 10 + d == x * (10 * p) + (y * 10 + d)
  {
  }

  lemma ParseDecimalText(qt: string, f: string)
    requires |qt| > 0 && AllDigits(qt) && |f| > 0 && AllDigits(f)
    ensures ParseUnsigned(qt + "." + f)
      == Some(Normalize(DigitsValue(qt) * Pow10(|f|) + DigitsValue(f), |f|))
  {
    assert qt + "." + f == qt + ("." + f);
    FractionParses(qt, f);
    PointSplits(qt, f);
  }

  lemma FractionParses(qt: string, f: string)
    requires AllDigits(qt) && |f| > 0 && AllDigits(f)
    ensures ParseFraction(qt, "." + f) == Some(Normalize(DigitsValue(qt) * Pow10(|f|) + DigitsValue(f), |f|))
  {
    var rest := "." + f;
    assert rest[1..] == f;
    FractionValue(qt, rest, DigitsValue(qt) * Pow10(|f|) + DigitsValue(f));
  }

  lemma FractionValue(qt: string, rest: string, m: int)
    requires AllDigits(qt) && |rest| >= 2 && rest[0] == '.' && AllDigits(rest[1..])
    requires m == DigitsValue(qt) * Pow10(|rest| - 1) + DigitsValue(rest[1..])
    ensures ParseFraction(qt, rest) == Some(Normalize(m, |rest| - 1))
  {
  }

  lemma PointSplits(qt: string, f: string)
    requires |qt| > 0 && AllDigits(qt) && |f| > 0 && AllDigits(f)
    ensures ParseUnsigned(qt + ("." + f)) == ParseFraction(qt, "." + f)
  {
    var u := qt + ("." + f);
    DigitRunPrefix(qt, "." + f);
    assert u[..|qt|] == qt;
    assert u[|qt|..] == "." + f;
  }

  lemma {:induction false} ZerosValue(k: nat)
    ensures AllDigits(seq(k, _ => '0')) && DigitsValue(seq(k, _ => '0')) == 0
  {
    if k > 0 {
      ZerosValue(k - 1);
      assert seq(k, _ => '0')[..k - 1] == seq(k - 1, _ => '0');
    }
  }

  lemma PadZerosValue(t: string, w: nat)
    requires AllDigits(t)
    ensures DigitsValue(PadZeros(t, w)) == DigitsValue(t)
  {
    var k := if |t| >= w then 0 else w - |t|;
    ZerosValue(k);
    DigitsValueConcat(seq(k, _ => '0'), t);
  }

  lemma {:induction false} DigitRunPrefix(d: string, rest: string)
    requires |d| > 0 && AllDigits(d)
    requires |rest| == 0 || !IsDigit(rest[0])
    ensures DigitRun(d + rest) == |d|
  {
    if |d| > 1 {
      assert (d + rest)[1..] == d[1..] + rest;
      DigitRunPrefix(d[1..], rest);
    } else {
      assert (d + rest)[1..] == rest;
    }
  }

  lemma DigitsPointDigitsParse(q: nat, r: nat, s: nat, m: nat)
    requires s > 0 && r < Pow10(s) && m == q * Pow10(s) + r
    ensures ParseUnsigned(NatText(q) + "." + PadZeros(NatText(r), s)) == Some(Normalize(m, s))
  {
    var qt, f := NatText(q), PadZeros(NatText(r), s);
    PointParts(q, r, s);
    ParseDecimalText(qt, f);
    SameSum(DigitsValue(qt), Pow10(|f|), DigitsValue(f), q, Pow10(s), r);
    ParseAgrees(qt + "." + f, DigitsValue(qt) * Pow10(|f|) + DigitsValue(f), |f|, m, s);
  }

  lemma SameSum(a: int, b: int, c: int, x: int, y: int, z: int)
    requires a == x && b == y && c == z
    ensures a * b + c == x * y + z
  {
  }

  /** The two digit strings of `q.r` at scale `s`, and their values. */
  lemma PointParts(q: nat, r: nat, s: nat)
    requires s > 0 && r < Pow10(s)
    ensures var f := PadZeros(NatText(r), s);
      |f| == s && AllDigits(f) && DigitsValue(NatText(q)) == q && DigitsValue(f) == r
  {
    NatTextLength(r, s);
    NatTextValue(q);
    NatTextValue(r);
    PadZerosValue(NatText(r), s);
  }

  lemma ParseAgrees(t: string, x: int, w: nat, m: int, s: nat)
    requires ParseUnsigned(t) == Some(Normalize(x, w)) && x == m && w == s
    ensures ParseUnsigned(t) == Some(Normalize(m, s))
  {
  }

  lemma UnsignedTextParses(a: nat, s: nat)
    requires s > 0 && a % 10 != 0
    ensures ParseUnsigned(UnsignedText(a, s)) == Some(Decimal(a, s))
  {
    var p := Pow10(s);
    DivModNat(a, p);
    var q: nat, r: nat := a / p, a % p;
    assert q * p + r == a by {
      MulComm(q, p);
    }
    DigitsPointDigitsParse(q, r, s, a);
  }

  lemma MulComm(x: int, y: int)
    ensures x * y == y * x
  {
  }

  lemma UnsignedNatParses(a: nat)
    ensures ParseUnsigned(NatText(a)) == Some(Decimal(a, 0))
  {
    DigitRunPrefix(NatText(a), "");
    assert NatText(a) + "" == NatText(a);
    NatTextValue(a);
  }

  /** Unsigned text of magnitude `a` reads back as `Decimal(a, scale)`. */
  lemma MagnitudeParses(n: Number, a: nat)
    requires a == if n.mant < 0 then -n.mant else n.mant
    ensures ParseUnsigned(MagnitudeText(a, n.scale)) == Some(Decimal(a, n.scale))
    ensures IsDigit(MagnitudeText(a, n.scale)[0])
  {
    if n.scale == 0 {
      UnsignedNatParses(a);
    } else {
      assert a % 10 != 0;
      UnsignedTextParses(a, n.scale);
    }
  }

  lemma SignedParse(body: string, neg: bool)
    requires |body| > 0 && IsDigit(body[0])
    ensures ParseNumber((if neg then "-" else "") + body)
      == if neg then (match ParseUnsigned(body) case None => None case Some(d) => Some(Negate(d)))
         else ParseUnsigned(body)
  {
    if neg {
      assert ("-" + body)[1..] == body;
    } else {
      assert "" + body == body;
    }
  }

  /** Printed numbers start with a sign or a digit and end with a digit. */
  lemma NumTextEnds(n: Number)
    ensures |NumText(n)| > 0
    ensures NumText(n)[0] == '-' || IsDigit(NumText(n)[0])
    ensures IsDigit(NumText(n)[|NumText(n)| - 1])
  {
    var a: nat := if n.mant < 0 then -n.mant else n.mant;
    SignedEnds(n.mant < 0, MagnitudeText(a, n.scale));
  }

  lemma SignedEnds(neg: bool, m: string)
    requires |m| > 0 && IsDigit(m[0]) && IsDigit(m[|m| - 1])
    ensures var t := (if neg then "-" else "") + m;
      |t| > 0 && (t[0] == '-' || IsDigit(t[0])) && IsDigit(t[|t| - 1])
  {
  }

  lemma PointTextEnds(x: string, f: string)
    requires |x| > 0 && AllDigits(x) && |f| > 0 && AllDigits(f)
    ensures IsDigit((x + "." + f)[0]) && IsDigit((x + "." + f)[|x + "." + f| - 1])
    ensures DecimalChars(x + "." + f)
  {
    var t := x + "." + f;
    forall i | 0 <= i < |t| ensures IsDigit(t[i]) || t[i] == '.' {
      if i < |x| {
        assert t[i] == x[i];
      } else if i > |x| {
        assert t[i] == f[i - |x| - 1];
      }
    }
    assert (x + "." + f)[0] == x[0];
    assert (x + "." + f)[|x + "." + f| - 1] == f[|f| - 1];
  }

  /** A printed number holds digits, at most a leading minus sign, and decimal points. */
  lemma NumTextChars(n: Number)
    ensures forall i :: 0 <= i < |NumText(n)| ==> IsDigit(NumText(n)[i]) || NumText(n)[i] == '.' || NumText(n)[i] == '-'
  {
    var a: nat := if n.mant < 0 then -n.mant else n.mant;
    SignedChars(n.mant < 0, MagnitudeText(a, n.scale));
  }

  lemma SignedChars(neg: bool, m: string)
    requires DecimalChars(m)
    ensures var t := (if neg then "-" else "") + m;
      forall i :: 0 <= i < |t| ==> IsDigit(t[i]) || t[i] == '.' || t[i] == '-'
  {
    var t := (if neg then "-" else "") + m;
    var k := if neg then 1 else 0;
    forall i | 0 <= i < |t| ensures IsDigit(t[i]) || t[i] == '.' || t[i] == '-' {
      if i >= k {
        assert t[i] == m[i - k];
      }
    }
  }

  /** The template literal parser reads back every number the printer writes. */
  lemma NumTextRoundTrip(n: Number)
    ensures ParseNumber(NumText(n)) == Some(n)
  {
    var a: nat := if n.mant < 0 then -n.mant else n.mant;
    MagnitudeParses(n, a);
    SignedParse(MagnitudeText(a, n.scale), n.mant < 0);
  }
}
