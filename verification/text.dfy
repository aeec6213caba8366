/**
 * Character classes and the small string utilities both engines rely on:
 * trimming, joining, and the English list renderer used by the describer.
 */
module Text {

  /** Whitespace as the template grammar understands it. */
  predicate IsSpace(c: char) {
    c == ' ' || c == '\t' || c == '\n' || c == '\r'
  }

  predicate IsDigit(c: char) {
    '0' <= c <= '9'
  }

  /** Characters allowed in a token or condition name (`%name%`, `(?name ...?)`). */
  predicate IsNameChar(c: char) {
    ('a' <= c <= 'z') || ('A' <= c <= 'Z') || IsDigit(c) || c == '_'
  }

  predicate AllSpace(s: string) {
    forall i :: 0 <= i < |s| ==> IsSpace(s[i])
  }

  predicate AllDigits(s: string) {
    forall i :: 0 <= i < |s| ==> IsDigit(s[i])
  }

  predicate AllNameChars(s: string) {
    forall i :: 0 <= i < |s| ==> IsNameChar(s[i])
  }

  /** Length of the whitespace prefix of `s`. */
  function LeadingSpaces(s: string): (k: nat)
    ensures k <= |s|
    ensures AllSpace(s[..k])
    ensures k == |s| || !IsSpace(s[k])
  {
    if |s| > 0 && IsSpace(s[0]) then
      var k := 1 + LeadingSpaces(s[1..]);
      assert s[..k] == [s[0]] + s[1..][..k - 1];
      k
    else 0
  }

  /** Length of the whitespace suffix of `s`. */
  function TrailingSpaces(s: string): (k: nat)
    ensures k <= |s|
    ensures AllSpace(s[|s| - k..])
    ensures k == |s| || !IsSpace(s[|s| - k - 1])
  {
    if |s| > 0 && IsSpace(s[|s| - 1]) then
      var k := 1 + TrailingSpaces(s[..|s| - 1]);
      assert s[|s| - k..] == s[..|s| - 1][|s| - k..] + [s[|s| - 1]];
      k
    else 0
  }

  /** `s` without leading whitespace. */
  function TrimLeft(s: string): (r: string)
    ensures |r| <= |s| && r == s[|s| - |r|..]
    ensures AllSpace(s[..|s| - |r|])
    ensures r == [] || !IsSpace(r[0])
  {
    s[LeadingSpaces(s)..]
  }

  /** `s` without trailing whitespace. */
  function TrimRight(s: string): (r: string)
    ensures |r| <= |s| && r == s[..|r|]
    ensures AllSpace(s[|r|..])
    ensures r == [] || !IsSpace(r[|r| - 1])
  {
    s[..|s| - TrailingSpaces(s)]
  }

  /** `s` without whitespace at either end (JavaScript `String.prototype.trim`). */
  function Trim(s: string): (r: string)
    ensures exists i, j :: 0 <= i <= j <= |s| && r == s[i..j] && AllSpace(s[..i]) && AllSpace(s[j..])
    ensures r == [] || (!IsSpace(r[0]) && !IsSpace(r[|r| - 1]))
  {
    var l := TrimLeft(s);
    var r := TrimRight(l);
    var i := |s| - |l|;
    assert r == s[i..i + |r|];
    assert s[i + |r|..] == l[|r|..];
    r
  }

  /** Trimming removes exactly the whitespace around a core that starts and ends with non-space. */
  lemma TrimSurrounded(a: string, x: string, b: string)
    requires AllSpace(a) && AllSpace(b)
    requires |x| > 0 && !IsSpace(x[0]) && !IsSpace(x[|x| - 1])
    ensures Trim(a + x + b) == x
  {
    assert a + x + b == a + (x + b);
    LeadingSpacesOf(a, x + b);
    assert (a + (x + b))[|a|..] == x + b;
    TrailingSpacesOf(x, b);
    assert (x + b)[..|x|] == x;
  }

  lemma {:induction false} LeadingSpacesOf(a: string, y: string)
    requires AllSpace(a) && |y| > 0 && !IsSpace(y[0])
    ensures LeadingSpaces(a + y) == |a|
  {
    if |a| > 0 {
      assert (a + y)[1..] == a[1..] + y;
      LeadingSpacesOf(a[1..], y);
    } else {
      assert a + y == y;
    }
  }

  lemma {:induction false} TrailingSpacesOf(y: string, b: string)
    requires AllSpace(b) && |y| > 0 && !IsSpace(y[|y| - 1])
    ensures TrailingSpaces(y + b) == |b|
  {
    if |b| > 0 {
      var s := y + b;
      assert s[..|s| - 1] == y + b[..|b| - 1];
      TrailingSpacesOf(y, b[..|b| - 1]);
    } else {
      assert y + b == y;
    }
  }

  /** The elements of `xs` separated by `sep` (JavaScript `Array.prototype.join`). */
  function Join(xs: seq<string>, sep: string): string
  {
    if |xs| == 0 then ""
    else if |xs| == 1 then xs[0]
    else xs[0] + sep + Join(xs[1..], sep)
  }

  /**
   * English alternative list: `a`, `a or b`, `a, b or c`. Used by the describer for
   * list references and by compound conditions to join their elements' phrases.
   */
  function OxfordList(xs: seq<string>): string
  {
    if |xs| == 0 then ""
    else if |xs| == 1 then xs[0]
    else if |xs| == 2 then xs[0] + " or " + xs[1]
    else xs[0] + ", " + OxfordList(xs[1..])
  }

  /** `s` between double quotes, as the describer and `_ACTUAL_` render strings. */
  function Quote(s: string): (r: string)
    ensures |r| == |s| + 2 && r[0] == '"' && r[|r| - 1] == '"' && r[1..|r| - 1] == s
  {
    "\"" + s + "\""
  }

  /** Two lists whose last element is split off: every comma precedes the single " or ". */
  lemma {:induction false} OxfordListShape(xs: seq<string>)
    requires |xs| >= 2
    ensures OxfordList(xs) == Join(xs[..|xs| - 1], ", ") + " or " + xs[|xs| - 1]
  {
    if |xs| == 2 {
      assert xs[..1] == [xs[0]];
    } else {
      OxfordListShape(xs[1..]);
      assert xs[1..][..|xs| - 2] == xs[..|xs| - 1][1..];
      assert xs[1..][|xs| - 2] == xs[|xs| - 1];
    }
  }
}
