/**
 * Runtime values as the assertion library sees them: a closed variant of the
 * JavaScript value kinds, with `typeof`, `String(v)`, `JSON.stringify(v)` and the
 * JSON round trip that the library applies to message tokens.
 */
module Values {
  import opened Wrappers
  import opened Text
  import opened Numbers

  datatype Value =
    | Undefined
    | Null
    | Bool(b: bool)
    | Num(n: Number)
    | Str(s: string)
    | Arr(elems: seq<Value>)
    | Obj(fields: seq<Field>)
    | RegExp(source: string, flags: string)
    | Func

  /** One own property of an object, in insertion order. */
  datatype Field = Field(key: string, val: Value)

  type Fields = seq<Field>

  /** JavaScript `typeof`: `null`, arrays and regular expressions are all "object". */
  function TypeOf(v: Value): string
  {
    match v
    case Undefined => "undefined"
    case Null => "object"
    case Bool(_) => "boolean"
    case Num(_) => "number"
    case Str(_) => "string"
    case Arr(_) => "object"
    case Obj(_) => "object"
    case RegExp(_, _) => "object"
    case Func => "function"
  }

  /** Only `undefined` has type "undefined". */
  lemma TypeOfUndefined(v: Value)
    ensures TypeOf(v) == "undefined" <==> v == Undefined
  {
  }

  /** Values a JSON round trip removes from an object (and turns into `null` in an array). */
  predicate NotJson(v: Value) {
    v.Undefined? || v.Func?
  }

  /* ---------------------------------------------------------------------------
   * Objects as ordered field lists
   * ------------------------------------------------------------------------- */

  predicate HasKey(fs: Fields, k: string) {
    exists i :: 0 <= i < |fs| && fs[i].key == k
  }

  predicate UniqueKeys(fs: Fields) {
    forall i, j :: 0 <= i < j < |fs| ==> fs[i].key != fs[j].key
  }

  /** A key of the tail is a key of the whole list; the first key is one too. */
  lemma HasKeyTail(fs: Fields)
    requires |fs| > 0
    ensures HasKey(fs, fs[0].key)
    ensures forall k :: HasKey(fs[1..], k) ==> HasKey(fs, k)
    ensures forall k :: k != fs[0].key ==> Get(fs, k) == Get(fs[1..], k)
  {
    forall k | HasKey(fs[1..], k) ensures HasKey(fs, k) {
      var i :| 0 <= i < |fs[1..]| && fs[1..][i].key == k;
      assert fs[i + 1].key == k;
    }
  }

  function Keys(fs: Fields): (ks: seq<string>)
    ensures |ks| == |fs| && forall i :: 0 <= i < |fs| ==> ks[i] == fs[i].key
  {
    if |fs| == 0 then [] else [fs[0].key] + Keys(fs[1..])
  }

  /** Position of the first field named `k`, or `|fs|` when there is none. */
  function IndexOf(fs: Fields, k: string): (i: nat)
    ensures i <= |fs|
    ensures i < |fs| ==> fs[i].key == k
    ensures forall j :: 0 <= j < i ==> fs[j].key != k
  {
    if |fs| == 0 then 0
    else if fs[0].key == k then 0
    else 1 + IndexOf(fs[1..], k)
  }

  lemma HasKeyIndex(fs: Fields, k: string)
    ensures HasKey(fs, k) <==> IndexOf(fs, k) < |fs|
  {
  }

  /** Property lookup `o[k]`: the first field named `k`, or `undefined` when there is none. */
  function Get(fs: Fields, k: string): Value
  {
    var i := IndexOf(fs, k);
    if i < |fs| then fs[i].val else Undefined
  }

  /** In an object with distinct keys, each field is what its key reads. */
  lemma GetAt(fs: Fields, i: nat)
    requires UniqueKeys(fs) && i < |fs|
    ensures Get(fs, fs[i].key) == fs[i].val
  {
  }

  /** Assignment `o[k] = v`: overwrites the field in place, or appends a new one. */
  function Set(fs: Fields, k: string, v: Value): (r: Fields)
    ensures Get(r, k) == v
    ensures forall k' :: k' != k ==> Get(r, k') == Get(fs, k')
    ensures Keys(r) == if HasKey(fs, k) then Keys(fs) else Keys(fs) + [k]
  {
    HasKeyIndex(fs, k);
    if IndexOf(fs, k) < |fs| then Overwrite(fs, k, v) else Append(fs, k, v)
  }

  function Overwrite(fs: Fields, k: string, v: Value): (r: Fields)
    requires IndexOf(fs, k) < |fs|
    ensures Get(r, k) == v
    ensures forall k' :: k' != k ==> Get(r, k') == Get(fs, k')
    ensures Keys(r) == Keys(fs)
  {
    var r := fs[IndexOf(fs, k) := Field(k, v)];
    assert forall k' :: IndexOf(r, k') == IndexOf(fs, k') by {
      forall k' ensures IndexOf(r, k') == IndexOf(fs, k') {
        SameKeysSameIndex(fs, r, k');
      }
    }
    r
  }

  function Append(fs: Fields, k: string, v: Value): (r: Fields)
    requires IndexOf(fs, k) == |fs|
    ensures Get(r, k) == v
    ensures forall k' :: k' != k ==> Get(r, k') == Get(fs, k')
    ensures Keys(r) == Keys(fs) + [k]
  {
    var r := fs + [Field(k, v)];
    assert forall k' :: k' != k ==> Get(r, k') == Get(fs, k') by {
      forall k' | k' != k ensures Get(r, k') == Get(fs, k') {
        AppendIndex(fs, Field(k, v), k');
      }
    }
    AppendIndex(fs, Field(k, v), k);
    r
  }

  lemma {:induction false} SameKeysSameIndex(a: Fields, b: Fields, k: string)
    requires |a| == |b| && forall i :: 0 <= i < |a| ==> a[i].key == b[i].key
    ensures IndexOf(a, k) == IndexOf(b, k)
  {
    if |a| > 0 && a[0].key != k {
      SameKeysSameIndex(a[1..], b[1..], k);
    }
  }

  lemma {:induction false} AppendIndex(a: Fields, f: Field, k: string)
    ensures IndexOf(a, k) < |a| ==> IndexOf(a + [f], k) == IndexOf(a, k)
    ensures IndexOf(a, k) == |a| ==> IndexOf(a + [f], k) == if f.key == k then |a| else |a| + 1
  {
    if |a| > 0 && a[0].key != k {
      assert (a + [f])[1..] == a[1..] + [f];
      AppendIndex(a[1..], f, k);
    }
  }

  /**
   * Property read `v[k]`: object fields, array elements and string characters by
   * canonical index, and the `length` of arrays and strings; anything else reads
   * as `undefined`.
   */
  function GetProp(v: Value, k: string): (r: Value)
    ensures v.Obj? ==> r == Get(v.fields, k)
    ensures (v.Arr? || v.Str?) && k == "length" ==> r == Num(FromInt(if v.Arr? then |v.elems| else |v.s|))
    ensures v.Arr? ==> forall i :: 0 <= i < |v.elems| && NatText(i) == k ==> r == v.elems[i]
    ensures v.Arr? && k != "length" && (forall i :: 0 <= i < |v.elems| ==> NatText(i) != k) ==> r == Undefined
    ensures v.Str? ==> forall i :: 0 <= i < |v.s| && NatText(i) == k ==> r == Str([v.s[i]])
    ensures v.Str? && k != "length" && (forall i :: 0 <= i < |v.s| ==> NatText(i) != k) ==> r == Undefined
    ensures !(v.Obj? || v.Arr? || v.Str?) ==> r == Undefined
  {
    match v
    case Obj(fs) => Get(fs, k)
    case Arr(es) =>
      if k == "length" then LengthIsNoIndex(); Num(FromInt(|es|))
      else (match IndexIn(k, |es|) case Some(i) => es[i] case None => Undefined)
    case Str(s) =>
      if k == "length" then LengthIsNoIndex(); Num(FromInt(|s|))
      else (match IndexIn(k, |s|) case Some(i) => Str([s[i]]) case None => Undefined)
    case _ => Undefined
  }

  /** The index below `n` whose decimal text is `k`, if any. */
  function IndexIn(k: string, n: nat): (r: Option<nat>)
    ensures r.Some? ==> r.value < n && NatText(r.value) == k
    ensures r.None? ==> forall i :: 0 <= i < n ==> NatText(i) != k
    ensures forall i :: 0 <= i < n && NatText(i) == k ==> r == Some(i)
  {
    if n == 0 then None
    else if NatText(n - 1) == k then
      NatTextInjective(n - 1);
      Some(n - 1)
    else IndexIn(k, n - 1)
  }

  /** `length` is not the text of any index. */
  lemma LengthIsNoIndex()
    ensures forall i: nat :: NatText(i) != "length"
  {
    forall i: nat
      ensures NatText(i) != "length"
    {
      assert IsDigit(NatText(i)[0]);
    }
  }

  /** Distinct indices have distinct decimal texts. */
  lemma NatTextInjective(n: nat)
    ensures forall i: nat :: NatText(i) == NatText(n) ==> i == n
  {
    forall i: nat | NatText(i) == NatText(n)
      ensures i == n
    {
      NatTextValue(i);
      NatTextValue(n);
    }
  }

  /** The keys a `for (k in v)` loop visits: object keys in insertion order, array indices. */
  function OwnKeys(v: Value): seq<string>
  {
    match v
    case Obj(fs) => Keys(fs)
    case Arr(es) => IndexKeys(|es|)
    case _ => []
  }

  function IndexKeys(n: nat): (ks: seq<string>)
    ensures |ks| == n && forall i :: 0 <= i < n ==> ks[i] == NatText(i)
  {
    if n == 0 then [] else IndexKeys(n - 1) + [NatText(n - 1)]
  }

  /* ---------------------------------------------------------------------------
   * Text forms
   * ------------------------------------------------------------------------- */

  /** `String(v)`: the bare text a `%name%` placeholder is replaced with. */
  function ToText(v: Value): string
  {
    match v
    case Undefined => "undefined"
    case Null => "null"
    case Bool(b) => if b then "true" else "false"
    case Num(n) => NumText(n)
    case Str(s) => s
    case Arr(es) => Join(ElementTexts(es), ",")
    case Obj(_) => "[object Object]"
    case RegExp(src, flags) => "/" + src + "/" + flags
    case Func => "function"
  }

  /** `Array.prototype.toString` renders `null` and `undefined` elements as empty text. */
  function ElementTexts(es: seq<Value>): (ts: seq<string>)
    ensures |ts| == |es|
    decreases es
  {
    if |es| == 0 then []
    else [if es[0].Undefined? || es[0].Null? then "" else ToText(es[0])] + ElementTexts(es[1..])
  }

  /** `JSON.stringify(v)` for a value nested in an array or object (no escaping of quotes). */
  function JsonText(v: Value): string
  {
    match v
    case Undefined => "null"
    case Null => "null"
    case Bool(b) => if b then "true" else "false"
    case Num(n) => NumText(n)
    case Str(s) => Quote(s)
    case Arr(es) => "[" + Join(JsonElements(es), ",") + "]"
    case Obj(fs) => "{" + Join(JsonMembers(fs), ",") + "}"
    case RegExp(_, _) => "{}"
    case Func => "null"
  }

  function JsonElements(es: seq<Value>): (ts: seq<string>)
    ensures |ts| == |es|
    decreases es
  {
    if |es| == 0 then [] else [JsonText(es[0])] + JsonElements(es[1..])
  }

  function JsonMembers(fs: Fields): seq<string>
    decreases fs
  {
    if |fs| == 0 then []
    else if NotJson(fs[0].val) then JsonMembers(fs[1..])
    else [Quote(fs[0].key) + ":" + JsonText(fs[0].val)] + JsonMembers(fs[1..])
  }

  /**
   * Rendering used by the `_ACTUAL_` and `_VALUE_` macros: JSON text, with the
   * sentinel `<undefined>` where JSON has no text at all.
   */
  function Pretty(v: Value): string
  {
    if NotJson(v) then "<undefined>" else JsonText(v)
  }

  /** One reference alternative in a describer phrase: quoted strings, `/p/flags` patterns. */
  function Show(v: Value): string
  {
    match v
    case Str(s) => Quote(s)
    case RegExp(_, _) => ToText(v)
    case _ => JsonText(v)
  }

  /* ---------------------------------------------------------------------------
   * JSON round trip `JSON.parse(JSON.stringify(v))`
   * ------------------------------------------------------------------------- */

  /** The copy of a value nested in an array or object. */
  function JsonClone(v: Value): (r: Value)
    ensures !NotJson(r)
  {
    match v
    case Undefined => Null
    case Func => Null
    case RegExp(_, _) => Obj([])
    case Arr(es) => Arr(CloneElements(es))
    case Obj(fs) => Obj(CloneFields(fs))
    case _ => v
  }

  function CloneElements(es: seq<Value>): (r: seq<Value>)
    ensures |r| == |es|
    decreases es
  {
    if |es| == 0 then [] else [JsonClone(es[0])] + CloneElements(es[1..])
  }

  /** Object copy: fields holding `undefined` or a function disappear, the rest are copied. */
  function CloneFields(fs: Fields): (r: Fields)
    ensures forall i :: 0 <= i < |r| ==> !NotJson(r[i].val)
    ensures forall k :: HasKey(r, k) ==> HasKey(fs, k)
    decreases fs
  {
    if |fs| == 0 then []
    else
      var rest := CloneFields(fs[1..]);
      var r := if NotJson(fs[0].val) then rest else [Field(fs[0].key, JsonClone(fs[0].val))] + rest;
      assert forall k :: HasKey(rest, k) ==> HasKey(fs, k) by {
        forall k | HasKey(rest, k) ensures HasKey(fs, k) {
          var i :| 0 <= i < |fs| - 1 && fs[1..][i].key == k;
          assert fs[i + 1].key == k;
        }
      }
      assert forall k :: HasKey(r, k) ==> HasKey(fs, k) by {
        forall k | HasKey(r, k) ensures HasKey(fs, k) {
          var i :| 0 <= i < |r| && r[i].key == k;
          if !NotJson(fs[0].val) && i > 0 {
            assert r[i] == rest[i - 1];
          }
        }
      }
      r
  }

  /** What a property reads as in the JSON copy of its object: gone, or the copy of its value. */
  function Copied(x: Value): (r: Value)
    ensures r == Undefined <==> NotJson(x)
  {
    if NotJson(x) then Undefined else JsonClone(x)
  }

  /** Reading a key of the copied object reads the copy of the original property. */
  lemma {:induction false} GetClone(fs: Fields, k: string)
    requires UniqueKeys(fs)
    ensures Get(CloneFields(fs), k) == Copied(Get(fs, k))
    decreases |fs|
  {
    if |fs| > 0 {
      var rest := CloneFields(fs[1..]);
      HasKeyTail(fs);
      assert UniqueKeys(fs[1..]) by {
        forall i, j | 0 <= i < j < |fs[1..]| ensures fs[1..][i].key != fs[1..][j].key {
          assert fs[1..][i] == fs[i + 1] && fs[1..][j] == fs[j + 1];
        }
      }
      if fs[0].key == k {
        assert forall i :: 0 <= i < |fs[1..]| ==> fs[1..][i].key != k by {
          forall i | 0 <= i < |fs[1..]| ensures fs[1..][i].key != k {
            assert fs[1..][i] == fs[i + 1];
          }
        }
        assert !HasKey(rest, k) by {
          assert !HasKey(fs[1..], k);
        }
        HasKeyIndex(rest, k);
        if !NotJson(fs[0].val) {
          var c := [Field(k, JsonClone(fs[0].val))] + rest;
          assert c[0].key == k;
        }
      } else {
        GetClone(fs[1..], k);
        if !NotJson(fs[0].val) {
          var c := [Field(fs[0].key, JsonClone(fs[0].val))] + rest;
          assert c[1..] == rest;
          HasKeyTail(c);
        }
      }
    }
  }

  /**
   * The JSON round trip preserves the JSON text: stringifying the copy gives the
   * text the original stringified to.
   */
  lemma {:induction false} JsonCloneText(v: Value)
    ensures JsonText(JsonClone(v)) == JsonText(v)
    decreases v, 1
  {
    match v
    case Arr(es) => CloneElementsText(es);
    case Obj(fs) => CloneFieldsText(fs);
    case _ =>
  }

  lemma {:induction false} CloneElementsText(es: seq<Value>)
    ensures JsonElements(CloneElements(es)) == JsonElements(es)
    decreases es, 0
  {
    if |es| > 0 {
      JsonCloneText(es[0]);
      CloneElementsText(es[1..]);
      var c := CloneElements(es);
      assert c == [JsonClone(es[0])] + CloneElements(es[1..]);
      assert c[1..] == CloneElements(es[1..]);
    }
  }

  lemma {:induction false} CloneFieldsText(fs: Fields)
    ensures JsonMembers(CloneFields(fs)) == JsonMembers(fs)
    decreases fs, 0
  {
    if |fs| > 0 {
      CloneFieldsText(fs[1..]);
      if !NotJson(fs[0].val) {
        JsonCloneText(fs[0].val);
        var c := [Field(fs[0].key, JsonClone(fs[0].val))] + CloneFields(fs[1..]);
        assert c[1..] == CloneFields(fs[1..]);
        assert !NotJson(c[0].val);
      }
    }
  }
}
