/**
 * Laws of the assertion drivers: the defaults a report fills in, the tokens a
 * message is rendered against, the exact text of each default message, which
 * field a field loop reports, and what each shorthand checks.
 */
module AssertLaws {
  import opened Wrappers
  import opened Text
  import opened Numbers
  import opened Values
  import opened Message
  import opened MessageLaws
  import opened Assert
  import Condition
  import ConditionLaws
  import ConditionTextLaws

  /* ---------------------------------------------------------------------------
   * Defaults
   * ------------------------------------------------------------------------- */

  /**
   * A key `o` leaves undefined takes the default's value; together with the
   * contract of `ApplyDefaults`, every key reads as `o`'s value when it has one
   * and as the default otherwise. The defaults are an object, so their keys are
   * distinct.
   */
  lemma {:induction false} ApplyDefaultsFills(o: Fields, defaults: Fields)
    requires UniqueKeys(defaults)
    ensures forall k :: Get(o, k) == Undefined ==> Get(ApplyDefaults(o, defaults), k) == Get(defaults, k)
    decreases |defaults|
  {
    if |defaults| > 0 {
      var d := defaults[0];
      var next := if Get(o, d.key) == Undefined then Set(o, d.key, d.val) else o;
      HasKeyTail(defaults);
      assert UniqueKeys(defaults[1..]) by {
        forall i, j | 0 <= i < j < |defaults[1..]| ensures defaults[1..][i].key != defaults[1..][j].key {
          assert defaults[1..][i] == defaults[i + 1] && defaults[1..][j] == defaults[j + 1];
        }
      }
      assert !HasKey(defaults[1..], d.key) by {
        forall i | 0 <= i < |defaults[1..]| ensures defaults[1..][i].key != d.key {
          assert defaults[1..][i] == defaults[i + 1];
        }
      }
      HasKeyIndex(defaults[1..], d.key);
      ApplyDefaultsFills(next, defaults[1..]);
      forall k | Get(o, k) == Undefined ensures Get(ApplyDefaults(o, defaults), k) == Get(defaults, k) {
        if k == d.key {
          assert Get(next, k) == d.val;
        }
      }
    }
  }

  /** Applying the same defaults twice reads the same as applying them once. */
  lemma ApplyDefaultsIdempotent(o: Fields, defaults: Fields, k: string)
    requires UniqueKeys(defaults)
    ensures Get(ApplyDefaults(ApplyDefaults(o, defaults), defaults), k) == Get(ApplyDefaults(o, defaults), k)
  {
    var r := ApplyDefaults(o, defaults);
    ApplyDefaultsFills(o, defaults);
    ApplyDefaultsFills(r, defaults);
  }

  /* ---------------------------------------------------------------------------
   * What a report renders against
   * ------------------------------------------------------------------------- */

  /** The variable name a message shows: the copied token, or `argument` when it has none. */
  function NameText(varName: Value): string
  {
    if NotJson(varName) then "argument" else ToText(JsonClone(varName))
  }

  /**
   * The rendering context of a report: every token reads as its JSON copy,
   * except that a missing `varName` reads as "argument".
   */
  lemma ContextRead(tokens: Fields, k: string)
    requires UniqueKeys(tokens)
    ensures k != "varName" ==> Get(RenderContext(tokens), k) == Copied(Get(tokens, k))
    ensures k == "varName" ==> ToText(Get(RenderContext(tokens), k)) == NameText(Get(tokens, k))
    ensures k == "varName" ==> Get(RenderContext(tokens), k) != Undefined
  {
    GetClone(tokens, k);
    ApplyDefaultsFills(CloneFields(tokens), DefaultTokens);
  }

  /** A driver that names no stack depth hides the default two frames. */
  lemma DefaultOptionsRead(template: string)
    ensures Get(ReportOptions(MessageOption(template)), "message") == Str(template)
    ensures Get(ReportOptions(MessageOption(template)), "stackDepth") == Num(FromInt(DefaultStackDepth))
  {
    var o := MessageOption(template);
    GetClone(o, "message");
    GetClone(o, "stackDepth");
    ApplyDefaultsFills(CloneFields(o), DefaultOptions);
  }

  /** A driver that names a stack depth keeps it. */
  lemma DepthOptionsRead(template: string, depth: int)
    ensures Get(ReportOptions(DepthOptions(template, depth)), "message") == Str(template)
    ensures Get(ReportOptions(DepthOptions(template, depth)), "stackDepth") == Num(FromInt(depth))
  {
    var o := DepthOptions(template, depth);
    GetClone(o, "message");
    GetClone(o, "stackDepth");
  }

  /* ---------------------------------------------------------------------------
   * Templates as pieces
   * ------------------------------------------------------------------------- */

  /** The pieces with every placeholder replaced. */
  function Fill(ps: seq<Piece>, ctx: Fields): string
  {
    if |ps| == 0 then ""
    else (match ps[0] case Lit(s) => s case Hole(n) => Replacement(n, ctx)) + Fill(ps[1..], ctx)
  }

  /** Substitution replaces the placeholders of the pieces and goes on with what follows. */
  lemma {:induction false} SubstitutePieces(ps: seq<Piece>, rest: string, ctx: Fields)
    requires WellFormed(ps)
    ensures Substitute(Spell(ps) + rest, ctx) == Fill(ps, ctx) + Substitute(rest, ctx)
    decreases |ps|
  {
    if |ps| == 0 {
      assert Spell(ps) + rest == rest;
    } else {
      assert WellFormed(ps[1..]) by {
        forall i | 0 <= i < |ps[1..]| ensures ps[1..][i] == ps[i + 1] { }
      }
      var tail := Spell(ps[1..]) + rest;
      ConcatAssoc(PieceText(ps[0]), Spell(ps[1..]), rest);
      match ps[0]
      case Lit(s) =>
        assert NoPercent(s);
        SubstitutePlain(s, tail, ctx);
        SubstitutePieces(ps[1..], rest, ctx);
      case Hole(n) =>
        SubstitutePlaceholder(n, tail, ctx);
        SubstitutePieces(ps[1..], rest, ctx);
    }
  }

  /** Spelled pieces hold no `(`, so no block opener either. */
  lemma {:induction false} SpellNoOpener(ps: seq<Piece>)
    requires WellFormed(ps)
    ensures forall i :: 0 <= i < |Spell(ps)| ==> Spell(ps)[i] != '('
    ensures NoOpener(Spell(ps))
    decreases |ps|
  {
    if |ps| > 0 {
      assert WellFormed(ps[1..]) by {
        forall i | 0 <= i < |ps[1..]| ensures ps[1..][i] == ps[i + 1] { }
      }
      SpellNoOpener(ps[1..]);
      var h := PieceText(ps[0]);
      assert forall i :: 0 <= i < |h| ==> h[i] != '(' by {
        match ps[0]
        case Lit(s) =>
        case Hole(n) =>
          forall i | 0 <= i < |h| ensures h[i] != '(' {
            if 0 < i < |h| - 1 { assert h[i] == n[i - 1]; }
          }
      }
      var t := Spell(ps);
      forall i | 0 <= i < |t| ensures t[i] != '(' {
        if i >= |h| { assert t[i] == Spell(ps[1..])[i - |h|]; }
      }
    }
  }

  /* ---------------------------------------------------------------------------
   * The `(?funName in %funName%?)` tail every default message ends with
   * ------------------------------------------------------------------------- */

  /** What the tail contributes before the final substitution: " in <name>" when a function name is given. */
  function FunSuffix(ctx: Fields): string
  {
    if Get(ctx, "funName") != Undefined then " in " + ToText(Get(ctx, "funName")) else ""
  }

  /**
   * A message made of block-free text and the function-name tail renders as the
   * text with the tail's rendered message (or nothing) appended, substituted once more.
   */
  lemma RenderWithFunName(p: string, ctx: Fields)
    requires NoOpener(p)
    ensures ReplaceTokens(p + FunNameBlock, ctx) == Substitute(p + FunSuffix(ctx), ctx)
  {
    var n, lead := "funName", " in ";
    assert TailLead(n, lead) by {
      assert AllNameChars(n);
      assert PlainText(lead);
    }
    assert FunNameBlock == "(?" + (n + (lead + "%" + n + "%")) + "?)";
    RenderPresenceTail(p, n, lead, ctx);
    if Get(ctx, n) != Undefined {
      assert Replacement(n, ctx) == ToText(Get(ctx, n));
    }
  }

  /**
   * The shape of a block `(?name<lead>%name%?)`: a presence test of `name` whose
   * message starts with one space and then plain text that neither continues the
   * name nor starts an operator.
   */
  predicate TailLead(n: string, lead: string) {
    && |n| > 0 && AllNameChars(n)
    && |lead| >= 2 && lead[0] == ' ' && !IsSpace(lead[1]) && !ConditionTextLaws.IsOpChar(lead[1])
    && PlainText(lead) && (forall i :: 0 <= i < |lead| ==> lead[i] != '?')
  }

  /** Such a block renders as its message (with the name substituted) when the name is present, else as nothing. */
  lemma RenderPresenceTail(p: string, n: string, lead: string, ctx: Fields)
    requires NoOpener(p) && TailLead(n, lead)
    ensures ReplaceTokens(p + ("(?" + (n + (lead + "%" + n + "%")) + "?)"), ctx)
      == Substitute(p + (if Get(ctx, n) != Undefined then lead + Replacement(n, ctx) else ""), ctx)
  {
    TailBalanced(n, lead);
    var b := n + (lead + "%" + n + "%");
    ResolveTail(p, b, ctx);
    TailBlockText(n, lead, ctx);
  }

  /** Text without openers followed by one balanced block resolves to the text and what the block contributes. */
  lemma ResolveTail(p: string, b: string, ctx: Fields)
    requires NoOpener(p) && Balanced(b)
    ensures Resolve(p + ("(?" + b + "?)"), ctx) == p + BlockText(b, ctx)
  {
    assert p + ("(?" + b + "?)") == p + "(?" + b + "?)" + "";
    ResolveBlock(p, b, "", ctx);
    assert Resolve("", ctx) == "";
  }

  lemma TailBlockText(n: string, lead: string, ctx: Fields)
    requires TailLead(n, lead)
    ensures BlockText(n + (lead + "%" + n + "%"), ctx) == if Get(ctx, n) != Undefined then lead + Replacement(n, ctx) else ""
  {
    TailParses(n, lead);
    if Get(ctx, n) != Undefined {
      TailMessageRenders(n, lead, ctx);
    }
  }

  lemma TailBalanced(n: string, lead: string)
    requires TailLead(n, lead)
    ensures Balanced(n + (lead + "%" + n + "%"))
  {
    var b := n + (lead + "%" + n + "%");
    forall i | 0 <= i < |b| ensures b[i] != '(' && b[i] != '?' {
      if i < |n| {
        assert b[i] == n[i];
      } else if i < |n| + |lead| {
        assert b[i] == lead[i - |n|];
      } else if i >= |n| + |lead| + 1 && i < |b| - 1 {
        assert b[i] == n[i - |n| - |lead| - 1];
      }
    }
    PlainBodyBalanced(b);
  }

  lemma TailParses(n: string, lead: string)
    requires TailLead(n, lead)
    ensures ParseBlock(n + (lead + "%" + n + "%")).con == Presence(n)
    ensures ParseBlock(n + (lead + "%" + n + "%")).msg == lead + "%" + n + "%"
  {
    var m := lead + "%" + n + "%";
    assert m[0] == ' ' && m[1] == lead[1];
    assert LeadingSpaces(m) == 1 by {
      assert m[1..][0] == m[1];
    }
    assert TrimLeft(m)[0] == lead[1];
    assert TrailingSpaces(m) == 0 by {
      assert m[|m| - 1] == '%';
    }
    assert TrimRight(m) == m;
    assert "" + n + m == n + m;
    ConditionTextLaws.BlockPresence("", n, m);
  }

  lemma TailMessageRenders(n: string, lead: string, ctx: Fields)
    requires TailLead(n, lead)
    ensures ReplaceTokens(lead + "%" + n + "%", ctx) == lead + Replacement(n, ctx)
  {
    var ps := [Lit(lead), Hole(n)];
    assert ps[1..] == [Hole(n)] && ps[1..][1..] == [];
    assert Spell(ps[1..]) == "%" + n + "%" + Spell([]);
    assert Spell(ps) == lead + "%" + n + "%";
    assert Fill(ps[1..], ctx) == Replacement(n, ctx) + Fill([], ctx);
    assert Fill(ps, ctx) == lead + Replacement(n, ctx);
    assert WellFormed(ps);
    RenderPieces(ps, ctx);
  }

  /** A block-free template of pieces renders to its filled pieces. */
  lemma RenderPieces(ps: seq<Piece>, ctx: Fields)
    requires WellFormed(ps)
    ensures ReplaceTokens(Spell(ps), ctx) == Fill(ps, ctx)
  {
    SpellNoOpener(ps);
    RenderWithoutBlocks(Spell(ps), ctx);
    SubstitutePieces(ps, "", ctx);
    assert Spell(ps) + "" == Spell(ps);
    assert Substitute("", ctx) == "";
  }

  /** Substituting the tail's output: the function name's own text is scanned for placeholders too. */
  lemma FunSuffixSubstituted(ctx: Fields)
    ensures Substitute(FunSuffix(ctx), ctx) ==
      if Get(ctx, "funName") != Undefined then " in " + Substitute(ToText(Get(ctx, "funName")), ctx) else ""
  {
    if Get(ctx, "funName") != Undefined {
      SubstitutePlain(" in ", ToText(Get(ctx, "funName")), ctx);
    }
  }

  /** A template of pieces followed by the tail renders as the filled pieces and the substituted suffix. */
  lemma RenderTemplate(ps: seq<Piece>, ctx: Fields)
    requires WellFormed(ps)
    ensures ReplaceTokens(Spell(ps) + FunNameBlock, ctx) == Fill(ps, ctx) + Substitute(FunSuffix(ctx), ctx)
  {
    SpellNoOpener(ps);
    RenderWithFunName(Spell(ps), ctx);
    SubstitutePieces(ps, FunSuffix(ctx), ctx);
  }


  /* ---------------------------------------------------------------------------
   * The text of each default message
   * ------------------------------------------------------------------------- */

  /** What the function-name block leaves at the end of a message: " in <name>", its placeholders substituted once more. */
  function Tail(funName: Value, ctx: Fields): string
  {
    if NotJson(funName) then "" else " in " + Substitute(ToText(JsonClone(funName)), ctx)
  }

  lemma TailRead(tokens: Fields, funName: Value)
    requires UniqueKeys(tokens) && Get(tokens, "funName") == funName
    ensures Substitute(FunSuffix(RenderContext(tokens)), RenderContext(tokens)) == Tail(funName, RenderContext(tokens))
  {
    ContextRead(tokens, "funName");
    FunSuffixSubstituted(RenderContext(tokens));
  }

  /** Two leading pieces, literal text then a placeholder, fill independently of the rest. */
  lemma FillPair(a: string, n: string, rest: seq<Piece>, ctx: Fields)
    ensures Fill([Lit(a), Hole(n)] + rest, ctx) == a + Replacement(n, ctx) + Fill(rest, ctx)
  {
    var ps := [Lit(a), Hole(n)] + rest;
    var tail := ps[1..];
    assert ps[0] == Lit(a) && tail == [Hole(n)] + rest;
    assert tail[0] == Hole(n) && tail[1..] == rest;
    assert Fill(tail, ctx) == Replacement(n, ctx) + Fill(rest, ctx);
    assert Fill(ps, ctx) == a + Fill(tail, ctx);
  }

  /** Regrouping the concatenation of four pairs. */
  lemma NestPairs(a: string, b: string, c: string, d: string, e: string, f: string, g: string, h: string)
    ensures a + b + (c + d + (e + f + (g + h + ""))) == a + b + c + d + e + f + g + h
    ensures a + b + (c + d + (e + f + "")) == a + b + c + d + e + f
    ensures a + b + (c + d + e) == a + b + c + d + e
  {
  }

  lemma FillThreePairs(a: string, b: string, c: string, d: string, e: string, f: string, ctx: Fields)
    ensures Fill([Lit(a), Hole(b), Lit(c), Hole(d), Lit(e), Hole(f)], ctx)
      == a + Replacement(b, ctx) + c + Replacement(d, ctx) + e + Replacement(f, ctx)
  {
    var p3: seq<Piece> := [Lit(e), Hole(f)] + [];
    var p2 := [Lit(c), Hole(d)] + p3;
    assert [Lit(a), Hole(b), Lit(c), Hole(d), Lit(e), Hole(f)] == [Lit(a), Hole(b)] + p2;
    FillPair(a, b, p2, ctx);
    FillPair(c, d, p3, ctx);
    FillPair(e, f, [], ctx);
    NestPairs(a, Replacement(b, ctx), c, Replacement(d, ctx), e, Replacement(f, ctx), "", "");
  }

  lemma FillFourPairs(a: string, b: string, c: string, d: string, e: string, f: string, g: string, h: string, ctx: Fields)
    ensures Fill([Lit(a), Hole(b), Lit(c), Hole(d), Lit(e), Hole(f), Lit(g), Hole(h)], ctx)
      == a + Replacement(b, ctx) + c + Replacement(d, ctx) + e + Replacement(f, ctx) + g + Replacement(h, ctx)
  {
    var p4: seq<Piece> := [Lit(g), Hole(h)] + [];
    var p3 := [Lit(e), Hole(f)] + p4;
    var p2 := [Lit(c), Hole(d)] + p3;
    assert [Lit(a), Hole(b), Lit(c), Hole(d), Lit(e), Hole(f), Lit(g), Hole(h)] == [Lit(a), Hole(b)] + p2;
    FillPair(a, b, p2, ctx);
    FillPair(c, d, p3, ctx);
    FillPair(e, f, p4, ctx);
    FillPair(g, h, [], ctx);
    NestPairs(a, Replacement(b, ctx), c, Replacement(d, ctx), e, Replacement(f, ctx), g, Replacement(h, ctx));
  }

  lemma FillTwoPairsAndText(a: string, b: string, c: string, d: string, e: string, ctx: Fields)
    ensures Fill([Lit(a), Hole(b), Lit(c), Hole(d), Lit(e)], ctx) == a + Replacement(b, ctx) + c + Replacement(d, ctx) + e
  {
    var p3: seq<Piece> := [Lit(e)];
    var p2 := [Lit(c), Hole(d)] + p3;
    assert [Lit(a), Hole(b), Lit(c), Hole(d), Lit(e)] == [Lit(a), Hole(b)] + p2;
    FillPair(a, b, p2, ctx);
    FillPair(c, d, p3, ctx);
    assert p3[1..] == [];
    assert Fill(p3, ctx) == e;
    NestPairs(a, Replacement(b, ctx), c, Replacement(d, ctx), e, "", "", "");
  }

  lemma FillType(ctx: Fields)
    ensures Fill(TypePieces, ctx) == "Wrong type for '" + Replacement("varName", ctx) + "', expected "
      + Replacement("type", ctx) + ", got " + Replacement("_TYPE_", ctx)
  {
    FillThreePairs("Wrong type for '", "varName", "', expected ", "type", ", got ", "_TYPE_", ctx);
  }

  lemma ThreePairsWellFormed(a: string, b: string, c: string, d: string, e: string, f: string)
    requires PlainText(a) && PlainText(c) && PlainText(e)
    requires |b| > 0 && AllNameChars(b) && |d| > 0 && AllNameChars(d) && |f| > 0 && AllNameChars(f)
    ensures WellFormed([Lit(a), Hole(b), Lit(c), Hole(d), Lit(e), Hole(f)])
  {
  }

  lemma FourPairsWellFormed(a: string, b: string, c: string, d: string, e: string, f: string, g: string, h: string)
    requires PlainText(a) && PlainText(c) && PlainText(e) && PlainText(g)
    requires |b| > 0 && AllNameChars(b) && |d| > 0 && AllNameChars(d) && |f| > 0 && AllNameChars(f)
    requires |h| > 0 && AllNameChars(h)
    ensures WellFormed([Lit(a), Hole(b), Lit(c), Hole(d), Lit(e), Hole(f), Lit(g), Hole(h)])
  {
  }

  lemma TwoPairsAndTextWellFormed(a: string, b: string, c: string, d: string, e: string)
    requires PlainText(a) && PlainText(c) && PlainText(e)
    requires |b| > 0 && AllNameChars(b) && |d| > 0 && AllNameChars(d)
    ensures WellFormed([Lit(a), Hole(b), Lit(c), Hole(d), Lit(e)])
  {
  }

  /** Every placeholder name the default templates use is a run of word characters. */
  lemma HoleNames()
    ensures AllNameChars("field") && AllNameChars("varName") && AllNameChars("type")
    ensures AllNameChars("actual") && AllNameChars("expected") && AllNameChars("_TYPE_") && AllNameChars("_ACTUAL_")
  {
    assert AllNameChars("field");
    assert AllNameChars("varName");
    assert AllNameChars("type");
    assert AllNameChars("actual");
    assert AllNameChars("expected");
    assert AllNameChars("_TYPE_");
    assert AllNameChars("_ACTUAL_");
  }

  lemma TypePiecesWellFormed()
    ensures WellFormed(TypePieces)
  {
    HoleNames();
    ThreePairsWellFormed("Wrong type for '", "varName", "', expected ", "type", ", got ", "_TYPE_");
  }

  /**
   * A failed report whose options name only a default-shaped template renders
   * the template's pieces against the completed context, appends the tail, and
   * hides the default two frames.
   */
  lemma ReportFailed(ps: seq<Piece>, tokens: Fields)
    requires WellFormed(ps) && UniqueKeys(tokens)
    ensures var ctx := RenderContext(tokens);
      ReportAssertion(false, MessageOption(Spell(ps) + FunNameBlock), tokens)
      == Failed(Fill(ps, ctx) + Tail(Get(tokens, "funName"), ctx), Num(FromInt(DefaultStackDepth)))
  {
    var ctx := RenderContext(tokens);
    DefaultOptionsRead(Spell(ps) + FunNameBlock);
    RenderTemplate(ps, ctx);
    TailRead(tokens, Get(tokens, "funName"));
  }

  /** The same for a report that names its stack depth. */
  lemma ReportFailedAtDepth(ps: seq<Piece>, tokens: Fields, depth: int)
    requires WellFormed(ps) && UniqueKeys(tokens)
    ensures var ctx := RenderContext(tokens);
      ReportAssertion(false, DepthOptions(Spell(ps) + FunNameBlock, depth), tokens)
      == Failed(Fill(ps, ctx) + Tail(Get(tokens, "funName"), ctx), Num(FromInt(depth)))
  {
    var ctx := RenderContext(tokens);
    DepthOptionsRead(Spell(ps) + FunNameBlock, depth);
    RenderTemplate(ps, ctx);
    TailRead(tokens, Get(tokens, "funName"));
  }

  /** A placeholder naming a token that is not a macro shows the token's copy as text. */
  lemma TokenText(tokens: Fields, name: string)
    requires UniqueKeys(tokens) && name != "varName" && !NotJson(Get(tokens, name))
    requires name != "_TYPE_" && name != "_LEN_" && name != "_ACTUAL_" && name != "_VALUE_"
    ensures Replacement(name, RenderContext(tokens)) == ToText(JsonClone(Get(tokens, name)))
  {
    ContextRead(tokens, name);
  }

  /** `%varName%` shows the copied variable name, or "argument". */
  lemma VarNameText(tokens: Fields)
    requires UniqueKeys(tokens)
    ensures Replacement("varName", RenderContext(tokens)) == NameText(Get(tokens, "varName"))
  {
    ContextRead(tokens, "varName");
  }

  /** `%_TYPE_%` shows the type of the copied value token. */
  lemma TypeMacroText(tokens: Fields)
    requires UniqueKeys(tokens)
    ensures Replacement("_TYPE_", RenderContext(tokens)) == TypeOf(Copied(Get(tokens, "value")))
  {
    ContextRead(tokens, "value");
  }

  /** `%_ACTUAL_%` shows the JSON text of the actual token, or `<undefined>`. */
  lemma ActualMacroText(tokens: Fields)
    requires UniqueKeys(tokens)
    ensures Replacement("_ACTUAL_", RenderContext(tokens)) == Pretty(Get(tokens, "actual"))
  {
    ContextRead(tokens, "actual");
    PrettyCopied(Get(tokens, "actual"));
  }

  /** Copying does not change what `JSON.stringify` prints. */
  lemma PrettyCopied(x: Value)
    ensures Pretty(Copied(x)) == Pretty(x)
  {
    if !NotJson(x) {
      JsonCloneText(x);
    }
  }

  /** The message a failed `_assertType` shows: the variable name, the accepted types and the copied value's type. */
  lemma TypeFailure(v: Value, types: Value, varName: Value, funName: Value)
    requires !Accepts(types, v)
    ensures var ctx := RenderContext(TypeTokens(v, types, varName, funName));
      AssertType(DefaultMessages, v, types, varName, funName)
      == Failed("Wrong type for '" + NameText(varName) + "', expected " + TypeText(types) + ", got "
                + TypeOf(Copied(v)) + Tail(funName, ctx), Num(FromInt(2)))
  {
    TypeReport(v, types, varName, funName);
    TypeMessage(v, types, varName, funName);
  }

  lemma TypeReport(v: Value, types: Value, varName: Value, funName: Value)
    requires !Accepts(types, v)
    ensures var ctx := RenderContext(TypeTokens(v, types, varName, funName));
      AssertType(DefaultMessages, v, types, varName, funName)
      == Failed(Fill(TypePieces, ctx) + Tail(funName, ctx), Num(FromInt(DefaultStackDepth)))
  {
    TypeTokensRead(v, types, varName, funName);
    TypePiecesWellFormed();
    ReportFailed(TypePieces, TypeTokens(v, types, varName, funName));
  }

  lemma TypeMessage(v: Value, types: Value, varName: Value, funName: Value)
    ensures var ctx := RenderContext(TypeTokens(v, types, varName, funName));
      Fill(TypePieces, ctx)
      == "Wrong type for '" + NameText(varName) + "', expected " + TypeText(types) + ", got " + TypeOf(Copied(v))
  {
    TypeTokensRead(v, types, varName, funName);
    TypeTemplateText(TypeTokens(v, types, varName, funName));
  }

  lemma TypeTokensRead(v: Value, types: Value, varName: Value, funName: Value)
    ensures var tokens := TypeTokens(v, types, varName, funName);
      && UniqueKeys(tokens) && Get(tokens, "value") == v && Get(tokens, "type") == Str(TypeText(types))
      && Get(tokens, "varName") == varName && Get(tokens, "funName") == funName
  {
    var tokens := TypeTokens(v, types, varName, funName);
    assert UniqueKeys(tokens);
    GetAt(tokens, 0);
    GetAt(tokens, 1);
    GetAt(tokens, 2);
    GetAt(tokens, 3);
  }

  /** The type template against any tokens with distinct keys and a `type` token. */
  lemma TypeTemplateText(tokens: Fields)
    requires UniqueKeys(tokens) && !NotJson(Get(tokens, "type"))
    ensures Fill(TypePieces, RenderContext(tokens))
      == "Wrong type for '" + NameText(Get(tokens, "varName")) + "', expected "
         + ToText(JsonClone(Get(tokens, "type"))) + ", got " + TypeOf(Copied(Get(tokens, "value")))
  {
    FillType(RenderContext(tokens));
    VarNameText(tokens);
    TokenText(tokens, "type");
    TypeMacroText(tokens);
  }

  lemma ValuePiecesWellFormed()
    ensures WellFormed(ValuePieces)
  {
    HoleNames();
    ThreePairsWellFormed("Wrong value for '", "varName", "', expected ", "expected", ", got ", "_ACTUAL_");
  }

  /** The value template against any tokens with distinct keys and an `expected` token. */
  lemma ValueTemplateText(tokens: Fields)
    requires UniqueKeys(tokens) && !NotJson(Get(tokens, "expected"))
    ensures Fill(ValuePieces, RenderContext(tokens))
      == "Wrong value for '" + NameText(Get(tokens, "varName")) + "', expected "
         + ToText(JsonClone(Get(tokens, "expected"))) + ", got " + Pretty(Get(tokens, "actual"))
  {
    FillThreePairs("Wrong value for '", "varName", "', expected ", "expected", ", got ", "_ACTUAL_", RenderContext(tokens));
    VarNameText(tokens);
    TokenText(tokens, "expected");
    ActualMacroText(tokens);
  }

  lemma ValueReport(v: Value, c: Condition.Condition, re: Condition.Matcher, varName: Value, funName: Value, extra: Option<int>)
    requires Condition.Evaluate(v, c, re).Fail?
    ensures var ctx := RenderContext(ValueTokens(v, Condition.Evaluate(v, c, re), varName, funName));
      AssertValue(DefaultMessages, v, c, re, varName, funName, extra)
      == Failed(Fill(ValuePieces, ctx) + Tail(funName, ctx), Num(FromInt(ValueDepth(extra))))
  {
    var tokens := ValueTokens(v, Condition.Evaluate(v, c, re), varName, funName);
    assert UniqueKeys(tokens);
    ValuePiecesWellFormed();
    ReportFailedAtDepth(ValuePieces, tokens, ValueDepth(extra));
    GetAt(tokens, 4);
  }

  lemma ValueMessage(v: Value, o: Condition.Outcome, varName: Value, funName: Value)
    requires o.Fail?
    ensures Fill(ValuePieces, RenderContext(ValueTokens(v, o, varName, funName)))
      == "Wrong value for '" + NameText(varName) + "', expected " + o.details + ", got " + Pretty(o.actual)
  {
    var tokens := ValueTokens(v, o, varName, funName);
    ValueTokensRead(v, o, varName, funName);
    ValueTemplateText(tokens);
    assert ToText(JsonClone(Get(tokens, "expected"))) == o.details by {
      assert ToText(JsonClone(Str(o.details))) == o.details;
    }
  }

  lemma ValueTokensRead(v: Value, o: Condition.Outcome, varName: Value, funName: Value)
    requires o.Fail?
    ensures var tokens := ValueTokens(v, o, varName, funName);
      && UniqueKeys(tokens) && Get(tokens, "expected") == Str(o.details)
      && Get(tokens, "actual") == o.actual && Get(tokens, "varName") == varName
  {
    var tokens := ValueTokens(v, o, varName, funName);
    assert UniqueKeys(tokens);
    GetAt(tokens, 1);
    GetAt(tokens, 2);
    GetAt(tokens, 3);
  }

  /**
   * The message a failed `_assertValue` shows: the variable name, the evaluator's
   * description of what was expected and the JSON text of the offending value;
   * the error hides the default frames plus the extra ones.
   */
  lemma ValueFailure(v: Value, c: Condition.Condition, re: Condition.Matcher, varName: Value, funName: Value, extra: Option<int>)
    requires Condition.Evaluate(v, c, re).Fail?
    ensures var o := Condition.Evaluate(v, c, re);
      var ctx := RenderContext(ValueTokens(v, o, varName, funName));
      AssertValue(DefaultMessages, v, c, re, varName, funName, extra)
      == Failed("Wrong value for '" + NameText(varName) + "', expected " + o.details + ", got "
                + Pretty(o.actual) + Tail(funName, ctx), Num(FromInt(ValueDepth(extra))))
  {
    ValueReport(v, c, re, varName, funName, extra);
    ValueMessage(v, Condition.Evaluate(v, c, re), varName, funName);
  }

  lemma FieldTypePiecesWellFormed()
    ensures WellFormed(FieldTypePieces)
  {
    HoleNames();
    FourPairsWellFormed("Wrong type for field '", "field", "' of '", "varName", "', expected ", "type", ", got ", "actual");
  }

  lemma FieldTypeTemplateText(tokens: Fields)
    requires UniqueKeys(tokens)
    requires !NotJson(Get(tokens, "field")) && !NotJson(Get(tokens, "type")) && !NotJson(Get(tokens, "actual"))
    ensures Fill(FieldTypePieces, RenderContext(tokens))
      == "Wrong type for field '" + ToText(JsonClone(Get(tokens, "field"))) + "' of '" + NameText(Get(tokens, "varName"))
         + "', expected " + ToText(JsonClone(Get(tokens, "type"))) + ", got " + ToText(JsonClone(Get(tokens, "actual")))
  {
    FillFourPairs("Wrong type for field '", "field", "' of '", "varName", "', expected ", "type", ", got ", "actual", RenderContext(tokens));
    TokenText(tokens, "field");
    VarNameText(tokens);
    TokenText(tokens, "type");
    TokenText(tokens, "actual");
  }

  lemma FieldTypeMessage(x: Value, types: Value, actual: string, field: string, varName: Value, funName: Value)
    ensures Fill(FieldTypePieces, RenderContext(FieldTypeTokens(x, types, actual, field, varName, funName)))
      == "Wrong type for field '" + field + "' of '" + NameText(varName) + "', expected " + TypeText(types) + ", got " + actual
  {
    FieldTypeTokensRead(x, types, actual, field, varName, funName);
    assert ToText(JsonClone(Str(field))) == field;
    assert ToText(JsonClone(Str(TypeText(types)))) == TypeText(types);
    assert ToText(JsonClone(Str(actual))) == actual;
    FieldTypeTemplateText(FieldTypeTokens(x, types, actual, field, varName, funName));
  }

  lemma FieldTypeTokensRead(x: Value, types: Value, actual: string, field: string, varName: Value, funName: Value)
    ensures var tokens := FieldTypeTokens(x, types, actual, field, varName, funName);
      && UniqueKeys(tokens) && Get(tokens, "type") == Str(TypeText(types)) && Get(tokens, "actual") == Str(actual)
      && Get(tokens, "varName") == varName && Get(tokens, "field") == Str(field)
  {
    var tokens := FieldTypeTokens(x, types, actual, field, varName, funName);
    assert UniqueKeys(tokens);
    GetAt(tokens, 1);
    GetAt(tokens, 2);
    GetAt(tokens, 3);
    GetAt(tokens, 4);
  }

  /** A failed field-type report with the given template, as pieces. */
  lemma FieldTypeReported(ps: seq<Piece>, x: Value, types: Value, actual: string, field: string, varName: Value, funName: Value)
    requires WellFormed(ps)
    ensures var tokens := FieldTypeTokens(x, types, actual, field, varName, funName);
      var ctx := RenderContext(tokens);
      ReportAssertion(false, MessageOption(Spell(ps) + FunNameBlock), tokens)
      == Failed(Fill(ps, ctx) + Tail(funName, ctx), Num(FromInt(DefaultStackDepth)))
  {
    var tokens := FieldTypeTokens(x, types, actual, field, varName, funName);
    assert UniqueKeys(tokens);
    ReportFailed(ps, tokens);
    GetAt(tokens, 5);
  }

  /**
   * The message a failing entry of `_assertFieldTypes` shows: the field, the
   * variable, the accepted types and the field's type, `<undefined>` when absent.
   */
  lemma FieldTypeFailure(v: Value, rule: TypeRule, varName: Value, funName: Value)
    requires !Accepts(rule.types, GetProp(v, rule.field))
    ensures var x := GetProp(v, rule.field);
      var actual := if x == Undefined then "<undefined>" else TypeOf(x);
      var ctx := RenderContext(FieldTypeTokens(x, rule.types, actual, rule.field, varName, funName));
      FieldTypeReport(DefaultMessages, v, rule, varName, funName)
      == Failed("Wrong type for field '" + rule.field + "' of '" + NameText(varName) + "', expected "
                + TypeText(rule.types) + ", got " + actual + Tail(funName, ctx), Num(FromInt(2)))
  {
    var x := GetProp(v, rule.field);
    var actual := if x == Undefined then "<undefined>" else TypeOf(x);
    TypeOfUndefined(x);
    assert FieldTypeReport(DefaultMessages, v, rule, varName, funName)
      == ReportAssertion(false, MessageOption(MsgAssertFieldTypes), FieldTypeTokens(x, rule.types, actual, rule.field, varName, funName));
    FieldTypePiecesWellFormed();
    FieldTypeReported(FieldTypePieces, x, rule.types, actual, rule.field, varName, funName);
    FieldTypeMessage(x, rule.types, actual, rule.field, varName, funName);
  }

  /** The optional variant shows the field's type as `typeof` names it. */
  lemma OptionalFieldTypeFailure(v: Value, rule: TypeRule, varName: Value, funName: Value)
    requires !Accepts(rule.types, GetProp(v, rule.field))
    ensures var x := GetProp(v, rule.field);
      var ctx := RenderContext(FieldTypeTokens(x, rule.types, TypeOf(x), rule.field, varName, funName));
      OptionalFieldTypeReport(DefaultMessages, v, rule, varName, funName)
      == Failed("Wrong type for field '" + rule.field + "' of '" + NameText(varName) + "', expected "
                + TypeText(rule.types) + ", got " + TypeOf(x) + Tail(funName, ctx), Num(FromInt(2)))
  {
    var x := GetProp(v, rule.field);
    FieldTypePiecesWellFormed();
    FieldTypeReported(FieldTypePieces, x, rule.types, TypeOf(x), rule.field, varName, funName);
    FieldTypeMessage(x, rule.types, TypeOf(x), rule.field, varName, funName);
  }

  lemma FieldValuePiecesWellFormed()
    ensures WellFormed(FieldValuePieces)
  {
    HoleNames();
    FourPairsWellFormed("Wrong value for field '", "field", "' of '", "varName", "', expected ", "expected", ", got ", "_ACTUAL_");
  }

  lemma FieldValueTemplateText(tokens: Fields)
    requires UniqueKeys(tokens)
    requires !NotJson(Get(tokens, "field")) && !NotJson(Get(tokens, "expected"))
    ensures Fill(FieldValuePieces, RenderContext(tokens))
      == "Wrong value for field '" + ToText(JsonClone(Get(tokens, "field"))) + "' of '" + NameText(Get(tokens, "varName"))
         + "', expected " + ToText(JsonClone(Get(tokens, "expected"))) + ", got " + Pretty(Get(tokens, "actual"))
  {
    FillFourPairs("Wrong value for field '", "field", "' of '", "varName", "', expected ", "expected", ", got ", "_ACTUAL_", RenderContext(tokens));
    TokenText(tokens, "field");
    VarNameText(tokens);
    TokenText(tokens, "expected");
    ActualMacroText(tokens);
  }

  lemma FieldValueMessage(x: Value, o: Condition.Outcome, actual: Value, field: string, varName: Value, funName: Value)
    requires o.Fail?
    ensures Fill(FieldValuePieces, RenderContext(FieldValueTokens(x, o, actual, field, varName, funName)))
      == "Wrong value for field '" + field + "' of '" + NameText(varName) + "', expected " + o.details + ", got " + Pretty(actual)
  {
    FieldValueTokensRead(x, o, actual, field, varName, funName);
    assert ToText(JsonClone(Str(field))) == field;
    assert ToText(JsonClone(Str(o.details))) == o.details;
    FieldValueTemplateText(FieldValueTokens(x, o, actual, field, varName, funName));
  }

  lemma FieldValueTokensRead(x: Value, o: Condition.Outcome, actual: Value, field: string, varName: Value, funName: Value)
    requires o.Fail?
    ensures var tokens := FieldValueTokens(x, o, actual, field, varName, funName);
      && UniqueKeys(tokens) && Get(tokens, "expected") == Str(o.details) && Get(tokens, "actual") == actual
      && Get(tokens, "varName") == varName && Get(tokens, "field") == Str(field)
  {
    var tokens := FieldValueTokens(x, o, actual, field, varName, funName);
    assert UniqueKeys(tokens);
    GetAt(tokens, 1);
    GetAt(tokens, 2);
    GetAt(tokens, 3);
    GetAt(tokens, 4);
  }

  lemma FieldValueReported(ps: seq<Piece>, x: Value, o: Condition.Outcome, actual: Value, field: string, varName: Value, funName: Value)
    requires WellFormed(ps)
    ensures var tokens := FieldValueTokens(x, o, actual, field, varName, funName);
      var ctx := RenderContext(tokens);
      ReportAssertion(false, MessageOption(Spell(ps) + FunNameBlock), tokens)
      == Failed(Fill(ps, ctx) + Tail(funName, ctx), Num(FromInt(DefaultStackDepth)))
  {
    var tokens := FieldValueTokens(x, o, actual, field, varName, funName);
    assert UniqueKeys(tokens);
    ReportFailed(ps, tokens);
    GetAt(tokens, 5);
  }

  /**
   * The message a failing entry of `_assertFieldValues` shows: the field, the
   * variable, the evaluator's description and the JSON text of the offending value.
   */
  lemma FieldValueFailure(v: Value, rule: ValueRule, re: Condition.Matcher, varName: Value, funName: Value)
    requires Condition.Evaluate(GetProp(v, rule.field), rule.cond, re).Fail?
    ensures var x := GetProp(v, rule.field);
      var o := Condition.Evaluate(x, rule.cond, re);
      var ctx := RenderContext(FieldValueTokens(x, o, o.actual, rule.field, varName, funName));
      FieldValueReport(DefaultMessages, v, rule, re, varName, funName)
      == Failed("Wrong value for field '" + rule.field + "' of '" + NameText(varName) + "', expected "
                + o.details + ", got " + Pretty(o.actual) + Tail(funName, ctx), Num(FromInt(2)))
  {
    var x := GetProp(v, rule.field);
    var o := Condition.Evaluate(x, rule.cond, re);
    FieldValuePiecesWellFormed();
    FieldValueReported(FieldValuePieces, x, o, o.actual, rule.field, varName, funName);
    FieldValueMessage(x, o, o.actual, rule.field, varName, funName);
  }

  /**
   * The optional variant replaces a missing actual value by the string
   * "<undefined>", which the `_ACTUAL_` macro then prints in JSON quotes.
   */
  lemma OptionalFieldValueFailure(v: Value, rule: ValueRule, re: Condition.Matcher, varName: Value, funName: Value)
    requires Condition.Evaluate(GetProp(v, rule.field), rule.cond, re).Fail?
    ensures var x := GetProp(v, rule.field);
      var o := Condition.Evaluate(x, rule.cond, re);
      var ctx := RenderContext(FieldValueTokens(x, o, ActualOrMarker(o), rule.field, varName, funName));
      OptionalFieldValueReport(DefaultMessages, v, rule, re, varName, funName)
      == Failed("Wrong value for field '" + rule.field + "' of '" + NameText(varName) + "', expected "
                + o.details + ", got " + (if o.actual == Undefined then "\"<undefined>\"" else Pretty(o.actual))
                + Tail(funName, ctx), Num(FromInt(2)))
  {
    var x := GetProp(v, rule.field);
    var o := Condition.Evaluate(x, rule.cond, re);
    FieldValuePiecesWellFormed();
    FieldValueReported(FieldValuePieces, x, o, ActualOrMarker(o), rule.field, varName, funName);
    FieldValueMessage(x, o, ActualOrMarker(o), rule.field, varName, funName);
    MarkerShown(o);
  }

  lemma MarkerShown(o: Condition.Outcome)
    requires o.Fail?
    ensures Pretty(ActualOrMarker(o)) == if o.actual == Undefined then "\"<undefined>\"" else Pretty(o.actual)
  {
  }

  lemma KeyTokensRead(key: string, varName: Value, funName: Value)
    ensures var tokens := KeyTokens(key, varName, funName);
      && UniqueKeys(tokens) && Get(tokens, "field") == Str(key)
      && Get(tokens, "varName") == varName && Get(tokens, "funName") == funName
  {
    var tokens := KeyTokens(key, varName, funName);
    assert UniqueKeys(tokens);
    GetAt(tokens, 0);
    GetAt(tokens, 1);
    GetAt(tokens, 2);
  }

  lemma AllowedPiecesWellFormed()
    ensures WellFormed(AllowedPieces)
  {
    HoleNames();
    TwoPairsAndTextWellFormed("Unexpected field '", "field", "' in '", "varName", "'");
  }

  lemma ForbiddenPiecesWellFormed()
    ensures WellFormed(ForbiddenPieces)
  {
    HoleNames();
    TwoPairsAndTextWellFormed("Field '", "field", "' not allowed in '", "varName", "'");
  }

  lemma AllowedTemplateText(key: string, varName: Value, funName: Value)
    ensures Fill(AllowedPieces, RenderContext(KeyTokens(key, varName, funName)))
      == "Unexpected field '" + key + "' in '" + NameText(varName) + "'"
  {
    var tokens := KeyTokens(key, varName, funName);
    KeyTokensRead(key, varName, funName);
    FillTwoPairsAndText("Unexpected field '", "field", "' in '", "varName", "'", RenderContext(tokens));
    TokenText(tokens, "field");
    VarNameText(tokens);
  }

  lemma ForbiddenTemplateText(key: string, varName: Value, funName: Value)
    ensures Fill(ForbiddenPieces, RenderContext(KeyTokens(key, varName, funName)))
      == "Field '" + key + "' not allowed in '" + NameText(varName) + "'"
  {
    var tokens := KeyTokens(key, varName, funName);
    KeyTokensRead(key, varName, funName);
    FillTwoPairsAndText("Field '", "field", "' not allowed in '", "varName", "'", RenderContext(tokens));
    TokenText(tokens, "field");
    VarNameText(tokens);
  }

  /** A key report that fails renders its template and hides the default frames. */
  lemma KeyReported(ps: seq<Piece>, key: string, names: seq<string>, wanted: bool, varName: Value, funName: Value)
    requires WellFormed(ps) && (key in names) != wanted
    ensures var ctx := RenderContext(KeyTokens(key, varName, funName));
      KeyReport(Spell(ps) + FunNameBlock, key, names, wanted, varName, funName)
      == Failed(Fill(ps, ctx) + Tail(funName, ctx), Num(FromInt(DefaultStackDepth)))
  {
    KeyTokensRead(key, varName, funName);
    ReportFailed(ps, KeyTokens(key, varName, funName));
  }

  /** The message for an own key the allowed list does not name. */
  lemma AllowedKeyFailure(key: string, allowed: seq<string>, varName: Value, funName: Value)
    requires key !in allowed
    ensures var ctx := RenderContext(KeyTokens(key, varName, funName));
      KeyReport(MsgAssertAllowedFields, key, allowed, true, varName, funName)
      == Failed("Unexpected field '" + key + "' in '" + NameText(varName) + "'" + Tail(funName, ctx), Num(FromInt(2)))
  {
    AllowedPiecesWellFormed();
    KeyReported(AllowedPieces, key, allowed, true, varName, funName);
    AllowedTemplateText(key, varName, funName);
  }

  /** The message for an own key the forbidden list names. */
  lemma ForbiddenKeyFailure(key: string, forbidden: seq<string>, varName: Value, funName: Value)
    requires key in forbidden
    ensures var ctx := RenderContext(KeyTokens(key, varName, funName));
      KeyReport(MsgAssertForbiddenFields, key, forbidden, false, varName, funName)
      == Failed("Field '" + key + "' not allowed in '" + NameText(varName) + "'" + Tail(funName, ctx), Num(FromInt(2)))
  {
    ForbiddenPiecesWellFormed();
    KeyReported(ForbiddenPieces, key, forbidden, false, varName, funName);
    ForbiddenTemplateText(key, varName, funName);
  }

  /* ---------------------------------------------------------------------------
   * Which entry a loop reports
   * ------------------------------------------------------------------------- */

  /** A failed `_assertFieldTypes` shows the message of its first entry whose field has the wrong type. */
  lemma FieldTypesFailure(v: Value, rules: seq<TypeRule>, varName: Value, funName: Value)
    requires !Unreadable(v) && FirstUnmetType(v, rules) < |rules|
    ensures var rule := rules[FirstUnmetType(v, rules)];
      var x := GetProp(v, rule.field);
      var actual := if x == Undefined then "<undefined>" else TypeOf(x);
      var ctx := RenderContext(FieldTypeTokens(x, rule.types, actual, rule.field, varName, funName));
      AssertFieldTypes(DefaultMessages, v, rules, varName, funName)
      == Failed("Wrong type for field '" + rule.field + "' of '" + NameText(varName) + "', expected "
                + TypeText(rule.types) + ", got " + actual + Tail(funName, ctx), Num(FromInt(2)))
  {
    FieldTypeFailure(v, rules[FirstUnmetType(v, rules)], varName, funName);
  }

  /** A failed `_assertOptionalFieldTypes` shows the message of its first present field with the wrong type. */
  lemma OptionalFieldTypesFailure(v: Value, rules: seq<TypeRule>, varName: Value, funName: Value)
    requires !Unreadable(v) && FirstUnmetOptionalType(v, rules) < |rules|
    ensures var rule := rules[FirstUnmetOptionalType(v, rules)];
      var x := GetProp(v, rule.field);
      var ctx := RenderContext(FieldTypeTokens(x, rule.types, TypeOf(x), rule.field, varName, funName));
      x != Undefined
      && AssertOptionalFieldTypes(DefaultMessages, v, rules, varName, funName)
         == Failed("Wrong type for field '" + rule.field + "' of '" + NameText(varName) + "', expected "
                   + TypeText(rule.types) + ", got " + TypeOf(x) + Tail(funName, ctx), Num(FromInt(2)))
  {
    OptionalFieldTypeFailure(v, rules[FirstUnmetOptionalType(v, rules)], varName, funName);
  }

  /** A failed `_assertFieldValues` shows the message of its first entry whose field misses its condition. */
  lemma FieldValuesFailure(v: Value, rules: seq<ValueRule>, re: Condition.Matcher, varName: Value, funName: Value)
    requires !Unreadable(v) && FirstUnmetValue(v, rules, re) < |rules|
    ensures var rule := rules[FirstUnmetValue(v, rules, re)];
      var x := GetProp(v, rule.field);
      var o := Condition.Evaluate(x, rule.cond, re);
      var ctx := RenderContext(FieldValueTokens(x, o, o.actual, rule.field, varName, funName));
      AssertFieldValues(DefaultMessages, v, rules, re, varName, funName)
      == Failed("Wrong value for field '" + rule.field + "' of '" + NameText(varName) + "', expected "
                + o.details + ", got " + Pretty(o.actual) + Tail(funName, ctx), Num(FromInt(2)))
  {
    FieldValueFailure(v, rules[FirstUnmetValue(v, rules, re)], re, varName, funName);
  }

  /** A failed `_assertOptionalFieldValues` shows the message of its first present field that misses its condition. */
  lemma OptionalFieldValuesFailure(v: Value, rules: seq<ValueRule>, re: Condition.Matcher, varName: Value, funName: Value)
    requires !Unreadable(v) && FirstUnmetOptionalValue(v, rules, re) < |rules|
    ensures var rule := rules[FirstUnmetOptionalValue(v, rules, re)];
      var x := GetProp(v, rule.field);
      var o := Condition.Evaluate(x, rule.cond, re);
      var ctx := RenderContext(FieldValueTokens(x, o, ActualOrMarker(o), rule.field, varName, funName));
      x != Undefined
      && AssertOptionalFieldValues(DefaultMessages, v, rules, re, varName, funName)
         == Failed("Wrong value for field '" + rule.field + "' of '" + NameText(varName) + "', expected "
                   + o.details + ", got " + (if o.actual == Undefined then "\"<undefined>\"" else Pretty(o.actual))
                   + Tail(funName, ctx), Num(FromInt(2)))
  {
    OptionalFieldValueFailure(v, rules[FirstUnmetOptionalValue(v, rules, re)], re, varName, funName);
  }

  /** A failed `_assertAllowedFields` names the first own key the list leaves out. */
  lemma AllowedFieldsFailure(v: Value, allowed: seq<string>, varName: Value, funName: Value)
    requires TypeOf(v) == "object" && FirstUnwanted(OwnKeys(v), allowed, true) < |OwnKeys(v)|
    ensures var key := OwnKeys(v)[FirstUnwanted(OwnKeys(v), allowed, true)];
      var ctx := RenderContext(KeyTokens(key, varName, funName));
      key !in allowed
      && AssertAllowedFields(DefaultMessages, v, allowed, varName, funName)
         == Failed("Unexpected field '" + key + "' in '" + NameText(varName) + "'" + Tail(funName, ctx), Num(FromInt(2)))
  {
    AllowedKeyFailure(OwnKeys(v)[FirstUnwanted(OwnKeys(v), allowed, true)], allowed, varName, funName);
  }

  /** A failed `_assertForbiddenFields` names the first own key the list names. */
  lemma ForbiddenFieldsFailure(v: Value, forbidden: seq<string>, varName: Value, funName: Value)
    requires TypeOf(v) == "object" && FirstUnwanted(OwnKeys(v), forbidden, false) < |OwnKeys(v)|
    ensures var key := OwnKeys(v)[FirstUnwanted(OwnKeys(v), forbidden, false)];
      var ctx := RenderContext(KeyTokens(key, varName, funName));
      key in forbidden
      && AssertForbiddenFields(DefaultMessages, v, forbidden, varName, funName)
         == Failed("Field '" + key + "' not allowed in '" + NameText(varName) + "'" + Tail(funName, ctx), Num(FromInt(2)))
  {
    ForbiddenKeyFailure(OwnKeys(v)[FirstUnwanted(OwnKeys(v), forbidden, false)], forbidden, varName, funName);
  }

  /**
   * When every listed field is present and both drivers share a template, the
   * optional type loop behaves exactly as the plain one: absence is the only
   * case they treat differently.
   */
  lemma OptionalTypesWhenPresent(m: Messages, v: Value, rules: seq<TypeRule>, varName: Value, funName: Value)
    requires m.assertOptionalFieldTypes == m.assertFieldTypes
    requires forall i :: 0 <= i < |rules| ==> GetProp(v, rules[i].field) != Undefined
    ensures AssertOptionalFieldTypes(m, v, rules, varName, funName) == AssertFieldTypes(m, v, rules, varName, funName)
  {
    var i := FirstUnmetType(v, rules);
    var j := FirstUnmetOptionalType(v, rules);
    if !Unreadable(v) && i < |rules| {
      assert j == i;
      TypeOfUndefined(GetProp(v, rules[i].field));
    }
  }

  /* ---------------------------------------------------------------------------
   * Shorthands
   * ------------------------------------------------------------------------- */

  /**
   * A failed shorthand shows the value message with the evaluator's phrase for
   * its key and the JSON text of the value itself, and hides one frame more
   * than the default: the shorthand's own.
   */
  lemma ShorthandFailure(s: Shorthand, v: Value, ref: Value, re: Condition.Matcher, varName: Value, funName: Value)
    requires !Condition.Holds(ShorthandKey(s), v, ref, re)
    ensures var o := Condition.CheckOutcome(ShorthandKey(s), ref, v, re);
      var ctx := RenderContext(ValueTokens(v, o, varName, funName));
      AssertShorthand(DefaultMessages, s, v, ref, re, varName, funName)
      == Failed("Wrong value for '" + NameText(varName) + "', expected " + Condition.Describe(ShorthandKey(s), ref)
                + ", got " + Pretty(v) + Tail(funName, ctx), Num(FromInt(3)))
  {
    var c := Condition.Single([Condition.Check(ShorthandKey(s), ref)]);
    ConditionLaws.SingleClause(v, Condition.Check(ShorthandKey(s), ref), re);
    ValueFailure(v, c, re, varName, funName, Some(1));
  }

  /** `assertInteger(value)` with no reference asks for a whole number. */
  lemma IntegerDefaultsToWhole(m: Messages, v: Value, re: Condition.Matcher, varName: Value, funName: Value)
    ensures AssertInteger(m, v, Undefined, re, varName, funName).Passed?
      <==> v.Num? && v.n.mant % Pow10(v.n.scale) == 0
  {
    ConditionLaws.IntegerKey(v, Bool(true), re);
  }

  /** A failed `assertInteger` with no reference says it expected an integer number. */
  lemma IntegerFailure(v: Value, re: Condition.Matcher, varName: Value, funName: Value)
    requires !(v.Num? && v.n.mant % Pow10(v.n.scale) == 0)
    ensures var o := Condition.CheckOutcome(Condition.Integer, Bool(true), v, re);
      var ctx := RenderContext(ValueTokens(v, o, varName, funName));
      AssertInteger(DefaultMessages, v, Undefined, re, varName, funName)
      == Failed("Wrong value for '" + NameText(varName) + "', expected " + "integer number"
                + ", got " + Pretty(v) + Tail(funName, ctx), Num(FromInt(3)))
  {
    var c := Condition.Single([Condition.Check(Condition.Integer, Bool(true))]);
    ConditionLaws.IntegerKey(v, Bool(true), re);
    ConditionLaws.SingleClause(v, Condition.Check(Condition.Integer, Bool(true)), re);
    assert AssertInteger(DefaultMessages, v, Undefined, re, varName, funName)
      == AssertValue(DefaultMessages, v, c, re, varName, funName, Some(1));
    var o := Condition.CheckOutcome(Condition.Integer, Bool(true), v, re);
    assert Condition.Evaluate(v, c, re) == o;
    ConditionLaws.DescribeInteger(Bool(true));
    assert o.Fail? && o.details == "integer number" && o.actual == v;
    ValueFailure(v, c, re, varName, funName, Some(1));
    assert ValueDepth(Some(1)) == 3;
  }

  /* ---------------------------------------------------------------------------
   * The type of a function value in `_assertType`'s message
   * ------------------------------------------------------------------------- */

  /** Without a function name the tail adds nothing. */
  lemma NoTail(text: string, funName: Value, ctx: Fields)
    requires NotJson(funName)
    ensures text + Tail(funName, ctx) == text
  {
    assert Tail(funName, ctx) == "";
  }

  /** The type message with its variable parts named and no function name. */
  lemma TypeMessageWith(v: Value, types: Value, varName: Value, funName: Value, name: string, expected: string, got: string)
    requires !Accepts(types, v) && NotJson(funName)
    requires NameText(varName) == name && TypeText(types) == expected && TypeOf(Copied(v)) == got
    ensures AssertType(DefaultMessages, v, types, varName, funName)
      == Failed("Wrong type for '" + name + "', expected " + expected + ", got " + got, Num(FromInt(2)))
  {
    TypeFailure(v, types, varName, funName);
    NoTail("Wrong type for '" + name + "', expected " + expected + ", got " + got,
           funName, RenderContext(TypeTokens(v, types, varName, funName)));
  }

  /** The corrected type message with its variable parts named and no function name. */
  lemma TypeIntendedMessageWith(v: Value, types: Value, varName: Value, funName: Value, name: string, expected: string, got: string)
    requires !Accepts(types, v) && NotJson(funName)
    requires NameText(varName) == name && TypeText(types) == expected && TypeOf(v) == got
    ensures AssertTypeIntended(DefaultMessages, v, types, varName, funName)
      == Failed("Wrong type for '" + name + "', expected " + expected + ", got " + got, Num(FromInt(2)))
  {
    TypeIntendedFailure(v, types, varName, funName);
    NoTail("Wrong type for '" + name + "', expected " + expected + ", got " + got,
           funName, TypeContext(TypeTokens(v, types, varName, funName)));
  }

  /** The JSON copy keeps every value's `typeof` except a function's. */
  lemma CopiedKeepsType(v: Value)
    ensures TypeOf(Copied(v)) == TypeOf(v) <==> !v.Func?
  {
  }

  /**
   * As written: the report copies the tokens through JSON before `%_TYPE_%`
   * reads the value, and the copy drops a function, so the message names the
   * type "undefined" instead of "function".
   */
  lemma FunctionTypeLost(types: Value, varName: Value, funName: Value)
    requires !Accepts(types, Func)
    ensures var ctx := RenderContext(TypeTokens(Func, types, varName, funName));
      AssertType(DefaultMessages, Func, types, varName, funName)
      == Failed("Wrong type for '" + NameText(varName) + "', expected " + TypeText(types) + ", got " + "undefined"
                + Tail(funName, ctx), Num(FromInt(2)))
  {
    TypeFailure(Func, types, varName, funName);
  }

  /** The corrected driver names the type of the value the caller passed, functions included. */
  lemma TypeIntendedFailure(v: Value, types: Value, varName: Value, funName: Value)
    requires !Accepts(types, v)
    ensures var ctx := TypeContext(TypeTokens(v, types, varName, funName));
      AssertTypeIntended(DefaultMessages, v, types, varName, funName)
      == Failed("Wrong type for '" + NameText(varName) + "', expected " + TypeText(types) + ", got " + TypeOf(v)
                + Tail(funName, ctx), Num(FromInt(2)))
  {
    var tokens := TypeTokens(v, types, varName, funName);
    var ctx := TypeContext(tokens);
    DefaultOptionsRead(MsgAssertType);
    TypePiecesWellFormed();
    RenderTemplate(TypePieces, ctx);
    TypeIntendedText(v, types, varName, funName);
    TypeIntendedTail(v, types, varName, funName);
  }

  lemma TypeIntendedText(v: Value, types: Value, varName: Value, funName: Value)
    ensures var ctx := TypeContext(TypeTokens(v, types, varName, funName));
      Fill(TypePieces, ctx) == "Wrong type for '" + NameText(varName) + "', expected " + TypeText(types) + ", got " + TypeOf(v)
  {
    TypeTokensRead(v, types, varName, funName);
    TypeContextTemplateText(TypeTokens(v, types, varName, funName));
  }

  lemma TypeIntendedTail(v: Value, types: Value, varName: Value, funName: Value)
    ensures var ctx := TypeContext(TypeTokens(v, types, varName, funName));
      Substitute(FunSuffix(ctx), ctx) == Tail(funName, ctx)
  {
    TypeTokensRead(v, types, varName, funName);
    TypeContextTail(TypeTokens(v, types, varName, funName));
  }

  /** The type template against the corrected context of any tokens with distinct keys. */
  lemma TypeContextTemplateText(tokens: Fields)
    requires UniqueKeys(tokens) && !NotJson(Get(tokens, "type"))
    ensures Fill(TypePieces, TypeContext(tokens))
      == "Wrong type for '" + NameText(Get(tokens, "varName")) + "', expected "
         + ToText(JsonClone(Get(tokens, "type"))) + ", got " + TypeOf(Get(tokens, "value"))
  {
    var ctx := TypeContext(tokens);
    FillType(ctx);
    VarNameText(tokens);
    TokenText(tokens, "type");
    SameReplacement("varName", ctx, RenderContext(tokens));
    SameReplacement("type", ctx, RenderContext(tokens));
  }

  /** A placeholder that is not a macro reads only its own key. */
  lemma SameReplacement(name: string, ctx: Fields, ctx': Fields)
    requires name != "_TYPE_" && name != "_LEN_" && name != "_ACTUAL_" && name != "_VALUE_"
    requires Get(ctx, name) == Get(ctx', name)
    ensures Replacement(name, ctx) == Replacement(name, ctx')
  {
  }

  lemma TypeContextTail(tokens: Fields)
    requires UniqueKeys(tokens)
    ensures Substitute(FunSuffix(TypeContext(tokens)), TypeContext(tokens)) == Tail(Get(tokens, "funName"), TypeContext(tokens))
  {
    ContextRead(tokens, "funName");
    FunSuffixSubstituted(TypeContext(tokens));
  }
}
