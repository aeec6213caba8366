/**
 * Laws of the template renderer: block extraction loses nothing and finds exactly
 * the outermost blocks, a block is kept and rendered iff its condition holds,
 * text without template syntax renders to itself, and the condition grammar
 * parses back what it prints.
 */
module MessageLaws {
  import opened Wrappers
  import opened Text
  import opened Numbers
  import opened Values
  import opened Message

  /* ---------------------------------------------------------------------------
   * Segmentation
   * ------------------------------------------------------------------------- */

  function Flatten(segs: seq<Segment>): string
  {
    if |segs| == 0 then "" else Raw(segs[0]) + Flatten(segs[1..])
  }

  /** Cutting a template into text and blocks loses and reorders nothing. */
  lemma {:induction false} SegmentsReconstruct(t: string)
    ensures Flatten(Segments(t)) == t
    decreases |t|
  {
    match FirstOpen(t, 0)
    case None =>
      if t != "" {
        assert Segments(t) == [Text(t)];
        FlattenOne(Text(t));
      }
    case Some(p) =>
      match FindClose(t, p + 2, 0)
      case None =>
        assert Segments(t) == [Text(t)];
        FlattenOne(Text(t));
      case Some(j) =>
        SegmentsCut(t, p, j);
        SegmentsReconstruct(t[j + 2..]);
        FlattenCut(t, p, j, Segments(t[j + 2..]));
  }

  /** The segments of a template whose first block opens at `p` and closes at `j`. */
  lemma SegmentsCut(t: string, p: nat, j: nat)
    requires FirstOpen(t, 0) == Some(p) && FindClose(t, p + 2, 0) == Some(j)
    ensures p + 2 <= j && j + 2 <= |t|
    ensures t[p] == '(' && t[p + 1] == '?' && t[j] == '?' && t[j + 1] == ')'
    ensures Segments(t) == (if p == 0 then [] else [Text(t[..p])]) + [Block(t[p + 2..j])] + Segments(t[j + 2..])
  {
  }

  /** One cut step: text before the opener, the block, and whatever the rest flattens to. */
  lemma FlattenCut(t: string, p: nat, j: nat, rest: seq<Segment>)
    requires p + 2 <= j && j + 2 <= |t|
    requires Flatten(rest) == t[j + 2..]
    requires t[p] == '(' && t[p + 1] == '?' && t[j] == '?' && t[j + 1] == ')'
    ensures Flatten((if p == 0 then [] else [Text(t[..p])]) + [Block(t[p + 2..j])] + rest) == t
  {
    var head := if p == 0 then [] else [Text(t[..p])];
    var blk := [Block(t[p + 2..j])];
    FlattenAppend(head + blk, rest);
    FlattenAppend(head, blk);
    FlattenOne(Block(t[p + 2..j]));
    if p > 0 {
      FlattenOne(Text(t[..p]));
    }
    CutPieces(t, p, j);
  }

  lemma FlattenOne(s: Segment)
    ensures Flatten([s]) == Raw(s)
  {
    assert [s][1..] == [];
  }

  lemma CutPieces(t: string, p: nat, j: nat)
    requires p + 2 <= j && j + 2 <= |t|
    requires t[p] == '(' && t[p + 1] == '?' && t[j] == '?' && t[j + 1] == ')'
    ensures t == t[..p] + ("(?" + t[p + 2..j] + "?)") + t[j + 2..]
  {
    assert t[p..p + 2] == "(?";
    assert t[j..j + 2] == "?)";
    assert t[p..j + 2] == t[p..p + 2] + t[p + 2..j] + t[j..j + 2];
    assert t == t[..p] + t[p..j + 2] + t[j + 2..];
  }

  lemma {:induction false} FlattenAppend(a: seq<Segment>, b: seq<Segment>)
    ensures Flatten(a + b) == Flatten(a) + Flatten(b)
    decreases |a|
  {
    if |a| == 0 {
      assert a + b == b;
    } else {
      var ab := a + b;
      assert ab[0] == a[0];
      assert ab[1..] == a[1..] + b;
      FlattenAppend(a[1..], b);
      calc {
        Flatten(ab);
        Raw(a[0]) + Flatten(a[1..] + b);
        Raw(a[0]) + (Flatten(a[1..]) + Flatten(b));
        { ConcatAssoc(Raw(a[0]), Flatten(a[1..]), Flatten(b)); }
        (Raw(a[0]) + Flatten(a[1..])) + Flatten(b);
      }
    }
  }

  lemma ConcatAssoc(x: string, y: string, z: string)
    ensures x + (y + z) == (x + y) + z
  {
  }

  /**
   * The closer scan looks only at the characters it passes over: the same
   * characters at another offset give the same closer at that offset.
   */
  lemma {:induction false} FindCloseShift(t: string, u: string, i: nat, d: nat, j: nat, off: int)
    requires FindClose(t, i, d) == Some(j)
    requires 0 <= i + off && j + 1 + off < |u|
    requires forall x :: i <= x <= j + 1 ==> u[x + off] == t[x]
    ensures FindClose(u, i + off, d) == Some(j + off)
    decreases |t| - i
  {
    var k := i + off;
    assert OpenAt(u, k) <==> OpenAt(t, i);
    assert CloseAt(u, k) <==> CloseAt(t, i);
    if OpenAt(t, i) {
      FindCloseShift(t, u, i + 2, d + 1, j, off);
    } else if CloseAt(t, i) {
      if d > 0 {
        FindCloseShift(t, u, i + 2, d - 1, j, off);
      }
    } else {
      FindCloseShift(t, u, i + 1, d, j, off);
    }
  }

  /** `b` is a block body whose own openers and closers pair up. */
  predicate Balanced(b: string) {
    FindClose(b + "?)", 0, 0) == Some(|b|)
  }

  /** A body with neither `(` nor `?` is closed by the first `?)` after it. */
  lemma PlainBodyBalanced(b: string)
    requires forall i :: 0 <= i < |b| ==> b[i] != '(' && b[i] != '?'
    ensures Balanced(b)
  {
    PlainCloseFrom(b, 0);
  }

  lemma {:induction false} PlainCloseFrom(b: string, i: nat)
    requires i <= |b| && forall x :: 0 <= x < |b| ==> b[x] != '(' && b[x] != '?'
    ensures FindClose(b + "?)", i, 0) == Some(|b|)
    decreases |b| - i
  {
    var t := b + "?)";
    if i < |b| {
      assert t[i] == b[i];
      PlainCloseFrom(b, i + 1);
    } else {
      assert CloseAt(t, i);
    }
  }

  predicate AllBalanced(segs: seq<Segment>) {
    forall i :: 0 <= i < |segs| && segs[i].Block? ==> Balanced(segs[i].body)
  }

  lemma AllBalancedAppend(a: seq<Segment>, b: seq<Segment>)
    requires AllBalanced(a) && AllBalanced(b)
    ensures AllBalanced(a + b)
  {
    forall i | 0 <= i < |a + b| && (a + b)[i].Block? ensures Balanced((a + b)[i].body) {
      if i >= |a| { assert (a + b)[i] == b[i - |a|]; }
    }
  }

  /** The body of the block the scan cuts at `p` and `j` is balanced. */
  lemma CutBodyBalanced(t: string, p: nat, j: nat)
    requires p + 2 <= |t| && FindClose(t, p + 2, 0) == Some(j)
    ensures Balanced(t[p + 2..j])
  {
    var b := t[p + 2..j];
    FindCloseShift(t, b + "?)", p + 2, 0, j, -(p + 2));
  }

  /**
   * Every block found is an outermost one: its body is balanced, so nested blocks
   * inside it are left whole for the recursive pass.
   */
  lemma {:induction false} BlocksAreBalanced(t: string)
    ensures AllBalanced(Segments(t))
    decreases |t|
  {
    match FirstOpen(t, 0)
    case None =>
    case Some(p) =>
      match FindClose(t, p + 2, 0)
      case None =>
      case Some(j) =>
        var b := t[p + 2..j];
        CutBodyBalanced(t, p, j);
        BlocksAreBalanced(t[j + 2..]);
        var head: seq<Segment> := if p == 0 then [] else [Text(t[..p])];
        var rest := Segments(t[j + 2..]);
        assert Segments(t) == head + [Block(b)] + rest;
        assert AllBalanced(head) by {
          forall i | 0 <= i < |head| ensures !head[i].Block? { }
        }
        assert AllBalanced([Block(b)]) by {
          forall i | 0 <= i < 1 && [Block(b)][i].Block? ensures Balanced([Block(b)][i].body) { }
        }
        AllBalancedAppend(head, [Block(b)]);
        AllBalancedAppend(head + [Block(b)], rest);
  }

  /**
   * A balanced block after opener-free text is cut out whole, however many blocks
   * it contains, and the scan resumes after it.
   */
  lemma SegmentsOfBlock(pre: string, b: string, post: string)
    requires NoOpener(pre) && Balanced(b)
    ensures Segments(pre + "(?" + b + "?)" + post) ==
      (if pre == "" then [] else [Text(pre)]) + [Block(b)] + Segments(post)
  {
    var t := pre + "(?" + b + "?)" + post;
    var p := |pre|;
    assert OpenAt(t, p);
    forall q | 0 <= q < p ensures !OpenAt(t, q) {
      assert !OpenAt(pre, q);
      if q + 1 < p { assert t[q] == pre[q] && t[q + 1] == pre[q + 1]; }
    }
    assert FirstOpen(t, 0) == Some(p) by {
      FirstOpenIs(t, 0, p);
    }
    FindCloseShift(b + "?)", t, 0, 0, |b|, p + 2);
    CutThree(pre, "(?", b, "?)", post);
  }

  /** The parts of a five-part concatenation, recovered by slicing. */
  lemma CutThree(pre: string, l: string, b: string, r: string, post: string)
    ensures var t := pre + l + b + r + post;
      && t[..|pre|] == pre
      && t[|pre| + |l|..|pre| + |l| + |b|] == b
      && t[|pre| + |l| + |b| + |r|..] == post
  {
  }

  lemma {:induction false} FirstOpenIs(t: string, i: nat, p: nat)
    requires i <= p && OpenAt(t, p)
    requires forall q :: i <= q < p ==> !OpenAt(t, q)
    ensures FirstOpen(t, i) == Some(p)
    decreases p - i
  {
    if i < p {
      FirstOpenIs(t, i + 1, p);
    }
  }

  /** One outermost block per call even when its body holds complete nested blocks. */
  lemma ExtractOneBlock(b: string)
    requires Balanced(b)
    ensures ExtractSubs("(?" + b + "?)") == [ParseBlock(b)]
  {
    OneBlock(b);
    OneSub(b);
    FirstKeyOnce(ParseBlock(b));
  }

  /** The same block written twice is one entry, as the second write of a key replaces the first. */
  lemma ExtractRepeatedBlock(b: string)
    requires Balanced(b)
    ensures var blk := "(?" + b + "?)"; ExtractSubs(blk + blk) == [ParseBlock(b)]
  {
    TwoBlocks(b);
    TwoSubs(b);
    FirstKeyTwice(ParseBlock(b));
  }

  lemma TwoSubs(b: string)
    ensures BlockSubs([Block(b), Block(b)]) == [ParseBlock(b), ParseBlock(b)]
  {
    var p := ParseBlock(b);
    OneSub(b);
    assert BlockSubs([Block(b), Block(b)]) == [p] + BlockSubs([Block(b)]) by {
      assert [Block(b), Block(b)][1..] == [Block(b)];
    }
    assert [p] + [p] == [p, p];
  }

  lemma OneSub(b: string)
    ensures BlockSubs([Block(b)]) == [ParseBlock(b)]
  {
    var none: seq<Segment> := [];
    assert [Block(b)][1..] == none;
    assert BlockSubs(none) == [];
    assert [ParseBlock(b)] + [] == [ParseBlock(b)];
  }

  lemma OneBlock(b: string)
    requires Balanced(b)
    ensures Segments("(?" + b + "?)") == [Block(b)]
  {
    SegmentsOfBlock("", b, "");
    assert "" + "(?" + b + "?)" + "" == "(?" + b + "?)";
    assert Segments("") == [];
  }

  lemma FirstKeyTwice(s: Sub)
    ensures FirstByRaw([s, s], []) == [s]
  {
    var none: seq<Sub> := [];
    assert [s, s][1..] == [s] && none + [s] == [s];
    assert FirstByRaw([s, s], none) == FirstByRaw([s], [s]);
    assert [s][0].raw == s.raw;
    assert FirstByRaw([s], [s]) == FirstByRaw([], [s]);
  }

  lemma TwoBlocks(b: string)
    requires Balanced(b)
    ensures var blk := "(?" + b + "?)"; Segments(blk + blk) == [Block(b), Block(b)]
  {
    var blk := "(?" + b + "?)";
    SegmentsOfBlock("", b, blk);
    assert "" + "(?" + b + "?)" + blk == blk + blk;
    OneBlock(b);
    assert [Block(b)] + [Block(b)] == [Block(b), Block(b)];
  }

  lemma FirstKeyOnce(s: Sub)
    ensures FirstByRaw([s], []) == [s]
  {
    var none: seq<Sub> := [];
    assert [s][1..] == [] && none + [s] == [s];
    assert FirstByRaw([s], none) == FirstByRaw([], [s]);
  }

  /** A key names its block: equal raw texts come from equal bodies, so equal entries. */
  lemma RawDeterminesSub(b: string, c: string)
    ensures ParseBlock(b).raw == ParseBlock(c).raw <==> ParseBlock(b) == ParseBlock(c)
  {
    if ParseBlock(b).raw == ParseBlock(c).raw {
      var x := "(?" + b + "?)";
      assert |b| == |c|;
      assert x[2..|x| - 2] == b;
      assert ("(?" + c + "?)")[2..|x| - 2] == c;
    }
  }

  /** Without an opener the whole template is one piece of text. */
  lemma SegmentsWithoutBlocks(t: string)
    requires NoOpener(t)
    ensures Segments(t) == if t == "" then [] else [Text(t)]
  {
  }

  /* ---------------------------------------------------------------------------
   * Rendering
   * ------------------------------------------------------------------------- */

  /** The block-resolved template, before placeholders are substituted. */
  function Resolve(t: string, ctx: Fields): string
  {
    ResolveSegments(t, Segments(t), ctx)
  }

  /** What one block contributes: its rendered message if its condition holds, else nothing. */
  function BlockText(b: string, ctx: Fields): string
  {
    var sub := ParseBlock(b);
    if EvaluateCondition(sub.con, ctx) then ReplaceTokens(sub.msg, ctx) else ""
  }

  /** Every block of `segs` is shorter than `n`: the bound that keeps rendering finite. */
  predicate Bounded(segs: seq<Segment>, n: nat) {
    forall i :: 0 <= i < |segs| && segs[i].Block? ==> |segs[i].body| + 4 <= n
  }

  /** The bound carried for termination does not affect the resolved text. */
  lemma {:induction false} ResolveAnyBound(t: string, u: string, segs: seq<Segment>, ctx: Fields)
    requires Bounded(segs, |t|) && Bounded(segs, |u|)
    ensures ResolveSegments(t, segs, ctx) == ResolveSegments(u, segs, ctx)
    decreases |segs|
  {
    if |segs| > 0 {
      ResolveAnyBound(t, u, segs[1..], ctx);
    }
  }

  /** Resolving a list of segments piece by piece. */
  lemma {:induction false} ResolveAppend(t: string, a: seq<Segment>, b: seq<Segment>, ctx: Fields)
    requires Bounded(a, |t|) && Bounded(b, |t|)
    ensures Bounded(a + b, |t|)
    ensures ResolveSegments(t, a + b, ctx) == ResolveSegments(t, a, ctx) + ResolveSegments(t, b, ctx)
    decreases |a|
  {
    BoundedAppend(a, b, |t|);
    if |a| == 0 {
      assert a + b == b;
    } else {
      var ab := a + b;
      assert ab[0] == a[0];
      assert ab[1..] == a[1..] + b;
      ResolveAppend(t, a[1..], b, ctx);
      ResolveHead(t, a, ctx);
      ResolveHead(t, ab, ctx);
      var x := ResolveSegments(t, [a[0]], ctx);
      calc {
        ResolveSegments(t, ab, ctx);
        x + ResolveSegments(t, a[1..] + b, ctx);
        x + (ResolveSegments(t, a[1..], ctx) + ResolveSegments(t, b, ctx));
        { ConcatAssoc(x, ResolveSegments(t, a[1..], ctx), ResolveSegments(t, b, ctx)); }
        (x + ResolveSegments(t, a[1..], ctx)) + ResolveSegments(t, b, ctx);
      }
    }
  }

  lemma BoundedAppend(a: seq<Segment>, b: seq<Segment>, n: nat)
    requires Bounded(a, n) && Bounded(b, n)
    ensures Bounded(a + b, n)
  {
    forall i | 0 <= i < |a + b| && (a + b)[i].Block? ensures |(a + b)[i].body| + 4 <= n {
      if i >= |a| { assert (a + b)[i] == b[i - |a|]; }
    }
  }

  lemma ResolveHead(t: string, segs: seq<Segment>, ctx: Fields)
    requires |segs| > 0 && Bounded(segs, |t|)
    ensures Bounded([segs[0]], |t|) && Bounded(segs[1..], |t|)
    ensures ResolveSegments(t, segs, ctx) == ResolveSegments(t, [segs[0]], ctx) + ResolveSegments(t, segs[1..], ctx)
  {
    assert forall i :: 0 <= i < |segs[1..]| ==> segs[1..][i] == segs[i + 1];
    ResolveSingle(t, segs[0], ctx);
    var s := segs[0];
    assert ResolveSegments(t, segs, ctx) ==
      (if s.Text? then s.text else BlockText(s.body, ctx)) + ResolveSegments(t, segs[1..], ctx);
  }

  /** A block alone resolves to its block text, a piece of literal text to itself. */
  lemma ResolveSingle(t: string, s: Segment, ctx: Fields)
    requires Bounded([s], |t|)
    ensures ResolveSegments(t, [s], ctx) == if s.Text? then s.text else BlockText(s.body, ctx)
  {
    assert [s][0] == s && [s][1..] == [];
  }

  /**
   * A block is replaced by its recursively rendered message when its condition
   * holds and dropped with everything nested in it when it does not; the text
   * around it is kept.
   */
  lemma ResolveBlock(pre: string, b: string, post: string, ctx: Fields)
    requires NoOpener(pre) && Balanced(b)
    ensures Resolve(pre + "(?" + b + "?)" + post, ctx) == pre + BlockText(b, ctx) + Resolve(post, ctx)
  {
    var t := pre + "(?" + b + "?)" + post;
    var head: seq<Segment> := if pre == "" then [] else [Text(pre)];
    var blk := [Block(b)];
    var rest := Segments(post);
    SegmentsOfBlock(pre, b, post);
    assert Segments(t) == head + blk + rest;
    assert Bounded(head, |t|) && Bounded(blk, |t|) && Bounded(rest, |t|);
    ResolveAppend(t, head, blk, ctx);
    ResolveAppend(t, head + blk, rest, ctx);
    ResolveAnyBound(t, post, rest, ctx);
    ResolveSingle(t, Block(b), ctx);
    assert ResolveSegments(t, head, ctx) == pre by {
      if pre != "" { ResolveSingle(t, Text(pre), ctx); }
    }
  }

  /** Text without `%` has no placeholder to substitute. */
  lemma {:induction false} SubstituteNoPercent(t: string, ctx: Fields)
    requires NoPercent(t)
    ensures Substitute(t, ctx) == t
    decreases |t|
  {
    if |t| > 0 {
      SubstituteNoPercent(t[1..], ctx);
    }
  }

  /** Without blocks, rendering is placeholder substitution alone. */
  lemma RenderWithoutBlocks(t: string, ctx: Fields)
    requires NoOpener(t)
    ensures ReplaceTokens(t, ctx) == Substitute(t, ctx)
  {
    SegmentsWithoutBlocks(t);
    assert ReplaceTokens(t, ctx) == Substitute(Resolve(t, ctx), ctx);
    assert Resolve(t, ctx) == t by {
      if t != "" {
        ResolveSingle(t, Text(t), ctx);
      }
    }
  }

  /** A template with neither `%` nor `(?` renders to itself. */
  lemma PlainTextUnchanged(t: string, ctx: Fields)
    requires NoPercent(t) && NoOpener(t)
    ensures ReplaceTokens(t, ctx) == t
  {
    RenderWithoutBlocks(t, ctx);
    SubstituteNoPercent(t, ctx);
  }

  /** A complete `%name%` starts at `i` and names a macro or a token. */
  predicate ResolvesAt(t: string, i: nat, ctx: Fields)
    requires i < |t|
  {
    && t[i] == '%'
    && var k := NameRun(t[i + 1..]);
    && k > 0 && i + k + 1 < |t| && t[i + k + 1] == '%'
    && Lookup(t[i + 1..i + k + 1], ctx).Some?
  }

  predicate NothingToSubstitute(t: string, ctx: Fields) {
    forall i: nat :: i < |t| ==> !ResolvesAt(t, i, ctx)
  }

  lemma NothingToSubstituteSuffix(t: string, d: nat, ctx: Fields)
    requires d <= |t| && NothingToSubstitute(t, ctx)
    ensures NothingToSubstitute(t[d..], ctx)
  {
    var u := t[d..];
    forall i: nat | i < |u|
      ensures !ResolvesAt(u, i, ctx)
    {
      assert !ResolvesAt(t, d + i, ctx);
      assert u[i] == t[d + i];
      assert u[i + 1..] == t[d + i + 1..];
      var k := NameRun(u[i + 1..]);
      if k > 0 && i + k + 1 < |u| {
        assert u[i + k + 1] == t[d + i + k + 1];
        assert u[i + 1..i + k + 1] == t[d + i + 1..d + i + k + 1];
      }
    }
  }

  /** Substitution changes nothing when no placeholder resolves: unresolved ones stay as written. */
  lemma {:induction false} SubstituteUnresolved(t: string, ctx: Fields)
    requires NothingToSubstitute(t, ctx)
    ensures Substitute(t, ctx) == t
    decreases |t|
  {
    if |t| > 0 {
      var k := NameRun(t[1..]);
      if t[0] == '%' && k > 0 && k + 1 < |t| && t[k + 1] == '%' {
        assert !ResolvesAt(t, 0, ctx);
        NothingToSubstituteSuffix(t, k + 2, ctx);
        SubstituteUnresolved(t[k + 2..], ctx);
        assert t[..k + 2] + t[k + 2..] == t;
      } else {
        NothingToSubstituteSuffix(t, 1, ctx);
        SubstituteUnresolved(t[1..], ctx);
        assert [t[0]] + t[1..] == t;
      }
    }
  }

  predicate NoBlocks(segs: seq<Segment>) {
    forall i :: 0 <= i < |segs| ==> segs[i].Text?
  }

  lemma {:induction false} ResolveTexts(t: string, segs: seq<Segment>, ctx: Fields)
    requires NoBlocks(segs)
    ensures ResolveSegments(t, segs, ctx) == Flatten(segs)
    decreases |segs|
  {
    if |segs| > 0 {
      assert segs[0].Text?;
      ResolveTexts(t, segs[1..], ctx);
    }
  }

  /**
   * A template is its own rendering when it cuts into no block and none of its
   * placeholders resolves; unclosed openers and unknown names stay as written.
   */
  lemma RenderFixedPoint(t: string, ctx: Fields)
    requires NoBlocks(Segments(t)) && NothingToSubstitute(t, ctx)
    ensures ReplaceTokens(t, ctx) == t
  {
    ResolveTexts(t, Segments(t), ctx);
    SegmentsReconstruct(t);
    SubstituteUnresolved(t, ctx);
  }

  /** Rendering is idempotent once its output holds no block and no placeholder that resolves. */
  lemma RenderIdempotent(t: string, ctx: Fields)
    requires var r := ReplaceTokens(t, ctx); NoBlocks(Segments(r)) && NothingToSubstitute(r, ctx)
    ensures ReplaceTokens(ReplaceTokens(t, ctx), ctx) == ReplaceTokens(t, ctx)
  {
    RenderFixedPoint(ReplaceTokens(t, ctx), ctx);
  }

  /* ---------------------------------------------------------------------------
   * Placeholders
   * ------------------------------------------------------------------------- */

  /** Text without `%` before a placeholder passes through substitution unchanged. */
  lemma {:induction false} SubstitutePlain(p: string, t: string, ctx: Fields)
    requires NoPercent(p)
    ensures Substitute(p + t, ctx) == p + Substitute(t, ctx)
    decreases |p|
  {
    if |p| > 0 {
      var u := p + t;
      assert u[0] == p[0] && u[1..] == p[1..] + t;
      SubstitutePlain(p[1..], t, ctx);
      ConcatAssoc([p[0]], p[1..], Substitute(t, ctx));
      assert [p[0]] + p[1..] == p;
    } else {
      assert p + t == t;
    }
  }

  /** The name run of a name followed by a non-name character is the whole name. */
  lemma {:induction false} NameRunOf(name: string, rest: string)
    requires AllNameChars(name) && (|rest| == 0 || !IsNameChar(rest[0]))
    ensures NameRun(name + rest) == |name|
    decreases |name|
  {
    if |name| > 0 {
      assert (name + rest)[0] == name[0];
      assert (name + rest)[1..] == name[1..] + rest;
      NameRunOf(name[1..], rest);
    } else {
      assert name + rest == rest;
    }
  }

  /** What a placeholder is replaced by; an unresolved one stays exactly as written. */
  function Replacement(name: string, ctx: Fields): string
  {
    match Lookup(name, ctx)
    case Some(r) => r
    case None => "%" + name + "%"
  }

  /** A placeholder `%name%` is replaced and the scan resumes right after its closing `%`. */
  lemma SubstitutePlaceholder(name: string, rest: string, ctx: Fields)
    requires |name| > 0 && AllNameChars(name)
    ensures Substitute("%" + name + "%" + rest, ctx) == Replacement(name, ctx) + Substitute(rest, ctx)
  {
    var t := "%" + name + "%" + rest;
    var k := |name|;
    assert t[1..] == name + ("%" + rest);
    NameRunOf(name, "%" + rest);
    assert t[k + 1] == '%';
    assert t[1..k + 1] == name;
    assert t[k + 2..] == rest;
    assert t[..k + 2] == "%" + name + "%";
  }

  /** The four macro names. */
  const Macros: set<string> := {"_TYPE_", "_LEN_", "_ACTUAL_", "_VALUE_"}

  /**
   * Helper for PlaceholderOrder: `Lookup` and `RunMacro` taken case by case. Macros
   * take precedence over tokens of the same name; any other name is its token's
   * string form, and a name with no token is left unresolved.
   */
  lemma LookupOrder(name: string, ctx: Fields)
    ensures RunMacro(name, ctx).Some? <==> name in Macros
    ensures name in Macros ==> Lookup(name, ctx) == RunMacro(name, ctx)
    ensures name !in Macros && Get(ctx, name) != Undefined ==> Lookup(name, ctx) == Some(ToText(Get(ctx, name)))
    ensures name !in Macros && Get(ctx, name) == Undefined ==> Lookup(name, ctx).None?
  {
  }

  /**
   * A placeholder renders as its macro for the four macro names, even when a token
   * of that name exists; any other name renders as its token's string form, and a
   * name with no token stays as written.
   */
  lemma PlaceholderOrder(name: string, rest: string, ctx: Fields)
    requires |name| > 0 && AllNameChars(name)
    ensures name in Macros ==>
      Substitute("%" + name + "%" + rest, ctx) == RunMacro(name, ctx).value + Substitute(rest, ctx)
    ensures name !in Macros && Get(ctx, name) != Undefined ==>
      Substitute("%" + name + "%" + rest, ctx) == ToText(Get(ctx, name)) + Substitute(rest, ctx)
    ensures name !in Macros && Get(ctx, name) == Undefined ==>
      Substitute("%" + name + "%" + rest, ctx) == "%" + name + "%" + Substitute(rest, ctx)
  {
    SubstitutePlaceholder(name, rest, ctx);
    LookupOrder(name, ctx);
  }

  /** A string of digits is read by the unsigned reader. */
  lemma DigitFirstParse(s: string)
    requires |s| > 0 && IsDigit(s[0])
    ensures ParseNumber(s) == ParseUnsigned(s)
  {
  }

  /** `%_LEN_%` of a string or an array reads back as its length. */
  lemma LengthReadsBack(v: Value)
    requires v.Str? || v.Arr?
    ensures ParseNumber(LengthText(v)) == Some(FromInt(if v.Str? then |v.s| else |v.elems|))
  {
    var k := if v.Str? then |v.s| else |v.elems|;
    assert LengthText(v) == NatText(k);
    UnsignedNatParses(k);
    DigitFirstParse(NatText(k));
  }
}
