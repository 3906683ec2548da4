/**
 * The template layer: a dbt model file is SQL interleaved with Jinja. The file's
 * parse tree (produced by the Jinja grammar, which is an input here) is rendered
 * into plain SQL, and a position map of segments records where every rendered
 * piece came from, so that offsets in the rendered SQL can be mapped back.
 */
module Jinja {
  import opened Common

  /** The rules of the Jinja grammar that the renderer distinguishes. */
  datatype Rule =
    | ExprTemplate      // `{{ ... }}`
    | Expression
    | Reference         // `ref('...')`
    | StringLit         // a quoted string literal, quotes included
    | NotJinja          // a run of plain SQL text
    | ExprUnknown       // any other `{{ ... }}` / `{% ... %}` construct
    | OtherRule(name: string)  // comments, end of input and the like

  /** A node of the Jinja parse tree: its rule, its byte span in the source and its children. */
  datatype Pair = Pair(rule: Rule, start: nat, end: nat, inner: seq<Pair>)

  /** What the Jinja grammar made of the source: the top-level pairs, or a parse error. */
  datatype GrammarOutcome = Parsed(pairs: seq<Pair>) | GrammarFailure(message: string)

  datatype SectionType = Jinja | Sql

  /** One segment of the position map: source span, rendered span and kind. */
  datatype TemplateOutput = TemplateOutput(inSpan: Span, outSpan: Span, sectionType: SectionType)

  datatype JinjaError =
    | ParsingError(message: string)   // the grammar rejected the file
    | UnknownJinja                    // an `expr_unknown` node occurs somewhere
    | UnexpectedRule(rule: Rule)      // a top-level node that renders but is neither template nor SQL

  /** The first string-literal child of a node, if any. */
  function FirstStringLit(ps: seq<Pair>): (r: Option<Pair>)
    ensures r.Some? ==> r.value.rule == StringLit
    ensures r.Some? <==> exists i :: 0 <= i < |ps| && ps[i].rule == StringLit
  {
    if ps == [] then None
    else if ps[0].rule == StringLit then Some(ps[0])
    else FirstStringLit(ps[1..])
  }

  /**
   * What the grammar guarantees of a node: its span lies in the source, and a
   * `reference` holds a quoted string literal (at least its two quotes long).
   */
  ghost predicate PairWellFormed(src: string, p: Pair)
    decreases p
  {
    && p.start <= p.end <= |src|
    && (p.rule == Reference ==>
          var lit := FirstStringLit(p.inner);
          lit.Some? && lit.value.start + 2 <= lit.value.end <= |src|)
    && forall i :: 0 <= i < |p.inner| ==> PairWellFormed(src, p.inner[i])
  }

  /** Every node of a list is well formed. */
  ghost predicate PairsWellFormed(src: string, ps: seq<Pair>)
  {
    forall i :: 0 <= i < |ps| ==> PairWellFormed(src, ps[i])
  }

  /** Well-formed top-level pairs, in source order and not overlapping. */
  ghost predicate ForestWellFormed(src: string, ps: seq<Pair>)
  {
    && (forall i :: 0 <= i < |ps| ==> PairWellFormed(src, ps[i]))
    && (forall i, j :: 0 <= i < j < |ps| ==> ps[i].end <= ps[j].start)
  }

  /** `parse_pair`: the text a node renders to, or `None` for nodes that render nothing. */
  function ParsePair(src: string, p: Pair): (r: Option<string>)
    requires PairWellFormed(src, p)
    decreases p, 1
    ensures r.Some? <==> p.rule in {ExprTemplate, Expression, Reference, NotJinja}
    ensures p.rule == NotJinja ==> r == Some(src[p.start..p.end])
    ensures p.rule == Reference ==>
              var lit := FirstStringLit(p.inner).value; r == Some(src[lit.start..lit.end][1..lit.end - lit.start - 1])
    ensures p.rule == Expression ==> r == Some(RenderChildren(src, p.inner))
    ensures p.rule == ExprTemplate ==> r == Some(" " + RenderChildren(src, p.inner) + " ")
  {
    match p.rule
    case ExprTemplate => Some(" " + RenderChildren(src, p.inner) + " ")
    case Expression => Some(RenderChildren(src, p.inner))
    case Reference =>
      var lit := FirstStringLit(p.inner).value;
      var quoted := src[lit.start..lit.end];
      Some(quoted[1..|quoted| - 1])
    case NotJinja => Some(src[p.start..p.end])
    case _ => None
  }

  /** The children's renderings concatenated in order, skipping those that render nothing. */
  function RenderChildren(src: string, ps: seq<Pair>): string
    requires PairsWellFormed(src, ps)
    decreases ps, 0
  {
    if ps == [] then ""
    else
      var head := ParsePair(src, ps[0]);
      (if head.Some? then head.value else "") + RenderChildren(src, ps[1..])
  }

  /** A reference template `{{ ref('name') }}` renders as the name padded with one space on each side. */
  lemma RefTemplateRendersPadded(src: string, t: Pair, lit: Pair, name: string)
    requires PairWellFormed(src, t)
    requires t.rule == ExprTemplate && |t.inner| == 1
    requires t.inner[0].rule == Expression && |t.inner[0].inner| == 1
    requires t.inner[0].inner[0].rule == Reference
    requires FirstStringLit(t.inner[0].inner[0].inner) == Some(lit)
    requires lit.start <= lit.end <= |src| && src[lit.start..lit.end] == "'" + name + "'"
    ensures ParsePair(src, t) == Some(" " + name + " ")
  {
    var e := t.inner[0];
    var rf := e.inner[0];
    var quoted := src[lit.start..lit.end];
    assert quoted[1..|quoted| - 1] == name;
    assert ParsePair(src, rf) == Some(name);
    assert RenderChildren(src, e.inner) == name by {
      assert e.inner[1..] == [];
    }
    assert RenderChildren(src, t.inner) == name by {
      assert t.inner[1..] == [];
    }
  }

  // ---------------------------------------------------------------------------
  // `contains_unknown_jinja`: a scan over the flattened tree.

  /** A node or any node below it is an unknown Jinja construct. */
  predicate UnknownIn(p: Pair)
    decreases p
  {
    p.rule == ExprUnknown || exists i :: 0 <= i < |p.inner| && UnknownIn(p.inner[i])
  }

  /** Some node anywhere in the forest is an unknown Jinja construct. */
  predicate AnyUnknown(ps: seq<Pair>)
  {
    exists i :: 0 <= i < |ps| && UnknownIn(ps[i])
  }

  /** Pest's `flatten`: every node of a tree in pre-order. */
  function FlattenPair(p: Pair): (r: seq<Pair>)
    decreases p, 1
    ensures |r| >= 1 && r[0] == p
  {
    [p] + FlattenAll(p.inner)
  }

  /** Pest's `flatten` on a forest: the trees' pre-orders one after the other. */
  function FlattenAll(ps: seq<Pair>): seq<Pair>
    decreases ps, 0
  {
    if ps == [] then [] else FlattenPair(ps[0]) + FlattenAll(ps[1..])
  }

  predicate HasUnknownRule(s: seq<Pair>)
  {
    exists k :: 0 <= k < |s| && s[k].rule == ExprUnknown
  }

  lemma HasUnknownRuleAppend(a: seq<Pair>, b: seq<Pair>)
    ensures HasUnknownRule(a + b) <==> HasUnknownRule(a) || HasUnknownRule(b)
  {
    if HasUnknownRule(a + b) {
      var k :| 0 <= k < |a + b| && (a + b)[k].rule == ExprUnknown;
      if k < |a| { assert a[k].rule == ExprUnknown; } else { assert b[k - |a|].rule == ExprUnknown; }
    }
    if HasUnknownRule(a) {
      var k :| 0 <= k < |a| && a[k].rule == ExprUnknown;
      assert (a + b)[k].rule == ExprUnknown;
    }
    if HasUnknownRule(b) {
      var k :| 0 <= k < |b| && b[k].rule == ExprUnknown;
      assert (a + b)[|a| + k].rule == ExprUnknown;
    }
  }

  /** The flattened tree holds an unknown node exactly when the tree does. */
  lemma {:induction false} FlattenPairFindsUnknown(p: Pair)
    decreases p, 1
    ensures HasUnknownRule(FlattenPair(p)) <==> UnknownIn(p)
  {
    FlattenAllFindsUnknown(p.inner);
    HasUnknownRuleAppend([p], FlattenAll(p.inner));
    assert HasUnknownRule([p]) <==> p.rule == ExprUnknown by {
      if p.rule == ExprUnknown { assert [p][0].rule == ExprUnknown; }
    }
  }

  /** The flattened forest holds an unknown node exactly when some tree does. */
  lemma {:induction false} FlattenAllFindsUnknown(ps: seq<Pair>)
    decreases ps, 0
    ensures HasUnknownRule(FlattenAll(ps)) <==> AnyUnknown(ps)
  {
    if ps != [] {
      FlattenPairFindsUnknown(ps[0]);
      FlattenAllFindsUnknown(ps[1..]);
      HasUnknownRuleAppend(FlattenPair(ps[0]), FlattenAll(ps[1..]));
      if AnyUnknown(ps) {
        var i :| 0 <= i < |ps| && UnknownIn(ps[i]);
        if i > 0 { assert UnknownIn(ps[1..][i - 1]); }
      }
      if AnyUnknown(ps[1..]) {
        var i :| 0 <= i < |ps[1..]| && UnknownIn(ps[1..][i]);
        assert UnknownIn(ps[i + 1]);
      }
    }
  }

  /** `contains_unknown_jinja`: scans the flattened forest for an `expr_unknown` node. */
  method ContainsUnknownJinja(pairs: seq<Pair>) returns (found: bool)
    ensures found <==> AnyUnknown(pairs)
  {
    var flat := FlattenAll(pairs);
    FlattenAllFindsUnknown(pairs);
    var k := 0;
    while k < |flat|
      invariant 0 <= k <= |flat|
      invariant forall j :: 0 <= j < k ==> flat[j].rule != ExprUnknown
    {
      if flat[k].rule == ExprUnknown {
        return true;
      }
      k := k + 1;
    }
    return false;
  }

  // ---------------------------------------------------------------------------
  // What a successful render produces, stated over the top-level pairs.

  /** The rendered strings of the top-level pairs that render something, in source order. */
  function Pieces(src: string, ps: seq<Pair>): (r: seq<string>)
    requires PairsWellFormed(src, ps)
    ensures |r| <= |ps|
  {
    if ps == [] then []
    else
      var before := Pieces(src, ps[..|ps| - 1]);
      match ParsePair(src, ps[|ps| - 1])
      case Some(s) => before + [s]
      case None => before
  }

  /** Rendering one more child at the back appends its text, if any. */
  lemma {:induction false} RenderChildrenSnoc(src: string, ps: seq<Pair>, y: Pair)
    requires PairsWellFormed(src, ps) && PairWellFormed(src, y)
    ensures PairsWellFormed(src, ps + [y])
    ensures RenderChildren(src, ps + [y]) ==
              RenderChildren(src, ps) + (if ParsePair(src, y).Some? then ParsePair(src, y).value else "")
  {
    assert forall i :: 0 <= i < |ps| ==> (ps + [y])[i] == ps[i];
    if ps == [] {
      assert ps + [y] == [y];
      assert [y][1..] == [];
    } else {
      assert (ps + [y])[0] == ps[0];
      assert (ps + [y])[1..] == ps[1..] + [y];
      RenderChildrenSnoc(src, ps[1..], y);
    }
  }

  /** The children of a template or expression render to the concatenation of their pieces. */
  lemma {:induction false} RenderChildrenIsConcat(src: string, ps: seq<Pair>)
    requires PairsWellFormed(src, ps)
    ensures RenderChildren(src, ps) == Concat(Pieces(src, ps))
  {
    if ps != [] {
      var init := ps[..|ps| - 1];
      var last := ps[|ps| - 1];
      RenderChildrenIsConcat(src, init);
      RenderChildrenSnoc(src, init, last);
      assert init + [last] == ps;
      if ParsePair(src, last).Some? {
        ConcatSnoc(Pieces(src, init), ParsePair(src, last).value);
      }
    }
  }

  /** The rendered SQL: the pieces concatenated. */
  function RenderedText(src: string, ps: seq<Pair>): string
    requires ForestWellFormed(src, ps)
  {
    Concat(Pieces(src, ps))
  }

  /** A top-level node that renders something but is neither a template nor SQL text. */
  predicate Unexpected(src: string, p: Pair)
    requires PairWellFormed(src, p)
  {
    ParsePair(src, p).Some? && p.rule != ExprTemplate && p.rule != NotJinja
  }

  /** The rule of the first unexpected top-level node, if any. */
  function FirstUnexpected(src: string, ps: seq<Pair>): (r: Option<Rule>)
    requires ForestWellFormed(src, ps)
    ensures r.None? <==> forall i :: 0 <= i < |ps| ==> !Unexpected(src, ps[i])
    ensures r.Some? ==> exists i :: 0 <= i < |ps| && Unexpected(src, ps[i]) && ps[i].rule == r.value
                                     && forall j :: 0 <= j < i ==> !Unexpected(src, ps[j])
  {
    if ps == [] then None
    else
      var init := ps[..|ps| - 1];
      var last := ps[|ps| - 1];
      var f := FirstUnexpected(src, init);
      assert forall i :: 0 <= i < |init| ==> init[i] == ps[i];
      if f.Some? then f
      else if Unexpected(src, last) then Some(last.rule)
      else None
  }

  function KindOf(rule: Rule): (k: SectionType)
    ensures k == Jinja <==> rule == ExprTemplate
  {
    if rule == ExprTemplate then Jinja else Sql
  }

  /** The position map of a render: one segment per piece, laid end to end in the output. */
  function Segments(src: string, ps: seq<Pair>): (r: seq<TemplateOutput>)
    requires ForestWellFormed(src, ps)
    ensures |r| == |Pieces(src, ps)|
  {
    if ps == [] then []
    else
      var init := ps[..|ps| - 1];
      var last := ps[|ps| - 1];
      var before := Segments(src, init);
      match ParsePair(src, last)
      case Some(s) =>
        var at := |RenderedText(src, init)|;
        before + [TemplateOutput(Span(last.start, last.end), Span(at, at + |s|), KindOf(last.rule))]
      case None => before
  }

  /** Why rendering fails, in the order the renderer checks, or `None` when it succeeds. */
  function RenderError(src: string, g: GrammarOutcome): (r: Option<JinjaError>)
    requires g.Parsed? ==> ForestWellFormed(src, g.pairs)
    ensures r.None? <==> g.Parsed? && !AnyUnknown(g.pairs) && forall i :: 0 <= i < |g.pairs| ==> !Unexpected(src, g.pairs[i])
    ensures g.GrammarFailure? ==> r == Some(ParsingError(g.message))
    ensures g.Parsed? && AnyUnknown(g.pairs) ==> r == Some(UnknownJinja)
    ensures r.Some? && r.value.UnexpectedRule? ==>
              exists i :: 0 <= i < |g.pairs| && Unexpected(src, g.pairs[i]) && g.pairs[i].rule == r.value.rule
  {
    match g
    case GrammarFailure(message) => Some(ParsingError(message))
    case Parsed(ps) =>
      if AnyUnknown(ps) then Some(UnknownJinja)
      else match FirstUnexpected(src, ps)
        case Some(rule) => Some(UnexpectedRule(rule))
        case None => None
  }

  /**
   * The shape of a position map: output spans laid end to end from 0 to the end
   * of the output, source spans inside the source and in order, and SQL segments
   * exactly as long in the output as in the source.
   */
  ghost predicate SegmentsWellFormed(segs: seq<TemplateOutput>, outLen: nat, srcLen: nat)
  {
    && (forall i :: 0 <= i < |segs| ==>
          && segs[i].outSpan.start <= segs[i].outSpan.end <= outLen
          && segs[i].inSpan.start <= segs[i].inSpan.end <= srcLen
          && (segs[i].sectionType == Sql ==>
                segs[i].inSpan.end - segs[i].inSpan.start == segs[i].outSpan.end - segs[i].outSpan.start))
    && (|segs| == 0 ==> outLen == 0)
    && (|segs| > 0 ==> segs[0].outSpan.start == 0 && segs[|segs| - 1].outSpan.end == outLen)
    && (forall i :: 0 <= i < |segs| - 1 ==> segs[i + 1].outSpan.start == segs[i].outSpan.end)
    && (forall i, j :: 0 <= i < j < |segs| ==> segs[i].inSpan.end <= segs[j].inSpan.start)
  }

  lemma ConcatSnoc(parts: seq<string>, s: string)
    ensures Concat(parts + [s]) == Concat(parts) + s
  {
    assert (parts + [s])[..|parts|] == parts;
  }

  /** Every segment's source span ends by `bound` when every pair does. */
  lemma {:induction false} SegmentsInSpansBelow(src: string, ps: seq<Pair>, bound: nat)
    requires ForestWellFormed(src, ps)
    requires forall j :: 0 <= j < |ps| ==> ps[j].end <= bound
    ensures forall k :: 0 <= k < |Segments(src, ps)| ==> Segments(src, ps)[k].inSpan.end <= bound
  {
    if ps != [] {
      SegmentsInSpansBelow(src, ps[..|ps| - 1], bound);
    }
  }

  /** A successful render's segments form a well-formed position map of its output. */
  lemma {:induction false} SegmentsAreWellFormed(src: string, ps: seq<Pair>)
    requires ForestWellFormed(src, ps)
    requires FirstUnexpected(src, ps).None?
    ensures SegmentsWellFormed(Segments(src, ps), |RenderedText(src, ps)|, |src|)
  {
    if ps != [] {
      var init := ps[..|ps| - 1];
      var last := ps[|ps| - 1];
      RenderSnoc(src, ps);
      assert FirstUnexpected(src, init).None?;
      SegmentsAreWellFormed(src, init);
      if ParsePair(src, last).Some? {
        var s := ParsePair(src, last).value;
        var at := |RenderedText(src, init)|;
        var seg := TemplateOutput(Span(last.start, last.end), Span(at, at + |s|), KindOf(last.rule));
        assert !Unexpected(src, last);
        SegmentsInSpansBelow(src, init, last.start);
        AppendSegmentWellFormed(Segments(src, init), at, seg, |src|);
        assert Segments(src, ps) == Segments(src, init) + [seg];
        assert |RenderedText(src, ps)| == seg.outSpan.end;
      } else {
        assert Segments(src, ps) == Segments(src, init);
        assert |RenderedText(src, ps)| == |RenderedText(src, init)|;
      }
    } else {
      assert Segments(src, ps) == [] && RenderedText(src, ps) == "";
    }
  }

  /** What the last top-level pair adds to the pieces, the output and the segments of the pairs before it. */
  lemma RenderSnoc(src: string, ps: seq<Pair>)
    requires ForestWellFormed(src, ps) && ps != []
    ensures ForestWellFormed(src, ps[..|ps| - 1])
    ensures ParsePair(src, ps[|ps| - 1]).None? ==>
              && Pieces(src, ps) == Pieces(src, ps[..|ps| - 1])
              && RenderedText(src, ps) == RenderedText(src, ps[..|ps| - 1])
              && Segments(src, ps) == Segments(src, ps[..|ps| - 1])
    ensures ParsePair(src, ps[|ps| - 1]).Some? ==>
              && Pieces(src, ps) == Pieces(src, ps[..|ps| - 1]) + [ParsePair(src, ps[|ps| - 1]).value]
              && |RenderedText(src, ps)| == |RenderedText(src, ps[..|ps| - 1])| + |ParsePair(src, ps[|ps| - 1]).value|
    ensures ParsePair(src, ps[|ps| - 1]).Some? ==>
              var last, at := ps[|ps| - 1], |RenderedText(src, ps[..|ps| - 1])|;
              Segments(src, ps) == Segments(src, ps[..|ps| - 1]) +
                [TemplateOutput(Span(last.start, last.end), Span(at, at + |ParsePair(src, last).value|), KindOf(last.rule))]
  {
    var init := ps[..|ps| - 1];
    InitWellFormed(src, ps);
    if ParsePair(src, ps[|ps| - 1]).Some? {
      ConcatSnoc(Pieces(src, init), ParsePair(src, ps[|ps| - 1]).value);
    }
  }

  lemma InitWellFormed(src: string, ps: seq<Pair>)
    requires ForestWellFormed(src, ps) && ps != []
    ensures ForestWellFormed(src, ps[..|ps| - 1])
    ensures forall i :: 0 <= i < |ps| - 1 ==> ps[..|ps| - 1][i] == ps[i]
  {
  }

  /** A prefix of well-formed top-level pairs is well formed. */
  lemma PrefixWellFormed(src: string, ps: seq<Pair>, k: nat)
    requires ForestWellFormed(src, ps) && k <= |ps|
    ensures ForestWellFormed(src, ps[..k])
  {
  }

  /** A pair that renders nothing leaves the pieces, the segments and the verdict as they were. */
  lemma RenderStepSkip(src: string, ps: seq<Pair>, i: nat)
    requires ForestWellFormed(src, ps) && i < |ps|
    requires FirstUnexpected(src, ps[..i]).None?
    requires ParsePair(src, ps[i]).None?
    ensures ForestWellFormed(src, ps[..i + 1])
    ensures Pieces(src, ps[..i + 1]) == Pieces(src, ps[..i])
    ensures Segments(src, ps[..i + 1]) == Segments(src, ps[..i])
    ensures FirstUnexpected(src, ps[..i + 1]).None?
  {
    PrefixWellFormed(src, ps, i + 1);
    PrefixWellFormed(src, ps, i);
    assert ps[..i + 1][..i] == ps[..i];
    assert ps[..i + 1][i] == ps[i];
  }

  /** A template or SQL pair adds one piece and one segment that starts where the output ended. */
  lemma RenderStepEmit(src: string, ps: seq<Pair>, i: nat)
    requires ForestWellFormed(src, ps) && i < |ps|
    requires FirstUnexpected(src, ps[..i]).None?
    requires ParsePair(src, ps[i]).Some? && !Unexpected(src, ps[i])
    ensures ForestWellFormed(src, ps[..i + 1])
    ensures var s := ParsePair(src, ps[i]).value;
            var at := |RenderedText(src, ps[..i])|;
            && Pieces(src, ps[..i + 1]) == Pieces(src, ps[..i]) + [s]
            && |RenderedText(src, ps[..i + 1])| == at + |s|
            && Segments(src, ps[..i + 1]) == Segments(src, ps[..i]) +
                 [TemplateOutput(Span(ps[i].start, ps[i].end), Span(at, at + |s|), KindOf(ps[i].rule))]
    ensures FirstUnexpected(src, ps[..i + 1]).None?
  {
    PrefixWellFormed(src, ps, i + 1);
    PrefixWellFormed(src, ps, i);
    assert ps[..i + 1][..i] == ps[..i];
    assert ps[..i + 1][i] == ps[i];
    ConcatSnoc(Pieces(src, ps[..i]), ParsePair(src, ps[i]).value);
  }

  /** The first unexpected top-level pair decides the error, unless an unknown construct came first. */
  lemma RenderStepUnexpected(src: string, ps: seq<Pair>, i: nat)
    requires ForestWellFormed(src, ps) && i < |ps|
    requires FirstUnexpected(src, ps[..i]).None?
    requires Unexpected(src, ps[i])
    ensures FirstUnexpected(src, ps) == Some(ps[i].rule)
  {
    PrefixWellFormed(src, ps, i);
    assert forall j :: 0 <= j < i ==> ps[..i][j] == ps[j];
    assert forall j :: 0 <= j < i ==> !Unexpected(src, ps[j]);
  }

  /** Appending a segment that starts where the map ends keeps the map well formed. */
  lemma AppendSegmentWellFormed(before: seq<TemplateOutput>, outLen: nat, seg: TemplateOutput, srcLen: nat)
    requires SegmentsWellFormed(before, outLen, srcLen)
    requires seg.outSpan.start == outLen <= seg.outSpan.end
    requires seg.inSpan.start <= seg.inSpan.end <= srcLen
    requires seg.sectionType == Sql ==>
               seg.inSpan.end - seg.inSpan.start == seg.outSpan.end - seg.outSpan.start
    requires forall k :: 0 <= k < |before| ==> before[k].inSpan.end <= seg.inSpan.start
    ensures SegmentsWellFormed(before + [seg], seg.outSpan.end, srcLen)
  {
    var segs := before + [seg];
    forall i, j | 0 <= i < j < |segs|
      ensures segs[i].inSpan.end <= segs[j].inSpan.start
    {
      if j < |before| {
        assert segs[i] == before[i] && segs[j] == before[j];
      }
    }
  }

  // ---------------------------------------------------------------------------
  // Mapping rendered offsets back to source offsets.

  /** `pest::Position::new` on ASCII text: a position exists for every offset up to the length. */
  function PositionNew(src: string, pos: nat): (r: Option<nat>)
    ensures r.Some? <==> pos <= |src|
    ensures r.Some? ==> r.value == pos
  {
    if pos <= |src| then Some(pos) else None
  }

  /** The source offset one segment assigns to an output offset inside it. */
  function SourceOffset(seg: TemplateOutput, pos: nat): (r: nat)
    requires seg.outSpan.start <= pos
    ensures r >= seg.inSpan.start
    ensures seg.sectionType == Jinja ==> r == seg.inSpan.start
    ensures seg.sectionType == Sql ==> r - seg.inSpan.start == pos - seg.outSpan.start
  {
    match seg.sectionType
    case Jinja => seg.inSpan.start
    case Sql => seg.inSpan.start + (pos - seg.outSpan.start)
  }

  /**
   * `translate` over a list of segments: the first segment whose output span
   * strictly contains the offset decides, and the result must be a position of
   * the source.
   */
  function TranslateIn(segs: seq<TemplateOutput>, srcLen: nat, pos: nat): (r: Option<nat>)
    ensures r.Some? ==> r.value <= srcLen
  {
    if segs == [] then None
    else if segs[0].outSpan.start < pos < segs[0].outSpan.end then
      var p := SourceOffset(segs[0], pos);
      if p <= srcLen then Some(p) else None
    else TranslateIn(segs[1..], srcLen, pos)
  }

  /** A mapped offset lies strictly inside the output span of some segment, whose index is returned. */
  lemma {:induction false} TranslateInHit(segs: seq<TemplateOutput>, srcLen: nat, pos: nat) returns (k: nat)
    requires TranslateIn(segs, srcLen, pos).Some?
    ensures k < |segs| && segs[k].outSpan.start < pos < segs[k].outSpan.end
  {
    if segs[0].outSpan.start < pos < segs[0].outSpan.end {
      k := 0;
    } else {
      var k' := TranslateInHit(segs[1..], srcLen, pos);
      k := k' + 1;
      assert segs[k] == segs[1..][k'];
    }
  }

  /** Output spans of a well-formed map never overlap: earlier segments end before later ones start. */
  lemma {:induction false} OutSpansOrdered(segs: seq<TemplateOutput>, outLen: nat, srcLen: nat, i: nat, j: nat)
    requires SegmentsWellFormed(segs, outLen, srcLen)
    requires i < j < |segs|
    ensures segs[i].outSpan.end <= segs[j].outSpan.start
    decreases j - i
  {
    if i + 1 < j {
      OutSpansOrdered(segs, outLen, srcLen, i + 1, j);
    }
  }

  /** `translate` scans the segments in order: the first one strictly containing the offset decides. */
  lemma {:induction false} TranslateFirstContaining(segs: seq<TemplateOutput>, srcLen: nat, k: nat, pos: nat)
    requires k < |segs| && segs[k].outSpan.start < pos < segs[k].outSpan.end
    requires forall i :: 0 <= i < k ==> segs[i].outSpan.end <= segs[k].outSpan.start
    ensures TranslateIn(segs, srcLen, pos) ==
              var p := SourceOffset(segs[k], pos); if p <= srcLen then Some(p) else None
  {
    if k > 0 {
      assert segs[1..][k - 1] == segs[k];
      TranslateFirstContaining(segs[1..], srcLen, k - 1, pos);
    }
  }

  /** In a well-formed map, the segment strictly containing an offset maps it, within its source span. */
  lemma TranslateAt(segs: seq<TemplateOutput>, outLen: nat, srcLen: nat, k: nat, pos: nat)
    requires SegmentsWellFormed(segs, outLen, srcLen)
    requires k < |segs| && segs[k].outSpan.start < pos < segs[k].outSpan.end
    ensures segs[k].inSpan.start <= SourceOffset(segs[k], pos) <= segs[k].inSpan.end
    ensures TranslateIn(segs, srcLen, pos) == Some(SourceOffset(segs[k], pos))
  {
    forall i | 0 <= i < k
      ensures segs[i].outSpan.end <= segs[k].outSpan.start
    {
      OutSpansOrdered(segs, outLen, srcLen, i, k);
    }
    TranslateFirstContaining(segs, srcLen, k, pos);
  }

  /**
   * The affine law: an offset strictly inside a SQL segment maps to the same
   * distance from the start of its source span, which lies strictly inside that span.
   */
  lemma TranslateInsideSql(segs: seq<TemplateOutput>, outLen: nat, srcLen: nat, k: nat, pos: nat)
    requires SegmentsWellFormed(segs, outLen, srcLen)
    requires k < |segs| && segs[k].sectionType == Sql
    requires segs[k].outSpan.start < pos < segs[k].outSpan.end
    ensures TranslateIn(segs, srcLen, pos) == Some(segs[k].inSpan.start + (pos - segs[k].outSpan.start))
    ensures segs[k].inSpan.start < TranslateIn(segs, srcLen, pos).value < segs[k].inSpan.end
  {
    TranslateAt(segs, outLen, srcLen, k, pos);
  }

  /** Any offset strictly inside a template segment maps to the start of the template call. */
  lemma TranslateInsideJinja(segs: seq<TemplateOutput>, outLen: nat, srcLen: nat, k: nat, pos: nat)
    requires SegmentsWellFormed(segs, outLen, srcLen)
    requires k < |segs| && segs[k].sectionType == Jinja
    requires segs[k].outSpan.start < pos < segs[k].outSpan.end
    ensures TranslateIn(segs, srcLen, pos) == Some(segs[k].inSpan.start)
  {
    TranslateAt(segs, outLen, srcLen, k, pos);
  }

  /** Segment boundaries, the start of the output among them, are never mapped. */
  lemma TranslateBoundaryUnmapped(segs: seq<TemplateOutput>, outLen: nat, srcLen: nat, k: nat, pos: nat)
    requires SegmentsWellFormed(segs, outLen, srcLen)
    requires k < |segs| && (pos == segs[k].outSpan.start || pos == segs[k].outSpan.end)
    ensures TranslateIn(segs, srcLen, pos) == None
  {
    if TranslateIn(segs, srcLen, pos).Some? {
      var i := TranslateInHit(segs, srcLen, pos);
      if i < k {
        OutSpansOrdered(segs, outLen, srcLen, i, k);
      } else if k < i {
        OutSpansOrdered(segs, outLen, srcLen, k, i);
      }
    }
  }

  /**
   * Translation keeps order: of two mapped output offsets, the later one maps to
   * a source offset no earlier than the other's.
   */
  lemma TranslateMonotone(segs: seq<TemplateOutput>, outLen: nat, srcLen: nat, p: nat, q: nat)
    requires SegmentsWellFormed(segs, outLen, srcLen)
    requires p <= q
    requires TranslateIn(segs, srcLen, p).Some? && TranslateIn(segs, srcLen, q).Some?
    ensures TranslateIn(segs, srcLen, p).value <= TranslateIn(segs, srcLen, q).value
  {
    var i := TranslateInHit(segs, srcLen, p);
    var j := TranslateInHit(segs, srcLen, q);
    TranslateAt(segs, outLen, srcLen, i, p);
    TranslateAt(segs, outLen, srcLen, j, q);
    if j < i {
      OutSpansOrdered(segs, outLen, srcLen, j, i);
      assert false;
    }
  }

  /** The rendered strings of collected entries. */
  function PieceTexts(pre: seq<(string, Span, Span, SectionType)>): (r: seq<string>)
    ensures |r| == |pre| && forall j :: 0 <= j < |pre| ==> r[j] == pre[j].0
  {
    seq(|pre|, j requires 0 <= j < |pre| => pre[j].0)
  }

  /** Collected entries carry the given texts and, stripped of their text, are the given segments. */
  predicate EntriesMatch(pre: seq<(string, Span, Span, SectionType)>, texts: seq<string>, segs: seq<TemplateOutput>)
  {
    && PieceTexts(pre) == texts
    && |pre| == |segs|
    && forall j :: 0 <= j < |pre| ==> TemplateOutput(pre[j].1, pre[j].2, pre[j].3) == segs[j]
  }

  /** One more entry, with one more text and one more segment, keeps the entries matching. */
  lemma EntriesMatchSnoc(pre: seq<(string, Span, Span, SectionType)>, texts: seq<string>, segs: seq<TemplateOutput>,
                         entry: (string, Span, Span, SectionType))
    requires EntriesMatch(pre, texts, segs)
    ensures EntriesMatch(pre + [entry], texts + [entry.0], segs + [TemplateOutput(entry.1, entry.2, entry.3)])
  {
    assert PieceTexts(pre + [entry]) == PieceTexts(pre) + [entry.0];
  }

  /** The entries collected so far match the pieces and segments of the pairs seen so far. */
  ghost predicate Collected(src: string, ps: seq<Pair>, pre: seq<(string, Span, Span, SectionType)>)
    requires ForestWellFormed(src, ps)
  {
    EntriesMatch(pre, Pieces(src, ps), Segments(src, ps))
  }

  /** Pushing the entry of a rendered, expected pair keeps the collected entries in step. */
  lemma CollectEmit(src: string, ps: seq<Pair>, i: nat, pre: seq<(string, Span, Span, SectionType)>,
                    at: nat, entry: (string, Span, Span, SectionType))
    requires ForestWellFormed(src, ps) && i < |ps|
    requires FirstUnexpected(src, ps[..i]).None?
    requires ParsePair(src, ps[i]).Some? && !Unexpected(src, ps[i])
    requires ForestWellFormed(src, ps[..i]) && Collected(src, ps[..i], pre)
    requires at == |RenderedText(src, ps[..i])|
    requires entry.0 == ParsePair(src, ps[i]).value && entry.1 == Span(ps[i].start, ps[i].end)
    requires entry.2 == Span(at, at + |entry.0|) && entry.3 == KindOf(ps[i].rule)
    ensures ForestWellFormed(src, ps[..i + 1])
    ensures FirstUnexpected(src, ps[..i + 1]).None?
    ensures |RenderedText(src, ps[..i + 1])| == at + |entry.0|
    ensures Collected(src, ps[..i + 1], pre + [entry])
  {
    RenderStepEmit(src, ps, i);
    EntriesMatchSnoc(pre, Pieces(src, ps[..i]), Segments(src, ps[..i]), entry);
  }

  /** Skipping a pair that renders nothing keeps the collected entries in step. */
  lemma CollectSkip(src: string, ps: seq<Pair>, i: nat, pre: seq<(string, Span, Span, SectionType)>)
    requires ForestWellFormed(src, ps) && i < |ps|
    requires FirstUnexpected(src, ps[..i]).None?
    requires ParsePair(src, ps[i]).None?
    requires ForestWellFormed(src, ps[..i]) && Collected(src, ps[..i], pre)
    ensures ForestWellFormed(src, ps[..i + 1])
    ensures FirstUnexpected(src, ps[..i + 1]).None?
    ensures |RenderedText(src, ps[..i + 1])| == |RenderedText(src, ps[..i])|
    ensures Collected(src, ps[..i + 1], pre)
  {
    RenderStepSkip(src, ps, i);
  }

  /**
   * The loop of `render_jinja`: renders the top-level pairs in order, giving each
   * rendered one its source span, its output span (starting where the output so
   * far ends) and its kind, and fails at the first pair of an unexpected rule.
   */
  method CollectPieces(src: string, pairs: seq<Pair>)
    returns (r: Result<seq<(string, Span, Span, SectionType)>, JinjaError>)
    requires ForestWellFormed(src, pairs)
    ensures r.Err? <==> FirstUnexpected(src, pairs).Some?
    ensures r.Err? ==> r.error == UnexpectedRule(FirstUnexpected(src, pairs).value)
    ensures r.Ok? ==> PieceTexts(r.value) == Pieces(src, pairs)
    ensures r.Ok? ==> |r.value| == |Segments(src, pairs)|
    ensures r.Ok? ==> forall j :: 0 <= j < |r.value| ==>
              TemplateOutput(r.value[j].1, r.value[j].2, r.value[j].3) == Segments(src, pairs)[j]
  {
    var pre: seq<(string, Span, Span, SectionType)> := [];
    var curLength := 0;
    var i := 0;
    while i < |pairs|
      invariant 0 <= i <= |pairs|
      invariant ForestWellFormed(src, pairs[..i])
      invariant FirstUnexpected(src, pairs[..i]).None?
      invariant curLength == |RenderedText(src, pairs[..i])|
      invariant Collected(src, pairs[..i], pre)
    {
      var pairInSpan := Span(pairs[i].start, pairs[i].end);
      var start := curLength;
      var rule := pairs[i].rule;
      var rendered := ParsePair(src, pairs[i]);
      if rendered.None? {
        CollectSkip(src, pairs, i, pre);
      } else {
        var s := rendered.value;
        var end := start + |s|;
        curLength := end;
        var sectionType;
        if rule == ExprTemplate {
          sectionType := Jinja;
        } else if rule == NotJinja {
          sectionType := Sql;
        } else {
          RenderStepUnexpected(src, pairs, i);
          return Err(UnexpectedRule(rule));
        }
        var entry := (s, pairInSpan, Span(start, end), sectionType);
        CollectEmit(src, pairs, i, pre, start, entry);
        pre := pre + [entry];
      }
      i := i + 1;
    }
    assert pairs[..i] == pairs;
    return Ok(pre);
  }

  /** The `for_each` that builds the output: the collected strings concatenated in order. */
  method JoinPieces(pre: seq<(string, Span, Span, SectionType)>) returns (out: string)
    ensures out == Concat(PieceTexts(pre))
  {
    out := "";
    for j := 0 to |pre|
      invariant out == Concat(PieceTexts(pre)[..j])
    {
      assert PieceTexts(pre)[..j + 1][..j] == PieceTexts(pre)[..j];
      out := out + pre[j].0;
    }
    assert PieceTexts(pre)[..|pre|] == PieceTexts(pre);
  }

  /** The single `not_jinja` node covering a source is well formed and renders to the source. */
  lemma PlainSqlNode(src: string)
    ensures ForestWellFormed(src, [Pair(NotJinja, 0, |src|, [])])
    ensures ParsePair(src, Pair(NotJinja, 0, |src|, [])) == Some(src)
    ensures !AnyUnknown([Pair(NotJinja, 0, |src|, [])])
  {
    var p := Pair(NotJinja, 0, |src|, []);
    assert PairWellFormed(src, p);
    assert src[0..|src|] == src;
    assert !UnknownIn(p);
  }

  /** The pieces of a plain source: the source itself. */
  lemma PlainSqlPieces(src: string)
    ensures ForestWellFormed(src, [Pair(NotJinja, 0, |src|, [])])
    ensures Pieces(src, [Pair(NotJinja, 0, |src|, [])]) == [src]
    ensures RenderedText(src, [Pair(NotJinja, 0, |src|, [])]) == src
  {
    PlainSqlNode(src);
    var ps := [Pair(NotJinja, 0, |src|, [])];
    assert ps[..0] == [];
    assert [src][..0] == [];
    assert Concat([src]) == Concat([]) + src;
  }

  /**
   * A source without template constructs (the grammar yields one `not_jinja` node
   * covering it) renders to itself, with one SQL segment mapping the whole output
   * onto the whole source.
   */
  lemma PlainSqlRendersUnchanged(src: string)
    ensures ForestWellFormed(src, [Pair(NotJinja, 0, |src|, [])])
    ensures RenderError(src, Parsed([Pair(NotJinja, 0, |src|, [])])) == None
    ensures RenderedText(src, [Pair(NotJinja, 0, |src|, [])]) == src
    ensures Segments(src, [Pair(NotJinja, 0, |src|, [])]) == [TemplateOutput(Span(0, |src|), Span(0, |src|), Sql)]
  {
    var p := Pair(NotJinja, 0, |src|, []);
    var ps := [p];
    PlainSqlNode(src);
    PlainSqlPieces(src);
    assert ps[..0] == [];
    assert !Unexpected(src, p);
    assert FirstUnexpected(src, ps) == None;
    assert RenderedText(src, []) == "";
  }

  // ---------------------------------------------------------------------------
  // The renderer object.

  /** The segments a list of `(source span, output span, kind)` entries describes, in order. */
  function EntrySegments(pre: seq<(Span, Span, SectionType)>): seq<TemplateOutput>
  {
    seq(|pre|, i requires 0 <= i < |pre| => TemplateOutput(pre[i].0, pre[i].1, pre[i].2))
  }

  /**
   * `JinjaParser`: the source file, the rendered SQL and, after a successful
   * render, the position map.
   */
  class JinjaParser {
    const src: string
    var snippets: Option<seq<TemplateOutput>>
    var outString: string

    /** A position map, once present, describes the current output and the source. */
    ghost predicate Valid()
      reads this
    {
      snippets.Some? ==> SegmentsWellFormed(snippets.value, |outString|, |src|)
    }

    /** `new`: nothing rendered yet and no position map. */
    constructor (src: string)
      ensures this.src == src && snippets == None && outString == ""
      ensures Valid()
    {
      this.src := src;
      snippets := None;
      outString := "";
    }

    /** `unify`: the rendered SQL, which a present position map covers exactly. */
    function Unify(): (r: string)
      requires Valid()
      reads this
      ensures snippets.Some? && snippets.value == [] ==> r == ""
      ensures snippets.Some? && snippets.value != [] ==> snippets.value[|snippets.value| - 1].outSpan.end == |r|
    {
      outString
    }

    /**
     * `set_snippets`: installs the position map, one segment per entry, in order.
     * The entries must describe the current output and the source.
     */
    method SetSnippets(pre: seq<(Span, Span, SectionType)>)
      requires SegmentsWellFormed(EntrySegments(pre), |outString|, |src|)
      modifies this
      ensures Valid()
      ensures outString == old(outString)
      ensures snippets.Some? && |snippets.value| == |pre|
      ensures forall i :: 0 <= i < |pre| ==>
                snippets.value[i] == TemplateOutput(pre[i].0, pre[i].1, pre[i].2)
    {
      var built: seq<TemplateOutput> := [];
      for i := 0 to |pre|
        invariant |built| == i
        invariant forall j :: 0 <= j < i ==> built[j] == TemplateOutput(pre[j].0, pre[j].1, pre[j].2)
      {
        built := built + [TemplateOutput(pre[i].0, pre[i].1, pre[i].2)];
      }
      assert built == EntrySegments(pre);
      snippets := Some(built);
    }

    /**
     * `render_jinja`: on success the output is the rendered text and the position
     * map its segments; on any failure neither changes.
     */
    method RenderJinja(grammar: GrammarOutcome) returns (r: Result<(), JinjaError>)
      requires Valid()
      requires grammar.Parsed? ==> ForestWellFormed(src, grammar.pairs)
      modifies this
      ensures Valid()
      ensures r.Err? <==> RenderError(src, grammar).Some?
      ensures r.Err? ==> r.error == RenderError(src, grammar).value
      ensures r.Err? ==> snippets == old(snippets) && outString == old(outString)
      ensures r.Ok? ==> outString == RenderedText(src, grammar.pairs)
                        && snippets == Some(Segments(src, grammar.pairs))
    {
      if grammar.GrammarFailure? {
        return Err(ParsingError(grammar.message));
      }
      var pairs := grammar.pairs;
      var unknown := ContainsUnknownJinja(pairs);
      if unknown {
        return Err(UnknownJinja);
      }
      var collected := CollectPieces(src, pairs);
      if collected.Err? {
        return Err(collected.error);
      }
      var pre := collected.value;
      var out := JoinPieces(pre);
      assert out == RenderedText(src, pairs) by {
        assert PieceTexts(pre) == Pieces(src, pairs);
      }
      outString := out;
      var stripped := seq(|pre|, j requires 0 <= j < |pre| => (pre[j].1, pre[j].2, pre[j].3));
      assert EntrySegments(stripped) == Segments(src, pairs);
      assert SegmentsWellFormed(Segments(src, pairs), |out|, |src|) by {
        SegmentsAreWellFormed(src, pairs);
      }
      SetSnippets(stripped);
      assert snippets.value == Segments(src, pairs);
      return Ok(());
    }

    /** The source offset `translate` gives for an output offset: only a rendered object maps, and only into the source. */
    ghost function Translation(outPosition: nat): (r: Option<nat>)
      reads this
      ensures r.Some? ==> snippets.Some? && r.value <= |src|
    {
      if snippets.None? then None else TranslateIn(snippets.value, |src|, outPosition)
    }

    /**
     * `translate`: before a successful render nothing is mapped; afterwards the
     * first segment strictly containing the offset maps it, if any does.
     */
    method Translate(outPosition: nat) returns (r: Option<nat>)
      ensures snippets.None? ==> r.None?
      ensures snippets.Some? ==> r == TranslateIn(snippets.value, |src|, outPosition)
      ensures r == Translation(outPosition)
    {
      if snippets.None? {
        return None;
      }
      var segs := snippets.value;
      var i := 0;
      while i < |segs|
        invariant 0 <= i <= |segs|
        invariant TranslateIn(segs[i..], |src|, outPosition) == TranslateIn(segs, |src|, outPosition)
      {
        var snippet := segs[i];
        if outPosition > snippet.outSpan.start && outPosition < snippet.outSpan.end {
          match snippet.sectionType {
            case Jinja =>
              var inPosition := snippet.inSpan.start;
              return PositionNew(src, inPosition);
            case Sql =>
              var inPosition := snippet.inSpan.start + (outPosition - snippet.outSpan.start);
              return PositionNew(src, inPosition);
          }
        }
        assert segs[i..][1..] == segs[i + 1..];
        i := i + 1;
      }
      return None;
    }
  }
}
