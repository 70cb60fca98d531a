/** Knowledge fragments, their retrieval text, and the two-way neighbour links. */
module Fragments {
  import opened Seqs
  import opened Text
  import opened Wrappers
  import opened Payloads

  datatype Evidence = Evidence(
    page: Option<nat>, region: Option<BoundingBox>, extractor: string, model: Option<string>, confidence: real)

  datatype SourceSpan = SourceSpan(page: nat, bbox: Option<BoundingBox>, nodeId: Option<string>)

  datatype Modality = TextKind | TableKind | ImageKind | ChartKind | DiagramKind | FormulaKind | CodeKind | MixedKind

  datatype Content =
    | TextContent(text: string)
    | CodeContent(code: string)
    | TableContent(table: TablePayload)
    | ImageContent(image: ImagePayload)
    | ChartContent(chart: ChartPayload)
    | DiagramContent(diagram: DiagramPayload)
    | FormulaContent(formula: FormulaPayload)
    | MixedContent(children: seq<Fragment>)

  datatype Context = Context(
    headingPath: seq<string>, page: Option<nat>, neighbors: seq<string>, documentId: Option<string>)

  datatype Fragment = Fragment(
    id: string, modality: Modality, content: Content, context: Context,
    source: Option<SourceSpan>, evidence: seq<Evidence>, confidence: real)

  /** `fragment_text`: the retrieval text, recursive through composites. */
  function FragmentText(f: Fragment): string
    decreases f, 0
  {
    match f.content
    case TextContent(s) => s
    case CodeContent(s) => s
    case TableContent(t) => RenderTable(t)
    case ImageContent(p) => RenderImage(p)
    case ChartContent(p) => RenderChart(p)
    case DiagramContent(p) => RenderDiagram(p)
    case FormulaContent(p) => RenderFormula(p)
    case MixedContent(children) => Join(FragmentTexts(children), "\n")
  }

  function FragmentTexts(fs: seq<Fragment>): (ts: seq<string>)
    ensures |ts| == |fs|
    decreases fs
  {
    if fs == [] then [] else FragmentTexts(fs[..|fs| - 1]) + [FragmentText(fs[|fs| - 1])]
  }

  /** The newline-joined text of a whole fragment list. */
  function Render(fs: seq<Fragment>): string {
    Join(FragmentTexts(fs), "\n")
  }

  lemma {:induction false} TextsConcat(a: seq<Fragment>, b: seq<Fragment>)
    ensures FragmentTexts(a + b) == FragmentTexts(a) + FragmentTexts(b)
  {
    if b == [] {
      assert a + b == a;
    } else {
      TextsConcat(a, b[..|b| - 1]);
      InitConcat(a, b);
    }
  }

  lemma {:induction false} TextsAt(fs: seq<Fragment>, i: nat)
    requires i < |fs|
    ensures FragmentTexts(fs)[i] == FragmentText(fs[i])
  {
    if i < |fs| - 1 {
      TextsAt(fs[..|fs| - 1], i);
    }
  }

  /** The solid text of two lists side by side. */
  lemma SolidRenderConcat(a: seq<Fragment>, b: seq<Fragment>)
    ensures Solid(Render(a + b)) == Solid(Render(a)) + Solid(Render(b))
  {
    TextsConcat(a, b);
    SolidJoinConcat(FragmentTexts(a), FragmentTexts(b), "\n");
  }

  lemma SolidRenderBoth(a: seq<Fragment>, x: seq<Fragment>, b: seq<Fragment>, y: seq<Fragment>)
    requires Solid(Render(a)) == Solid(Render(b)) && Solid(Render(x)) == Solid(Render(y))
    ensures Solid(Render(a + x)) == Solid(Render(b + y))
  {
    SolidRenderConcat(a, x);
    SolidRenderConcat(b, y);
  }

  // ---- Evidence ---------------------------------------------------------

  /** What a re-stamp leaves alone. */
  function Provenance(es: seq<Evidence>): seq<(Option<nat>, Option<BoundingBox>, real)> {
    seq(|es|, i requires 0 <= i < |es| => (es[i].page, es[i].region, es[i].confidence))
  }

  /** Evidence re-stamped with the pass that touched it, and with the deciding
      model when there was one. */
  function Restamp(es: seq<Evidence>, extractor: string, model: Option<string>): seq<Evidence> {
    seq(|es|, i requires 0 <= i < |es| =>
      es[i].(extractor := extractor, model := if model.Some? then model else es[i].model))
  }

  lemma RestampKeepsProvenance(es: seq<Evidence>, extractor: string, model: Option<string>)
    ensures Provenance(Restamp(es, extractor, model)) == Provenance(es)
  {
  }

  lemma ProvenanceConcat(a: seq<Evidence>, b: seq<Evidence>)
    ensures Provenance(a + b) == Provenance(a) + Provenance(b)
  {
  }

  // ---- Neighbours -------------------------------------------------------

  /** Ids before and after position `i`. */
  function NeighborsAt(fs: seq<Fragment>, i: nat): seq<string>
    requires i < |fs|
  {
    (if i > 0 then [fs[i - 1].id] else []) + (if i + 1 < |fs| then [fs[i + 1].id] else [])
  }

  function Linked(fs: seq<Fragment>): (r: seq<Fragment>)
    ensures |r| == |fs|
  {
    seq(|fs|, i requires 0 <= i < |fs| => fs[i].(context := fs[i].context.(neighbors := NeighborsAt(fs, i))))
  }

  /** `finalize_neighbors`: every link is rewritten in place. */
  method FinalizeNeighbors(fragments: seq<Fragment>) returns (linked: seq<Fragment>)
    ensures linked == Linked(fragments)
  {
    linked := fragments;
    var ids := seq(|fragments|, i requires 0 <= i < |fragments| => fragments[i].id);
    for i := 0 to |linked|
      invariant |linked| == |fragments|
      invariant linked[..i] == Linked(fragments)[..i]
      invariant linked[i..] == fragments[i..]
    {
      var neighbors := [];
      if i > 0 {
        neighbors := neighbors + [ids[i - 1]];
      }
      if i + 1 < |ids| {
        neighbors := neighbors + [ids[i + 1]];
      }
      assert linked[i] == linked[i..][0] == fragments[i];
      assert neighbors == NeighborsAt(fragments, i);
      linked := linked[i := linked[i].(context := linked[i].context.(neighbors := neighbors))];
    }
  }

  ghost predicate DistinctIds(fs: seq<Fragment>) {
    forall i, j :: 0 <= i < j < |fs| ==> fs[i].id != fs[j].id
  }

  /** With distinct ids the links form exactly the two-way chain. */
  lemma LinksFormChain(fs: seq<Fragment>, i: nat, j: nat)
    requires DistinctIds(fs) && i < |fs| && j < |fs|
    ensures fs[j].id in Linked(fs)[i].context.neighbors <==> (j == i + 1 || i == j + 1)
  {
    var ns := NeighborsAt(fs, i);
    assert i > 0 ==> ns[0] == fs[i - 1].id;
    assert i + 1 < |fs| ==> ns[|ns| - 1] == fs[i + 1].id;
  }

  /** Linking changes nothing but the links... */
  lemma LinkedKeepsText(fs: seq<Fragment>)
    ensures FragmentTexts(Linked(fs)) == FragmentTexts(fs)
  {
    forall i | 0 <= i < |fs| ensures FragmentTexts(Linked(fs))[i] == FragmentTexts(fs)[i] {
      TextsAt(fs, i);
      TextsAt(Linked(fs), i);
    }
  }

  /** ...and linking twice is linking once. */
  lemma LinkedTwice(fs: seq<Fragment>)
    ensures Linked(Linked(fs)) == Linked(fs)
  {
    var ls := Linked(fs);
    forall i | 0 <= i < |fs| ensures Linked(ls)[i] == ls[i] {
      assert NeighborsAt(ls, i) == NeighborsAt(fs, i);
    }
  }
}
