/** The structured payloads a fragment can carry, with the fields the renderers
    read, and their retrieval text. */
module Payloads {
  import opened Seqs
  import opened Text
  import opened Wrappers

  datatype BoundingBox = BoundingBox(page: nat, x: real, y: real, width: real, height: real)

  datatype TableHeader = TableHeader(id: string, text: string)
  datatype TableCell = TableCell(rowId: string, columnId: string, text: string)
  datatype TablePayload = TablePayload(headers: seq<TableHeader>, rows: seq<string>, cells: seq<TableCell>)

  datatype ImagePayload = ImagePayload(caption: Option<string>, ocrText: Option<string>)
  datatype ChartPayload = ChartPayload(
    title: Option<string>, xLabel: Option<string>, yLabel: Option<string>, series: seq<string>)
  datatype DiagramPayload = DiagramPayload(nodeLabels: seq<string>, edgeLabels: seq<Option<string>>)
  datatype FormulaPayload = FormulaPayload(latex: Option<string>, plainText: Option<string>)

  function Present(xs: seq<Option<string>>): seq<string> {
    if xs == [] then []
    else
      var front, last := Present(xs[..|xs| - 1]), xs[|xs| - 1];
      if last.Some? then front + [last.value] else front
  }

  /** Text of the first cell in the given row and column, or empty. */
  function CellText(cells: seq<TableCell>, rowId: string, columnId: string): string {
    if cells == [] then ""
    else if cells[0].rowId == rowId && cells[0].columnId == columnId then cells[0].text
    else CellText(cells[1..], rowId, columnId)
  }

  function RowTexts(t: TablePayload, rowId: string): seq<string> {
    seq(|t.headers|, i requires 0 <= i < |t.headers| => CellText(t.cells, rowId, t.headers[i].id))
  }

  function HeaderTexts(t: TablePayload): seq<string> {
    seq(|t.headers|, i requires 0 <= i < |t.headers| => t.headers[i].text)
  }

  function RowLines(t: TablePayload): seq<string> {
    seq(|t.rows|, r requires 0 <= r < |t.rows| => Join(RowTexts(t, t.rows[r]), " | "))
  }

  function RenderTable(t: TablePayload): string {
    Join([Join(HeaderTexts(t), " | ")] + RowLines(t), "\n")
  }

  function RenderImage(p: ImagePayload): string {
    Join(Present([p.caption, p.ocrText]), "\n")
  }

  function RenderChart(p: ChartPayload): string {
    Join(Present([p.title, p.xLabel, p.yLabel]) + p.series, "\n")
  }

  function RenderDiagram(p: DiagramPayload): string {
    Join(p.nodeLabels + Present(p.edgeLabels), "\n")
  }

  function RenderFormula(p: FormulaPayload): string {
    if p.latex.Some? then p.latex.value else p.plainText.GetOr("")
  }

  // ---- What is shown of a visual --------------------------------------------------

  ghost predicate IsThere(x: Option<string>) {
    x.Some?
  }

  ghost function Somes(ts: seq<string>): seq<Option<string>> {
    seq(|ts|, i requires 0 <= i < |ts| => Some(ts[i]))
  }

  /** Exactly the texts that are there, in order. */
  lemma {:induction false} PresentAre(xs: seq<Option<string>>) returns (at: seq<nat>)
    ensures Chosen(Somes(Present(xs)), xs, at, IsThere)
  {
    at := [];
    if xs != [] {
      var front, x := xs[..|xs| - 1], xs[|xs| - 1];
      var before := PresentAre(front);
      SnocInit(xs);
      assert x.Some? ==> Somes(Present(front) + [x.value]) == Somes(Present(front)) + [x];
      at := ChosenSnoc(Somes(Present(front)), front, x, before, IsThere);
    }
  }

  /** Caption, then recognised text, on lines of their own. */
  lemma ImageShows(p: ImagePayload)
    ensures RenderImage(p) == match (p.caption, p.ocrText)
      case (Some(caption), Some(ocr)) => caption + "\n" + ocr
      case (Some(caption), None) => caption
      case (None, Some(ocr)) => ocr
      case (None, None) => ""
  {
    assert [p.caption, p.ocrText][..1] == [p.caption] && [p.caption][..0] == [];
    assert Present([p.caption]) == if p.caption.Some? then [p.caption.value] else [];
    if p.caption.Some? && p.ocrText.Some? {
      assert [p.caption.value] + [p.ocrText.value] == [p.caption.value, p.ocrText.value];
      JoinPair(p.caption.value, p.ocrText.value, "\n");
    }
  }

  lemma {:induction false} PresentConcat(a: seq<Option<string>>, b: seq<Option<string>>)
    ensures Present(a + b) == Present(a) + Present(b)
  {
    if b == [] {
      ConcatNil(a);
      ConcatNil(Present(a));
    } else {
      PresentConcat(a, b[..|b| - 1]);
      InitConcat(a, b);
    }
  }

  lemma {:induction false} PresentSomes(ts: seq<string>)
    ensures Present(Somes(ts)) == ts
  {
    if ts != [] {
      PresentSomes(ts[..|ts| - 1]);
      assert Somes(ts)[..|ts| - 1] == Somes(ts[..|ts| - 1]);
      SnocInit(ts);
    }
  }

  /** Title, axis labels and series names, as far as there are any, one per line. */
  lemma ChartShows(p: ChartPayload) returns (lines: seq<string>, at: seq<nat>)
    ensures Chosen(Somes(lines), [p.title, p.xLabel, p.yLabel] + Somes(p.series), at, IsThere)
    ensures RenderChart(p) == Join(lines, "\n")
  {
    var labels := [p.title, p.xLabel, p.yLabel];
    PresentConcat(labels, Somes(p.series));
    PresentSomes(p.series);
    lines := Present(labels + Somes(p.series));
    at := PresentAre(labels + Somes(p.series));
  }

  /** Node labels, then the edge labels there are, one per line. */
  lemma DiagramShows(p: DiagramPayload) returns (lines: seq<string>, at: seq<nat>)
    ensures Chosen(Somes(lines), Somes(p.nodeLabels) + p.edgeLabels, at, IsThere)
    ensures RenderDiagram(p) == Join(lines, "\n")
  {
    PresentConcat(Somes(p.nodeLabels), p.edgeLabels);
    PresentSomes(p.nodeLabels);
    lines := Present(Somes(p.nodeLabels) + p.edgeLabels);
    at := PresentAre(Somes(p.nodeLabels) + p.edgeLabels);
  }
}
