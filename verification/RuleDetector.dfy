/** Structural boundary detection: from the document tree to fragments. */
module RuleDetector {
  import opened Seqs
  import opened Text
  import opened Wrappers
  import opened Numerals
  import opened Payloads
  import opened Fragments
  import opened Ast
  import Tables

  predicate IsHeading(n: AstNode) {
    n.blockType.Heading? || n.blockType.Title?
  }

  /** Trimmed texts of the non-blank items. */
  function ItemTexts(items: seq<AstNode>): seq<string> {
    if items == [] then [] else
      var last := TextOf(items[|items| - 1]);
      ItemTexts(items[..|items| - 1]) + (if IsBlank(last) then [] else [Trim(last)])
  }

  function TableBlock(n: AstNode): Option<TablePayload> {
    if n.payload.Some? && n.payload.value.TableData? then Some(n.payload.value.table)
    else Tables.TablePayloadFromNode(n)
  }

  function PlainContent(n: AstNode): (Content, Modality) {
    (TextContent(TextOf(n)), TextKind)
  }

  /** The content a block becomes, if it becomes a fragment at all. */
  function BlockContent(n: AstNode): Option<(Content, Modality)> {
    match n.blockType
    case Title | Heading(_) => None
    case Table =>
      (match TableBlock(n)
       case Some(t) => Some((TableContent(t), TableKind))
       case None => Some(PlainContent(n)))
    case Code => Some((CodeContent(TextOf(n)), CodeKind))
    case List(_) =>
      var text := Join(ItemTexts(n.children), "\n");
      if text == "" then None else Some((TextContent(text), TextKind))
    case Chart | Diagram | Formula | Image =>
      (match n.payload
       case Some(ChartData(c)) => Some((ChartContent(c), ChartKind))
       case Some(DiagramData(d)) => Some((DiagramContent(d), DiagramKind))
       case Some(FormulaData(f)) => Some((FormulaContent(f), FormulaKind))
       case Some(ImageData(i)) => Some((ImageContent(i), ImageKind))
       case _ => Some(PlainContent(n)))
    case _ => Some(PlainContent(n))
  }

  function FragmentId(page: nat, index: nat): string {
    "frag-p" + Decimal(page) + "-b" + Decimal(index)
  }

  function FragmentOf(n: AstNode, page: nat, index: nat, path: seq<string>, content: (Content, Modality)): Fragment {
    var confidence := n.confidence.GetOr(1.0);
    Fragment(
      FragmentId(page, index), content.1, content.0,
      Context(path, Some(page), [], None),
      Some(SourceSpan(page, n.bbox, n.nodeId)),
      [Evidence(Some(page), n.bbox, "rule_boundary", None, confidence)],
      confidence)
  }

  // ---- Specification: flatten wrappers first, then read in order ----------

  datatype Leaf = Leaf(node: AstNode, index: nat)

  /** The blocks that remain when every wrapper is replaced by its children,
      each with its index in the innermost list that holds it. */
  function Leaves(n: AstNode, index: nat): seq<Leaf>
    decreases n, 0
  {
    if IsWrapper(n) then ChildLeaves(n.children) else [Leaf(n, index)]
  }

  function ChildLeaves(blocks: seq<AstNode>): seq<Leaf>
    decreases blocks
  {
    if blocks == [] then []
    else ChildLeaves(blocks[..|blocks| - 1]) + Leaves(blocks[|blocks| - 1], |blocks| - 1)
  }

  function Headings(ls: seq<Leaf>): seq<string> {
    if ls == [] then []
    else Headings(ls[..|ls| - 1]) + (if IsHeading(ls[|ls| - 1].node) then [TextOf(ls[|ls| - 1].node)] else [])
  }

  /** The fragment of a content block. */
  function LeafFragments(l: Leaf, page: nat, path: seq<string>): seq<Fragment> {
    match BlockContent(l.node)
    case Some(c) => [FragmentOf(l.node, page, l.index, path, c)]
    case None => []
  }

  /** One fragment per content block; its heading path is the starting path
      and every heading before it. */
  function Emitted(ls: seq<Leaf>, page: nat, path: seq<string>): seq<Fragment> {
    if ls == [] then []
    else
      var front, last := ls[..|ls| - 1], ls[|ls| - 1];
      Emitted(front, page, path) + LeafFragments(last, page, path + Headings(front))
  }

  lemma {:induction false} HeadingsConcat(a: seq<Leaf>, b: seq<Leaf>)
    ensures Headings(a + b) == Headings(a) + Headings(b)
  {
    if b == [] {
      assert a + b == a;
    } else {
      HeadingsConcat(a, b[..|b| - 1]);
      InitConcat(a, b);
    }
  }

  lemma {:induction false} EmittedConcat(a: seq<Leaf>, b: seq<Leaf>, page: nat, path: seq<string>)
    ensures Emitted(a + b, page, path) == Emitted(a, page, path) + Emitted(b, page, path + Headings(a))
  {
    if b == [] {
      assert a + b == a;
    } else {
      var c := b[..|b| - 1];
      EmittedConcat(a, c, page, path);
      InitConcat(a, b);
      HeadingsConcat(a, c);
      Assoc(path, Headings(a), Headings(c));
      EmittedSnoc(a, c, b[|b| - 1], page, path);
    }
  }

  lemma EmittedSnoc(a: seq<Leaf>, c: seq<Leaf>, l: Leaf, page: nat, path: seq<string>)
    requires Emitted(a + c, page, path) == Emitted(a, page, path) + Emitted(c, page, path + Headings(a))
    ensures Emitted(a + c, page, path) + LeafFragments(l, page, path + Headings(a) + Headings(c))
      == Emitted(a, page, path) + (Emitted(c, page, path + Headings(a)) + LeafFragments(l, page, path + Headings(a) + Headings(c)))
  {
    Assoc(Emitted(a, page, path), Emitted(c, page, path + Headings(a)),
          LeafFragments(l, page, path + Headings(a) + Headings(c)));
  }

  // ---- The recursive walk ----------------------------------------------------

  /** `emit_block`: appends to the output and to the heading path. */
  method EmitBlock(node: AstNode, page: nat, index: nat, pathIn: seq<string>, outIn: seq<Fragment>)
    returns (path: seq<string>, out: seq<Fragment>)
    ensures path == pathIn + Headings(Leaves(node, index))
    ensures out == outIn + Emitted(Leaves(node, index), page, pathIn)
    decreases node, 0
  {
    path, out := pathIn, outIn;
    if IsWrapper(node) {
      path, out := EmitBlocks(node.children, page, path, out);
    } else {
      OneLeaf(Leaf(node, index), page, pathIn);
      match BlockContent(node) {
        case Some(c) => out := out + [FragmentOf(node, page, index, path, c)];
        case None =>
          if IsHeading(node) {
            path := path + [TextOf(node)];
          }
      }
    }
  }

  /** The loop over a list of blocks, on a page and inside a wrapper alike. */
  method EmitBlocks(blocks: seq<AstNode>, page: nat, pathIn: seq<string>, outIn: seq<Fragment>)
    returns (path: seq<string>, out: seq<Fragment>)
    ensures path == pathIn + Headings(ChildLeaves(blocks))
    ensures out == outIn + Emitted(ChildLeaves(blocks), page, pathIn)
    decreases blocks
  {
    path, out := pathIn, outIn;
    for i := 0 to |blocks|
      invariant path == pathIn + Headings(ChildLeaves(blocks[..i]))
      invariant out == outIn + Emitted(ChildLeaves(blocks[..i]), page, pathIn)
    {
      NextBlock(blocks, i, page, pathIn, outIn);
      path, out := EmitBlock(blocks[i], page, i, path, out);
    }
    TakeAll(blocks);
  }

  lemma NextBlock(blocks: seq<AstNode>, i: nat, page: nat, path: seq<string>, out: seq<Fragment>)
    requires i < |blocks|
    ensures var a, b, ab := ChildLeaves(blocks[..i]), Leaves(blocks[i], i), ChildLeaves(blocks[..i + 1]);
      && path + Headings(ab) == path + Headings(a) + Headings(b)
      && out + Emitted(ab, page, path) == out + Emitted(a, page, path) + Emitted(b, page, path + Headings(a))
  {
    TakeTwice(blocks, i);
    NextLeaves(ChildLeaves(blocks[..i]), Leaves(blocks[i], i), page, path, out);
  }

  lemma NextLeaves(a: seq<Leaf>, b: seq<Leaf>, page: nat, path: seq<string>, out: seq<Fragment>)
    ensures path + Headings(a + b) == path + Headings(a) + Headings(b)
    ensures out + Emitted(a + b, page, path) == out + Emitted(a, page, path) + Emitted(b, page, path + Headings(a))
  {
    HeadingsConcat(a, b);
    EmittedConcat(a, b, page, path);
    Assoc(path, Headings(a), Headings(b));
    Assoc(out, Emitted(a, page, path), Emitted(b, page, path + Headings(a)));
  }

  lemma OneLeaf(l: Leaf, page: nat, path: seq<string>)
    ensures Headings([l]) == if IsHeading(l.node) then [TextOf(l.node)] else []
    ensures Emitted([l], page, path) == LeafFragments(l, page, path)
  {
    assert [l][..0] == [] && path + [] == path;
  }

  /** Fragments of the pages in order; headings do not cross a page. */
  function PageFragments(pages: seq<AstNode>): seq<Fragment> {
    if pages == [] then []
    else PageFragments(pages[..|pages| - 1]) + Emitted(ChildLeaves(pages[|pages| - 1].children), |pages|, [])
  }

  function Take8(s: string): string {
    if |s| <= 8 then s else s[..8]
  }

  /** The id behind the fixed `frag-` prefix. */
  function ShortId(id: string): string {
    if "frag-" <= id then id[5..] else ""
  }

  function Prefixed(f: Fragment, documentId: string): Fragment {
    f.(id := "frag-" + Take8(documentId) + "-" + ShortId(f.id),
       context := f.context.(documentId := Some(documentId)))
  }

  function WithDocument(fs: seq<Fragment>, documentId: Option<string>): (r: seq<Fragment>)
    ensures |r| == |fs|
  {
    if documentId.None? || documentId.value == "" then fs
    else seq(|fs|, i requires 0 <= i < |fs| => Prefixed(fs[i], documentId.value))
  }

  function RuleFragments(ast: DocumentAst): seq<Fragment> {
    Linked(WithDocument(PageFragments(ast.pages), ast.documentId))
  }

  /** `RuleBoundaryDetector::detect`. */
  method Detect(ast: DocumentAst) returns (fragments: seq<Fragment>)
    ensures fragments == RuleFragments(ast)
  {
    fragments := [];
    var path: seq<string> := [];
    for p := 0 to |ast.pages|
      invariant path == [] && fragments == PageFragments(ast.pages[..p])
    {
      path, fragments := EmitBlocks(ast.pages[p].children, p + 1, path, fragments);
      TakeTwice(ast.pages, p);
      path := [];
    }
    TakeAll(ast.pages);
    if ast.documentId.Some? && Take8(ast.documentId.value) != "" {
      ghost var before := fragments;
      for i := 0 to |fragments|
        invariant |fragments| == |before|
        invariant forall k :: 0 <= k < i ==> fragments[k] == Prefixed(before[k], ast.documentId.value)
        invariant forall k :: i <= k < |before| ==> fragments[k] == before[k]
      {
        fragments := fragments[i := Prefixed(fragments[i], ast.documentId.value)];
      }
      assert fragments == WithDocument(before, ast.documentId);
    }
    fragments := FinalizeNeighbors(fragments);
  }
}
