/** What the rule detector makes of a document tree, field by field and without
    its own intermediate functions, and what every detector shows of the tree. */
module RuleLaws {
  import opened Seqs
  import opened Text
  import opened Wrappers
  import opened Numerals
  import opened Payloads
  import opened Fragments
  import opened Ast
  import opened RuleDetector
  import opened Detectors
  import Tables

  // ---- The blocks that are read ------------------------------------------------

  function NodesOf(ls: seq<Leaf>): seq<AstNode> {
    seq(|ls|, i requires 0 <= i < |ls| => ls[i].node)
  }

  /** Typed blocks, blocks with text and blocks without children are read as
      they stand; an empty container of any other type is read through. */
  lemma LeavesByType(n: AstNode, index: nat)
    ensures Leaves(n, index) ==
      match n.blockType
      case Title | Heading(_) | Table | Code | List(_) | Chart | Diagram | Formula | Image => [Leaf(n, index)]
      case Paragraph | ListItem | TableRow | TableCell | Figure | Caption | Header | Footer | Footnote | Unknown =>
        if IsBlank(TextOf(n)) && n.children != [] then ChildLeaves(n.children) else [Leaf(n, index)]
  {
  }

  lemma NodesConcat(a: seq<Leaf>, b: seq<Leaf>)
    ensures NodesOf(a + b) == NodesOf(a) + NodesOf(b)
  {
  }

  /** Only the index of a leaf depends on where its list starts. */
  lemma {:induction false} LeafNodesConcat(a: seq<AstNode>, b: seq<AstNode>)
    ensures NodesOf(ChildLeaves(a + b)) == NodesOf(ChildLeaves(a)) + NodesOf(ChildLeaves(b))
  {
    if b == [] {
      ConcatNil(a);
      ConcatNil(NodesOf(ChildLeaves(a)));
    } else {
      var front, n := b[..|b| - 1], b[|b| - 1];
      LeafNodesConcat(a, front);
      InitConcat(a, b);
      NodesConcat(ChildLeaves(a + front), Leaves(n, |a + b| - 1));
      NodesConcat(ChildLeaves(front), Leaves(n, |b| - 1));
      assert NodesOf(Leaves(n, |a + b| - 1)) == NodesOf(Leaves(n, |b| - 1));
      Assoc(NodesOf(ChildLeaves(a)), NodesOf(ChildLeaves(front)), NodesOf(Leaves(n, |b| - 1)));
    }
  }

  /** Putting the children of a block that is read through in its place changes
      nothing. */
  lemma ContainerUnfolds(a: seq<AstNode>, n: AstNode, b: seq<AstNode>)
    requires Leaves(n, 0) == ChildLeaves(n.children)
    ensures NodesOf(ChildLeaves(a + [n] + b)) == NodesOf(ChildLeaves(a + n.children + b))
  {
    assert [n][..0] == [] && ChildLeaves([n]) == ChildLeaves(n.children);
    LeafNodesConcat(a + [n], b);
    LeafNodesConcat(a, [n]);
    LeafNodesConcat(a + n.children, b);
    LeafNodesConcat(a, n.children);
  }

  /** Without containers the leaves are the blocks with their own indexes. */
  lemma {:induction false} FlatLeaves(blocks: seq<AstNode>)
    requires forall i :: 0 <= i < |blocks| ==> !IsBlank(TextOf(blocks[i])) || blocks[i].children == []
    ensures ChildLeaves(blocks) == seq(|blocks|, i requires 0 <= i < |blocks| => Leaf(blocks[i], i))
  {
    if blocks != [] {
      FlatLeaves(blocks[..|blocks| - 1]);
    }
  }

  // ---- What a block carries -----------------------------------------------------

  ghost predicate IsHeadingLeaf(l: Leaf) {
    l.node.blockType.Title? || l.node.blockType.Heading?
  }

  ghost predicate HasText(n: AstNode) {
    !IsBlank(TextOf(n))
  }

  /** Headings are context; a list without a single non-blank item is nothing. */
  ghost predicate HasContent(l: Leaf) {
    !IsHeadingLeaf(l) && (l.node.blockType.List? ==>
      exists i :: 0 <= i < |l.node.children| && HasText(l.node.children[i]))
  }

  /** The trimmed texts of exactly the non-blank items. */
  ghost predicate ItemLines(lines: seq<string>, items: seq<AstNode>, at: seq<nat>) {
    && Selects(at, items, HasText) && |lines| == |at|
    && forall k :: 0 <= k < |at| ==> lines[k] == Trim(TextOf(items[at[k]]))
  }

  ghost predicate ItemsJoined(text: string, items: seq<AstNode>) {
    exists at: seq<nat>, lines: seq<string> :: ItemLines(lines, items, at) && text == Join(lines, "\n")
  }

  ghost predicate CarriesText(content: Content, tag: Modality, n: AstNode) {
    content == TextContent(n.text.GetOr("")) && tag == TextKind
  }

  /** Content and tag of a block's fragment, by block type. */
  ghost predicate Carries(content: Content, tag: Modality, n: AstNode) {
    match n.blockType
    case Code => content == CodeContent(n.text.GetOr("")) && tag == CodeKind
    case List(_) => content.TextContent? && tag == TextKind && ItemsJoined(content.text, n.children)
    case Table =>
      if n.payload.Some? && n.payload.value.TableData? then
        content == TableContent(n.payload.value.table) && tag == TableKind
      else if n.children != [] then content == TableContent(Tables.PayloadOf(n.children)) && tag == TableKind
      else CarriesText(content, tag, n)
    case Chart | Diagram | Formula | Image =>
      (match n.payload
       case Some(ChartData(c)) => content == ChartContent(c) && tag == ChartKind
       case Some(DiagramData(d)) => content == DiagramContent(d) && tag == DiagramKind
       case Some(FormulaData(f)) => content == FormulaContent(f) && tag == FormulaKind
       case Some(ImageData(i)) => content == ImageContent(i) && tag == ImageKind
       case Some(TableData(_)) | None => CarriesText(content, tag, n))
    case _ => CarriesText(content, tag, n)
  }

  lemma {:induction false} ItemTextsAre(items: seq<AstNode>) returns (at: seq<nat>)
    ensures ItemLines(ItemTexts(items), items, at)
  {
    at := [];
    if items != [] {
      var front, n := items[..|items| - 1], items[|items| - 1];
      var before := ItemTextsAre(front);
      SnocInit(items);
      at := LinesGrow(ItemTexts(front), front, n, before);
      ConcatNil(ItemTexts(front));
    }
  }

  lemma LinesGrow(lines: seq<string>, items: seq<AstNode>, n: AstNode, before: seq<nat>) returns (at: seq<nat>)
    requires ItemLines(lines, items, before)
    ensures ItemLines(if HasText(n) then lines + [Trim(TextOf(n))] else lines, items + [n], at)
  {
    at := if HasText(n) then before + [|items|] else before;
    SelectsSnoc(before, items, n, HasText);
  }

  /** The joined text is empty only without a non-blank item. */
  lemma NoLines(lines: seq<string>, items: seq<AstNode>, at: seq<nat>)
    requires ItemLines(lines, items, at)
    ensures Join(lines, "\n") == "" <==> forall i :: 0 <= i < |items| ==> !HasText(items[i])
  {
    if at == [] {
      forall i | 0 <= i < |items| ensures !HasText(items[i]) {
        assert HasText(items[i]) ==> i in at;
      }
    } else {
      assert HasText(items[at[0]]);
      TrimNotEmpty(TextOf(items[at[0]]));
      JoinNotEmpty(lines);
    }
  }

  lemma JoinNotEmpty(lines: seq<string>)
    requires lines != [] && lines[0] != ""
    ensures Join(lines, "\n") != ""
  {
    if |lines| > 1 {
      ConsTail(lines);
      JoinConcat([lines[0]], lines[1..], "\n");
    }
  }

  lemma TrimNotEmpty(s: string)
    requires !IsBlank(s)
    ensures Trim(s) != ""
  {
    var u := TrimStart(s);
    var pre := s[..|s| - |u|];
    assert s == pre + u;
    if TrimEnd(u) == "" {
      assert u[0..] == u;
      BlankConcat(pre, u);
    }
  }

  lemma BlankConcat(a: string, b: string)
    requires IsBlank(a) && IsBlank(b)
    ensures IsBlank(a + b)
  {
  }

  /** A block with content carries it; no other block becomes a fragment. */
  lemma ContentIs(l: Leaf)
    ensures HasContent(l) <==> BlockContent(l.node).Some?
    ensures HasContent(l) ==> Carries(BlockContent(l.node).value.0, BlockContent(l.node).value.1, l.node)
  {
    if l.node.blockType.List? {
      var at := ItemTextsAre(l.node.children);
      NoLines(ItemTexts(l.node.children), l.node.children, at);
    }
  }

  // ---- One page -------------------------------------------------------------------

  /** The texts of exactly the headings among these leaves, in order. */
  ghost predicate HeadingsAt(path: seq<string>, ls: seq<Leaf>, at: seq<nat>) {
    && Selects(at, ls, IsHeadingLeaf) && |path| == |at|
    && forall k :: 0 <= k < |at| ==> path[k] == ls[at[k]].node.text.GetOr("")
  }

  ghost predicate HeadingsAmong(path: seq<string>, ls: seq<Leaf>) {
    exists at: seq<nat> :: HeadingsAt(path, ls, at)
  }

  lemma {:induction false} HeadingsAre(ls: seq<Leaf>) returns (at: seq<nat>)
    ensures HeadingsAt(Headings(ls), ls, at)
  {
    at := [];
    if ls != [] {
      var front, l := ls[..|ls| - 1], ls[|ls| - 1];
      var before := HeadingsAre(front);
      SnocInit(ls);
      at := HeadingsGrow(Headings(front), front, l, before);
      ConcatNil(Headings(front));
    }
  }

  lemma HeadingsGrow(path: seq<string>, ls: seq<Leaf>, l: Leaf, before: seq<nat>) returns (at: seq<nat>)
    requires HeadingsAt(path, ls, before)
    ensures HeadingsAt(if IsHeadingLeaf(l) then path + [l.node.text.GetOr("")] else path, ls + [l], at)
  {
    at := if IsHeadingLeaf(l) then before + [|ls|] else before;
    SelectsSnoc(before, ls, l, IsHeadingLeaf);
  }

  /** Every field of the fragment of leaf `i`, on the page with this number. */
  ghost predicate IsFragmentOf(f: Fragment, ls: seq<Leaf>, i: nat, page: nat)
    requires i < |ls|
  {
    var n, confidence := ls[i].node, ls[i].node.confidence.GetOr(1.0);
    && Carries(f.content, f.modality, n)
    && HeadingsAmong(f.context.headingPath, ls[..i]) && f.context.page == Some(page)
    && f.source == Some(SourceSpan(page, n.bbox, n.nodeId)) && f.confidence == confidence
    && f.evidence == [Evidence(Some(page), n.bbox, "rule_boundary", None, confidence)]
  }

  ghost predicate IsEmitted(f: Fragment, ls: seq<Leaf>, i: nat, page: nat)
    requires i < |ls|
  {
    && IsFragmentOf(f, ls, i, page)
    && f.id == "frag-p" + Decimal(page) + "-b" + Decimal(ls[i].index) && f.context.documentId == None
  }

  ghost predicate IsPage(fs: seq<Fragment>, ls: seq<Leaf>, page: nat, at: seq<nat>) {
    && Selects(at, ls, HasContent) && |fs| == |at|
    && forall k :: 0 <= k < |at| ==> IsEmitted(fs[k], ls, at[k], page)
  }

  lemma {:induction false} EmittedAre(ls: seq<Leaf>, page: nat) returns (at: seq<nat>)
    ensures IsPage(Emitted(ls, page, []), ls, page, at)
  {
    at := [];
    if ls != [] {
      var front, l := ls[..|ls| - 1], ls[|ls| - 1];
      var before := EmittedAre(front, page);
      SnocInit(ls);
      LeafIs(front, l, page);
      at := PageGrows(Emitted(front, page, []), LeafFragments(l, page, [] + Headings(front)), front, l, page, before);
    }
  }

  lemma PageGrows(fs: seq<Fragment>, gs: seq<Fragment>, front: seq<Leaf>, l: Leaf, page: nat, before: seq<nat>)
    returns (at: seq<nat>)
    requires IsPage(fs, front, page, before)
    requires if HasContent(l) then |gs| == 1 && IsEmitted(gs[0], front + [l], |front|, page) else gs == []
    ensures IsPage(fs + gs, front + [l], page, at)
  {
    at := if HasContent(l) then before + [|front|] else before;
    SelectsSnoc(before, front, l, HasContent);
    forall k | 0 <= k < |at| ensures IsEmitted((fs + gs)[k], front + [l], at[k], page) {
      if k < |before| {
        EmittedStays(fs[k], front, l, before[k], page);
      }
    }
  }

  lemma EmittedStays(f: Fragment, front: seq<Leaf>, l: Leaf, i: nat, page: nat)
    requires i < |front| && IsEmitted(f, front, i, page)
    ensures IsEmitted(f, front + [l], i, page)
  {
    assert (front + [l])[..i] == front[..i];
  }

  lemma LeafIs(front: seq<Leaf>, l: Leaf, page: nat)
    ensures var fs := LeafFragments(l, page, [] + Headings(front));
      if HasContent(l) then |fs| == 1 && IsEmitted(fs[0], front + [l], |front|, page) else fs == []
  {
    ContentIs(l);
    ConcatNil(Headings(front));
    InitSnoc(front, l);
    var at := HeadingsAre(front);
    assert HeadingsAmong(Headings(front), front);
  }

  // ---- The whole document ------------------------------------------------------------

  /** A leaf of a page, both counted from zero. */
  datatype Place = Place(page: nat, leaf: nat)

  function LeavesOn(page: AstNode): seq<Leaf> {
    ChildLeaves(page.children)
  }

  ghost predicate InDocument(pages: seq<AstNode>, at: Place) {
    at.page < |pages| && at.leaf < |LeavesOn(pages[at.page])|
  }

  function NodeAt(pages: seq<AstNode>, at: Place): AstNode
    requires InDocument(pages, at)
  {
    LeavesOn(pages[at.page])[at.leaf].node
  }

  ghost predicate Before(a: Place, b: Place) {
    a.page < b.page || (a.page == b.page && a.leaf < b.leaf)
  }

  /** Exactly the places with content, in document order. */
  ghost predicate ContentPlaces(at: seq<Place>, pages: seq<AstNode>) {
    && (forall i, j :: 0 <= i < j < |at| ==> Before(at[i], at[j]))
    && (forall i :: 0 <= i < |at| ==> InDocument(pages, at[i]) && HasContent(LeavesOn(pages[at[i].page])[at[i].leaf]))
    && (forall p: nat, i: nat :: p < |pages| && i < |LeavesOn(pages[p])| && HasContent(LeavesOn(pages[p])[i]) ==>
          Place(p, i) in at)
  }

  ghost predicate IsAt(f: Fragment, pages: seq<AstNode>, at: Place) {
    InDocument(pages, at) && IsFragmentOf(f, LeavesOn(pages[at.page]), at.leaf, at.page + 1)
  }

  /** The id without its leading `frag-`. */
  function PlaceId(pages: seq<AstNode>, at: Place): string
    requires InDocument(pages, at)
  {
    "p" + Decimal(at.page + 1) + "-b" + Decimal(LeavesOn(pages[at.page])[at.leaf].index)
  }

  /** Ids carry the first eight characters of a non-empty document id. */
  function DocumentPart(documentId: Option<string>): string {
    var d := documentId.GetOr("");
    if d == "" then "" else (if |d| <= 8 then d else d[..8]) + "-"
  }

  /** The fragment of the block at this place of the document with this id. */
  ghost predicate IsRuleFragment(f: Fragment, pages: seq<AstNode>, documentId: Option<string>, at: Place) {
    && IsAt(f, pages, at) && f.id == "frag-" + DocumentPart(documentId) + PlaceId(pages, at)
    && f.context.documentId == (if DocumentPart(documentId) == "" then None else documentId)
  }

  ghost predicate IsPages(fs: seq<Fragment>, pages: seq<AstNode>, at: seq<Place>) {
    ContentPlaces(at, pages) && AllAt(fs, pages, at)
  }

  ghost predicate AllAt(fs: seq<Fragment>, pages: seq<AstNode>, at: seq<Place>) {
    |fs| == |at| && forall k :: 0 <= k < |at| ==> IsRuleFragment(fs[k], pages, None, at[k])
  }

  function PlacesOn(page: nat, leaves: seq<nat>): seq<Place> {
    seq(|leaves|, k requires 0 <= k < |leaves| => Place(page, leaves[k]))
  }

  lemma {:induction false} PagesAre(pages: seq<AstNode>) returns (at: seq<Place>)
    ensures IsPages(PageFragments(pages), pages, at)
  {
    at := [];
    if pages != [] {
      var front, page := pages[..|pages| - 1], pages[|pages| - 1];
      var before := PagesAre(front);
      var leaves := EmittedAre(LeavesOn(page), |pages|);
      at := before + PlacesOn(|front|, leaves);
      SnocInit(pages);
      PlacesGrow(before, front, page, leaves);
      FragmentsGrow(PageFragments(front), Emitted(LeavesOn(page), |pages|, []), front, page, before, leaves);
    }
  }

  lemma PlacesGrow(before: seq<Place>, front: seq<AstNode>, page: AstNode, leaves: seq<nat>)
    requires ContentPlaces(before, front) && Selects(leaves, LeavesOn(page), HasContent)
    ensures ContentPlaces(before + PlacesOn(|front|, leaves), front + [page])
  {
    var at, pages := before + PlacesOn(|front|, leaves), front + [page];
    forall i | 0 <= i < |at|
      ensures InDocument(pages, at[i]) && HasContent(LeavesOn(pages[at[i].page])[at[i].leaf])
    {
      assert i < |before| ==> pages[at[i].page] == front[at[i].page];
    }
    forall p: nat, i: nat | p < |pages| && i < |LeavesOn(pages[p])| && HasContent(LeavesOn(pages[p])[i])
      ensures Place(p, i) in at
    {
      if p < |front| {
        assert pages[p] == front[p] && Place(p, i) in before;
      } else {
        var k :| 0 <= k < |leaves| && leaves[k] == i;
        assert at[|before| + k] == Place(p, i);
      }
    }
  }

  lemma FragmentsGrow(
    fs: seq<Fragment>, gs: seq<Fragment>, front: seq<AstNode>, page: AstNode, before: seq<Place>, leaves: seq<nat>)
    requires AllAt(fs, front, before) && IsPage(gs, LeavesOn(page), |front| + 1, leaves)
    ensures AllAt(fs + gs, front + [page], before + PlacesOn(|front|, leaves))
  {
    OldFragments(fs, front, page, before);
    NewFragments(gs, front, page, leaves);
    AllAtConcat(fs, gs, front + [page], before, PlacesOn(|front|, leaves));
  }

  lemma AllAtConcat(fs: seq<Fragment>, gs: seq<Fragment>, pages: seq<AstNode>, a: seq<Place>, b: seq<Place>)
    requires AllAt(fs, pages, a) && AllAt(gs, pages, b)
    ensures AllAt(fs + gs, pages, a + b)
  {
    forall k | 0 <= k < |a + b| ensures IsRuleFragment((fs + gs)[k], pages, None, (a + b)[k]) {
      if k >= |a| {
        assert (fs + gs)[k] == gs[k - |a|] && (a + b)[k] == b[k - |a|];
      }
    }
  }

  lemma OldFragments(fs: seq<Fragment>, front: seq<AstNode>, page: AstNode, before: seq<Place>)
    requires AllAt(fs, front, before)
    ensures AllAt(fs, front + [page], before)
  {
    forall k | 0 <= k < |before| ensures IsRuleFragment(fs[k], front + [page], None, before[k]) {
      FragmentStays(fs[k], front, page, before[k]);
    }
  }

  lemma NewFragments(gs: seq<Fragment>, front: seq<AstNode>, page: AstNode, leaves: seq<nat>)
    requires IsPage(gs, LeavesOn(page), |front| + 1, leaves)
    ensures AllAt(gs, front + [page], PlacesOn(|front|, leaves))
  {
    forall k | 0 <= k < |leaves| ensures IsRuleFragment(gs[k], front + [page], None, PlacesOn(|front|, leaves)[k]) {
      FragmentOnPage(gs[k], front, page, leaves[k]);
    }
  }

  lemma FragmentStays(f: Fragment, front: seq<AstNode>, page: AstNode, at: Place)
    requires IsRuleFragment(f, front, None, at)
    ensures IsRuleFragment(f, front + [page], None, at)
  {
    assert (front + [page])[at.page] == front[at.page];
  }

  lemma FragmentOnPage(f: Fragment, front: seq<AstNode>, page: AstNode, leaf: nat)
    requires leaf < |LeavesOn(page)| && IsEmitted(f, LeavesOn(page), leaf, |front| + 1)
    ensures IsRuleFragment(f, front + [page], None, Place(|front|, leaf))
  {
    assert (front + [page])[|front|] == page;
    IdParts(|front| + 1, LeavesOn(page)[leaf].index);
  }

  lemma IdParts(page: nat, index: nat)
    ensures "frag-p" + Decimal(page) + "-b" + Decimal(index) ==
      "frag-" + DocumentPart(None) + ("p" + Decimal(page) + "-b" + Decimal(index))
  {
    assert "frag-p" == "frag-" + "p";
    ConcatNil("frag-");
  }

  /** One fragment per block with content, in document order, every field from
      the block, its page and the headings before it. */
  lemma RuleFragmentsAre(ast: DocumentAst) returns (at: seq<Place>)
    ensures ContentPlaces(at, ast.pages) && |RuleFragments(ast)| == |at|
    ensures forall k :: 0 <= k < |at| ==> IsRuleFragment(RuleFragments(ast)[k], ast.pages, ast.documentId, at[k])
  {
    at := PagesAre(ast.pages);
    var fs := PageFragments(ast.pages);
    forall k | 0 <= k < |at| ensures IsRuleFragment(RuleFragments(ast)[k], ast.pages, ast.documentId, at[k]) {
      PrefixIs(fs[k], ast.pages, ast.documentId, at[k]);
      LinkedIs(WithDocument(fs, ast.documentId), k, ast.pages, ast.documentId, at[k]);
    }
  }

  lemma PrefixIs(f: Fragment, pages: seq<AstNode>, documentId: Option<string>, at: Place)
    requires IsRuleFragment(f, pages, None, at)
    ensures IsRuleFragment(WithDocument([f], documentId)[0], pages, documentId, at)
  {
    var short := PlaceId(pages, at);
    ConcatNil("frag-");
    assert f.id == "frag-" + short && ShortId(f.id) == short;
  }

  lemma LinkedIs(fs: seq<Fragment>, k: nat, pages: seq<AstNode>, documentId: Option<string>, at: Place)
    requires k < |fs| && IsRuleFragment(fs[k], pages, documentId, at)
    ensures IsRuleFragment(Linked(fs)[k], pages, documentId, at)
  {
  }

  // ---- What every detector shows of the tree --------------------------------------------

  /** The text a block with content stands for. */
  ghost predicate Shows(text: string, n: AstNode) {
    match n.blockType
    case List(_) => ItemsJoined(text, n.children)
    case Table =>
      text == if n.payload.Some? && n.payload.value.TableData? then RenderTable(n.payload.value.table)
              else if n.children != [] then RenderTable(Tables.PayloadOf(n.children)) else n.text.GetOr("")
    case Chart | Diagram | Formula | Image =>
      text == (match n.payload
               case Some(ChartData(c)) => RenderChart(c)
               case Some(DiagramData(d)) => RenderDiagram(d)
               case Some(FormulaData(f)) => RenderFormula(f)
               case Some(ImageData(i)) => RenderImage(i)
               case Some(TableData(_)) | None => n.text.GetOr(""))
    case _ => text == n.text.GetOr("")
  }

  lemma CarriedShows(f: Fragment, n: AstNode)
    requires Carries(f.content, f.modality, n)
    ensures Shows(FragmentText(f), n)
  {
  }

  /** Every detector renders the texts of the blocks with content, in document
      order, up to whitespace. */
  lemma DetectorsShowTree(d: Detector, ast: DocumentAst) returns (at: seq<Place>, texts: seq<string>)
    ensures ContentPlaces(at, ast.pages) && |texts| == |at|
    ensures forall k :: 0 <= k < |at| ==> Shows(texts[k], NodeAt(ast.pages, at[k]))
    ensures Solid(Render(Detected(d, ast))) == Solid(Join(texts, "\n"))
  {
    at := RuleFragmentsAre(ast);
    var fs := RuleFragments(ast);
    texts := FragmentTexts(fs);
    forall k | 0 <= k < |at| ensures Shows(texts[k], NodeAt(ast.pages, at[k])) {
      TextsAt(fs, k);
      CarriedShows(fs[k], NodeAt(ast.pages, at[k]));
    }
    DetectorsKeepText(d, ast);
  }
}
