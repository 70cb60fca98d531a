/** From the extracted pages of a document to its tree, and what the detectors
    then guarantee without any condition on the tree. */
module DocumentTree {
  import opened Seqs
  import opened Wrappers
  import opened Payloads
  import opened Fragments
  import opened Ast
  import opened AstPasses
  import opened Detectors

  /** A page: its raw text blocks, the places of its images, the confidence of
      its text recognition. */
  datatype PageModel = PageModel(raws: seq<string>, images: seq<Option<BoundingBox>>, confidence: Option<real>)

  function ImageNode(bbox: Option<BoundingBox>): AstNode {
    AstNode(Image, None, [], bbox, None, None, None)
  }

  /** `image_nodes`. */
  function ImageNodes(images: seq<Option<BoundingBox>>): seq<AstNode> {
    seq(|images|, i requires 0 <= i < |images| => ImageNode(images[i]))
  }

  lemma {:induction false} ImagesHaveNoText(images: seq<Option<BoundingBox>>)
    ensures TextsOf(ImageNodes(images)) == []
  {
    if images != [] {
      var front := images[..|images| - 1];
      ImagesHaveNoText(front);
      assert ImageNodes(images) == ImageNodes(front) + [ImageNode(images[|images| - 1])];
      TextsSnoc(ImageNodes(front), ImageNode(images[|images| - 1]));
    }
  }

  /** The page holds the texts built from its blocks, the blocks as the passes
      leave them, then its images, and no empty wrapper. */
  ghost predicate IsPageOf(node: AstNode, page: PageModel, c: Classifier, h: Heuristics) {
    && TextsOf(node.children) == BuiltTexts(page.raws, c)
    && IsLaidOut(node, page, FiguresFound(ListsJoined(Continued(Collected(page.raws, c), h)), h))
  }

  ghost predicate IsLaidOut(node: AstNode, page: PageModel, blocks: seq<AstNode>) {
    && node.blockType.Unknown? && node.text == None && node.confidence == page.confidence
    && (forall b :: 0 <= b < |node.children| ==> !IsWrapper(node.children[b]))
    && |page.images| <= |node.children|
    && node.children[..|node.children| - |page.images|] == blocks
    && forall i :: 0 <= i < |page.images| ==>
      IsImage(node.children[|node.children| - |page.images| + i], page.images[i])
  }

  /** A bare image at this place of the page. */
  ghost predicate IsImage(n: AstNode, bbox: Option<BoundingBox>) {
    && n.blockType.Image? && n.bbox == bbox && n.children == []
    && n.text == None && n.confidence == None && n.nodeId == None && n.payload == None
  }

  lemma PageLaidOut(blocks: seq<AstNode>, page: PageModel)
    requires forall i :: 0 <= i < |blocks| ==> !IsWrapper(blocks[i])
    ensures IsLaidOut(PageNode(blocks, page), page, blocks)
  {
  }

  lemma PageTexts(blocks: seq<AstNode>, page: PageModel)
    ensures TextsOf(PageNode(blocks, page).children) == TextsOf(blocks)
  {
    ImagesHaveNoText(page.images);
    AstPasses.TextsConcat(blocks, ImageNodes(page.images));
    ConcatNil(TextsOf(blocks));
  }

  function PageNode(blocks: seq<AstNode>, page: PageModel): AstNode {
    AstNode(Unknown, None, blocks + ImageNodes(page.images), None, page.confidence, None, None)
  }

  method BuildPage(page: PageModel, c: Classifier, h: Heuristics) returns (node: AstNode)
    ensures IsPageOf(node, page, c, h)
  {
    var blocks := ClassifyBlocks(page.raws, c, h);
    node := PageNode(blocks, page);
    PageLaidOut(blocks, page);
    PageTexts(blocks, page);
  }

  /** `document_model_to_ast`: every page in order, and under any document id
      every detector then yields distinct ids and the exact two-way chain. */
  method BuildTree(pages: seq<PageModel>, c: Classifier, h: Heuristics) returns (ast: DocumentAst)
    ensures |ast.pages| == |pages| && ast.documentId == None
    ensures forall p :: 0 <= p < |pages| ==> IsPageOf(ast.pages[p], pages[p], c, h)
    ensures forall d, id :: DistinctIds(Detected(d, ast.(documentId := id)))
    ensures forall d, id :: Chained(Detected(d, ast.(documentId := id)))
  {
    var nodes: seq<AstNode> := [];
    for i := 0 to |pages|
      invariant |nodes| == i
      invariant forall p :: 0 <= p < i ==> IsPageOf(nodes[p], pages[p], c, h)
    {
      var node := BuildPage(pages[i], c, h);
      nodes := nodes + [node];
    }
    ast := DocumentAst(nodes, None);
    forall d, id
      ensures DistinctIds(Detected(d, ast.(documentId := id))) && Chained(Detected(d, ast.(documentId := id)))
    {
      BuiltIds(d, ast.(documentId := id));
    }
  }

  /** A fragment names another as neighbour exactly when they are adjacent. */
  ghost predicate Chained(fs: seq<Fragment>) {
    forall i, j :: 0 <= i < |fs| && 0 <= j < |fs| ==>
      (fs[j].id in fs[i].context.neighbors <==> j == i + 1 || i == j + 1)
  }

  lemma BuiltIds(d: Detector, ast: DocumentAst)
    requires NoWrapperBlocks(ast)
    ensures DistinctIds(Detected(d, ast)) && Chained(Detected(d, ast))
  {
    FlatSlots(ast.pages);
    DetectorIdsDistinct(d, ast);
    var fs := Detected(d, ast);
    forall i, j | 0 <= i < |fs| && 0 <= j < |fs|
      ensures fs[j].id in fs[i].context.neighbors <==> j == i + 1 || i == j + 1
    {
      DetectorChain(d, ast, i, j);
    }
  }
}
