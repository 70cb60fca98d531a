/** The provider-independent document tree. */
module Ast {
  import opened Text
  import opened Wrappers
  import opened Payloads

  datatype BlockType =
    | Title | Heading(level: nat) | Paragraph | List(ordered: bool) | ListItem
    | Table | TableRow | TableCell | Image | Figure | Chart | Diagram | Formula
    | Caption | Header | Footer | Footnote | Code | Unknown

  datatype AstPayload =
    | TableData(table: TablePayload)
    | ChartData(chart: ChartPayload)
    | DiagramData(diagram: DiagramPayload)
    | FormulaData(formula: FormulaPayload)
    | ImageData(image: ImagePayload)

  datatype AstNode = AstNode(
    blockType: BlockType, text: Option<string>, children: seq<AstNode>,
    bbox: Option<BoundingBox>, confidence: Option<real>, nodeId: Option<string>, payload: Option<AstPayload>)

  datatype DocumentAst = DocumentAst(pages: seq<AstNode>, documentId: Option<string>)

  /** A node of the given type and text, everything else left at its default. */
  function Plain(blockType: BlockType, text: Option<string>, children: seq<AstNode>): AstNode {
    AstNode(blockType, text, children, None, None, None, None)
  }

  function TextOf(n: AstNode): string {
    n.text.GetOr("")
  }

  /** Blocks that are neither structural context nor typed content. */
  predicate IsPlainBlock(n: AstNode) {
    match n.blockType
    case Title | Heading(_) | Table | Code | List(_) | Chart | Diagram | Formula | Image => false
    case _ => true
  }

  /** An empty container: its children stand in its place. */
  predicate IsWrapper(n: AstNode) {
    IsPlainBlock(n) && IsBlank(TextOf(n)) && n.children != []
  }
}
