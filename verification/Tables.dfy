/** Tables: from text lines to the tree, to the typed payload, to retrieval
    text and back. */
module Tables {
  import opened Seqs
  import opened Text
  import opened Wrappers
  import opened Numerals
  import opened Payloads
  import opened Ast
  import opened TableText

  // ---- Tree to payload ----------------------------------------------------

  function RowId(r: nat): string { "r" + Decimal(r) }
  function HeaderId(c: nat): string { "h" + Decimal(c) }

  /** The header of the column, or a stand-in id for a cell beyond them. */
  function ColumnId(width: nat, c: nat): string {
    if c < width then HeaderId(c) else "c" + Decimal(c)
  }

  function HeadersOf(cells: seq<AstNode>): seq<TableHeader> {
    seq(|cells|, c requires 0 <= c < |cells| => TableHeader(HeaderId(c), TextOf(cells[c])))
  }

  function RowCells(cells: seq<AstNode>, r: nat, width: nat): seq<TableCell> {
    seq(|cells|, c requires 0 <= c < |cells| => Payloads.TableCell(RowId(r), ColumnId(width, c), TextOf(cells[c])))
  }

  function Width(rows: seq<AstNode>): nat {
    if rows != [] && rows[0].blockType.TableRow? then |rows[0].children| else 0
  }

  /** Ids of the data rows among the first nodes of the table. */
  function DataRows(rows: seq<AstNode>): seq<string> {
    if |rows| <= 1 then [] else
      var last := rows[|rows| - 1];
      DataRows(rows[..|rows| - 1]) + (if last.blockType.TableRow? then [RowId(|rows| - 1)] else [])
  }

  function DataCells(rows: seq<AstNode>): seq<TableCell> {
    if |rows| <= 1 then [] else
      var last := rows[|rows| - 1];
      DataCells(rows[..|rows| - 1])
      + (if last.blockType.TableRow? then RowCells(last.children, |rows| - 1, Width(rows)) else [])
  }

  function PayloadOf(rows: seq<AstNode>): TablePayload {
    TablePayload(
      if rows != [] && rows[0].blockType.TableRow? then HeadersOf(rows[0].children) else [],
      DataRows(rows), DataCells(rows))
  }

  function TablePayloadFromNode(node: AstNode): Option<TablePayload> {
    if !node.blockType.Table? || node.children == [] then None else Some(PayloadOf(node.children))
  }

  method BuildHeaders(row: seq<AstNode>) returns (headers: seq<TableHeader>)
    ensures headers == HeadersOf(row)
  {
    headers := [];
    for c := 0 to |row|
      invariant headers == HeadersOf(row)[..c]
    {
      headers := headers + [TableHeader(HeaderId(c), TextOf(row[c]))];
    }
  }

  method BuildCells(row: seq<AstNode>, r: nat, headers: seq<TableHeader>) returns (cells: seq<TableCell>)
    requires forall c :: 0 <= c < |headers| ==> headers[c].id == HeaderId(c)
    ensures cells == RowCells(row, r, |headers|)
  {
    cells := [];
    for c := 0 to |row|
      invariant cells == RowCells(row, r, |headers|)[..c]
    {
      var columnId := if c < |headers| then headers[c].id else "c" + Decimal(c);
      cells := cells + [Payloads.TableCell(RowId(r), columnId, TextOf(row[c]))];
    }
  }

  /** `table_payload_from_node`: the first row becomes the headers, the others
      map their cells to header columns. */
  method BuildPayload(node: AstNode) returns (r: Option<TablePayload>)
    ensures r == TablePayloadFromNode(node)
  {
    if !node.blockType.Table? || node.children == [] {
      return None;
    }
    var rows := node.children;
    var headers: seq<TableHeader> := [];
    if rows[0].blockType.TableRow? {
      headers := BuildHeaders(rows[0].children);
    }
    assert |headers| == Width(rows);
    var ids: seq<string>, cells: seq<TableCell> := [], [];
    for i := 1 to |rows|
      invariant ids == DataRows(rows[..i]) && cells == DataCells(rows[..i])
    {
      assert rows[..i + 1][..i] == rows[..i] && Width(rows[..i + 1]) == Width(rows);
      if rows[i].blockType.TableRow? {
        ids := ids + [RowId(i)];
        var row := BuildCells(rows[i].children, i, headers);
        cells := cells + row;
      }
    }
    TakeAll(rows);
    r := Some(TablePayload(headers, ids, cells));
  }

  // ---- Lines to tree ----------------------------------------------------------------

  function StripLeft(t: string): string {
    if t != "" && t[0] == '|' then t[1..] else t
  }

  function StripRight(t: string): string {
    if t != "" && t[|t| - 1] == '|' then t[..|t| - 1] else t
  }

  function StripBars(t: string): string {
    StripRight(StripLeft(t))
  }

  /** The cells of one line. */
  function ParseRow(line: string): seq<string> {
    if '|' in line then
      var parts := SplitOn(StripBars(Trim(line)), '|');
      seq(|parts|, i requires 0 <= i < |parts| => Trim(parts[i]))
    else Words(line, IsWhitespace)
  }

  function CellNodes(cells: seq<string>): seq<AstNode> {
    seq(|cells|, i requires 0 <= i < |cells| => Plain(Ast.TableCell, Some(cells[i]), []))
  }

  function RowNodes(grid: seq<seq<string>>): seq<AstNode> {
    seq(|grid|, r requires 0 <= r < |grid| => Plain(TableRow, None, CellNodes(grid[r])))
  }

  function TableNode(grid: seq<seq<string>>): AstNode {
    var table := Plain(Table, None, RowNodes(grid));
    table.(payload := match TablePayloadFromNode(table) case Some(t) => Some(TableData(t)) case None => None)
  }

  function ParseLines(lines: seq<string>): seq<seq<string>> {
    seq(|lines|, i requires 0 <= i < |lines| => ParseRow(lines[i]))
  }

  /** `build_table_node`. */
  method BuildTableNode(lines: seq<string>) returns (node: AstNode)
    ensures node == TableNode(ParseLines(lines))
  {
    var rows: seq<AstNode> := [];
    for i := 0 to |lines|
      invariant |rows| == i
      invariant forall k :: 0 <= k < i ==> rows[k] == Plain(TableRow, None, CellNodes(ParseRow(lines[k])))
    {
      rows := rows + [Plain(TableRow, None, CellNodes(ParseRow(lines[i])))];
    }
    assert rows == RowNodes(ParseLines(lines));
    var table := Plain(Table, None, rows);
    var payload := BuildPayload(table);
    node := table.(payload := match payload case Some(t) => Some(TableData(t)) case None => None);
  }

  // ---- Rendering gives the grid back -------------------------------------------------------

  ghost predicate HasCell(cells: seq<Payloads.TableCell>, rowId: string, columnId: string) {
    exists i :: 0 <= i < |cells| && cells[i].rowId == rowId && cells[i].columnId == columnId
  }

  lemma {:induction false} CellTextConcat(a: seq<Payloads.TableCell>, b: seq<Payloads.TableCell>, rowId: string, columnId: string)
    ensures HasCell(a, rowId, columnId) ==> CellText(a + b, rowId, columnId) == CellText(a, rowId, columnId)
    ensures !HasCell(a, rowId, columnId) ==> CellText(a + b, rowId, columnId) == CellText(b, rowId, columnId)
  {
    if a == [] {
      assert a + b == b;
    } else {
      CellTextConcat(a[1..], b, rowId, columnId);
      TailConcat(a, b);
      if HasCell(a, rowId, columnId) && !(a[0].rowId == rowId && a[0].columnId == columnId) {
        var i :| 0 <= i < |a| && a[i].rowId == rowId && a[i].columnId == columnId;
        assert a[1..][i - 1] == a[i];
      }
    }
  }

  lemma {:induction false} NoCellNoText(cells: seq<Payloads.TableCell>, rowId: string, columnId: string)
    requires !HasCell(cells, rowId, columnId)
    ensures CellText(cells, rowId, columnId) == ""
  {
    if cells != [] {
      assert !HasCell(cells[1..], rowId, columnId) by {
        assert forall i :: 0 <= i < |cells[1..]| ==> cells[1..][i] == cells[i + 1];
      }
      NoCellNoText(cells[1..], rowId, columnId);
    }
  }

  lemma {:induction false} OnlyCellText(cells: seq<Payloads.TableCell>, rowId: string, columnId: string, i: nat)
    requires i < |cells| && cells[i].rowId == rowId && cells[i].columnId == columnId
    requires forall j :: 0 <= j < i ==> !(cells[j].rowId == rowId && cells[j].columnId == columnId)
    ensures CellText(cells, rowId, columnId) == cells[i].text
  {
    if i > 0 {
      OnlyCellText(cells[1..], rowId, columnId, i - 1);
    }
  }

  lemma ColumnsApart(width: nat, c: nat, d: nat)
    requires c < width
    ensures ColumnId(width, d) == HeaderId(c) <==> c == d
  {
    if d < width {
      DecimalInjective(c, d);
      assert HeaderId(c)[1..] == Decimal(c) && HeaderId(d)[1..] == Decimal(d);
    } else {
      assert ColumnId(width, d)[0] == 'c' && HeaderId(c)[0] == 'h';
    }
  }

  lemma RowsApart(r: nat, q: nat)
    ensures RowId(r) == RowId(q) <==> r == q
  {
    DecimalInjective(r, q);
    assert RowId(r)[1..] == Decimal(r) && RowId(q)[1..] == Decimal(q);
  }

  /** The cell of a row under a header column. */
  lemma RowCellText(cells: seq<AstNode>, r: nat, width: nat, c: nat)
    requires c < width
    ensures CellText(RowCells(cells, r, width), RowId(r), HeaderId(c)) == if c < |cells| then TextOf(cells[c]) else ""
  {
    var row := RowCells(cells, r, width);
    forall d | 0 <= d < |cells| ensures row[d].columnId == HeaderId(c) <==> d == c {
      ColumnsApart(width, c, d);
    }
    if c < |cells| {
      OnlyCellText(row, RowId(r), HeaderId(c), c);
    } else {
      NoCellNoText(row, RowId(r), HeaderId(c));
    }
  }

  lemma {:induction false} DataCellRows(rows: seq<AstNode>, i: nat)
    requires i < |DataCells(rows)|
    ensures exists q :: 0 <= q < |rows| && DataCells(rows)[i].rowId == RowId(q)
  {
    var front := rows[..|rows| - 1];
    if i < |DataCells(front)| {
      DataCellRows(front, i);
    } else {
      assert DataCells(rows)[i].rowId == RowId(|rows| - 1);
    }
  }

  lemma NoLaterRow(rows: seq<AstNode>, r: nat, columnId: string)
    requires r >= |rows|
    ensures !HasCell(DataCells(rows), RowId(r), columnId)
  {
    forall i | 0 <= i < |DataCells(rows)| ensures DataCells(rows)[i].rowId != RowId(r) {
      DataCellRows(rows, i);
      var q :| 0 <= q < |rows| && DataCells(rows)[i].rowId == RowId(q);
      RowsApart(r, q);
    }
  }

  /** Looking a cell up in the payload finds the cell of the tree. */
  lemma {:induction false} PayloadCell(rows: seq<AstNode>, r: nat, c: nat)
    requires forall i :: 0 <= i < |rows| ==> rows[i].blockType.TableRow?
    requires 1 <= r < |rows| && c < Width(rows)
    ensures CellText(DataCells(rows), RowId(r), HeaderId(c)) ==
      if c < |rows[r].children| then TextOf(rows[r].children[c]) else ""
  {
    var front, n := rows[..|rows| - 1], |rows| - 1;
    var a, b := DataCells(front), RowCells(rows[n].children, n, Width(rows));
    CellTextConcat(a, b, RowId(r), HeaderId(c));
    if r == n {
      NoLaterRow(front, r, HeaderId(c));
      RowCellText(rows[n].children, n, Width(rows), c);
    } else {
      PayloadCell(front, r, c);
      RowsApart(r, n);
      if !HasCell(a, RowId(r), HeaderId(c)) {
        NoCellNoText(a, RowId(r), HeaderId(c));
        NoCellNoText(b, RowId(r), HeaderId(c));
      }
    }
  }

  /** A row cut or padded to the header width. */
  function Fitted(row: seq<string>, width: nat): seq<string> {
    seq(width, c requires 0 <= c < width => if c < |row| then row[c] else "")
  }

  function GridLines(grid: seq<seq<string>>): seq<string>
    requires grid != []
  {
    seq(|grid|, r requires 0 <= r < |grid| => Join(Fitted(grid[r], |grid[0]|), " | "))
  }

  lemma {:induction false} DataRowIds(rows: seq<AstNode>)
    requires forall i :: 0 <= i < |rows| ==> rows[i].blockType.TableRow?
    ensures |DataRows(rows)| == if rows == [] then 0 else |rows| - 1
    ensures forall i :: 0 <= i < |DataRows(rows)| ==> DataRows(rows)[i] == RowId(i + 1)
  {
    if |rows| > 1 {
      DataRowIds(rows[..|rows| - 1]);
    }
  }

  lemma PayloadRow(grid: seq<seq<string>>, r: nat)
    requires 1 <= r < |grid|
    ensures RowTexts(PayloadOf(RowNodes(grid)), RowId(r)) == Fitted(grid[r], |grid[0]|)
  {
    var rows := RowNodes(grid);
    forall c | 0 <= c < |grid[0]|
      ensures CellText(DataCells(rows), RowId(r), HeaderId(c)) == if c < |grid[r]| then grid[r][c] else ""
    {
      PayloadCell(rows, r, c);
    }
  }

  /** Build, convert and render: the grid row by row, each row cut or padded to
      the header width. */
  lemma RenderedGrid(grid: seq<seq<string>>)
    requires grid != []
    ensures TablePayloadFromNode(TableNode(grid)).Some?
    ensures RenderTable(TablePayloadFromNode(TableNode(grid)).value) == Join(GridLines(grid), "\n")
  {
    var rows := RowNodes(grid);
    var t := PayloadOf(rows);
    DataRowIds(rows);
    HeaderFits(grid);
    forall i | 0 <= i < |t.rows| ensures RowLines(t)[i] == GridLines(grid)[i + 1] {
      PayloadRow(grid, i + 1);
    }
    HeadAndRows(GridLines(grid), Join(HeaderTexts(t), " | "), RowLines(t));
  }

  lemma HeaderFits(grid: seq<seq<string>>)
    requires grid != []
    ensures HeaderTexts(PayloadOf(RowNodes(grid))) == Fitted(grid[0], |grid[0]|)
  {
  }

  lemma HeadAndRows(lines: seq<string>, head: string, rows: seq<string>)
    requires lines != [] && lines[0] == head && |rows| == |lines| - 1
    requires forall i :: 0 <= i < |rows| ==> rows[i] == lines[i + 1]
    ensures [head] + rows == lines
  {
  }

  // ---- Parsing gives the grid back -----------------------------------------------------------

  /** `lines`: no line for an empty text or behind a final newline. */
  function LinesOf(s: string): seq<string> {
    var parts := SplitOn(s, '\n');
    if parts[|parts| - 1] == "" then parts[..|parts| - 1] else parts
  }

  predicate PlainCell(s: string) {
    Trimmed(s) && '|' !in s && '\n' !in s
  }

  ghost predicate PlainRow(row: seq<string>) {
    forall i :: 0 <= i < |row| ==> PlainCell(row[i])
  }

  /** First and last cell not empty, and a lone cell is one word. */
  ghost predicate Reparsable(row: seq<string>) {
    && row != [] && row[0] != "" && row[|row| - 1] != ""
    && (|row| == 1 ==> NoSpace(row[0]))
  }

  /** Rows that survive being cut or padded to the width, rendered and read
      back: of full width and reparsable; one cell short and, if longer than one
      cell, not starting empty; two cells short and all empty. */
  ghost predicate ReadBack(row: seq<string>, width: nat) {
    var n := |row|;
    || (n == width && (n == 0 || Reparsable(row)))
    || (n + 1 == width && (n <= 1 || row[0] != ""))
    || (n + 2 == width && n >= 1 && forall i :: 0 <= i < n ==> row[i] == "")
  }

  ghost predicate WordOf(w: string, s: string) {
    w != "" && NoSpace(w) && forall x :: x in w ==> x in s
  }

  lemma {:induction false} WordChars(s: string, i: nat)
    requires i < |Words(s, IsWhitespace)|
    ensures WordOf(Words(s, IsWhitespace)[i], s)
  {
    var front, x := s[..|s| - 1], s[|s| - 1];
    SnocInit(s);
    if i < |Words(front, IsWhitespace)| {
      WordChars(front, i);
      WordGrows(Words(front, IsWhitespace)[i], front, x);
    } else {
      assert Words(s, IsWhitespace)[i] == [x];
    }
  }

  lemma WordGrows(w: string, front: string, x: char)
    requires WordOf(w, front)
    ensures WordOf(w, front + [x]) && (!IsWhitespace(x) ==> WordOf(w + [x], front + [x]))
  {
  }

  lemma {:induction false} OneWord(s: string)
    requires s != "" && NoSpace(s)
    ensures Words(s, IsWhitespace) == [s]
  {
    SnocInit(s);
    if |s| > 1 {
      OneWord(s[..|s| - 1]);
    }
  }

  lemma PlainPiece(line: string, i: nat)
    requires '\n' !in line && i < |SplitOn(StripBars(Trim(line)), '|')|
    ensures PlainCell(Trim(SplitOn(StripBars(Trim(line)), '|')[i]))
  {
    var t := Trim(line);
    var u := StripBars(t);
    TrimIsTrimmed(line);
    assert forall x :: x in u ==> x in t;
    SplitChars(u, '|', i);
    TrimIsTrimmed(SplitOn(u, '|')[i]);
  }

  /** Every cell the line parser produces is plain. */
  lemma ParsedPlain(line: string)
    requires '\n' !in line
    ensures PlainRow(ParseRow(line))
  {
    forall i | 0 <= i < |ParseRow(line)| ensures PlainCell(ParseRow(line)[i]) {
      if '|' in line {
        PlainPiece(line, i);
      } else {
        WordChars(line, i);
      }
    }
  }

  lemma RowEnds(row: seq<string>)
    requires |row| >= 2
    ensures var s, n := Join(row, " | "), |row|;
      s == row[0] + " | " + Join(row[1..], " | ") && s == Join(row[..n - 1], " | ") + " | " + row[n - 1]
  {
    ConsTail(row);
    JoinConcat([row[0]], row[1..], " | ");
  }

  lemma BarInside(row: seq<string>)
    requires |row| >= 2
    ensures '|' in Join(row, " | ")
  {
    RowEnds(row);
    assert Join(row, " | ")[|row[0]| + 1] == '|';
  }

  /** The cells of a rendered row that come back: an empty end loses its bar. */
  function Survivors(row: seq<string>): seq<string>
    requires |row| >= 2
  {
    var lo := if row[0] == "" then 1 else 0;
    var hi := if row[|row| - 1] == "" then |row| - 1 else |row|;
    if lo < hi then row[lo..hi] else [""]
  }

  predicate SolidStart(s: string) { s != "" && !IsWhitespace(s[0]) && s[0] != '|' }
  predicate SolidEnd(s: string) { s != "" && !IsWhitespace(s[|s| - 1]) && s[|s| - 1] != '|' }

  function Pad(b: bool): string { if b then " " else "" }
  function Edge(b: bool): string { if b then " | " else "" }
  function Blank(b: bool): seq<string> { if b then [""] else [] }

  lemma StripLeftOf(rest: string, l: bool)
    requires l || SolidStart(rest)
    ensures StripLeft((if l then "| " else "") + rest) == Pad(l) + rest
  {
    if l {
      assert ("| " + rest)[1..] == " " + rest;
    } else {
      ConcatNil(rest);
    }
  }

  lemma StripRightOf(front: string, r: bool)
    requires r || SolidEnd(front)
    ensures StripRight(front + (if r then " |" else "")) == front + Pad(r)
  {
    if r {
      var t := front + " |";
      assert t[..|t| - 1] == front + " ";
    } else {
      ConcatNil(front);
    }
  }

  /** The line with the spaces outside its outer bars taken off. */
  function Core(m: string, l: bool, r: bool): string {
    (if l then "| " else "") + (m + (if r then " |" else ""))
  }

  lemma TrimToCore(m: string, l: bool, r: bool)
    requires (l || SolidStart(m)) && (r || SolidEnd(m))
    ensures Trim(Edge(l) + m + Edge(r)) == Core(m, l, r)
  {
    var core := Core(m, l, r);
    assert Pad(l) + core + Pad(r) == Edge(l) + m + Edge(r);
    assert Trimmed(core);
    TrimAround(Pad(l), core, Pad(r));
  }

  lemma StripToPads(m: string, l: bool, r: bool)
    requires (l || SolidStart(m)) && (r || SolidEnd(m))
    ensures StripBars(Core(m, l, r)) == Pad(l) + m + Pad(r)
  {
    var right := if r then " |" else "";
    assert SolidStart(m) ==> SolidStart(m + right);
    StripLeftOf(m + right, l);
    Assoc(Pad(l), m, right);
    assert SolidEnd(m) ==> SolidEnd(Pad(l) + m);
    StripRightOf(Pad(l) + m, r);
  }

  /** Trimming and stripping a line with or without an empty first and last
      cell. */
  lemma StripLine(m: string, l: bool, r: bool)
    requires (l || SolidStart(m)) && (r || SolidEnd(m))
    ensures StripBars(Trim(Edge(l) + m + Edge(r))) == Pad(l) + m + Pad(r)
  {
    TrimToCore(m, l, r);
    StripToPads(m, l, r);
  }

  lemma JoinStarts(mid: seq<string>)
    requires mid != [] && PlainRow(mid)
    ensures mid[0] != "" ==> SolidStart(Join(mid, " | "))
    ensures mid[|mid| - 1] != "" ==> SolidEnd(Join(mid, " | "))
  {
    assert PlainCell(mid[0]) && PlainCell(mid[|mid| - 1]);
    if |mid| > 1 {
      RowEnds(mid);
    }
  }

  lemma JoinOuter(mid: seq<string>, l: bool, r: bool)
    requires mid != []
    ensures Join(Blank(l) + mid + Blank(r), " | ") == Edge(l) + Join(mid, " | ") + Edge(r)
  {
    var a := Blank(l) + mid;
    JoinFront(mid, l);
    if r {
      JoinConcat(a, [""], " | ");
      ConcatNil(Join(a, " | ") + " | ");
    } else {
      ConcatNil(a);
      ConcatNil(Join(a, " | "));
    }
  }

  lemma JoinFront(mid: seq<string>, l: bool)
    requires mid != []
    ensures Join(Blank(l) + mid, " | ") == Edge(l) + Join(mid, " | ")
  {
    if l {
      JoinConcat([""], mid, " | ");
      ConcatNil(" | ");
    } else {
      ConcatNil(mid);
      ConcatNil(Join(mid, " | "));
    }
  }

  lemma PieceTrims(mid: seq<string>, r: seq<string>, a: string, b: string, i: nat)
    requires |r| == |mid| && i < |mid| && r[i] == Padded(mid, i) && PlainCell(mid[i])
    requires IsBlank(a) && IsBlank(b)
    ensures Trim(Outer(r, a, b, i)) == mid[i]
  {
    var pre := (if i == 0 then a else "") + (if i > 0 then " " else "");
    var post := (if i + 1 < |mid| then " " else "") + (if i + 1 == |mid| then b else "");
    assert Outer(r, a, b, i) == pre + mid[i] + post;
    TrimAround(pre, mid[i], post);
  }

  /** Piece `i` with the outer texts added to the first and last one. */
  function Outer(r: seq<string>, a: string, b: string, i: nat): string
    requires i < |r|
  {
    (if i == 0 then a else "") + r[i] + (if i + 1 == |r| then b else "")
  }

  lemma OuterPieces(s: string, a: string, b: string)
    requires '|' !in a && '|' !in b
    ensures var r, parts := SplitOn(s, '|'), SplitOn(a + s + b, '|');
      |parts| == |r| && forall i :: 0 <= i < |r| ==> parts[i] == Outer(r, a, b, i)
  {
    SplitPrefix(a, s, '|');
    SplitExtend(a + s, b, '|');
    OuterEnds(SplitOn(s, '|'), a, b);
  }

  lemma OuterEnds(r: seq<string>, a: string, b: string)
    requires r != []
    ensures var q := [a + r[0]] + r[1..];
      forall i :: 0 <= i < |r| ==> (q[..|q| - 1] + [q[|q| - 1] + b])[i] == Outer(r, a, b, i)
  {
    var q := [a + r[0]] + r[1..];
    var parts := q[..|q| - 1] + [q[|q| - 1] + b];
    forall i | 0 <= i < |r| ensures parts[i] == Outer(r, a, b, i) {
      ConcatNil(r[i]);
      ConcatNil(q[i]);
    }
  }

  /** Blanks around the joined cells do not show in the trimmed pieces. */
  lemma PiecesTrim(mid: seq<string>, a: string, b: string)
    requires mid != [] && PlainRow(mid) && IsBlank(a) && IsBlank(b) && '|' !in a && '|' !in b
    ensures TrimsTo(SplitOn(a + Join(mid, " | ") + b, '|'), mid)
  {
    var s := Join(mid, " | ");
    SplitBars(mid);
    OuterPieces(s, a, b);
    PaddedTrim(mid, SplitOn(s, '|'), SplitOn(a + s + b, '|'), a, b);
  }

  ghost predicate TrimsTo(parts: seq<string>, row: seq<string>) {
    |parts| == |row| && forall i :: 0 <= i < |row| ==> Trim(parts[i]) == row[i]
  }

  lemma PadPlain(b: bool)
    ensures IsBlank(Pad(b)) && '|' !in Pad(b)
  {
  }

  lemma PaddedTrim(mid: seq<string>, r: seq<string>, parts: seq<string>, a: string, b: string)
    requires |parts| == |r| == |mid| && PlainRow(mid) && IsBlank(a) && IsBlank(b)
    requires forall i :: 0 <= i < |mid| ==> r[i] == Padded(mid, i)
    requires forall i :: 0 <= i < |r| ==> parts[i] == Outer(r, a, b, i)
    ensures TrimsTo(parts, mid)
  {
    forall i | 0 <= i < |mid| ensures Trim(parts[i]) == mid[i] {
      PieceTrims(mid, r, a, b, i);
    }
  }

  lemma ParsedOuter(mid: seq<string>, l: bool, r: bool)
    requires mid != [] && PlainRow(mid) && (l || mid[0] != "") && (r || mid[|mid| - 1] != "")
    requires '|' in Join(Blank(l) + mid + Blank(r), " | ")
    ensures ParseRow(Join(Blank(l) + mid + Blank(r), " | ")) == mid
  {
    JoinOuter(mid, l, r);
    JoinStarts(mid);
    StripLine(Join(mid, " | "), l, r);
    PadPlain(l);
    PadPlain(r);
    PiecesTrim(mid, Pad(l), Pad(r));
    PartsAre(Join(Blank(l) + mid + Blank(r), " | "), mid);
  }

  /** What a rendered row of two or more plain cells is read back as. */
  lemma ParsedBars(row: seq<string>)
    requires |row| >= 2 && PlainRow(row)
    ensures ParseRow(Join(row, " | ")) == Survivors(row)
  {
    if row == ["", ""] {
      BlankPair(row);
    } else {
      ParsedMost(row);
    }
  }

  lemma ParsedMost(row: seq<string>)
    requires |row| >= 2 && PlainRow(row) && row != ["", ""]
    ensures ParseRow(Join(row, " | ")) == Survivors(row)
  {
    var mid, l, r := SurvivorsInside(row);
    ParsedInside(row, mid, l, r);
  }

  lemma ParsedInside(row: seq<string>, mid: seq<string>, l: bool, r: bool)
    requires |row| >= 2 && row == Blank(l) + mid + Blank(r)
    requires mid != [] && PlainRow(mid) && (l || mid[0] != "") && (r || mid[|mid| - 1] != "")
    ensures ParseRow(Join(row, " | ")) == mid
  {
    BarInside(row);
    ParsedOuter(mid, l, r);
  }

  lemma SurvivorsInside(row: seq<string>) returns (mid: seq<string>, l: bool, r: bool)
    requires |row| >= 2 && row != ["", ""]
    ensures mid == Survivors(row) && row == Blank(l) + mid + Blank(r) && mid != []
    ensures (l || mid[0] != "") && (r || mid[|mid| - 1] != "")
    ensures PlainRow(row) ==> PlainRow(mid)
  {
    mid, l, r := Survivors(row), row[0] == "", row[|row| - 1] == "";
    assert |row| == 2 && l && r ==> row == ["", ""];
  }

  lemma PartsAre(s: string, row: seq<string>)
    requires '|' in s && TrimsTo(SplitOn(StripBars(Trim(s)), '|'), row)
    ensures ParseRow(s) == row
  {
  }

  lemma BlankPair(row: seq<string>)
    requires row == ["", ""]
    ensures ParseRow(Join(row, " | ")) == [""]
  {
    JoinPair("", "", " | ");
    var s := "" + " | " + "";
    assert s == " " + "|" + " " && s[1] == '|';
    TrimAround(" ", "|", " ");
    assert StripBars("|") == "" && SplitOn("", '|') == [""];
    assert Trim("") == "";
  }

  lemma ReparseWord(s: string)
    requires PlainCell(s)
    ensures ParseRow(s) == [s] <==> s != "" && NoSpace(s)
  {
    if s != "" && NoSpace(s) {
      OneWord(s);
    } else if Words(s, IsWhitespace) == [s] {
      WordChars(s, 0);
    }
  }

  /** A rendered row is read back exactly when it is reparsable. */
  lemma ReparseRowExactly(row: seq<string>)
    requires row != [] && PlainRow(row)
    ensures ParseRow(Join(row, " | ")) == row <==> Reparsable(row)
  {
    if |row| == 1 {
      ReparseWord(row[0]);
      assert row == [row[0]];
    } else {
      ParsedBars(row);
    }
  }

  /** An empty first cell loses its column. */
  lemma FirstCellLost()
    ensures ParseRow(Join(["", "a"], " | ")) == ["a"]
  {
    ParsedBars(["", "a"]);
  }

  // ---- Rows cut or padded to the header width -------------------------------------------------

  lemma PlainFitted(row: seq<string>, width: nat)
    requires PlainRow(row)
    ensures PlainRow(Fitted(row, width))
  {
  }

  /** A row equal to itself moved by one, from an empty first cell on, is all
      empty. */
  lemma {:induction false} ShiftedEmpty(row: seq<string>, i: nat)
    requires i < |row| && row[0] == "" && forall k :: 0 < k < |row| ==> row[k - 1] == row[k]
    ensures row[i] == ""
  {
    if i > 0 {
      ShiftedEmpty(row, i - 1);
    }
  }

  lemma PaddedSurvivors(row: seq<string>, width: nat)
    requires |row| < width && width >= 2
    ensures Survivors(Fitted(row, width)) == row <==> ReadBack(row, width)
  {
    var n, fit := |row|, Fitted(row, width);
    var all := forall i :: 0 <= i < n ==> row[i] == "";
    if n > 0 && row[0] != "" {
      assert n + 1 == width ==> fit[..width - 1] == row;
    } else if width > 2 {
      assert Survivors(fit) == fit[1..width - 1];
      if fit[1..width - 1] == row {
        forall k | 0 < k < n ensures row[k - 1] == row[k] {
          assert fit[1..width - 1][k - 1] == fit[k];
        }
        forall i | 0 <= i < n ensures row[i] == "" {
          ShiftedEmpty(row, i);
        }
      }
      assert n + 2 == width && all ==> fit[1..width - 1] == row;
    }
  }

  lemma ManyWords(row: seq<string>)
    requires |row| >= 2
    ensures Words(row[0], IsWhitespace) != row
  {
    if Words(row[0], IsWhitespace) == row {
      WordChars(row[0], 0);
      OneWord(row[0]);
    }
  }

  lemma OneColumn(row: seq<string>)
    requires PlainRow(row)
    ensures ParseRow(Join(Fitted(row, 1), " | ")) == row <==> ReadBack(row, 1)
  {
    if row == [] {
      assert Fitted(row, 1) == [""];
    } else {
      assert Fitted(row, 1) == [row[0]];
      assert PlainCell(row[0]);
      ReparseWord(row[0]);
      if |row| >= 2 {
        ManyWords(row);
      } else {
        assert row == [row[0]];
      }
    }
  }

  /** A row of any length, cut or padded to the width and rendered, is read back
      exactly under `ReadBack`. */
  lemma FittedReadBack(row: seq<string>, width: nat)
    requires PlainRow(row)
    ensures ParseRow(Join(Fitted(row, width), " | ")) == row <==> ReadBack(row, width)
  {
    if width == 0 {
      assert Fitted(row, 0) == [];
    } else if width == 1 {
      OneColumn(row);
    } else {
      PlainFitted(row, width);
      ParsedBars(Fitted(row, width));
      WideSurvivors(row, width);
    }
  }

  lemma WideSurvivors(row: seq<string>, width: nat)
    requires width >= 2
    ensures Survivors(Fitted(row, width)) == row <==> ReadBack(row, width)
  {
    if |row| == width {
      assert Fitted(row, width) == row;
    } else if |row| < width {
      PaddedSurvivors(row, width);
    }
  }

  lemma {:induction false} RowHasNoNewline(row: seq<string>)
    requires PlainRow(row)
    ensures '\n' !in Join(row, " | ")
  {
    if row != [] {
      RowHasNoNewline(row[..|row| - 1]);
    }
  }

  lemma EmptyLine(row: seq<string>, width: nat)
    requires Join(Fitted(row, width), " | ") == ""
    ensures width == 0 || row == [] || !ReadBack(row, width)
  {
    if width >= 2 {
      BarInside(Fitted(row, width));
    } else if width == 1 && row != [] {
      assert Fitted(row, 1) == [row[0]];
    }
  }

  lemma NoLine(row: seq<string>)
    ensures Join(Fitted(row, 0), " | ") == "" && Join(Fitted([], 1), " | ") == ""
  {
    assert Fitted(row, 0) == [] && Fitted([], 1) == [""];
  }

  lemma FilledLine(row: seq<string>, width: nat)
    requires Join(Fitted(row, width), " | ") != ""
    ensures width > 0 && (row == [] ==> !ReadBack(row, width))
  {
    NoLine(row);
  }

  lemma LinesSplit(grid: seq<seq<string>>)
    requires grid != [] && forall r :: 0 <= r < |grid| ==> PlainRow(grid[r])
    ensures SplitOn(Join(GridLines(grid), "\n"), '\n') == GridLines(grid)
  {
    var ls, width := GridLines(grid), |grid[0]|;
    forall r | 0 <= r < |grid| ensures '\n' !in ls[r] {
      PlainFitted(grid[r], width);
      RowHasNoNewline(Fitted(grid[r], width));
    }
    SplitOfJoin(ls, '\n');
  }

  /** Re-parsing the rendering of a table of plain cells yields the same grid
      exactly when every row is read back and neither the header nor the last
      row has no cell. */
  lemma ReparsedGridExactly(grid: seq<seq<string>>)
    requires grid != [] && forall r :: 0 <= r < |grid| ==> PlainRow(grid[r])
    ensures TablePayloadFromNode(TableNode(grid)).Some?
    ensures ParseLines(LinesOf(RenderTable(TablePayloadFromNode(TableNode(grid)).value))) == grid <==>
      grid[0] != [] && grid[|grid| - 1] != [] && forall r :: 0 <= r < |grid| ==> ReadBack(grid[r], |grid[0]|)
  {
    RenderedGrid(grid);
    var ls, n, width := GridLines(grid), |grid|, |grid[0]|;
    LinesSplit(grid);
    if ls[n - 1] == "" {
      EmptyLine(grid[n - 1], width);
      assert |LinesOf(Join(ls, "\n"))| < n;
    } else {
      FilledLine(grid[n - 1], width);
      forall r | 0 <= r < n ensures ParseRow(ls[r]) == grid[r] <==> ReadBack(grid[r], width) {
        FittedReadBack(grid[r], width);
      }
      SameRows(ls, grid);
    }
  }

  lemma SameRows(lines: seq<string>, grid: seq<seq<string>>)
    requires |lines| == |grid|
    ensures ParseLines(lines) == grid <==> forall r :: 0 <= r < |grid| ==> ParseRow(lines[r]) == grid[r]
  {
    if ParseLines(lines) == grid {
      forall r | 0 <= r < |grid| ensures ParseRow(lines[r]) == grid[r] {
        assert ParseLines(lines)[r] == grid[r];
      }
    }
  }
}
