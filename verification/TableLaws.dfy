/** What a table's payload and a line's cells are, read off the tree and the line. */
module TableLaws {
  import opened Seqs
  import opened Text
  import opened Wrappers
  import opened Numerals
  import opened Payloads
  import opened Ast
  import opened Runs
  import opened TableText
  import opened Tables

  // ---- Payload ------------------------------------------------------------------

  /** The rows of the table behind its first child, in order. */
  ghost predicate AreDataRows(at: seq<nat>, rows: seq<AstNode>) {
    && (forall i, j :: 0 <= i < j < |at| ==> at[i] < at[j])
    && (forall i :: 0 <= i < |at| ==> 1 <= at[i] < |rows| && rows[at[i]].blockType.TableRow?)
    && (forall p :: 1 <= p < |rows| && rows[p].blockType.TableRow? ==> p in at)
  }

  /** The header row's cells, numbered; none unless the first child is a row. */
  ghost predicate AreHeaders(headers: seq<TableHeader>, rows: seq<AstNode>) {
    if rows == [] || !rows[0].blockType.TableRow? then headers == []
    else
      && |headers| == |rows[0].children|
      && forall c :: 0 <= c < |headers| ==>
        headers[c].id == "h" + Decimal(c) && headers[c].text == rows[0].children[c].text.GetOr("")
  }

  /** One cell per child of row `r`, under its header or a stand-in column. */
  ghost predicate AreCells(cells: seq<Payloads.TableCell>, row: AstNode, r: nat, width: nat) {
    && |cells| == |row.children|
    && forall c :: 0 <= c < |cells| ==>
      && cells[c].rowId == "r" + Decimal(r) && cells[c].text == row.children[c].text.GetOr("")
      && cells[c].columnId == (if c < width then "h" else "c") + Decimal(c)
  }

  ghost predicate AreRows(
    ids: seq<string>, lists: seq<seq<Payloads.TableCell>>, rows: seq<AstNode>, at: seq<nat>, width: nat)
  {
    && |ids| == |lists| == |at|
    && forall k :: 0 <= k < |at| ==>
      && at[k] < |rows| && ids[k] == "r" + Decimal(at[k]) && AreCells(lists[k], rows[at[k]], at[k], width)
  }

  lemma DataRowsNext(at: seq<nat>, rows: seq<AstNode>, row: AstNode)
    requires rows != [] && AreDataRows(at, rows)
    ensures AreDataRows(if row.blockType.TableRow? then at + [|rows|] else at, rows + [row])
  {
    var next := if row.blockType.TableRow? then at + [|rows|] else at;
    forall p | 1 <= p < |rows + [row]| && (rows + [row])[p].blockType.TableRow? ensures p in next {
      if p < |rows| {
        assert p in at;
      } else {
        assert next[|at|] == p;
      }
    }
  }

  lemma RowsWiden(ids: seq<string>, lists: seq<seq<Payloads.TableCell>>, rows: seq<AstNode>, row: AstNode, at: seq<nat>, width: nat)
    requires AreRows(ids, lists, rows, at, width)
    ensures AreRows(ids, lists, rows + [row], at, width)
  {
    forall k | 0 <= k < |at| ensures (rows + [row])[at[k]] == rows[at[k]] {
    }
  }

  lemma RowsNext(
    ids: seq<string>, lists: seq<seq<Payloads.TableCell>>, rows: seq<AstNode>, at: seq<nat>, width: nat,
    r: nat, cells: seq<Payloads.TableCell>)
    requires AreRows(ids, lists, rows, at, width) && r < |rows| && AreCells(cells, rows[r], r, width)
    ensures AreRows(ids + ["r" + Decimal(r)], lists + [cells], rows, at + [r], width)
  {
  }

  lemma RowCellsAre(row: AstNode, r: nat, width: nat)
    ensures AreCells(RowCells(row.children, r, width), row, r, width)
  {
  }

  /** The row ids and cells of these children. */
  ghost predicate IsData(ids: seq<string>, cells: seq<Payloads.TableCell>, rows: seq<AstNode>,
                         at: seq<nat>, lists: seq<seq<Payloads.TableCell>>)
  {
    AreDataRows(at, rows) && AreRows(ids, lists, rows, at, Width(rows)) && cells == Flatten(lists)
  }

  lemma DataSkips(ids: seq<string>, cells: seq<Payloads.TableCell>, rows: seq<AstNode>,
                  at: seq<nat>, lists: seq<seq<Payloads.TableCell>>, n: AstNode)
    requires rows != [] && IsData(ids, cells, rows, at, lists) && !n.blockType.TableRow?
    ensures IsData(ids, cells, rows + [n], at, lists)
  {
    DataRowsNext(at, rows, n);
    RowsWiden(ids, lists, rows, n, at, Width(rows));
  }

  lemma DataGrows(ids: seq<string>, cells: seq<Payloads.TableCell>, rows: seq<AstNode>,
                  at: seq<nat>, lists: seq<seq<Payloads.TableCell>>, n: AstNode)
    requires rows != [] && IsData(ids, cells, rows, at, lists) && n.blockType.TableRow?
    ensures var row := RowCells(n.children, |rows|, Width(rows));
      IsData(ids + [RowId(|rows|)], cells + row, rows + [n], at + [|rows|], lists + [row])
  {
    var row := RowCells(n.children, |rows|, Width(rows));
    DataRowsNext(at, rows, n);
    RowsGrow(ids, lists, rows, at, Width(rows), n);
    FlattenSnoc(lists, row);
    assert Width(rows + [n]) == Width(rows);
  }

  lemma RowsGrow(
    ids: seq<string>, lists: seq<seq<Payloads.TableCell>>, rows: seq<AstNode>, at: seq<nat>, width: nat, n: AstNode)
    requires AreRows(ids, lists, rows, at, width)
    ensures AreRows(ids + [RowId(|rows|)], lists + [RowCells(n.children, |rows|, width)], rows + [n], at + [|rows|], width)
  {
    RowsWiden(ids, lists, rows, n, at, width);
    RowCellsAre(n, |rows|, width);
    RowsNext(ids, lists, rows + [n], at, width, |rows|, RowCells(n.children, |rows|, width));
  }

  lemma RowIdsNext(rows: seq<AstNode>, n: AstNode)
    requires rows != []
    ensures DataRows(rows + [n]) == if n.blockType.TableRow? then DataRows(rows) + [RowId(|rows|)] else DataRows(rows)
  {
    InitSnoc(rows, n);
    ConcatNil(DataRows(rows));
  }

  lemma CellsNext(rows: seq<AstNode>, n: AstNode)
    requires rows != []
    ensures DataCells(rows + [n]) ==
      if n.blockType.TableRow? then DataCells(rows) + RowCells(n.children, |rows|, Width(rows)) else DataCells(rows)
  {
    InitSnoc(rows, n);
    assert Width(rows + [n]) == Width(rows);
    ConcatNil(DataCells(rows));
  }

  lemma NoData(rows: seq<AstNode>)
    requires |rows| <= 1
    ensures IsData(DataRows(rows), DataCells(rows), rows, [], [])
  {
  }

  lemma {:induction false} DataAre(rows: seq<AstNode>) returns (at: seq<nat>, lists: seq<seq<Payloads.TableCell>>)
    ensures IsData(DataRows(rows), DataCells(rows), rows, at, lists)
  {
    if |rows| <= 1 {
      at, lists := [], [];
      NoData(rows);
    } else {
      var front, n := rows[..|rows| - 1], rows[|rows| - 1];
      at, lists := DataAre(front);
      SnocInit(rows);
      RowIdsNext(front, n);
      CellsNext(front, n);
      if n.blockType.TableRow? {
        DataGrows(DataRows(front), DataCells(front), front, at, lists, n);
        at, lists := at + [|front|], lists + [RowCells(n.children, |front|, Width(front))];
      } else {
        DataSkips(DataRows(front), DataCells(front), front, at, lists, n);
      }
    }
  }

  /** A payload exactly for a table with children: the headers, the ids of the
      other rows, and every cell of those rows, those past the headers too. */
  lemma PayloadIs(node: AstNode) returns (at: seq<nat>, lists: seq<seq<Payloads.TableCell>>)
    ensures TablePayloadFromNode(node).Some? <==> node.blockType.Table? && node.children != []
    ensures TablePayloadFromNode(node).Some? ==>
      var t := TablePayloadFromNode(node).value;
      && AreHeaders(t.headers, node.children) && AreDataRows(at, node.children)
      && AreRows(t.rows, lists, node.children, at, |t.headers|) && t.cells == Flatten(lists)
  {
    at, lists := DataAre(node.children);
  }

  // ---- Lines ------------------------------------------------------------------------

  /** The text without the whitespace around it. */
  ghost predicate IsTrimOf(t: string, s: string) {
    Trimmed(t) && exists pre, post :: IsAround(pre, t, post, s)
  }

  ghost predicate IsAround(pre: string, t: string, post: string, s: string) {
    s == pre + t + post && IsBlank(pre) && IsBlank(post)
  }

  lemma StartCut(s: string) returns (pre: string)
    ensures s == pre + TrimStart(s) && IsBlank(pre)
  {
    pre := s[..|s| - |TrimStart(s)|];
  }

  lemma EndCut(s: string) returns (post: string)
    ensures s == TrimEnd(s) + post && IsBlank(post)
  {
    post := s[|TrimEnd(s)|..];
  }

  lemma TrimLeavesTrimmed(s: string)
    ensures Trimmed(Trim(s))
  {
    TrimIsTrimmed(s);
  }

  lemma TrimIs(s: string)
    ensures IsTrimOf(Trim(s), s)
  {
    TrimLeavesTrimmed(s);
    var pre := StartCut(s);
    var post := EndCut(TrimStart(s));
    Assoc(pre, Trim(s), post);
    assert IsAround(pre, Trim(s), post, s);
  }

  /** The text without one bar at either end. */
  ghost predicate IsInside(inner: string, core: string) {
    exists l: bool, r: bool :: Barred(inner, core, l, r)
  }

  ghost predicate Barred(inner: string, core: string, l: bool, r: bool) {
    && core == Bar(l) + inner + Bar(r)
    && (!l ==> core == "" || core[0] != '|')
    && (!r ==> inner == "" || inner[|inner| - 1] != '|')
  }

  function Bar(b: bool): string {
    if b then "|" else ""
  }

  lemma StripIs(core: string)
    ensures IsInside(StripBars(core), core)
  {
    var u := StripLeft(core);
    var inner := StripRight(u);
    var l, r := core != "" && core[0] == '|', u != "" && u[|u| - 1] == '|';
    assert core == Bar(l) + u && u == inner + Bar(r);
    Assoc(Bar(l), inner, Bar(r));
    assert Barred(inner, core, l, r);
  }

  lemma JoinAddChar(r: seq<string>, x: char, c: char)
    requires r != []
    ensures Join(AddChar(r, x, c), [c]) == Join(r, [c]) + [x]
  {
    var front, last := r[..|r| - 1], r[|r| - 1];
    SnocInit(r);
    if x == c {
      InitSnoc(r, "");
      ConcatNil(Join(r, [c]) + [c]);
    } else {
      InitSnoc(front, last + [x]);
      if front != [] {
        Assoc(Join(front, [c]) + [c], last, [x]);
      }
    }
  }

  /** The pieces of a split, joined again, are the text. */
  lemma {:induction false} JoinOfSplit(s: string, c: char)
    ensures Join(SplitOn(s, c), [c]) == s
  {
    if s != "" {
      JoinOfSplit(s[..|s| - 1], c);
      SnocInit(s);
      JoinAddChar(SplitOn(s[..|s| - 1], c), s[|s| - 1], c);
    }
  }

  /** A line with a bar: trimmed, a bar at either end taken off, cut at every
      other bar, every piece trimmed. */
  lemma BarLine(line: string) returns (core: string, inner: string, parts: seq<string>)
    requires '|' in line
    ensures IsTrimOf(core, line) && IsInside(inner, core) && Join(parts, "|") == inner
    ensures |ParseRow(line)| == |parts| >= 1
    ensures forall i :: 0 <= i < |parts| ==> '|' !in parts[i] && IsTrimOf(ParseRow(line)[i], parts[i])
  {
    core := Trim(line);
    inner := StripBars(core);
    parts := SplitOn(inner, '|');
    TrimIs(line);
    StripIs(core);
    JoinOfSplit(inner, '|');
    forall i | 0 <= i < |parts| ensures '|' !in parts[i] && IsTrimOf(Trim(parts[i]), parts[i]) {
      SplitChars(inner, '|', i);
      TrimIs(parts[i]);
    }
  }

  /** A line without a bar: its words. */
  lemma WordLine(line: string) returns (gaps: seq<string>)
    requires '|' !in line
    ensures Woven(line, ParseRow(line), gaps, IsWhitespace)
  {
    gaps := WordsAre(line, IsWhitespace);
  }

  /** The tree of a table: one row per line, one cell per text, the payload of
      that tree, nothing else. */
  lemma TableTreeIs(grid: seq<seq<string>>)
    ensures var t := TableNode(grid);
      && t.blockType.Table? && t.text == None && IsBareBut(t) && |t.children| == |grid|
      && (forall r :: 0 <= r < |grid| ==> IsRowOf(t.children[r], grid[r]))
      && (grid == [] ==> t.payload == None)
      && (grid != [] ==> TablePayloadFromNode(t).Some? && t.payload == Some(TableData(TablePayloadFromNode(t).value)))
  {
  }

  ghost predicate IsBareBut(n: AstNode) {
    n.bbox == None && n.confidence == None && n.nodeId == None
  }

  ghost predicate IsRowOf(n: AstNode, row: seq<string>) {
    && n.blockType.TableRow? && n.text == None && n.payload == None && IsBareBut(n) && |n.children| == |row|
    && forall c :: 0 <= c < |row| ==> IsCellOf(n.children[c], row[c])
  }

  ghost predicate IsCellOf(n: AstNode, text: string) {
    n.blockType.TableCell? && n.text == Some(text) && n.payload == None && IsBareBut(n) && n.children == []
  }
}
