/** The passes over a page's classified blocks: grouping list items, nesting
    continuation paragraphs, merging neighbouring lists, detecting figures. */
module AstPasses {
  import opened Seqs
  import opened Text
  import opened Wrappers
  import opened Ast
  import opened Runs

  /** The textual heuristics the passes consult. */
  datatype Heuristics = Heuristics(continues: string -> bool, marksFigure: string -> bool)

  // ---- Texts of a tree -------------------------------------------------------------

  function OwnText(n: AstNode): seq<string> {
    if TextOf(n) == "" then [] else [TextOf(n)]
  }

  /** Non-empty texts in pre-order. */
  function Texts(n: AstNode): seq<string>
    decreases n, 0
  {
    OwnText(n) + TextsOf(n.children)
  }

  function TextsOf(ns: seq<AstNode>): seq<string>
    decreases ns
  {
    if ns == [] then [] else TextsOf(ns[..|ns| - 1]) + Texts(ns[|ns| - 1])
  }

  lemma TextsSnoc(ns: seq<AstNode>, n: AstNode)
    ensures TextsOf(ns + [n]) == TextsOf(ns) + Texts(n)
  {
    InitSnoc(ns, n);
  }

  lemma {:induction false} TextsConcat(a: seq<AstNode>, b: seq<AstNode>)
    ensures TextsOf(a + b) == TextsOf(a) + TextsOf(b)
  {
    if b == [] {
      assert a + b == a;
    } else {
      TextsConcat(a, b[..|b| - 1]);
      InitConcat(a, b);
      Assoc(TextsOf(a), TextsOf(b[..|b| - 1]), Texts(b[|b| - 1]));
    }
  }

  /** Children appended at the end come last in the node's texts. */
  lemma TextsAppend(n: AstNode, extra: seq<AstNode>)
    ensures Texts(n.(children := n.children + extra)) == Texts(n) + TextsOf(extra)
  {
    TextsConcat(n.children, extra);
    Assoc(OwnText(n), TextsOf(n.children), TextsOf(extra));
  }

  // ---- List continuations ---------------------------------------------------------------

  predicate Continuation(n: AstNode, h: Heuristics) {
    n.blockType.Paragraph? && !IsBlank(TextOf(n)) && h.continues(TextOf(n))
  }

  /** A block that continuation paragraphs can follow. */
  predicate TakesContinuations(n: AstNode) {
    n.blockType.ListItem? || (n.blockType.List? && n.children != [])
  }

  /** `flush_continuations` on a non-empty output: the pending paragraphs go
      under the last item, or stay at top level. */
  function Attach(last: AstNode, pending: seq<AstNode>): (r: seq<AstNode>)
    ensures r != []
  {
    if last.blockType.ListItem? then [last.(children := last.children + pending)]
    else if last.blockType.List? && last.children != [] && last.children[|last.children| - 1].blockType.ListItem? then
      var items := last.children;
      var item := items[|items| - 1];
      [last.(children := items[..|items| - 1] + [item.(children := item.children + pending)])]
    else [last] + pending
  }

  function Flushed(out: seq<AstNode>, pending: seq<AstNode>): seq<AstNode> {
    if pending == [] then out
    else if out == [] then pending
    else out[..|out| - 1] + Attach(out[|out| - 1], pending)
  }

  datatype Walk = Walk(out: seq<AstNode>, pending: seq<AstNode>)

  /** One node of the walk. A bare list item clears what is pending, and only
      an item right before it takes it along. */
  function WalkStep(w: Walk, n: AstNode, h: Heuristics): Walk {
    var last := if w.out == [] then None else Some(w.out[|w.out| - 1]);
    if n.blockType.ListItem? then
      if last.Some? && last.value.blockType.ListItem?
      then Walk(w.out[..|w.out| - 1] + [last.value.(children := last.value.children + w.pending)] + [n], [])
      else Walk(w.out + [n], [])
    else if Continuation(n, h) && last.Some? && TakesContinuations(last.value)
    then w.(pending := w.pending + [n])
    else Walk(Flushed(w.out, w.pending) + [n], [])
  }

  function Walked(ns: seq<AstNode>, h: Heuristics): Walk {
    if ns == [] then Walk([], []) else WalkStep(Walked(ns[..|ns| - 1], h), ns[|ns| - 1], h)
  }

  function Continued(ns: seq<AstNode>, h: Heuristics): seq<AstNode> {
    Flushed(Walked(ns, h).out, Walked(ns, h).pending)
  }

  /** `merge_list_continuations`. */
  method MergeListContinuations(nodes: seq<AstNode>, h: Heuristics) returns (out: seq<AstNode>)
    ensures out == Continued(nodes, h)
  {
    out := [];
    var pending: seq<AstNode> := [];
    for i := 0 to |nodes|
      invariant Walk(out, pending) == Walked(nodes[..i], h)
    {
      var n := nodes[i];
      TakeTwice(nodes, i);
      if n.blockType.ListItem? {
        if out != [] && out[|out| - 1].blockType.ListItem? {
          var last := out[|out| - 1];
          out := out[..|out| - 1] + [last.(children := last.children + pending)];
        }
        pending := [];
        out := out + [n];
      } else if Continuation(n, h) && out != [] && TakesContinuations(out[|out| - 1]) {
        pending := pending + [n];
      } else {
        out := Flushed(out, pending);
        pending := [];
        out := out + [n];
      }
    }
    TakeAll(nodes);
    out := Flushed(out, pending);
  }

  lemma AttachKeepsTexts(last: AstNode, pending: seq<AstNode>)
    ensures TextsOf(Attach(last, pending)) == Texts(last) + TextsOf(pending)
  {
    if last.blockType.ListItem? {
      var r := last.(children := last.children + pending);
      TextsAppend(last, pending);
      TextsSnoc([], r);
      assert [] + [r] == [r];
    } else if last.blockType.List? && last.children != [] && last.children[|last.children| - 1].blockType.ListItem? {
      AttachInList(last, pending);
    } else {
      TextsConcat([last], pending);
      TextsSnoc([], last);
      assert [] + [last] == [last];
    }
  }

  lemma AttachInList(last: AstNode, pending: seq<AstNode>)
    requires last.children != []
    ensures var items := last.children;
      var item := items[|items| - 1];
      TextsOf([last.(children := items[..|items| - 1] + [item.(children := item.children + pending)])])
      == Texts(last) + TextsOf(pending)
  {
    var items := last.children;
    var front, item := items[..|items| - 1], items[|items| - 1];
    var item' := item.(children := item.children + pending);
    var r := last.(children := front + [item']);
    TextsAppend(item, pending);
    TextsSnoc(front, item');
    Assoc(TextsOf(front), Texts(item), TextsOf(pending));
    Assoc(OwnText(last), TextsOf(items), TextsOf(pending));
    TextsSnoc([], r);
    assert [] + [r] == [r];
  }

  lemma FlushedKeepsTexts(out: seq<AstNode>, pending: seq<AstNode>)
    ensures TextsOf(Flushed(out, pending)) == TextsOf(out) + TextsOf(pending)
  {
    if pending == [] {
      assert TextsOf(out) + [] == TextsOf(out);
    } else if out != [] {
      var front, last := out[..|out| - 1], out[|out| - 1];
      AttachKeepsTexts(last, pending);
      TextsConcat(front, Attach(last, pending));
      Assoc(TextsOf(front), Texts(last), TextsOf(pending));
    }
  }

  /** Texts held by the walk. */
  function Held(w: Walk): seq<string> {
    TextsOf(w.out) + TextsOf(w.pending)
  }

  /** Position `j` is a bare list item after a list and its continuations. */
  ghost predicate OrphansAt(ns: seq<AstNode>, h: Heuristics, i: int, j: int) {
    && 0 <= i && i + 1 < j < |ns|
    && ns[i].blockType.List? && ns[i].children != []
    && (forall k :: i < k < j ==> Continuation(ns[k], h))
    && ns[j].blockType.ListItem?
  }

  ghost predicate Orphans(ns: seq<AstNode>, h: Heuristics) {
    exists i, j :: OrphansAt(ns, h, i, j)
  }

  ghost predicate AllContinue(ps: seq<AstNode>, h: Heuristics) {
    forall k :: 0 <= k < |ps| ==> Continuation(ps[k], h)
  }

  /** The input ends in the last output node, unchanged, and what is pending
      behind it. */
  ghost predicate Mirrors(ns: seq<AstNode>, w: Walk, h: Heuristics, before: seq<AstNode>) {
    && AllContinue(w.pending, h)
    && (if w.out == [] then ns == [] && w.pending == []
        else ns == before + [w.out[|w.out| - 1]] + w.pending)
    && (w.pending != [] ==> w.out != [] && TakesContinuations(w.out[|w.out| - 1]))
  }

  lemma {:induction false} WalkMirrors(ns: seq<AstNode>, h: Heuristics) returns (before: seq<AstNode>)
    ensures Mirrors(ns, Walked(ns, h), h, before)
  {
    before := [];
    if ns != [] {
      before := WalkMirrors(ns[..|ns| - 1], h);
      before := MirrorStep(ns[..|ns| - 1], Walked(ns[..|ns| - 1], h), ns[|ns| - 1], h, before);
      SnocInit(ns);
    }
  }

  lemma MirrorStep(ns: seq<AstNode>, w: Walk, n: AstNode, h: Heuristics, before: seq<AstNode>)
    returns (after: seq<AstNode>)
    requires Mirrors(ns, w, h, before)
    ensures Mirrors(ns + [n], WalkStep(w, n, h), h, after)
  {
    if !n.blockType.ListItem? && Continuation(n, h) && w.out != [] && TakesContinuations(w.out[|w.out| - 1]) {
      after := before;
      Assoc(before + [w.out[|w.out| - 1]], w.pending, [n]);
    } else {
      after := ns;
      LastOfStep(w, n, h);
      ConcatNil(ns + [n]);
    }
  }

  lemma PendStep(w: Walk, n: AstNode, h: Heuristics)
    requires Continuation(n, h) && w.out != [] && TakesContinuations(w.out[|w.out| - 1])
    ensures WalkStep(w, n, h) == w.(pending := w.pending + [n])
  {
  }

  lemma LastOfStep(w: Walk, n: AstNode, h: Heuristics)
    requires n.blockType.ListItem? || !(Continuation(n, h) && w.out != [] && TakesContinuations(w.out[|w.out| - 1]))
    ensures var w' := WalkStep(w, n, h); w'.pending == [] && w'.out != [] && w'.out[|w'.out| - 1] == n
  {
  }

  /** The step loses text exactly when a bare list item meets paragraphs
      pending behind a list. */
  predicate Drops(w: Walk, n: AstNode) {
    n.blockType.ListItem? && w.pending != [] && !(w.out != [] && w.out[|w.out| - 1].blockType.ListItem?)
  }

  lemma ItemStepKeepsTexts(w: Walk, n: AstNode)
    requires w.out != []
    ensures var last := w.out[|w.out| - 1];
      Held(Walk(w.out[..|w.out| - 1] + [last.(children := last.children + w.pending)] + [n], [])) == Held(w) + Texts(n)
  {
    var front, last := w.out[..|w.out| - 1], w.out[|w.out| - 1];
    var last' := last.(children := last.children + w.pending);
    TextsAppend(last, w.pending);
    TextsSnoc(front, last');
    Assoc(TextsOf(front), Texts(last), TextsOf(w.pending));
    TextsSnoc(front + [last'], n);
  }

  lemma PendStepKeepsTexts(w: Walk, n: AstNode)
    ensures Held(w.(pending := w.pending + [n])) == Held(w) + Texts(n)
  {
    TextsSnoc(w.pending, n);
    Assoc(TextsOf(w.out), TextsOf(w.pending), Texts(n));
  }

  lemma PushStepKeepsTexts(out: seq<AstNode>, pending: seq<AstNode>, n: AstNode)
    ensures Held(Walk(Flushed(out, pending) + [n], [])) == Held(Walk(out, pending)) + Texts(n)
  {
    FlushedKeepsTexts(out, pending);
    TextsSnoc(Flushed(out, pending), n);
  }

  lemma StepKeepsTexts(w: Walk, n: AstNode, h: Heuristics)
    requires !Drops(w, n)
    ensures Held(WalkStep(w, n, h)) == Held(w) + Texts(n)
  {
    if n.blockType.ListItem? && w.out != [] && w.out[|w.out| - 1].blockType.ListItem? {
      ItemStepKeepsTexts(w, n);
    } else if !n.blockType.ListItem? && Continuation(n, h) && w.out != [] && TakesContinuations(w.out[|w.out| - 1]) {
      PendStepKeepsTexts(w, n);
    } else {
      PushStepKeepsTexts(w.out, w.pending, n);
    }
  }

  lemma StepDropsTexts(w: Walk, n: AstNode, h: Heuristics)
    requires Drops(w, n) && AllContinue(w.pending, h)
    ensures |Held(WalkStep(w, n, h))| < |Held(w)| + |Texts(n)|
  {
    TextsSnoc(w.out, n);
    var front, last := w.pending[..|w.pending| - 1], w.pending[|w.pending| - 1];
    assert Continuation(last, h);
    assert TextsOf(w.pending) == TextsOf(front) + Texts(last);
    assert |Texts(last)| == |OwnText(last)| + |TextsOf(last.children)|;
  }

  /** Text was lost exactly when the input has an orphan. */
  ghost predicate Faithful(held: seq<string>, texts: seq<string>, orphans: bool) {
    if orphans then |held| < |texts| else held == texts
  }

  lemma {:induction false} WalkTexts(ns: seq<AstNode>, h: Heuristics)
    ensures Faithful(Held(Walked(ns, h)), TextsOf(ns), Orphans(ns, h))
  {
    if ns != [] {
      WalkTexts(ns[..|ns| - 1], h);
      SnocInit(ns);
      TextsSnoc(ns[..|ns| - 1], ns[|ns| - 1]);
      WalkTextsStep(ns[..|ns| - 1], ns[|ns| - 1], h);
    }
  }

  lemma WalkTextsStep(ns: seq<AstNode>, n: AstNode, h: Heuristics)
    requires Faithful(Held(Walked(ns, h)), TextsOf(ns), Orphans(ns, h))
    ensures Faithful(Held(WalkStep(Walked(ns, h), n, h)), TextsOf(ns) + Texts(n), Orphans(ns + [n], h))
  {
    var w := Walked(ns, h);
    OrphansSnoc(ns, n, h);
    if Drops(w, n) {
      var before := WalkMirrors(ns, h);
      StepDropsTexts(w, n, h);
    } else {
      StepKeepsTexts(w, n, h);
    }
  }

  lemma OrphansSnoc(ns: seq<AstNode>, n: AstNode, h: Heuristics)
    ensures Orphans(ns + [n], h) <==> Orphans(ns, h) || Drops(Walked(ns, h), n)
  {
    if Orphans(ns, h) {
      var i, j :| OrphansAt(ns, h, i, j);
      OrphansKept(ns, n, h, i, j);
    } else if Drops(Walked(ns, h), n) {
      DropOrphans(ns, n, h);
    } else if Orphans(ns + [n], h) {
      var i, j :| OrphansAt(ns + [n], h, i, j);
      OrphanDrops(ns, n, h, i, j);
    }
  }

  lemma OrphansKept(ns: seq<AstNode>, n: AstNode, h: Heuristics, i: int, j: int)
    requires OrphansAt(ns, h, i, j)
    ensures OrphansAt(ns + [n], h, i, j)
  {
  }

  lemma DropOrphans(ns: seq<AstNode>, n: AstNode, h: Heuristics)
    requires Drops(Walked(ns, h), n)
    ensures Orphans(ns + [n], h)
  {
    var w := Walked(ns, h);
    var before := WalkMirrors(ns, h);
    OrphanBehind(before, w.out[|w.out| - 1], w.pending, n, h);
  }

  lemma OrphanBehind(before: seq<AstNode>, list: AstNode, pending: seq<AstNode>, n: AstNode, h: Heuristics)
    requires list.blockType.List? && list.children != [] && pending != [] && AllContinue(pending, h)
    requires n.blockType.ListItem?
    ensures Orphans(before + [list] + pending + [n], h)
  {
    var ms, i := before + [list] + pending + [n], |before|;
    assert ms[i] == list && ms[|ms| - 1] == n;
    forall k | i < k < |ms| - 1 ensures Continuation(ms[k], h) {
      Middle(before + [list], pending, [n], k - i - 1);
    }
    assert OrphansAt(ms, h, i, |ms| - 1);
  }

  lemma OrphanDrops(ns: seq<AstNode>, n: AstNode, h: Heuristics, i: int, j: int)
    requires OrphansAt(ns + [n], h, i, j)
    ensures Orphans(ns, h) || Drops(Walked(ns, h), n)
  {
    var ms := ns + [n];
    if j < |ns| {
      assert forall k :: 0 <= k <= j ==> ns[k] == ms[k];
      assert OrphansAt(ns, h, i, j);
    } else {
      assert forall k :: i < k < |ns| ==> ns[k] == ms[k];
      PendingReaches(ns, h, i);
    }
  }

  /** Behind a list, consecutive continuations are all pending. */
  lemma {:induction false} PendingReaches(ns: seq<AstNode>, h: Heuristics, i: nat)
    requires i < |ns| && ns[i].blockType.List? && ns[i].children != []
    requires forall k :: i < k < |ns| ==> Continuation(ns[k], h)
    ensures var w := Walked(ns, h);
      w.out != [] && w.out[|w.out| - 1] == ns[i] && (i + 1 < |ns| ==> w.pending != [])
  {
    if i + 1 < |ns| {
      var front := ns[..|ns| - 1];
      PendingReaches(front, h, i);
      PendStep(Walked(front, h), ns[|ns| - 1], h);
    } else {
      LastOfStep(Walked(ns[..i], h), ns[i], h);
    }
  }

  /** The pass keeps every text in order exactly when no bare list item follows
      a list and its continuation paragraphs. */
  lemma ContinuedKeepsTextsExactly(ns: seq<AstNode>, h: Heuristics)
    ensures TextsOf(Continued(ns, h)) == TextsOf(ns) <==> !Orphans(ns, h)
  {
    WalkTexts(ns, h);
    FlushedKeepsTexts(Walked(ns, h).out, Walked(ns, h).pending);
  }

  /** A list, its continuation, and a bare item: the continuation's text is
      lost. */
  lemma OrphanLosesText(h: Heuristics) returns (ns: seq<AstNode>)
    requires h.continues("b")
    ensures TextsOf(Continued(ns, h)) != TextsOf(ns)
  {
    var item := Plain(ListItem, Some("a"), []);
    ns := [Plain(List(false), None, [item]), Plain(Paragraph, Some("b"), []), Plain(ListItem, Some("c"), [])];
    assert !IsBlank("b") by {
      assert !IsWhitespace("b"[0]);
    }
    assert OrphansAt(ns, h, 0, 2);
    ContinuedKeepsTextsExactly(ns, h);
  }

  // ---- Neighbouring lists -------------------------------------------------------------------

  function JoinList(out: seq<AstNode>, n: AstNode): seq<AstNode> {
    if n.blockType.List? && out != [] && out[|out| - 1].blockType.List?
    then out[..|out| - 1] + [out[|out| - 1].(children := out[|out| - 1].children + n.children)]
    else out + [n]
  }

  function ListsJoined(ns: seq<AstNode>): seq<AstNode> {
    if ns == [] then [] else JoinList(ListsJoined(ns[..|ns| - 1]), ns[|ns| - 1])
  }

  /** `merge_adjacent_lists`. */
  method MergeAdjacentLists(nodes: seq<AstNode>) returns (out: seq<AstNode>)
    ensures out == ListsJoined(nodes)
  {
    out := [];
    for i := 0 to |nodes|
      invariant out == ListsJoined(nodes[..i])
    {
      var n := nodes[i];
      TakeTwice(nodes, i);
      if n.blockType.List? && out != [] && out[|out| - 1].blockType.List? {
        var last := out[|out| - 1];
        out := out[..|out| - 1] + [last.(children := last.children + n.children)];
      } else {
        out := out + [n];
      }
    }
    TakeAll(nodes);
  }

  ghost predicate ListsHaveNoText(ns: seq<AstNode>) {
    forall i :: 0 <= i < |ns| && ns[i].blockType.List? ==> TextOf(ns[i]) == ""
  }

  lemma {:induction false} ListsJoinedKeepsTexts(ns: seq<AstNode>)
    requires ListsHaveNoText(ns)
    ensures TextsOf(ListsJoined(ns)) == TextsOf(ns)
  {
    if ns != [] {
      var front, n := ns[..|ns| - 1], ns[|ns| - 1];
      ListsJoinedKeepsTexts(front);
      JoinListKeepsTexts(ListsJoined(front), n);
    }
  }

  lemma JoinListKeepsTexts(out: seq<AstNode>, n: AstNode)
    requires n.blockType.List? ==> TextOf(n) == ""
    ensures TextsOf(JoinList(out, n)) == TextsOf(out) + Texts(n)
  {
    if n.blockType.List? && out != [] && out[|out| - 1].blockType.List? {
      var front, last := out[..|out| - 1], out[|out| - 1];
      TextsAppend(last, n.children);
      TextsSnoc(front, last.(children := last.children + n.children));
      Assoc(TextsOf(front), Texts(last), TextsOf(n.children));
      assert [] + TextsOf(n.children) == TextsOf(n.children);
    } else {
      TextsSnoc(out, n);
    }
  }

  // ---- Figures ---------------------------------------------------------------------------------

  predicate FigureStart(n: AstNode, h: Heuristics) {
    n.blockType.Paragraph? && h.marksFigure(TextOf(n))
  }

  function CaptionOf(n: AstNode): AstNode {
    AstNode(Caption, n.text, [], n.bbox, n.confidence, None, None)
  }

  function FigureOf(n: AstNode, caption: AstNode): AstNode {
    AstNode(Image, n.text, [caption], n.bbox, n.confidence, None, None)
  }

  function FiguresFound(ns: seq<AstNode>, h: Heuristics): seq<AstNode> {
    if ns == [] then []
    else if !FigureStart(ns[0], h) then [ns[0]] + FiguresFound(ns[1..], h)
    else if |ns| > 1 && ns[1].blockType.Paragraph?
    then [FigureOf(ns[0], CaptionOf(ns[1]))] + FiguresFound(ns[2..], h)
    else [FigureOf(ns[0], Plain(Caption, None, []))] + FiguresFound(ns[1..], h)
  }

  /** `detect_figures`. */
  method DetectFigures(nodes: seq<AstNode>, h: Heuristics) returns (out: seq<AstNode>)
    ensures out == FiguresFound(nodes, h)
  {
    out := [];
    var i := 0;
    assert nodes[0..] == nodes;
    while i < |nodes|
      invariant 0 <= i <= |nodes|
      invariant out + FiguresFound(nodes[i..], h) == FiguresFound(nodes, h)
    {
      var n := nodes[i];
      assert nodes[i..][1..] == nodes[i + 1..];
      if FigureStart(n, h) {
        var caption := Plain(Caption, None, []);
        if i + 1 < |nodes| && nodes[i + 1].blockType.Paragraph? {
          assert nodes[i..][2..] == nodes[i + 2..];
          i := i + 1;
          caption := CaptionOf(nodes[i]);
        }
        Assoc(out, [FigureOf(n, caption)], FiguresFound(nodes[i + 1..], h));
        out := out + [FigureOf(n, caption)];
      } else {
        Assoc(out, [n], FiguresFound(nodes[i + 1..], h));
        out := out + [n];
      }
      i := i + 1;
    }
    assert FiguresFound(nodes[|nodes|..], h) == [];
  }

  ghost predicate ParagraphsAreLeaves(ns: seq<AstNode>) {
    forall i :: 0 <= i < |ns| && ns[i].blockType.Paragraph? ==> ns[i].children == []
  }

  lemma FigureTexts(n: AstNode, caption: AstNode)
    requires n.children == [] && caption.children == []
    ensures Texts(FigureOf(n, caption)) == Texts(n) + OwnText(caption)
  {
    assert [caption][..0] == [] && TextsOf([caption]) == Texts(caption);
    assert OwnText(caption) + [] == OwnText(caption) && OwnText(n) + [] == OwnText(n);
  }

  lemma TextsCons(n: AstNode, ns: seq<AstNode>)
    ensures TextsOf([n] + ns) == Texts(n) + TextsOf(ns)
  {
    TextsConcat([n], ns);
    TextsSnoc([], n);
    assert [] + [n] == [n];
  }

  lemma {:induction false} FiguresKeepTexts(ns: seq<AstNode>, h: Heuristics)
    requires ParagraphsAreLeaves(ns)
    ensures TextsOf(FiguresFound(ns, h)) == TextsOf(ns)
    decreases |ns|
  {
    if ns != [] {
      ConsTail(ns);
      TextsCons(ns[0], ns[1..]);
      if FigureStart(ns[0], h) && |ns| > 1 && ns[1].blockType.Paragraph? {
        FiguresKeepTexts(ns[2..], h);
        FigureWithCaption(ns, FiguresFound(ns[2..], h));
      } else if FigureStart(ns[0], h) {
        FiguresKeepTexts(ns[1..], h);
        FigureTexts(ns[0], Plain(Caption, None, []));
        TextsCons(FigureOf(ns[0], Plain(Caption, None, [])), FiguresFound(ns[1..], h));
      } else {
        FiguresKeepTexts(ns[1..], h);
        TextsCons(ns[0], FiguresFound(ns[1..], h));
      }
    }
  }

  lemma FigureWithCaption(ns: seq<AstNode>, rest: seq<AstNode>)
    requires |ns| > 1 && ns[0].children == [] && ns[1].children == []
    requires TextsOf(rest) == TextsOf(ns[2..])
    ensures TextsOf([FigureOf(ns[0], CaptionOf(ns[1]))] + rest) == Texts(ns[0]) + TextsOf(ns[1..])
  {
    assert ns[1..] == [ns[1]] + ns[2..];
    TextsCons(ns[1], ns[2..]);
    FigureTexts(ns[0], CaptionOf(ns[1]));
    TextsCons(FigureOf(ns[0], CaptionOf(ns[1])), rest);
    assert Texts(ns[1]) == OwnText(ns[1]) + [] == OwnText(CaptionOf(ns[1]));
    Assoc(Texts(ns[0]), OwnText(ns[1]), TextsOf(ns[2..]));
  }

  // ---- Classification and the whole page ---------------------------------------------------------

  /** What the layout heuristics make of one raw block. */
  datatype Built = Skipped | Item(node: AstNode) | Block(node: AstNode)

  /** Items are bare list items; blocks are never lists or items, and only
      typed blocks have children. */
  predicate WellBuilt(b: Built) {
    match b
    case Skipped => true
    case Item(n) => n.blockType.ListItem?
    case Block(n) => !n.blockType.ListItem? && !n.blockType.List? && (IsPlainBlock(n) ==> n.children == [])
  }

  type Classifier = c: (nat, string) -> Built | forall i, s :: WellBuilt(c(i, s)) witness (_, _) => Skipped

  function BuiltText(b: Built): seq<string> {
    if b.Skipped? then [] else Texts(b.node)
  }

  /** Everything built, in order. */
  function AllBuilt(raws: seq<string>, c: Classifier): seq<Built> {
    if raws == [] then []
    else
      var front, b := AllBuilt(raws[..|raws| - 1], c), c(|raws| - 1, raws[|raws| - 1]);
      if b.Skipped? then front else front + [b]
  }

  /** Items that follow each other belong to one list. */
  function SameList(): (seq<Built>, Built) -> bool {
    (run: seq<Built>, b: Built) => run != [] && run[|run| - 1].Item? && b.Item?
  }

  function NodesOf(run: seq<Built>): seq<AstNode> {
    seq(|run|, i requires 0 <= i < |run| => if run[i].Skipped? then Plain(Unknown, None, []) else run[i].node)
  }

  /** A run of items is a list, a block is itself. */
  function NodeOf(run: seq<Built>): AstNode {
    var nodes := NodesOf(run);
    if run == [] then Plain(Unknown, None, [])
    else if run[0].Item? then Plain(List(StartsOrdered(nodes[0])), None, nodes) else nodes[0]
  }

  function NodesFor(runs: seq<seq<Built>>): seq<AstNode> {
    seq(|runs|, k requires 0 <= k < |runs| => NodeOf(runs[k]))
  }

  function Collected(raws: seq<string>, c: Classifier): seq<AstNode> {
    NodesFor(Pack(AllBuilt(raws, c), SameList()))
  }

  /** The loop has closed all runs but a last one of buffered items. */
  ghost predicate Collecting(nodes: seq<AstNode>, buffer: seq<AstNode>, runs: seq<seq<Built>>) {
    && (forall k :: 0 <= k < |runs| ==> runs[k] != [])
    && if buffer == [] then
        nodes == NodesFor(runs) && (runs != [] ==> !runs[|runs| - 1][0].Item?)
      else
        && runs != [] && nodes == NodesFor(runs[..|runs| - 1])
        && buffer == NodesOf(runs[|runs| - 1]) && AllItems(runs[|runs| - 1])
  }

  ghost predicate AllItems(run: seq<Built>) {
    forall i :: 0 <= i < |run| ==> run[i].Item?
  }

  lemma NodesForSnoc(runs: seq<seq<Built>>, run: seq<Built>)
    ensures NodesFor(runs + [run]) == NodesFor(runs) + [NodeOf(run)]
  {
  }

  /** What the buffer becomes when it is flushed. */
  function FlushedList(nodes: seq<AstNode>, buffer: seq<AstNode>): seq<AstNode> {
    if buffer == [] then nodes else nodes + [Plain(List(StartsOrdered(buffer[0])), None, buffer)]
  }

  lemma FlushCollects(nodes: seq<AstNode>, buffer: seq<AstNode>, runs: seq<seq<Built>>)
    requires Collecting(nodes, buffer, runs)
    ensures FlushedList(nodes, buffer) == NodesFor(runs)
  {
    if buffer != [] {
      NodesForSnoc(runs[..|runs| - 1], runs[|runs| - 1]);
      SnocInit(runs);
    }
  }

  lemma CollectItem(nodes: seq<AstNode>, buffer: seq<AstNode>, runs: seq<seq<Built>>, n: AstNode)
    requires Collecting(nodes, buffer, runs) && LastRuns(runs)
    ensures Collecting(nodes, buffer + [n], Extend(runs, Item(n), SameList()))
  {
    var b := Item(n);
    if buffer == [] {
      InitSnoc(runs, [b]);
      assert NodesOf([b]) == [n] && [] + [n] == [n];
      assert !SameListAt(runs, b);
    } else {
      var last := runs[|runs| - 1];
      InitSnoc(runs[..|runs| - 1], last + [b]);
      assert NodesOf(last + [b]) == NodesOf(last) + [n];
      assert last[|last| - 1].Item?;
    }
  }

  ghost predicate SameListAt(runs: seq<seq<Built>>, b: Built) {
    runs != [] && SameList()(runs[|runs| - 1], b)
  }

  /** A run that does not start with an item is one block. */
  ghost predicate LastRuns(runs: seq<seq<Built>>) {
    runs != [] && runs[|runs| - 1] != [] && !runs[|runs| - 1][0].Item? ==> |runs[|runs| - 1]| == 1
  }

  lemma CollectBlock(nodes: seq<AstNode>, buffer: seq<AstNode>, runs: seq<seq<Built>>, n: AstNode)
    requires Collecting(nodes, buffer, runs)
    ensures Collecting(FlushedList(nodes, buffer) + [n], [], Extend(runs, Block(n), SameList()))
  {
    FlushCollects(nodes, buffer, runs);
    NodesForSnoc(runs, [Block(n)]);
    assert NodesOf([Block(n)])[0] == n;
  }

  lemma RunsGrow(runs: seq<seq<Built>>, b: Built)
    requires LastRuns(runs)
    ensures LastRuns(Extend(runs, b, SameList()))
  {
  }

  /** The texts of everything built, block by block. */
  function BuiltTexts(raws: seq<string>, c: Classifier): seq<string> {
    if raws == [] then []
    else BuiltTexts(raws[..|raws| - 1], c) + BuiltText(c(|raws| - 1, raws[|raws| - 1]))
  }

  /** What classification leaves at top level. */
  ghost predicate Classified(n: AstNode) {
    && !n.blockType.ListItem?
    && (n.blockType.List? ==> TextOf(n) == "")
    && (IsPlainBlock(n) ==> n.children == [])
  }

  ghost predicate AllClassified(ns: seq<AstNode>) {
    forall i :: 0 <= i < |ns| ==> Classified(ns[i])
  }

  /** Ordered when the first item starts with a digit and `.` or `)`. */
  predicate StartsOrdered(n: AstNode) {
    var t := Trim(TextOf(n));
    |t| >= 2 && IsAsciiDigit(t[0]) && (t[1] == '.' || t[1] == ')')
  }

  /** `flush_list`: buffered items become one list. */
  method FlushList(buffer: seq<AstNode>, out: seq<AstNode>) returns (nodes: seq<AstNode>)
    ensures nodes == FlushedList(out, buffer) && TextsOf(nodes) == TextsOf(out) + TextsOf(buffer)
  {
    if buffer == [] {
      ConcatNil(TextsOf(out));
      return out;
    }
    var ordered := StartsOrdered(buffer[0]);
    nodes := out + [Plain(List(ordered), None, buffer)];
    PushList(out, ordered, buffer);
  }

  lemma PushList(out: seq<AstNode>, ordered: bool, buffer: seq<AstNode>)
    ensures TextsOf(out + [Plain(List(ordered), None, buffer)]) == TextsOf(out) + TextsOf(buffer)
  {
    TextsSnoc(out, Plain(List(ordered), None, buffer));
    ConcatNil(TextsOf(buffer));
  }

  /** The classification loop: consecutive items are buffered into a list. */
  method CollectBlocks(raws: seq<string>, c: Classifier) returns (nodes: seq<AstNode>)
    ensures nodes == Collected(raws, c)
    ensures AllClassified(nodes) && TextsOf(nodes) == BuiltTexts(raws, c)
  {
    nodes := [];
    var buffer: seq<AstNode> := [];
    for i := 0 to |raws|
      invariant CollectedSoFar(nodes, buffer, raws, i, c)
    {
      CollectNext(nodes, buffer, raws, i, c);
      var b := c(i, raws[i]);
      match b {
        case Skipped =>
        case Item(n) =>
          buffer := buffer + [n];
        case Block(n) =>
          nodes := FlushList(buffer, nodes);
          buffer := [];
          nodes := nodes + [n];
      }
    }
    TakeAll(raws);
    FlushCollects(nodes, buffer, Pack(AllBuilt(raws, c), SameList()));
    CollectedKeeps(raws, c);
    nodes := FlushList(buffer, nodes);
  }

  ghost predicate CollectedSoFar(nodes: seq<AstNode>, buffer: seq<AstNode>, raws: seq<string>, i: nat, c: Classifier)
    requires i <= |raws|
  {
    var runs := Pack(AllBuilt(raws[..i], c), SameList());
    LastRuns(runs) && Collecting(nodes, buffer, runs)
  }

  lemma CollectNext(nodes: seq<AstNode>, buffer: seq<AstNode>, raws: seq<string>, i: nat, c: Classifier)
    requires i < |raws| && CollectedSoFar(nodes, buffer, raws, i, c)
    ensures match c(i, raws[i])
      case Skipped => CollectedSoFar(nodes, buffer, raws, i + 1, c)
      case Item(n) => CollectedSoFar(nodes, buffer + [n], raws, i + 1, c)
      case Block(n) => CollectedSoFar(FlushedList(nodes, buffer) + [n], [], raws, i + 1, c)
  {
    var runs, b := Pack(AllBuilt(raws[..i], c), SameList()), c(i, raws[i]);
    PackNext(raws, i, c);
    RunsGrow(runs, b);
    match b
    case Skipped =>
    case Item(n) => CollectItem(nodes, buffer, runs, n);
    case Block(n) => CollectBlock(nodes, buffer, runs, n);
  }

  /** One more built block adds its texts at the end. */
  lemma ExtendTexts(runs: seq<seq<Built>>, b: Built)
    requires !b.Skipped? && WellBuilt(b) && forall k :: 0 <= k < |runs| ==> WellRun(runs[k])
    ensures TextsOf(NodesFor(Extend(runs, b, SameList()))) == TextsOf(NodesFor(runs)) + Texts(b.node)
  {
    if SameListAt(runs, b) {
      var front, last := runs[..|runs| - 1], runs[|runs| - 1];
      SnocInit(runs);
      NodesForSnoc(front, last);
      NodesForSnoc(front, last + [b]);
      ListGrows(last, b);
      TextsSnoc(NodesFor(front), NodeOf(last));
      TextsSnoc(NodesFor(front), NodeOf(last + [b]));
      Assoc(TextsOf(NodesFor(front)), Texts(NodeOf(last)), Texts(b.node));
    } else {
      NodesForSnoc(runs, [b]);
      OneNode(b);
      TextsSnoc(NodesFor(runs), NodeOf([b]));
    }
  }

  lemma ExtendWell(runs: seq<seq<Built>>, b: Built)
    requires !b.Skipped? && WellBuilt(b) && forall k :: 0 <= k < |runs| ==> WellRun(runs[k])
    ensures forall k :: 0 <= k < |Extend(runs, b, SameList())| ==> WellRun(Extend(runs, b, SameList())[k])
  {
    if SameListAt(runs, b) {
      RunGrows(runs[|runs| - 1], b);
    }
  }

  /** Items only, or one block. */
  ghost predicate WellRun(run: seq<Built>) {
    && run != [] && (forall i :: 0 <= i < |run| ==> !run[i].Skipped? && WellBuilt(run[i]))
    && (AllItems(run) || |run| == 1)
  }

  lemma ListGrows(run: seq<Built>, b: Built)
    requires run != [] && run[0].Item? && !b.Skipped?
    ensures Texts(NodeOf(run + [b])) == Texts(NodeOf(run)) + Texts(b.node)
  {
    NodeGrows(run, b);
    AppendOne(NodeOf(run), b.node);
  }

  lemma AppendOne(n: AstNode, child: AstNode)
    ensures Texts(n.(children := n.children + [child])) == Texts(n) + Texts(child)
  {
    TextsAppend(n, [child]);
    TextsSnoc([], child);
    assert [] + [child] == [child];
  }

  lemma NodeGrows(run: seq<Built>, b: Built)
    requires run != [] && run[0].Item? && !b.Skipped?
    ensures NodeOf(run + [b]) == NodeOf(run).(children := NodeOf(run).children + [b.node])
  {
    assert NodesOf(run + [b]) == NodesOf(run) + [b.node];
  }

  lemma RunGrows(run: seq<Built>, b: Built)
    requires WellRun(run) && run[|run| - 1].Item? && b.Item? && WellBuilt(b)
    ensures WellRun(run + [b])
  {
    assert AllItems(run);
  }

  lemma OneNode(b: Built)
    requires !b.Skipped?
    ensures Texts(NodeOf([b])) == Texts(b.node)
  {
    assert NodesOf([b]) == [b.node];
    if b.Item? {
      ConcatNil(Texts(Plain(List(StartsOrdered(b.node)), None, [])));
      AppendOne(Plain(List(StartsOrdered(b.node)), None, []), b.node);
    }
  }

  lemma {:induction false} CollectedWell(raws: seq<string>, c: Classifier)
    ensures var runs := Pack(AllBuilt(raws, c), SameList());
      (forall k :: 0 <= k < |runs| ==> WellRun(runs[k])) && TextsOf(NodesFor(runs)) == BuiltTexts(raws, c)
  {
    if raws != [] {
      var n := |raws| - 1;
      CollectedWell(raws[..n], c);
      TakeAll(raws);
      PackNext(raws, n, c);
      var b := c(n, raws[n]);
      if b.Skipped? {
        ConcatNil(BuiltTexts(raws[..n], c));
      } else {
        ExtendTexts(Pack(AllBuilt(raws[..n], c), SameList()), b);
        ExtendWell(Pack(AllBuilt(raws[..n], c), SameList()), b);
      }
    }
  }

  lemma RunClassified(run: seq<Built>)
    requires WellRun(run)
    ensures Classified(NodeOf(run))
  {
    assert WellBuilt(run[0]);
  }

  lemma RunsClassified(runs: seq<seq<Built>>)
    requires forall k :: 0 <= k < |runs| ==> WellRun(runs[k])
    ensures AllClassified(NodesFor(runs))
  {
    forall k | 0 <= k < |runs| ensures Classified(NodesFor(runs)[k]) {
      RunClassified(runs[k]);
    }
  }

  lemma CollectedKeeps(raws: seq<string>, c: Classifier)
    ensures AllClassified(Collected(raws, c)) && TextsOf(Collected(raws, c)) == BuiltTexts(raws, c)
  {
    CollectedWell(raws, c);
    var runs := Pack(AllBuilt(raws, c), SameList());
    RunsClassified(runs);
  }

  lemma PackNext(raws: seq<string>, i: nat, c: Classifier)
    requires i < |raws|
    ensures var runs, b := Pack(AllBuilt(raws[..i], c), SameList()), c(i, raws[i]);
      Pack(AllBuilt(raws[..i + 1], c), SameList()) == if b.Skipped? then runs else Extend(runs, b, SameList())
  {
    TakeTwice(raws, i);
    if !c(i, raws[i]).Skipped? {
      InitSnoc(AllBuilt(raws[..i], c), c(i, raws[i]));
    }
  }

  /** `classify_blocks`: the three passes over the collected blocks, in order.
      Every text the heuristics built reaches the page, once and in order, and no
      block is an empty wrapper. */
  method ClassifyBlocks(raws: seq<string>, c: Classifier, h: Heuristics) returns (nodes: seq<AstNode>)
    ensures nodes == FiguresFound(ListsJoined(Continued(Collected(raws, c), h)), h)
    ensures TextsOf(nodes) == BuiltTexts(raws, c)
    ensures forall i :: 0 <= i < |nodes| ==> !IsWrapper(nodes[i])
  {
    nodes := CollectBlocks(raws, c);
    ContinuedKeepsTextsExactly(nodes, h);
    ContinuedClassified(nodes, h);
    nodes := MergeListContinuations(nodes, h);
    ListsJoinedKeepsTexts(nodes);
    ListsJoinedClassified(nodes);
    nodes := MergeAdjacentLists(nodes);
    FiguresKeepTexts(nodes, h);
    FiguresClassified(nodes, h);
    nodes := DetectFigures(nodes, h);
  }

  lemma AttachClassified(last: AstNode, pending: seq<AstNode>)
    requires Classified(last) && AllClassified(pending)
    ensures AllClassified(Attach(last, pending))
  {
  }

  lemma FlushedClassified(out: seq<AstNode>, pending: seq<AstNode>)
    requires AllClassified(out) && AllClassified(pending)
    ensures AllClassified(Flushed(out, pending))
  {
    if pending != [] && out != [] {
      AttachClassified(out[|out| - 1], pending);
    }
  }

  lemma {:induction false} WalkedClassified(ns: seq<AstNode>, h: Heuristics)
    requires AllClassified(ns)
    ensures AllClassified(Walked(ns, h).out) && AllClassified(Walked(ns, h).pending)
  {
    if ns != [] {
      var w := Walked(ns[..|ns| - 1], h);
      WalkedClassified(ns[..|ns| - 1], h);
      FlushedClassified(w.out, w.pending);
    }
  }

  lemma ContinuedClassified(ns: seq<AstNode>, h: Heuristics)
    requires AllClassified(ns)
    ensures AllClassified(Continued(ns, h))
  {
    WalkedClassified(ns, h);
    FlushedClassified(Walked(ns, h).out, Walked(ns, h).pending);
  }

  lemma {:induction false} FiguresClassified(ns: seq<AstNode>, h: Heuristics)
    requires AllClassified(ns)
    ensures AllClassified(FiguresFound(ns, h))
    decreases |ns|
  {
    if ns != [] {
      FiguresClassified(ns[1..], h);
      if |ns| > 1 {
        FiguresClassified(ns[2..], h);
      }
    }
  }

  lemma JoinListClassified(out: seq<AstNode>, n: AstNode)
    requires AllClassified(out) && Classified(n)
    ensures AllClassified(JoinList(out, n))
  {
  }

  lemma {:induction false} ListsJoinedClassified(ns: seq<AstNode>)
    requires AllClassified(ns)
    ensures AllClassified(ListsJoined(ns))
  {
    if ns != [] {
      ListsJoinedClassified(ns[..|ns| - 1]);
      JoinListClassified(ListsJoined(ns[..|ns| - 1]), ns[|ns| - 1]);
    }
  }
}
