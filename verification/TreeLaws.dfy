/** What the passes over a page's blocks do to the tree: which block ends up
    where. */
module TreeLaws {
  import opened Seqs
  import opened Text
  import opened Wrappers
  import opened Ast
  import opened AstPasses
  import opened Runs

  // ---- Continuations: where the pass starts afresh ---------------------------------

  /** A block that looks back: a bare item or a continuation paragraph. */
  ghost predicate LooksBack(n: AstNode, h: Heuristics) {
    n.blockType.ListItem? || (n.blockType.Paragraph? && !IsBlank(TextOf(n)) && h.continues(TextOf(n)))
  }

  /** With output behind it, a step does not depend on what came before. */
  lemma StepBehind(x: seq<AstNode>, w: Walk, n: AstNode, h: Heuristics)
    requires w.out != []
    ensures var w' := WalkStep(w, n, h);
      WalkStep(Walk(x + w.out, w.pending), n, h) == Walk(x + w'.out, w'.pending) && w'.out != []
  {
    var front, last := w.out[..|w.out| - 1], w.out[|w.out| - 1];
    assert (x + w.out)[|x + w.out| - 1] == last;
    InitConcat(x, w.out);
    FlushedBehind(x, w.out, w.pending);
    Assoc(x, front, [last.(children := last.children + w.pending)]);
    Assoc(x, front + [last.(children := last.children + w.pending)], [n]);
    Assoc(x, w.out, [n]);
    Assoc(x, Flushed(w.out, w.pending), [n]);
  }

  lemma FlushedBehind(x: seq<AstNode>, out: seq<AstNode>, pending: seq<AstNode>)
    requires out != []
    ensures Flushed(x + out, pending) == x + Flushed(out, pending)
  {
    InitConcat(x, out);
    assert (x + out)[|x + out| - 1] == out[|out| - 1];
    Assoc(x, out[..|out| - 1], Attach(out[|out| - 1], pending));
  }

  lemma {:induction false} WalkedBehind(a: seq<AstNode>, b: seq<AstNode>, h: Heuristics)
    requires b != [] && !LooksBack(b[0], h)
    ensures var w := Walked(b, h);
      Walked(a + b, h) == Walk(Continued(a, h) + w.out, w.pending) && w.out != []
  {
    var front, n := b[..|b| - 1], b[|b| - 1];
    InitConcat(a, b);
    if front == [] {
      ConcatNil(a);
      assert Walked(b, h) == WalkStep(Walk([], []), n, h);
      assert [] + [n] == [n];
    } else {
      WalkedBehind(a, front, h);
      StepBehind(Continued(a, h), Walked(front, h), n, h);
    }
  }

  /** The pass works block by block between blocks that do not look back. */
  lemma ContinuedApart(a: seq<AstNode>, b: seq<AstNode>, h: Heuristics)
    requires b == [] || !LooksBack(b[0], h)
    ensures Continued(a + b, h) == Continued(a, h) + Continued(b, h)
  {
    if b == [] {
      ConcatNil(a);
      ConcatNil(Continued(a, h));
    } else {
      WalkedBehind(a, b, h);
      FlushedBehind(Continued(a, h), Walked(b, h).out, Walked(b, h).pending);
    }
  }

  // ---- Continuations: one block and the paragraphs behind it ----------------------------

  ghost predicate Continuing(run: seq<AstNode>, h: Heuristics) {
    forall k :: 0 <= k < |run| ==> run[k].blockType.Paragraph? && !IsBlank(TextOf(run[k])) && h.continues(TextOf(run[k]))
  }

  lemma PlainPends(out: seq<AstNode>, n: AstNode, h: Heuristics)
    requires out != [] && !TakesContinuations(out[|out| - 1]) && Continuing([n], h)
    ensures WalkStep(Walk(out, []), n, h) == Walk(out + [n], [])
  {
    assert [n][0] == n;
  }

  lemma TakenPends(x: AstNode, front: seq<AstNode>, n: AstNode, h: Heuristics)
    requires TakesContinuations(x) && Continuing([n], h)
    ensures WalkStep(Walk([x], front), n, h) == Walk([x], front + [n])
  {
    assert [n][0] == n;
  }

  lemma WalkedNext(x: AstNode, front: seq<AstNode>, n: AstNode, h: Heuristics)
    ensures Walked([x] + (front + [n]), h) == WalkStep(Walked([x] + front, h), n, h)
  {
    Assoc([x], front, [n]);
    InitSnoc([x] + front, n);
  }

  /** The walk over a node and paragraphs that continue it. */
  ghost function Pended(x: AstNode, run: seq<AstNode>): Walk {
    if TakesContinuations(x) then Walk([x], run) else Walk([x] + run, [])
  }

  lemma PendsNext(x: AstNode, front: seq<AstNode>, n: AstNode, h: Heuristics)
    requires Continuing(front, h) && Continuing([n], h)
    ensures WalkStep(Pended(x, front), n, h) == Pended(x, front + [n])
  {
    if TakesContinuations(x) {
      TakenPends(x, front, n, h);
    } else {
      assert ([x] + front)[|front|] == if front == [] then x else front[|front| - 1];
      PlainPends([x] + front, n, h);
      Assoc([x], front, [n]);
    }
  }

  lemma WalkedOne(x: AstNode, h: Heuristics)
    ensures Walked([x] + [], h) == Pended(x, [])
  {
    ConcatNil([x]);
    assert [x][..0] == [] && [] + [x] == [x];
    assert Walked([x], h) == WalkStep(Walk([], []), x, h);
  }

  lemma {:induction false} RunPends(x: AstNode, run: seq<AstNode>, h: Heuristics)
    requires Continuing(run, h)
    ensures Walked([x] + run, h) == Pended(x, run)
  {
    if run == [] {
      WalkedOne(x, h);
    } else {
      var front, n := run[..|run| - 1], run[|run| - 1];
      RunPends(x, front, h);
      SnocInit(run);
      WalkedNext(x, front, n, h);
      PendsNext(x, front, n, h);
    }
  }

  /** The item with the paragraphs under it. */
  function Under(item: AstNode, run: seq<AstNode>): AstNode {
    AstNode(item.blockType, item.text, item.children + run, item.bbox, item.confidence, item.nodeId, item.payload)
  }

  /** The list with the paragraphs under its last item. */
  function UnderLast(list: AstNode, run: seq<AstNode>): AstNode
    requires list.children != []
  {
    var items := list.children;
    AstNode(list.blockType, list.text, items[..|items| - 1] + [Under(items[|items| - 1], run)],
            list.bbox, list.confidence, list.nodeId, list.payload)
  }

  ghost predicate EndsInItem(n: AstNode) {
    n.blockType.List? && n.children != [] && n.children[|n.children| - 1].blockType.ListItem?
  }

  /** An item, and a list that ends in one, takes the continuation paragraphs
      behind it; behind any other block they stay where they are. */
  lemma BlockContinued(x: AstNode, run: seq<AstNode>, h: Heuristics)
    requires Continuing(run, h)
    ensures Continued([x] + run, h) ==
      if run == [] then [x] else if x.blockType.ListItem? then [Under(x, run)]
      else if EndsInItem(x) then [UnderLast(x, run)] else [x] + run
  {
    RunPends(x, run, h);
    ConcatNil([x]);
    assert [x][..0] == [] && [] + Attach(x, run) == Attach(x, run);
  }

  /** A list that ends in an item, the longest run of continuation paragraphs
      behind it and no bare item behind those: the run goes under that item,
      none of it stays at top level, and everything else is treated alone. */
  lemma ListTakesRun(before: seq<AstNode>, list: AstNode, run: seq<AstNode>, after: seq<AstNode>, h: Heuristics)
    requires EndsInItem(list) && run != [] && Continuing(run, h)
    requires after == [] || !LooksBack(after[0], h)
    ensures Continued(before + ([list] + run) + after, h) ==
      Continued(before, h) + [UnderLast(list, run)] + Continued(after, h)
  {
    ContinuedApart(before + ([list] + run), after, h);
    ContinuedApart(before, [list] + run, h);
    BlockContinued(list, run, h);
  }

  lemma {:induction false} Resumed(a: seq<AstNode>, y: seq<AstNode>, item: AstNode, rest: seq<AstNode>, h: Heuristics)
    requires Walked(a + [item], h) == Walk(y + [item], []) && item.blockType.ListItem?
    ensures var w := Walked([item] + rest, h);
      Walked(a + ([item] + rest), h) == Walk(y + w.out, w.pending) && w.out != []
  {
    if rest == [] {
      ConcatNil([item]);
      RunPends(item, [], h);
    } else {
      var front, n := rest[..|rest| - 1], rest[|rest| - 1];
      Resumed(a, y, item, front, h);
      SnocInit(rest);
      Assoc([item], front, [n]);
      Assoc(a, [item] + front, [n]);
      WalkedSnoc([item] + front, n, h);
      WalkedSnoc(a + ([item] + front), n, h);
      StepBehind(y, Walked([item] + front, h), n, h);
    }
  }

  lemma WalkedSnoc(ns: seq<AstNode>, n: AstNode, h: Heuristics)
    ensures Walked(ns + [n], h) == WalkStep(Walked(ns, h), n, h)
  {
    InitSnoc(ns, n);
  }

  /** A bare item ends the block before it: an item keeps the paragraphs behind
      it, a list loses them, any other block leaves them; then the pass goes on
      from the bare item. */
  lemma ItemEnds(x: AstNode, run: seq<AstNode>, item: AstNode, rest: seq<AstNode>, h: Heuristics)
    requires Continuing(run, h) && item.blockType.ListItem?
    ensures var done := if x.blockType.ListItem? then [Under(x, run)]
                        else if x.blockType.List? && x.children != [] then [x] else [x] + run;
      Continued([x] + run + ([item] + rest), h) == done + Continued([item] + rest, h)
  {
    var done := if x.blockType.ListItem? then [Under(x, run)]
                else if x.blockType.List? && x.children != [] then [x] else [x] + run;
    RunPends(x, run, h);
    InitSnoc([x] + run, item);
    assert [x][..0] == [] && [] + [Under(x, run)] == [Under(x, run)];
    assert Walked([x] + run + [item], h) == Walk(done + [item], []);
    Resumed([x] + run, done, item, rest, h);
    FlushedBehind(done, Walked([item] + rest, h).out, Walked([item] + rest, h).pending);
  }

  // ---- Neighbouring lists ------------------------------------------------------------------

  ghost predicate EndsInList(ns: seq<AstNode>) {
    ns != [] && ns[|ns| - 1].blockType.List?
  }

  lemma {:induction false} JoinedEnds(ns: seq<AstNode>)
    ensures EndsInList(ListsJoined(ns)) <==> EndsInList(ns)
    ensures ns != [] ==> ListsJoined(ns) != []
  {
    if ns != [] {
      JoinedEnds(ns[..|ns| - 1]);
    }
  }

  /** Only a list right behind a list is joined to what comes before it. */
  lemma {:induction false} JoinedApart(a: seq<AstNode>, b: seq<AstNode>)
    requires b != [] ==> !(EndsInList(a) && b[0].blockType.List?)
    ensures ListsJoined(a + b) == ListsJoined(a) + ListsJoined(b)
  {
    if b == [] {
      ConcatNil(a);
      ConcatNil(ListsJoined(a));
    } else {
      var front, n := b[..|b| - 1], b[|b| - 1];
      InitConcat(a, b);
      JoinedApart(a, front);
      JoinedEnds(a);
      JoinedEnds(front);
      JoinBehind(ListsJoined(a), ListsJoined(front), n);
    }
  }

  lemma JoinBehind(x: seq<AstNode>, out: seq<AstNode>, n: AstNode)
    requires out == [] ==> !(EndsInList(x) && n.blockType.List?)
    ensures JoinList(x + out, n) == x + JoinList(out, n)
  {
    if out == [] {
      ConcatNil(x);
    } else {
      InitConcat(x, out);
      assert (x + out)[|x + out| - 1] == out[|out| - 1];
    }
  }

  function ChildrenOf(lists: seq<AstNode>): seq<seq<AstNode>> {
    seq(|lists|, i requires 0 <= i < |lists| => lists[i].children)
  }

  /** A run of lists becomes its first list with the items of all of them. */
  lemma {:induction false} ListRun(lists: seq<AstNode>)
    requires lists != [] && forall i :: 0 <= i < |lists| ==> lists[i].blockType.List?
    ensures ListsJoined(lists) == [lists[0].(children := Flatten(ChildrenOf(lists)))]
  {
    var front, n := lists[..|lists| - 1], lists[|lists| - 1];
    var cs := ChildrenOf(lists);
    assert cs[..|lists| - 1] == ChildrenOf(front);
    if front == [] {
      assert Flatten(cs) == Flatten(cs[..0]) + n.children && cs[..0] == [];
      assert [] + n.children == n.children && ListsJoined(front) == [];
    } else {
      ListRun(front);
    }
  }

  /** A block that is not a list stays as it is. */
  lemma OtherBlock(n: AstNode)
    requires !n.blockType.List?
    ensures ListsJoined([n]) == [n]
  {
    assert [n][..0] == [] && [] + [n] == [n];
  }

  // ---- Figures ----------------------------------------------------------------------------------

  ghost predicate Marks(n: AstNode, h: Heuristics) {
    n.blockType.Paragraph? && h.marksFigure(n.text.GetOr(""))
  }

  /** A block of the input and the node it becomes: a marker and the paragraph
      behind it an image with that caption, a marker alone an image with an empty
      caption, anything else itself. */
  ghost predicate Framed(block: seq<AstNode>, out: AstNode, next: Option<AstNode>, h: Heuristics) {
    if |block| == 2 then
      && Marks(block[0], h) && block[1].blockType.Paragraph?
      && out == AstNode(Image, block[0].text,
                        [AstNode(Caption, block[1].text, [], block[1].bbox, block[1].confidence, None, None)],
                        block[0].bbox, block[0].confidence, None, None)
    else
      && |block| == 1
      && (if Marks(block[0], h) then
            && !(next.Some? && next.value.blockType.Paragraph?)
            && out == AstNode(Image, block[0].text, [AstNode(Caption, None, [], None, None, None, None)],
                              block[0].bbox, block[0].confidence, None, None)
          else out == block[0])
  }

  ghost predicate AllFramed(blocks: seq<seq<AstNode>>, out: seq<AstNode>, h: Heuristics) {
    if blocks == [] then out == []
    else
      && out != [] && Framed(blocks[0], out[0], FirstOf(blocks[1..]), h) && AllFramed(blocks[1..], out[1..], h)
  }

  function FirstOf(blocks: seq<seq<AstNode>>): Option<AstNode> {
    if blocks != [] && blocks[0] != [] then Some(blocks[0][0]) else None
  }

  lemma {:induction false} FlattenCons<T>(run: seq<T>, runs: seq<seq<T>>)
    ensures Flatten([run] + runs) == run + Flatten(runs)
  {
    FlattenConcat([run], runs);
    FlattenSnoc([], run);
    assert [] + [run] == [run] && [] + run == run;
  }

  /** The page splits into such blocks, in order, one output node each. */
  lemma {:induction false} FiguresAre(ns: seq<AstNode>, h: Heuristics) returns (blocks: seq<seq<AstNode>>)
    ensures Flatten(blocks) == ns && AllFramed(blocks, FiguresFound(ns, h), h)
    ensures FirstOf(blocks) == if ns == [] then None else Some(ns[0])
    decreases |ns|
  {
    blocks := [];
    if ns != [] {
      var n := if FigureStart(ns[0], h) && |ns| > 1 && ns[1].blockType.Paragraph? then 2 else 1;
      var rest := FiguresAre(ns[n..], h);
      FlattenCons(ns[..n], rest);
      assert ns == ns[..n] + ns[n..];
      blocks := [ns[..n]] + rest;
      TailCons(ns[..n], rest);
      TailCons(FiguresFound(ns, h)[0], FiguresFound(ns[n..], h));
    }
  }

  // ---- Collecting items into lists -----------------------------------------------------------------

  ghost predicate IsBuilt(b: Built) {
    !b.Skipped?
  }

  /** A digit, then a full stop or a closing bracket. */
  ghost predicate LooksOrdered(text: string) {
    var t := Trim(text);
    |t| >= 2 && '0' <= t[0] <= '9' && (t[1] == '.' || t[1] == ')')
  }

  /** One block that stays as it is, or items that become one list. */
  ghost predicate Gathered(run: seq<Built>, out: AstNode) {
    if |run| == 1 && run[0].Block? then out == run[0].node
    else
      && run != [] && (forall i :: 0 <= i < |run| ==> run[i].Item?)
      && out.blockType == List(LooksOrdered(run[0].node.text.GetOr(""))) && out.text == None
      && |out.children| == |run| && (forall i :: 0 <= i < |run| ==> out.children[i] == run[i].node)
      && out.bbox == None && out.confidence == None && out.nodeId == None && out.payload == None
  }

  lemma RunGathered(run: seq<Built>)
    requires WellRun(run)
    ensures Gathered(run, NodeOf(run))
  {
    if AllItems(run) {
      assert run[0].Item?;
      assert LooksOrdered(run[0].node.text.GetOr("")) == StartsOrdered(run[0].node);
      ItemNodes(run);
    }
  }

  lemma ItemNodes(run: seq<Built>)
    requires AllItems(run)
    ensures |NodesOf(run)| == |run| && forall i :: 0 <= i < |run| ==> NodesOf(run)[i] == run[i].node
  {
  }

  lemma {:induction false} AllBuiltIs(raws: seq<string>, c: Classifier) returns (at: seq<nat>)
    ensures Chosen(AllBuilt(raws, c), seq(|raws|, i requires 0 <= i < |raws| => c(i, raws[i])), at, IsBuilt)
  {
    at := [];
    if raws != [] {
      var n := |raws| - 1;
      var before := AllBuiltIs(raws[..n], c);
      var all, front := seq(|raws|, i requires 0 <= i < |raws| => c(i, raws[i])), seq(n, i requires 0 <= i < n => c(i, raws[..n][i]));
      assert all == front + [c(n, raws[n])];
      at := ChosenSnoc(AllBuilt(raws[..n], c), front, c(n, raws[n]), before, IsBuilt);
    }
  }

  /** The collected blocks: one node per block built and one list per longest
      run of items, in order. */
  lemma CollectedAre(raws: seq<string>, c: Classifier) returns (runs: seq<seq<Built>>, at: seq<nat>)
    ensures Chosen(Flatten(runs), seq(|raws|, i requires 0 <= i < |raws| => c(i, raws[i])), at, IsBuilt)
    ensures |Collected(raws, c)| == |runs| && forall k :: 0 <= k < |runs| ==> Gathered(runs[k], Collected(raws, c)[k])
    ensures forall k :: 1 <= k < |runs| ==> runs[k] != [] && !EndsInItems(runs[k - 1], runs[k][0])
  {
    runs := Pack(AllBuilt(raws, c), SameList());
    at := AllBuiltIs(raws, c);
    PackIsPartition(AllBuilt(raws, c), SameList());
    CollectedWell(raws, c);
    forall k | 0 <= k < |runs| ensures Gathered(runs[k], Collected(raws, c)[k]) {
      RunGathered(runs[k]);
    }
    forall k | 1 <= k < |runs| ensures !EndsInItems(runs[k - 1], runs[k][0]) {
      assert !SameList()(runs[k - 1], runs[k][0]);
    }
  }

  /** An item behind a run of items. */
  ghost predicate EndsInItems(run: seq<Built>, next: Built) {
    run != [] && run[|run| - 1].Item? && next.Item?
  }
}
