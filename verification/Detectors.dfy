/** The four boundary detectors and what they all guarantee, for every
    provider, scorer, threshold and ceiling. */
module Detectors {
  import opened Seqs
  import opened Text
  import opened Wrappers
  import opened Numerals
  import opened Fragments
  import opened Ast
  import opened MergePasses
  import opened SplitPasses
  import opened FragmentIds
  import opened RuleDetector

  /** Texts below this many characters are never split semantically. */
  const MIN_SPLIT_CHARS: nat := 160

  datatype Detector =
    | Rule
    | Embedding(sim: Similarity, mergeThreshold: real, splitThreshold: real)
    | Hybrid(sim: Similarity, scorer: Option<Scorer>, mergeThreshold: real, splitThreshold: real, maxChars: nat)
    | Transformer(score: Scorer, acceptThreshold: real, maxChars: nat)

  function MergePolicy(d: Detector): Policy
    requires !d.Rule?
  {
    match d
    case Embedding(sim, m, _) => EmbeddingPolicy(sim, m)
    case Hybrid(sim, scorer, m, _, _) => HybridPolicy(sim, scorer, m)
    case Transformer(score, a, _) => TransformerPolicy(score, a)
  }

  /** The merged units cut by the detector's split passes. */
  function Resplit(d: Detector, units: seq<Fragment>): seq<Fragment>
    requires !d.Rule?
  {
    match d
    case Embedding(sim, _, s) =>
      SplitAll(units, Semantic(sim, s, MIN_SPLIT_CHARS, "embedding_boundary"))
    case Hybrid(sim, _, _, s, maxChars) =>
      SplitAll(SplitAll(units, Ceiling(maxChars, "hybrid_boundary")),
               Semantic(sim, s, MIN_SPLIT_CHARS, "hybrid_boundary"))
    case Transformer(_, _, maxChars) =>
      SplitAll(units, Ceiling(maxChars, "transformer_boundary"))
  }

  function Detected(d: Detector, ast: DocumentAst): seq<Fragment> {
    if d.Rule? then RuleFragments(ast)
    else Linked(Resplit(d, Merged(RuleFragments(ast), MergePolicy(d))))
  }

  /** `EmbeddingBoundaryDetector::detect`. */
  method DetectByEmbedding(ast: DocumentAst, sim: Similarity, merge: real, split: real) returns (fs: seq<Fragment>)
    ensures fs == Detected(Embedding(sim, merge, split), ast)
  {
    fs := RuleDetector.Detect(ast);
    fs := EmbeddingMerge(fs, sim, merge);
    fs := SplitTextFragments(fs, sim, split, MIN_SPLIT_CHARS, "embedding_boundary");
    fs := FinalizeNeighbors(fs);
  }

  /** `HybridBoundaryDetector::detect`. */
  method DetectHybrid(ast: DocumentAst, sim: Similarity, scorer: Option<Scorer>, merge: real, split: real, maxChars: nat)
    returns (fs: seq<Fragment>)
    ensures fs == Detected(Hybrid(sim, scorer, merge, split, maxChars), ast)
  {
    fs := RuleDetector.Detect(ast);
    fs := HybridMerge(fs, sim, scorer, merge);
    fs := SplitAtCeiling(fs, maxChars, "hybrid_boundary");
    fs := SplitTextFragments(fs, sim, split, MIN_SPLIT_CHARS, "hybrid_boundary");
    fs := FinalizeNeighbors(fs);
  }

  /** `TransformerBoundaryDetector::detect`. */
  method DetectByTransformer(ast: DocumentAst, scorer: Scorer, accept: real, maxChars: nat) returns (fs: seq<Fragment>)
    ensures fs == Detected(Transformer(scorer, accept, maxChars), ast)
  {
    fs := RuleDetector.Detect(ast);
    fs := TransformerMerge(fs, scorer, accept);
    fs := SplitAtCeiling(fs, maxChars, "transformer_boundary");
    fs := FinalizeNeighbors(fs);
  }

  // ---- Text ----------------------------------------------------------------

  lemma PolicyConserves(d: Detector)
    requires !d.Rule?
    ensures Conserving(MergePolicy(d))
  {
    match d
    case Embedding(sim, m, _) => EmbeddingConserves(sim, m);
    case Hybrid(sim, scorer, m, _, _) => HybridConserves(sim, scorer, m);
    case Transformer(score, a, _) => TransformerConserves(score, a);
  }

  lemma ResplitKeepsSolid(d: Detector, units: seq<Fragment>)
    requires !d.Rule?
    ensures Solid(Render(Resplit(d, units))) == Solid(Render(units))
  {
    match d
    case Embedding(sim, _, s) =>
      SplitKeepsSolid(units, Semantic(sim, s, MIN_SPLIT_CHARS, "embedding_boundary"));
    case Hybrid(sim, _, _, s, maxChars) =>
      SplitKeepsSolid(units, Ceiling(maxChars, "hybrid_boundary"));
      SplitKeepsSolid(SplitAll(units, Ceiling(maxChars, "hybrid_boundary")),
                      Semantic(sim, s, MIN_SPLIT_CHARS, "hybrid_boundary"));
    case Transformer(_, _, maxChars) =>
      SplitKeepsSolid(units, Ceiling(maxChars, "transformer_boundary"));
  }

  /** Every detector renders the rule detector's text with only whitespace
      changed. */
  lemma DetectorsKeepText(d: Detector, ast: DocumentAst)
    ensures Solid(Render(Detected(d, ast))) == Solid(Render(RuleFragments(ast)))
  {
    if !d.Rule? {
      var units := Merged(RuleFragments(ast), MergePolicy(d));
      PolicyConserves(d);
      MergeKeepsRendering(RuleFragments(ast), MergePolicy(d));
      ResplitKeepsSolid(d, units);
      LinkedKeepsText(Resplit(d, units));
    }
  }

  /** Every Text fragment of the hybrid and transformer detectors fits the
      ceiling up to trailing blanks or is a single sentence. */
  lemma DetectorsBoundText(d: Detector, ast: DocumentAst)
    requires d.Hybrid? || d.Transformer?
    ensures TextsWithin(Detected(d, ast), d.maxChars)
  {
    var units := Merged(RuleFragments(ast), MergePolicy(d));
    match d {
      case Hybrid(sim, _, _, s, maxChars) =>
        CeilingBoundsAll(units, maxChars, "hybrid_boundary");
        SplitStaysWithinAll(SplitAll(units, Ceiling(maxChars, "hybrid_boundary")),
                            Semantic(sim, s, MIN_SPLIT_CHARS, "hybrid_boundary"), maxChars);
      case Transformer(_, _, maxChars) =>
        CeilingBoundsAll(units, maxChars, "transformer_boundary");
    }
  }

  // ---- Modality ----------------------------------------------------------------

  lemma {:induction false} EmittedAgree(ls: seq<Leaf>, page: nat, path: seq<string>)
    ensures AllAgree(Emitted(ls, page, path))
  {
    if ls != [] {
      EmittedAgree(ls[..|ls| - 1], page, path);
    }
  }

  lemma {:induction false} PagesAgree(pages: seq<AstNode>)
    ensures AllAgree(PageFragments(pages))
  {
    if pages != [] {
      PagesAgree(pages[..|pages| - 1]);
      EmittedAgree(ChildLeaves(pages[|pages| - 1].children), |pages|, []);
    }
  }

  /** At top level every fragment of every detector is of the kind its tag
      says. */
  lemma DetectorsAgree(d: Detector, ast: DocumentAst)
    ensures AllAgree(Detected(d, ast))
  {
    RuleAgrees(ast);
    if !d.Rule? {
      var units := Merged(RuleFragments(ast), MergePolicy(d));
      PolicyConserves(d);
      MergeKeepsAgreement(RuleFragments(ast), MergePolicy(d));
      ResplitAgrees(d, units);
      LinkedAgrees(Resplit(d, units));
    }
  }

  lemma LinkedAgrees(fs: seq<Fragment>)
    requires AllAgree(fs)
    ensures AllAgree(Linked(fs))
  {
  }

  lemma RuleAgrees(ast: DocumentAst)
    ensures AllAgree(RuleFragments(ast))
  {
    PagesAgree(ast.pages);
    assert AllAgree(WithDocument(PageFragments(ast.pages), ast.documentId));
    LinkedAgrees(WithDocument(PageFragments(ast.pages), ast.documentId));
  }

  lemma ResplitAgrees(d: Detector, units: seq<Fragment>)
    requires !d.Rule? && AllAgree(units)
    ensures AllAgree(Resplit(d, units))
  {
    match d
    case Embedding(sim, _, s) =>
      SplitKeepsAgreement(units, Semantic(sim, s, MIN_SPLIT_CHARS, "embedding_boundary"));
    case Hybrid(sim, _, _, s, maxChars) =>
      SplitKeepsAgreement(units, Ceiling(maxChars, "hybrid_boundary"));
      SplitKeepsAgreement(SplitAll(units, Ceiling(maxChars, "hybrid_boundary")),
                          Semantic(sim, s, MIN_SPLIT_CHARS, "hybrid_boundary"));
    case Transformer(_, _, maxChars) =>
      SplitKeepsAgreement(units, Ceiling(maxChars, "transformer_boundary"));
  }

  // ---- Ids -------------------------------------------------------------------

  /** Page and block index of every leaf that becomes a fragment. */
  function LeafSlots(ls: seq<Leaf>, page: nat): seq<(nat, nat)> {
    if ls == [] then [] else
      var last := ls[|ls| - 1];
      LeafSlots(ls[..|ls| - 1], page) + (if BlockContent(last.node).Some? then [(page, last.index)] else [])
  }

  function Slots(pages: seq<AstNode>): seq<(nat, nat)> {
    if pages == [] then []
    else Slots(pages[..|pages| - 1]) + LeafSlots(ChildLeaves(pages[|pages| - 1].children), |pages|)
  }

  ghost predicate IdsFollow(fs: seq<Fragment>, slots: seq<(nat, nat)>) {
    |fs| == |slots| && forall k :: 0 <= k < |fs| ==> fs[k].id == FragmentId(slots[k].0, slots[k].1)
  }

  lemma {:induction false} EmittedIds(ls: seq<Leaf>, page: nat, path: seq<string>)
    ensures IdsFollow(Emitted(ls, page, path), LeafSlots(ls, page))
  {
    if ls != [] {
      EmittedIds(ls[..|ls| - 1], page, path);
    }
  }

  lemma {:induction false} PageIds(pages: seq<AstNode>)
    ensures IdsFollow(PageFragments(pages), Slots(pages))
  {
    if pages != [] {
      PageIds(pages[..|pages| - 1]);
      EmittedIds(ChildLeaves(pages[|pages| - 1].children), |pages|, []);
    }
  }

  lemma FragmentIdInjective(p: nat, i: nat, q: nat, j: nat)
    ensures FragmentId(p, i) == FragmentId(q, j) <==> p == q && i == j
  {
    if FragmentId(p, i) == FragmentId(q, j) {
      var a, b := "frag-p" + Decimal(p) + "-", "frag-p" + Decimal(q) + "-";
      assert FragmentId(p, i) == a + ['b'] + Decimal(i);
      assert FragmentId(q, j) == b + ['b'] + Decimal(j);
      TagUnique(a, 'b', Decimal(i), b, 'b', Decimal(j));
      assert Decimal(p) == a[6..|a| - 1] && Decimal(q) == b[6..|b| - 1];
      DecimalInjective(p, q);
      DecimalInjective(i, j);
    }
  }

  /** The document prefix neither merges nor separates ids. */
  lemma PrefixInjective(a: Fragment, b: Fragment, documentId: string)
    requires "frag-" <= a.id && "frag-" <= b.id
    ensures Prefixed(a, documentId).id == Prefixed(b, documentId).id <==> a.id == b.id
  {
    var p := "frag-" + Take8(documentId) + "-";
    assert Prefixed(a, documentId).id[|p|..] == ShortId(a.id);
    assert Prefixed(b, documentId).id[|p|..] == ShortId(b.id);
    assert a.id == "frag-" + ShortId(a.id) && b.id == "frag-" + ShortId(b.id);
  }

  lemma RuleIdsEqual(ast: DocumentAst, i: nat, j: nat)
    requires i < |RuleFragments(ast)| && j < |RuleFragments(ast)|
    ensures |Slots(ast.pages)| == |RuleFragments(ast)|
    ensures RuleFragments(ast)[i].id == RuleFragments(ast)[j].id <==> Slots(ast.pages)[i] == Slots(ast.pages)[j]
  {
    var fs, slots := PageFragments(ast.pages), Slots(ast.pages);
    PageIds(ast.pages);
    FragmentIdInjective(slots[i].0, slots[i].1, slots[j].0, slots[j].1);
    if ast.documentId.Some? && ast.documentId.value != "" {
      PrefixInjective(fs[i], fs[j], ast.documentId.value);
    }
  }

  /** The rule detector's ids are pairwise distinct exactly when no two content
      leaves of a page share the index in their innermost list. */
  lemma RuleIdsDistinctExactly(ast: DocumentAst)
    ensures DistinctIds(RuleFragments(ast)) <==> Distinct(Slots(ast.pages))
  {
    PageIds(ast.pages);
    forall i, j | 0 <= i < j < |RuleFragments(ast)|
      ensures RuleFragments(ast)[i].id == RuleFragments(ast)[j].id <==> Slots(ast.pages)[i] == Slots(ast.pages)[j]
    {
      RuleIdsEqual(ast, i, j);
    }
  }

  /** No block of a page is an empty wrapper. */
  ghost predicate NoWrapperBlocks(ast: DocumentAst) {
    forall p, b :: 0 <= p < |ast.pages| && 0 <= b < |ast.pages[p].children| ==> !IsWrapper(ast.pages[p].children[b])
  }

  /** Slots of a page in increasing index order, below the bound. */
  ghost predicate Ordered(slots: seq<(nat, nat)>, page: nat, bound: nat) {
    && (forall k :: 0 <= k < |slots| ==> slots[k].0 == page && slots[k].1 < bound)
    && Distinct(slots)
  }

  lemma {:induction false} FlatPageSlots(blocks: seq<AstNode>, page: nat)
    requires forall b :: 0 <= b < |blocks| ==> !IsWrapper(blocks[b])
    ensures Ordered(LeafSlots(ChildLeaves(blocks), page), page, |blocks|)
  {
    if blocks != [] {
      var front, n := blocks[..|blocks| - 1], |blocks| - 1;
      FlatPageSlots(front, page);
      var leaf := Leaf(blocks[n], n);
      assert ChildLeaves(blocks) == ChildLeaves(front) + [leaf];
      InitSnoc(ChildLeaves(front), leaf);
    }
  }

  lemma {:induction false} FlatSlots(pages: seq<AstNode>)
    requires forall p, b :: 0 <= p < |pages| && 0 <= b < |pages[p].children| ==> !IsWrapper(pages[p].children[b])
    ensures Distinct(Slots(pages)) && forall k :: 0 <= k < |Slots(pages)| ==> Slots(pages)[k].0 <= |pages|
  {
    if pages != [] {
      FlatSlots(pages[..|pages| - 1]);
      FlatPageSlots(pages[|pages| - 1].children, |pages|);
    }
  }

  lemma RuleIdsDistinct(ast: DocumentAst)
    requires NoWrapperBlocks(ast)
    ensures DistinctIds(RuleFragments(ast))
  {
    FlatSlots(ast.pages);
    RuleIdsDistinctExactly(ast);
  }

  /** A wrapper's children reuse indexes, so ids can collide. */
  lemma WrapperCollides() returns (ast: DocumentAst)
    ensures !DistinctIds(RuleFragments(ast))
  {
    var a, b, c := Plain(Paragraph, Some("a"), []), Plain(Paragraph, Some("b"), []), Plain(Paragraph, Some("c"), []);
    var wrapper := Plain(Unknown, None, [a, b]);
    var page := Plain(Unknown, None, [wrapper, c]);
    ast := DocumentAst([page], None);
    assert !IsBlank("a") && !IsBlank("b") && !IsBlank("c") by {
      assert !IsWhitespace("a"[0]) && !IsWhitespace("b"[0]) && !IsWhitespace("c"[0]);
    }
    TwoBlocks(a, b);
    TwoBlocks(wrapper, c);
    assert ChildLeaves([wrapper, c]) == [Leaf(a, 0), Leaf(b, 1), Leaf(c, 1)];
    CollidingSlots(a, b, c);
    assert [page][..0] == [] && Slots([page]) == [(1, 0), (1, 1), (1, 1)];
    assert Slots([page])[1] == Slots([page])[2];
    RuleIdsDistinctExactly(ast);
  }

  lemma TwoBlocks(x: AstNode, y: AstNode)
    ensures ChildLeaves([x, y]) == Leaves(x, 0) + Leaves(y, 1)
  {
    assert [x, y][..1] == [x];
    assert ChildLeaves([x]) == ChildLeaves([x][..0]) + Leaves(x, 0) && [x][..0] == [];
  }

  lemma CollidingSlots(a: AstNode, b: AstNode, c: AstNode)
    requires a.blockType.Paragraph? && b.blockType.Paragraph? && c.blockType.Paragraph?
    ensures LeafSlots([Leaf(a, 0), Leaf(b, 1), Leaf(c, 1)], 1) == [(1, 0), (1, 1), (1, 1)]
  {
    var x, y, z := Leaf(a, 0), Leaf(b, 1), Leaf(c, 1);
    assert [x, y, z][..2] == [x, y] && [x, y][..1] == [x] && [x][..0] == [];
    assert LeafSlots([x], 1) == [(1, 0)];
    assert LeafSlots([x, y], 1) == [(1, 0), (1, 1)];
  }

  lemma SlotTagged(f: Fragment, page: nat, index: nat, documentId: string)
    requires f.id == FragmentId(page, index)
    ensures Tagged(f.id, 'b') && Tagged(Prefixed(f, documentId).id, 'b')
  {
    var p, q := "p" + Decimal(page) + "-", "frag-" + Take8(documentId) + "-";
    assert f.id == ("frag-" + p) + ['b'] + Decimal(index);
    assert ShortId(f.id) == p + ['b'] + Decimal(index);
    assert Prefixed(f, documentId).id == (q + p) + ['b'] + Decimal(index);
  }

  lemma RuleIdsTagged(ast: DocumentAst)
    ensures AllTagged(RuleFragments(ast), {'b'})
  {
    var fs, slots := PageFragments(ast.pages), Slots(ast.pages);
    PageIds(ast.pages);
    forall i | 0 <= i < |fs| ensures exists tag :: tag in {'b'} && Tagged(RuleFragments(ast)[i].id, tag) {
      SlotTagged(fs[i], slots[i].0, slots[i].1, ast.documentId.GetOr(""));
      assert 'b' in {'b'} && Tagged(RuleFragments(ast)[i].id, 'b');
    }
  }

  lemma MergedTagged(fs: seq<Fragment>, p: Policy, tags: set<char>)
    requires Conserving(p) && DistinctIds(fs) && AllTagged(fs, tags)
    ensures AllTagged(Merged(fs, p), tags)
  {
    MergeKeepsIds(fs, p);
    forall k | 0 <= k < |Merged(fs, p)| ensures exists tag :: tag in tags && Tagged(Merged(fs, p)[k].id, tag) {
      assert Merged(fs, p)[k].id in Ids(Merged(fs, p));
      var i :| 0 <= i < |fs| && fs[i].id == Merged(fs, p)[k].id;
      var tag :| tag in tags && Tagged(fs[i].id, tag);
    }
  }

  lemma CeilingIds(fs: seq<Fragment>, maxChars: nat, extractor: string)
    requires DistinctIds(fs) && AllTagged(fs, {'b'})
    ensures DistinctIds(SplitAll(fs, Ceiling(maxChars, extractor)))
    ensures AllTagged(SplitAll(fs, Ceiling(maxChars, extractor)), {'b', 'l'})
  {
    var s := Ceiling(maxChars, extractor);
    NotTagged(fs, {'b'}, 'l');
    SplitKeepsIds(fs, s, 'l');
    SplitTags(fs, s, 'l', {'b'});
    assert {'b'} + {'l'} == {'b', 'l'};
  }

  lemma SemanticIds(fs: seq<Fragment>, tags: set<char>, s: Splitter)
    requires DistinctIds(fs) && AllTagged(fs, tags) && tags <= {'b', 'l'} && s.suffix == "-s"
    ensures DistinctIds(SplitAll(fs, s))
  {
    NotTagged(fs, tags, 's');
    SplitKeepsIds(fs, s, 's');
  }

  /** Distinct positions stay distinct ids through merging, both suffixes and
      linking, for every detector; the links then form the two-way chain. */
  lemma DetectorIdsDistinct(d: Detector, ast: DocumentAst)
    requires Distinct(Slots(ast.pages))
    ensures DistinctIds(Detected(d, ast))
  {
    RuleIdsDistinctExactly(ast);
    if !d.Rule? {
      var rule, p := RuleFragments(ast), MergePolicy(d);
      PolicyConserves(d);
      RuleIdsTagged(ast);
      MergeKeepsIds(rule, p);
      MergedTagged(rule, p, {'b'});
      ResplitIds(d, Merged(rule, p));
    }
  }

  lemma ResplitIds(d: Detector, units: seq<Fragment>)
    requires !d.Rule? && DistinctIds(units) && AllTagged(units, {'b'})
    ensures DistinctIds(Resplit(d, units))
  {
    match d
    case Embedding(sim, _, s) =>
      SemanticIds(units, {'b'}, Semantic(sim, s, MIN_SPLIT_CHARS, "embedding_boundary"));
    case Hybrid(sim, _, _, s, maxChars) =>
      CeilingIds(units, maxChars, "hybrid_boundary");
      SemanticIds(SplitAll(units, Ceiling(maxChars, "hybrid_boundary")), {'b', 'l'},
                  Semantic(sim, s, MIN_SPLIT_CHARS, "hybrid_boundary"));
    case Transformer(_, _, maxChars) =>
      CeilingIds(units, maxChars, "transformer_boundary");
  }

  lemma DetectorChain(d: Detector, ast: DocumentAst, i: nat, j: nat)
    requires Distinct(Slots(ast.pages)) && i < |Detected(d, ast)| && j < |Detected(d, ast)|
    ensures Detected(d, ast)[j].id in Detected(d, ast)[i].context.neighbors <==> (j == i + 1 || i == j + 1)
  {
    DetectorIdsDistinct(d, ast);
    var fs := if d.Rule? then WithDocument(PageFragments(ast.pages), ast.documentId)
              else Resplit(d, Merged(RuleFragments(ast), MergePolicy(d)));
    assert Detected(d, ast) == Linked(fs);
    assert forall k :: 0 <= k < |fs| ==> fs[k].id == Linked(fs)[k].id;
    LinksFormChain(fs, i, j);
  }

  // ---- No scorer, no change ------------------------------------------------

  /** No fragment is cut by the pass. */
  ghost predicate NoneSplits(fs: seq<Fragment>, s: Splitter) {
    forall i :: 0 <= i < |fs| ==> !Splits(fs[i], s)
  }

  lemma NoneSplitsSnoc(fs: seq<Fragment>, f: Fragment, s: Splitter)
    ensures NoneSplits(fs + [f], s) <==> NoneSplits(fs, s) && !Splits(f, s)
  {
    assert (fs + [f])[|fs|] == f;
    assert forall i :: 0 <= i < |fs| ==> fs[i] == (fs + [f])[i];
  }

  /** A split pass changes a list exactly when it cuts some fragment. */
  lemma {:induction false} SplitIdleExactly(fs: seq<Fragment>, s: Splitter)
    ensures |SplitAll(fs, s)| >= |fs|
    ensures NoneSplits(fs, s) ==> SplitAll(fs, s) == fs
    ensures !NoneSplits(fs, s) ==> |SplitAll(fs, s)| > |fs|
  {
    if fs != [] {
      var front, last := fs[..|fs| - 1], fs[|fs| - 1];
      SplitIdleExactly(front, s);
      SnocInit(fs);
      NoneSplitsSnoc(front, last, s);
    }
  }

  /** With a scorer that never has an opinion the transformer detector is the
      rule detector, exactly when no rule fragment is cut at the ceiling. */
  lemma TransformerDegrades(score: Scorer, accept: real, maxChars: nat, ast: DocumentAst)
    requires forall a, b :: score(a, b) == None
    ensures Detected(Transformer(score, accept, maxChars), ast) == RuleFragments(ast) <==>
      NoneSplits(RuleFragments(ast), Ceiling(maxChars, "transformer_boundary"))
  {
    var s := Ceiling(maxChars, "transformer_boundary");
    DegradedTransformer(score, accept, maxChars, ast);
    RuleIsLinked(ast);
    SplitLinked(RuleFragments(ast), s);
  }

  lemma DegradedTransformer(score: Scorer, accept: real, maxChars: nat, ast: DocumentAst)
    requires forall a, b :: score(a, b) == None
    ensures Detected(Transformer(score, accept, maxChars), ast) ==
      Linked(SplitAll(RuleFragments(ast), Ceiling(maxChars, "transformer_boundary")))
  {
    MergeNever(RuleFragments(ast), TransformerPolicy(score, accept));
  }

  lemma RuleIsLinked(ast: DocumentAst)
    ensures Linked(RuleFragments(ast)) == RuleFragments(ast)
  {
    LinkedTwice(WithDocument(PageFragments(ast.pages), ast.documentId));
  }

  lemma SplitLinked(rule: seq<Fragment>, s: Splitter)
    requires Linked(rule) == rule
    ensures Linked(SplitAll(rule, s)) == rule <==> NoneSplits(rule, s)
  {
    SplitIdleExactly(rule, s);
  }
}
