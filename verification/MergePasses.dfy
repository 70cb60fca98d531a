/** The three in-place merge loops of the boundary detectors. The embedding
    provider and the transformer scorer are arbitrary functions. */
module MergePasses {
  import opened Seqs
  import opened Text
  import opened Wrappers
  import opened Payloads
  import opened Fragments
  import opened Runs

  datatype BoundaryScore = BoundaryScore(probability: real, model: string)

  /** Cosine similarity of the provider's embeddings of two texts. */
  type Similarity = (string, string) -> real

  /** P(same unit) across a boundary, or no opinion. */
  type Scorer = (Fragment, Fragment) -> Option<BoundaryScore>

  const TRANSFORMER_ACCEPT := 0.7

  /** When two neighbours become one unit, and which unit. */
  datatype Policy = Policy(accept: (Fragment, Fragment) -> bool, join: (Fragment, Fragment) -> Fragment)

  predicate BothText(a: Fragment, b: Fragment) {
    a.content.TextContent? && b.content.TextContent?
  }

  /** Two texts in one fragment; evidence trails are kept as they are. */
  function JoinTexts(a: Fragment, b: Fragment): Fragment {
    if BothText(a, b)
    then a.(content := TextContent(a.content.text + "\n" + b.content.text), evidence := a.evidence + b.evidence)
    else a
  }

  /** `merge_pair`: texts join, any other pair nests into a composite whose
      first child already carries the composite's modality tag. */
  function MergePair(a: Fragment, b: Fragment, viaModel: Option<string>, extractor: string): Fragment {
    var evidence := Restamp(a.evidence + b.evidence, extractor, viaModel);
    if BothText(a, b)
    then a.(content := TextContent(a.content.text + "\n" + b.content.text), evidence := evidence)
    else a.(modality := MixedKind, content := MixedContent([a.(modality := MixedKind), b]), evidence := evidence)
  }

  function EmbeddingPolicy(sim: Similarity, threshold: real): Policy {
    Policy((a, b) => BothText(a, b) && sim(a.content.text, b.content.text) >= threshold, JoinTexts)
  }

  /** The scorer's model when its score dissolves the boundary. */
  function DecidingModel(scorer: Option<Scorer>, accept: real, a: Fragment, b: Fragment): Option<string> {
    if scorer.None? then None
    else match scorer.value(a, b)
      case Some(score) => if score.probability >= accept then Some(score.model) else None
      case None => None
  }

  function HybridPolicy(sim: Similarity, scorer: Option<Scorer>, threshold: real): Policy {
    Policy(
      (a, b) => !(sim(FragmentText(a), FragmentText(b)) < threshold
                  && DecidingModel(scorer, TRANSFORMER_ACCEPT, a, b).None?),
      (a, b) => MergePair(a, b, DecidingModel(scorer, TRANSFORMER_ACCEPT, a, b), "hybrid_boundary"))
  }

  function TransformerPolicy(scorer: Scorer, threshold: real): Policy {
    Policy(
      (a, b) => DecidingModel(Some(scorer), threshold, a, b).Some?,
      (a, b) => MergePair(a, b, DecidingModel(Some(scorer), threshold, a, b), "transformer_boundary"))
  }

  // ---- Specification: runs, each folded from the left --------------------

  /** The unit accumulated over a run. */
  function FoldRun(run: seq<Fragment>, p: Policy): Fragment
    requires run != []
  {
    if |run| == 1 then run[0] else p.join(FoldRun(run[..|run| - 1], p), run[|run| - 1])
  }

  /** The policy asked about the accumulated unit and the next fragment. */
  function Joins(p: Policy): (seq<Fragment>, Fragment) -> bool {
    (run, x) => run != [] && p.accept(FoldRun(run, p), x)
  }

  function FoldRuns(runs: seq<seq<Fragment>>, p: Policy): (fs: seq<Fragment>)
    requires forall k :: 0 <= k < |runs| ==> runs[k] != []
    ensures |fs| == |runs|
  {
    seq(|runs|, k requires 0 <= k < |runs| => FoldRun(runs[k], p))
  }

  function Merged(fs: seq<Fragment>, p: Policy): seq<Fragment> {
    FoldRuns(Pack(fs, Joins(p)), p)
  }

  /** The merged list is the folded form of the one partition into contiguous
      runs in which the policy accepted (accumulated unit, next fragment) at
      every inner step and rejected (finished unit, next run's first fragment)
      at every kept boundary. */
  lemma MergeIsUniquePartition(fs: seq<Fragment>, p: Policy, runs: seq<seq<Fragment>>)
    ensures IsRunPartition(Pack(fs, Joins(p)), fs, Joins(p))
    ensures IsRunPartition(runs, fs, Joins(p)) ==>
      (forall k :: 0 <= k < |runs| ==> runs[k] != []) && Merged(fs, p) == FoldRuns(runs, p)
  {
    PackIsPartition(fs, Joins(p));
    if IsRunPartition(runs, fs, Joins(p)) {
      PartitionUnique(runs, fs, Joins(p));
    }
  }

  /** One more fragment on the right. */
  function MergedStep(m: seq<Fragment>, x: Fragment, p: Policy): seq<Fragment> {
    if m != [] && p.accept(m[|m| - 1], x)
    then m[..|m| - 1] + [p.join(m[|m| - 1], x)]
    else m + [x]
  }

  lemma MergedSnoc(xs: seq<Fragment>, x: Fragment, p: Policy)
    ensures Merged(xs + [x], p) == MergedStep(Merged(xs, p), x, p)
  {
    InitSnoc(xs, x);
    FoldExtend(Pack(xs, Joins(p)), x, p);
  }

  lemma FoldExtend(runs: seq<seq<Fragment>>, x: Fragment, p: Policy)
    requires forall k :: 0 <= k < |runs| ==> runs[k] != []
    ensures var next := Extend(runs, x, Joins(p));
      && (forall k :: 0 <= k < |next| ==> next[k] != [])
      && FoldRuns(next, p) == MergedStep(FoldRuns(runs, p), x, p)
  {
    if runs != [] {
      var last := runs[|runs| - 1];
      InitSnoc(last, x);
      assert FoldRuns(runs, p)[|runs| - 1] == FoldRun(last, p);
      assert FoldRun(last + [x], p) == p.join(FoldRun(last, p), x);
    }
  }

  // ---- The loops ---------------------------------------------------------

  /** After `k` fragments: finished units, the open unit at `i`, the rest. */
  ghost predicate Progress(fs: seq<Fragment>, i: int, input: seq<Fragment>, k: nat, p: Policy) {
    && k <= |input|
    && fs == Merged(input[..k], p) + input[k..]
    && if k == 0 then input == [] && i == 0 else i == |Merged(input[..k], p)| - 1 && i >= 0
  }

  lemma ProgressStart(input: seq<Fragment>, p: Policy)
    ensures Progress(input, 0, input, if input == [] then 0 else 1, p)
  {
    if input != [] {
      assert input[..1] == [] + [input[0]];
      MergedSnoc([], input[0], p);
      ConsTail(input);
    }
  }

  lemma ProgressStep(fs: seq<Fragment>, i: int, input: seq<Fragment>, k: nat, p: Policy)
    requires Progress(fs, i, input, k, p) && i + 1 < |fs|
    ensures 0 <= i && k < |input|
    ensures p.accept(fs[i], fs[i + 1]) ==>
      Progress(fs[..i] + [p.join(fs[i], fs[i + 1])] + fs[i + 2..], i, input, k + 1, p)
    ensures !p.accept(fs[i], fs[i + 1]) ==> Progress(fs, i + 1, input, k + 1, p)
  {
    var m, x := Merged(input[..k], p), input[k];
    assert fs[i] == m[i] && fs[i + 1] == x && fs[i + 2..] == input[k + 1..];
    assert input[..k + 1] == input[..k] + [x];
    MergedSnoc(input[..k], x, p);
    if p.accept(fs[i], x) {
      assert fs[..i] == m[..i];
    } else {
      assert fs == m + [x] + input[k + 1..];
    }
  }

  lemma ProgressDone(fs: seq<Fragment>, i: int, input: seq<Fragment>, k: nat, p: Policy)
    requires Progress(fs, i, input, k, p) && i + 1 >= |fs|
    ensures fs == Merged(input, p)
  {
    assert k == |input| && input[..k] == input && input[k..] == [];
  }

  /** `EmbeddingBoundaryDetector::merge`. */
  method EmbeddingMerge(input: seq<Fragment>, sim: Similarity, threshold: real) returns (fs: seq<Fragment>)
    ensures fs == Merged(input, EmbeddingPolicy(sim, threshold))
  {
    fs := input;
    var i := 0;
    ghost var p, k := EmbeddingPolicy(sim, threshold), if input == [] then 0 else 1;
    ProgressStart(input, p);
    while i + 1 < |fs|
      invariant Progress(fs, i, input, k, p)
      decreases |input| - k
    {
      ProgressStep(fs, i, input, k, p);
      k := k + 1;
      if fs[i].content.TextContent? && fs[i + 1].content.TextContent?
         && sim(fs[i].content.text, fs[i + 1].content.text) >= threshold {
        var a, b := fs[i], fs[i + 1];
        fs := fs[..i] + [JoinTexts(a, b)] + fs[i + 2..];
      } else {
        i := i + 1;
      }
    }
    ProgressDone(fs, i, input, k, p);
  }

  /** `HybridBoundaryDetector::merge`. */
  method HybridMerge(input: seq<Fragment>, sim: Similarity, scorer: Option<Scorer>, threshold: real)
    returns (fs: seq<Fragment>)
    ensures fs == Merged(input, HybridPolicy(sim, scorer, threshold))
  {
    fs := input;
    var i := 0;
    ghost var p, k := HybridPolicy(sim, scorer, threshold), if input == [] then 0 else 1;
    ProgressStart(input, p);
    while i + 1 < |fs|
      invariant Progress(fs, i, input, k, p)
      decreases |input| - k
    {
      ProgressStep(fs, i, input, k, p);
      k := k + 1;
      var a, b := fs[i], fs[i + 1];
      var viaModel := DecidingModel(scorer, TRANSFORMER_ACCEPT, a, b);
      if sim(FragmentText(a), FragmentText(b)) < threshold && viaModel.None? {
        i := i + 1;
      } else {
        fs := fs[..i] + [MergePair(a, b, viaModel, "hybrid_boundary")] + fs[i + 2..];
      }
    }
    ProgressDone(fs, i, input, k, p);
  }

  /** `TransformerBoundaryDetector::merge`. */
  method TransformerMerge(input: seq<Fragment>, scorer: Scorer, threshold: real) returns (fs: seq<Fragment>)
    ensures fs == Merged(input, TransformerPolicy(scorer, threshold))
  {
    fs := input;
    var i := 0;
    ghost var p, k := TransformerPolicy(scorer, threshold), if input == [] then 0 else 1;
    ProgressStart(input, p);
    while i + 1 < |fs|
      invariant Progress(fs, i, input, k, p)
      decreases |input| - k
    {
      ProgressStep(fs, i, input, k, p);
      k := k + 1;
      var a, b := fs[i], fs[i + 1];
      match scorer(a, b) {
        case Some(score) =>
          if score.probability >= threshold {
            fs := fs[..i] + [MergePair(a, b, Some(score.model), "transformer_boundary")] + fs[i + 2..];
          } else {
            i := i + 1;
          }
        case None =>
          i := i + 1;
      }
    }
    ProgressDone(fs, i, input, k, p);
  }

  // ---- What every merge keeps ---------------------------------------------

  /** A joined unit renders as its parts on consecutive lines, keeps the first
      part's identity and context, and carries both evidence trails in order. */
  ghost predicate Conserves(p: Policy, a: Fragment, b: Fragment) {
    var u := p.join(a, b);
    && FragmentText(u) == FragmentText(a) + "\n" + FragmentText(b)
    && u.id == a.id && u.context == a.context && u.source == a.source
    && (Agrees(a) ==> Agrees(u))
    && Provenance(u.evidence) == Provenance(a.evidence) + Provenance(b.evidence)
  }

  /** The modality tag names the kind of content, at top level. */
  predicate Agrees(f: Fragment) {
    match f.modality
    case TextKind => f.content.TextContent?
    case CodeKind => f.content.CodeContent?
    case TableKind => f.content.TableContent?
    case ImageKind => f.content.ImageContent?
    case ChartKind => f.content.ChartContent?
    case DiagramKind => f.content.DiagramContent?
    case FormulaKind => f.content.FormulaContent?
    case MixedKind => f.content.MixedContent?
  }

  ghost predicate AllAgree(fs: seq<Fragment>) {
    forall i :: 0 <= i < |fs| ==> Agrees(fs[i])
  }

  lemma {:induction false} MergeKeepsAgreement(fs: seq<Fragment>, p: Policy)
    requires Conserving(p) && AllAgree(fs)
    ensures AllAgree(Merged(fs, p))
    decreases |fs|
  {
    if fs != [] {
      MergeKeepsAgreement(fs[..|fs| - 1], p);
      SnocInit(fs);
      MergedSnoc(fs[..|fs| - 1], fs[|fs| - 1], p);
      var m, x := Merged(fs[..|fs| - 1], p), fs[|fs| - 1];
      if m != [] && p.accept(m[|m| - 1], x) {
        assert Conserves(p, m[|m| - 1], x);
      }
    }
  }

  ghost predicate Conserving(p: Policy) {
    forall a, b :: p.accept(a, b) ==> Conserves(p, a, b)
  }

  lemma MergePairText(a: Fragment, b: Fragment, viaModel: Option<string>, extractor: string)
    ensures FragmentText(MergePair(a, b, viaModel, extractor)) == FragmentText(a) + "\n" + FragmentText(b)
  {
    if !BothText(a, b) {
      var u := MergePair(a, b, viaModel, extractor);
      var a' := a.(modality := MixedKind);
      assert FragmentText(u) == Join(FragmentTexts([a', b]), "\n");
      assert [a', b][..1] == [a'] && [a'][..0] == [];
      assert FragmentTexts([a', b]) == [FragmentText(a'), FragmentText(b)];
      JoinFuse([], FragmentText(a'), FragmentText(b), [], "\n");
      assert FragmentText(a') == FragmentText(a);
    }
  }

  lemma MergePairEvidence(a: Fragment, b: Fragment, viaModel: Option<string>, extractor: string)
    ensures Provenance(MergePair(a, b, viaModel, extractor).evidence) == Provenance(a.evidence) + Provenance(b.evidence)
  {
    RestampKeepsProvenance(a.evidence + b.evidence, extractor, viaModel);
    ProvenanceConcat(a.evidence, b.evidence);
  }

  /** Merged evidence names the pass, and the model when one decided. */
  lemma MergePairStamps(a: Fragment, b: Fragment, viaModel: Option<string>, extractor: string)
    ensures forall e :: e in MergePair(a, b, viaModel, extractor).evidence ==>
      e.extractor == extractor && (viaModel.Some? ==> e.model == viaModel)
  {
    var es := Restamp(a.evidence + b.evidence, extractor, viaModel);
    forall e | e in es ensures e.extractor == extractor && (viaModel.Some? ==> e.model == viaModel) {
      var i :| 0 <= i < |es| && es[i] == e;
    }
  }

  lemma EmbeddingConserves(sim: Similarity, threshold: real)
    ensures Conserving(EmbeddingPolicy(sim, threshold))
  {
    var p := EmbeddingPolicy(sim, threshold);
    forall a, b | p.accept(a, b) ensures Conserves(p, a, b) {
      ProvenanceConcat(a.evidence, b.evidence);
    }
  }

  lemma HybridConserves(sim: Similarity, scorer: Option<Scorer>, threshold: real)
    ensures Conserving(HybridPolicy(sim, scorer, threshold))
  {
    var p := HybridPolicy(sim, scorer, threshold);
    forall a, b | p.accept(a, b) ensures Conserves(p, a, b) {
      var via := DecidingModel(scorer, TRANSFORMER_ACCEPT, a, b);
      MergePairText(a, b, via, "hybrid_boundary");
      MergePairEvidence(a, b, via, "hybrid_boundary");
    }
  }

  lemma TransformerConserves(scorer: Scorer, threshold: real)
    ensures Conserving(TransformerPolicy(scorer, threshold))
  {
    var p := TransformerPolicy(scorer, threshold);
    forall a, b | p.accept(a, b) ensures Conserves(p, a, b) {
      var via := DecidingModel(Some(scorer), threshold, a, b);
      MergePairText(a, b, via, "transformer_boundary");
      MergePairEvidence(a, b, via, "transformer_boundary");
    }
  }

  /** The newline-joined rendering is exactly unchanged by a merge pass. */
  lemma {:induction false} MergeKeepsRendering(fs: seq<Fragment>, p: Policy)
    requires Conserving(p)
    ensures Render(Merged(fs, p)) == Render(fs)
    decreases |fs|
  {
    if fs != [] {
      var xs, x := fs[..|fs| - 1], fs[|fs| - 1];
      MergeKeepsRendering(xs, p);
      SnocInit(fs);
      MergedSnoc(xs, x, p);
      StepKeepsRendering(Merged(xs, p), x, p);
      AppendRenders(Merged(xs, p), xs, x, p);
    }
  }

  lemma StepKeepsRendering(m: seq<Fragment>, x: Fragment, p: Policy)
    requires Conserving(p)
    ensures Render(MergedStep(m, x, p)) == Render(m + [x])
  {
    if m != [] && p.accept(m[|m| - 1], x) {
      var front, last := m[..|m| - 1], m[|m| - 1];
      var u := p.join(last, x);
      assert Conserves(p, last, x);
      assert m + [x] == front + [last] + [x];
      TextsConcat(front + [last], [x]);
      TextsConcat(front, [last]);
      TextsConcat(front, [u]);
      var ts, a, b := FragmentTexts(front), FragmentText(last), FragmentText(x);
      assert FragmentTexts([last]) == [a] && FragmentTexts([x]) == [b] && FragmentTexts([u]) == [a + "\n" + b];
      assert ts + [a] + [b] == ts + [a, b] + [] && ts + [a + "\n" + b] == ts + [a + "\n" + b] + [];
      JoinFuse(ts, a, b, [], "\n");
    }
  }

  lemma AppendRenders(m: seq<Fragment>, xs: seq<Fragment>, x: Fragment, p: Policy)
    requires m == Merged(xs, p) && Render(m) == Render(xs)
    ensures Render(m + [x]) == Render(xs + [x])
  {
    TextsConcat(m, [x]);
    TextsConcat(xs, [x]);
    if xs != [] {
      JoinConcat(FragmentTexts(m), FragmentTexts([x]), "\n");
      JoinConcat(FragmentTexts(xs), FragmentTexts([x]), "\n");
    }
  }

  /** The evidence trails of a whole list, in order. */
  function Trail(fs: seq<Fragment>): seq<(Option<nat>, Option<BoundingBox>, real)> {
    if fs == [] then [] else Trail(fs[..|fs| - 1]) + Provenance(fs[|fs| - 1].evidence)
  }

  lemma TrailSnoc(fs: seq<Fragment>, x: Fragment)
    ensures Trail(fs + [x]) == Trail(fs) + Provenance(x.evidence)
  {
    InitSnoc(fs, x);
  }

  lemma JoinProvenance(p: Policy, a: Fragment, b: Fragment)
    requires Conserving(p) && p.accept(a, b)
    ensures Provenance(p.join(a, b).evidence) == Provenance(a.evidence) + Provenance(b.evidence)
  {
    assert Conserves(p, a, b);
  }

  lemma StepTrail(m: seq<Fragment>, x: Fragment, p: Policy)
    requires Conserving(p)
    ensures Trail(MergedStep(m, x, p)) == Trail(m) + Provenance(x.evidence)
  {
    if m != [] && p.accept(m[|m| - 1], x) {
      JoinProvenance(p, m[|m| - 1], x);
      TrailSnoc(m[..|m| - 1], p.join(m[|m| - 1], x));
      Assoc(Trail(m[..|m| - 1]), Provenance(m[|m| - 1].evidence), Provenance(x.evidence));
    } else {
      TrailSnoc(m, x);
    }
  }

  /** No evidence is lost, invented or reordered by a merge pass. */
  lemma {:induction false} MergeKeepsTrail(fs: seq<Fragment>, p: Policy)
    requires Conserving(p)
    ensures Trail(Merged(fs, p)) == Trail(fs)
    decreases |fs|
  {
    if fs != [] {
      var xs, x := fs[..|fs| - 1], fs[|fs| - 1];
      MergeKeepsTrail(xs, p);
      SnocInit(fs);
      MergedSnoc(xs, x, p);
      StepTrail(Merged(xs, p), x, p);
    }
  }

  ghost function Ids(fs: seq<Fragment>): set<string> {
    set i | 0 <= i < |fs| :: fs[i].id
  }

  lemma StepIds(m: seq<Fragment>, x: Fragment, p: Policy)
    requires Conserving(p) && DistinctIds(m) && x.id !in Ids(m)
    ensures DistinctIds(MergedStep(m, x, p)) && Ids(MergedStep(m, x, p)) <= Ids(m) + {x.id}
  {
    if m != [] && p.accept(m[|m| - 1], x) {
      assert Conserves(p, m[|m| - 1], x);
      assert m[|m| - 1].id in Ids(m);
    }
  }

  lemma IdsSnoc(fs: seq<Fragment>, x: Fragment)
    ensures Ids(fs + [x]) == Ids(fs) + {x.id}
    ensures DistinctIds(fs + [x]) <==> DistinctIds(fs) && x.id !in Ids(fs)
  {
    var all := fs + [x];
    forall s | s in Ids(fs) + {x.id} ensures s in Ids(all) {
      if s in Ids(fs) {
        var i :| 0 <= i < |fs| && fs[i].id == s;
        assert all[i].id == s;
      } else {
        assert all[|fs|].id == s;
      }
    }
    if DistinctIds(all) {
      assert forall i :: 0 <= i < |fs| ==> all[i].id == fs[i].id && all[|fs|].id == x.id;
    }
  }

  /** Merging keeps ids distinct: each unit has the id of its run's first
      fragment. */
  lemma {:induction false} MergeKeepsIds(fs: seq<Fragment>, p: Policy)
    requires Conserving(p) && DistinctIds(fs)
    ensures DistinctIds(Merged(fs, p)) && Ids(Merged(fs, p)) <= Ids(fs)
    decreases |fs|
  {
    if fs != [] {
      var xs, x := fs[..|fs| - 1], fs[|fs| - 1];
      SnocInit(fs);
      IdsSnoc(xs, x);
      MergeKeepsIds(xs, p);
      MergedSnoc(xs, x, p);
      StepIds(Merged(xs, p), x, p);
    }
  }

  /** A policy that never accepts leaves the list alone. */
  lemma {:induction false} MergeNever(fs: seq<Fragment>, p: Policy)
    requires forall a, b :: !p.accept(a, b)
    ensures Merged(fs, p) == fs
    decreases |fs|
  {
    if fs != [] {
      MergeNever(fs[..|fs| - 1], p);
      SnocInit(fs);
      MergedSnoc(fs[..|fs| - 1], fs[|fs| - 1], p);
    }
  }
}
