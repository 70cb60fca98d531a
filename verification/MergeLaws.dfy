/** Which boundaries the three merge loops dissolve and what they put in their
    place, with scorer, similarity and threshold spelled out. */
module MergeLaws {
  import opened Seqs
  import opened Wrappers
  import opened Fragments
  import opened Runs
  import opened MergePasses

  /** Contiguous runs of the input, the unit after every fragment of a run, and
      the last of these units as the output. */
  ghost predicate Layout(fs: seq<Fragment>, runs: seq<seq<Fragment>>, units: seq<seq<Fragment>>, out: seq<Fragment>) {
    && Flatten(runs) == fs && |units| == |runs| && |out| == |runs|
    && forall k :: 0 <= k < |runs| ==> RunLayout(runs[k], units[k], out[k])
  }

  ghost predicate RunLayout(run: seq<Fragment>, units: seq<Fragment>, out: Fragment) {
    run != [] && |units| == |run| && units[0] == run[0] && units[|units| - 1] == out
  }

  // ---- Any policy ------------------------------------------------------------------

  ghost predicate RunAccepted(run: seq<Fragment>, units: seq<Fragment>, p: Policy)
    requires |units| == |run|
  {
    forall j :: 1 <= j < |run| ==> p.accept(units[j - 1], run[j]) && units[j] == p.join(units[j - 1], run[j])
  }

  ghost predicate PolicyOutcome(
    fs: seq<Fragment>, runs: seq<seq<Fragment>>, units: seq<seq<Fragment>>, out: seq<Fragment>, p: Policy)
  {
    && Layout(fs, runs, units, out)
    && (forall k :: 0 <= k < |runs| ==> RunAccepted(runs[k], units[k], p))
    && (forall k :: 1 <= k < |runs| ==> !p.accept(out[k - 1], runs[k][0]))
  }

  /** The units of a run accumulated under the policy. */
  function FoldSteps(run: seq<Fragment>, p: Policy): seq<Fragment> {
    seq(|run|, j requires 0 <= j < |run| => FoldRun(run[..j + 1], p))
  }

  lemma FoldStep(run: seq<Fragment>, p: Policy, j: nat)
    requires 1 <= j < |run|
    ensures FoldRun(run[..j + 1], p) == p.join(FoldRun(run[..j], p), run[j])
  {
    TakeTwice(run, j);
  }

  lemma StepAccepted(run: seq<Fragment>, p: Policy, j: nat)
    requires Grown(run, Joins(p)) && 1 <= j < |run|
    ensures var units := FoldSteps(run, p);
      p.accept(units[j - 1], run[j]) && units[j] == p.join(units[j - 1], run[j])
  {
    FoldStep(run, p, j);
    assert Joins(p)(run[..j], run[j]);
  }

  lemma StepEnds(run: seq<Fragment>, p: Policy)
    requires run != []
    ensures RunLayout(run, FoldSteps(run, p), FoldRun(run, p))
  {
    assert run[..1] == [run[0]];
    TakeAll(run);
  }

  lemma RunFolds(run: seq<Fragment>, p: Policy)
    requires Grown(run, Joins(p))
    ensures RunLayout(run, FoldSteps(run, p), FoldRun(run, p)) && RunAccepted(run, FoldSteps(run, p), p)
  {
    StepEnds(run, p);
    forall j | 1 <= j < |run|
      ensures p.accept(FoldSteps(run, p)[j - 1], run[j])
        && FoldSteps(run, p)[j] == p.join(FoldSteps(run, p)[j - 1], run[j])
    {
      StepAccepted(run, p, j);
    }
  }

  lemma {:induction false} UnitIsFold(run: seq<Fragment>, units: seq<Fragment>, p: Policy, j: nat)
    requires |units| == |run| && j < |run| && units[0] == run[0] && RunAccepted(run, units, p)
    ensures units[j] == FoldRun(run[..j + 1], p)
  {
    if j == 0 {
      assert run[..1] == [run[0]];
    } else {
      UnitIsFold(run, units, p, j - 1);
      FoldStep(run, p, j);
      assert p.accept(units[j - 1], run[j]);
    }
  }

  lemma RunGrown(run: seq<Fragment>, units: seq<Fragment>, out: Fragment, p: Policy)
    requires RunLayout(run, units, out) && RunAccepted(run, units, p)
    ensures Grown(run, Joins(p)) && out == FoldRun(run, p)
  {
    forall j | 1 <= j < |run| ensures Joins(p)(run[..j], run[j]) {
      UnitIsFold(run, units, p, j - 1);
      assert p.accept(units[j - 1], run[j]);
    }
    UnitIsFold(run, units, p, |run| - 1);
    TakeAll(run);
  }

  lemma PartitionOutcome(fs: seq<Fragment>, runs: seq<seq<Fragment>>, units: seq<seq<Fragment>>, out: seq<Fragment>, p: Policy)
    requires IsRunPartition(runs, fs, Joins(p)) && |out| == |runs| == |units|
    requires forall k :: 0 <= k < |runs| ==> units[k] == FoldSteps(runs[k], p) && out[k] == FoldRun(runs[k], p)
    ensures PolicyOutcome(fs, runs, units, out, p)
  {
    forall k | 0 <= k < |runs| ensures RunLayout(runs[k], units[k], out[k]) && RunAccepted(runs[k], units[k], p) {
      RunFolds(runs[k], p);
    }
    forall k | 1 <= k < |runs| ensures !p.accept(out[k - 1], runs[k][0]) {
      assert !Joins(p)(runs[k - 1], runs[k][0]);
    }
  }

  lemma MergedOutcome(fs: seq<Fragment>, p: Policy) returns (runs: seq<seq<Fragment>>, units: seq<seq<Fragment>>)
    ensures PolicyOutcome(fs, runs, units, Merged(fs, p), p)
  {
    runs := Pack(fs, Joins(p));
    units := seq(|runs|, k requires 0 <= k < |runs| => FoldSteps(runs[k], p));
    PackIsPartition(fs, Joins(p));
    PartitionOutcome(fs, runs, units, Merged(fs, p), p);
  }

  lemma OutcomeMerged(
    fs: seq<Fragment>, runs: seq<seq<Fragment>>, units: seq<seq<Fragment>>, out: seq<Fragment>, p: Policy)
    requires PolicyOutcome(fs, runs, units, out, p)
    ensures out == Merged(fs, p)
  {
    forall k | 0 <= k < |runs| ensures Grown(runs[k], Joins(p)) && out[k] == FoldRun(runs[k], p) {
      RunGrown(runs[k], units[k], out[k], p);
    }
    forall k | 1 <= k < |runs| ensures !Joins(p)(runs[k - 1], runs[k][0]) {
      assert !p.accept(out[k - 1], runs[k][0]);
    }
    MergeIsUniquePartition(fs, p, runs);
    assert out == FoldRuns(runs, p);
  }

  // ---- Transformer -------------------------------------------------------------------

  /** The scorer holds the two for one unit; the unit records its model. */
  ghost predicate ScoredTogether(u: Fragment, x: Fragment, v: Fragment, scorer: Scorer, threshold: real) {
    var score := scorer(u, x);
    score.Some? && score.value.probability >= threshold
    && v == MergePair(u, x, Some(score.value.model), "transformer_boundary")
  }

  ghost predicate ScoredApart(u: Fragment, x: Fragment, scorer: Scorer, threshold: real) {
    var score := scorer(u, x);
    score.None? || score.value.probability < threshold
  }

  ghost predicate TransformerOutcome(
    fs: seq<Fragment>, runs: seq<seq<Fragment>>, units: seq<seq<Fragment>>, out: seq<Fragment>, scorer: Scorer, threshold: real)
  {
    && Layout(fs, runs, units, out)
    && (forall k :: 0 <= k < |runs| ==> TransformerRun(runs[k], units[k], scorer, threshold))
    && (forall k :: 1 <= k < |runs| ==> ScoredApart(out[k - 1], runs[k][0], scorer, threshold))
  }

  ghost predicate TransformerRun(run: seq<Fragment>, units: seq<Fragment>, scorer: Scorer, threshold: real)
    requires |units| == |run|
  {
    forall j :: 1 <= j < |run| ==> ScoredTogether(units[j - 1], run[j], units[j], scorer, threshold)
  }

  lemma TransformerSpelled(
    fs: seq<Fragment>, runs: seq<seq<Fragment>>, units: seq<seq<Fragment>>, out: seq<Fragment>, scorer: Scorer, threshold: real)
    ensures TransformerOutcome(fs, runs, units, out, scorer, threshold) <==> PolicyOutcome(fs, runs, units, out, TransformerPolicy(scorer, threshold))
  {
    var p := TransformerPolicy(scorer, threshold);
    forall u, x, v
      ensures ScoredTogether(u, x, v, scorer, threshold) <==> p.accept(u, x) && v == p.join(u, x)
      ensures ScoredApart(u, x, scorer, threshold) <==> !p.accept(u, x)
    {
    }
    if Layout(fs, runs, units, out) {
      forall k | 0 <= k < |runs| ensures TransformerRun(runs[k], units[k], scorer, threshold) <==> RunAccepted(runs[k], units[k], p) {
      }
    }
  }

  /** The transformer loop dissolves a boundary exactly when the scorer has a score
      for the unit so far and the next fragment that reaches the threshold. */
  lemma TransformerMergeExactly(fs: seq<Fragment>, out: seq<Fragment>, scorer: Scorer, threshold: real)
    ensures out == Merged(fs, TransformerPolicy(scorer, threshold)) <==> exists runs, units :: TransformerOutcome(fs, runs, units, out, scorer, threshold)
  {
    if out == Merged(fs, TransformerPolicy(scorer, threshold)) {
      var runs, units := MergedOutcome(fs, TransformerPolicy(scorer, threshold));
      TransformerSpelled(fs, runs, units, out, scorer, threshold);
    }
    if runs, units :| TransformerOutcome(fs, runs, units, out, scorer, threshold) {
      TransformerSpelled(fs, runs, units, out, scorer, threshold);
      OutcomeMerged(fs, runs, units, out, TransformerPolicy(scorer, threshold));
    }
  }

  // ---- Hybrid ----------------------------------------------------------------------------

  /** The optional scorer's score of the two reaches 0.7. */
  ghost predicate Trusted(u: Fragment, x: Fragment, scorer: Option<Scorer>) {
    scorer.Some? && scorer.value(u, x).Some? && scorer.value(u, x).value.probability >= 0.7
  }

  /** Similar renderings or a trusted score; a model is recorded exactly for a
      trusted score. */
  ghost predicate HybridTogether(
    u: Fragment, x: Fragment, v: Fragment, sim: Similarity, scorer: Option<Scorer>, threshold: real)
  {
    && (sim(FragmentText(u), FragmentText(x)) >= threshold || Trusted(u, x, scorer))
    && v == MergePair(u, x, if Trusted(u, x, scorer) then Some(scorer.value(u, x).value.model) else None, "hybrid_boundary")
  }

  ghost predicate HybridApart(u: Fragment, x: Fragment, sim: Similarity, scorer: Option<Scorer>, threshold: real) {
    sim(FragmentText(u), FragmentText(x)) < threshold && !Trusted(u, x, scorer)
  }

  ghost predicate HybridOutcome(
    fs: seq<Fragment>, runs: seq<seq<Fragment>>, units: seq<seq<Fragment>>, out: seq<Fragment>, sim: Similarity, scorer: Option<Scorer>, threshold: real)
  {
    && Layout(fs, runs, units, out)
    && (forall k :: 0 <= k < |runs| ==> HybridRun(runs[k], units[k], sim, scorer, threshold))
    && (forall k :: 1 <= k < |runs| ==> HybridApart(out[k - 1], runs[k][0], sim, scorer, threshold))
  }

  ghost predicate HybridRun(run: seq<Fragment>, units: seq<Fragment>, sim: Similarity, scorer: Option<Scorer>, threshold: real)
    requires |units| == |run|
  {
    forall j :: 1 <= j < |run| ==> HybridTogether(units[j - 1], run[j], units[j], sim, scorer, threshold)
  }

  lemma HybridSpelled(
    fs: seq<Fragment>, runs: seq<seq<Fragment>>, units: seq<seq<Fragment>>, out: seq<Fragment>, sim: Similarity, scorer: Option<Scorer>, threshold: real)
    ensures HybridOutcome(fs, runs, units, out, sim, scorer, threshold) <==> PolicyOutcome(fs, runs, units, out, HybridPolicy(sim, scorer, threshold))
  {
    var p := HybridPolicy(sim, scorer, threshold);
    forall u, x, v
      ensures HybridTogether(u, x, v, sim, scorer, threshold) <==> p.accept(u, x) && v == p.join(u, x)
      ensures HybridApart(u, x, sim, scorer, threshold) <==> !p.accept(u, x)
    {
    }
    if Layout(fs, runs, units, out) {
      forall k | 0 <= k < |runs| ensures HybridRun(runs[k], units[k], sim, scorer, threshold) <==> RunAccepted(runs[k], units[k], p) {
      }
    }
  }

  /** The hybrid loop dissolves a boundary exactly when the renderings are similar
      enough or the scorer is sure enough. */
  lemma HybridMergeExactly(fs: seq<Fragment>, out: seq<Fragment>, sim: Similarity, scorer: Option<Scorer>, threshold: real)
    ensures out == Merged(fs, HybridPolicy(sim, scorer, threshold)) <==> exists runs, units :: HybridOutcome(fs, runs, units, out, sim, scorer, threshold)
  {
    if out == Merged(fs, HybridPolicy(sim, scorer, threshold)) {
      var runs, units := MergedOutcome(fs, HybridPolicy(sim, scorer, threshold));
      HybridSpelled(fs, runs, units, out, sim, scorer, threshold);
    }
    if runs, units :| HybridOutcome(fs, runs, units, out, sim, scorer, threshold) {
      HybridSpelled(fs, runs, units, out, sim, scorer, threshold);
      OutcomeMerged(fs, runs, units, out, HybridPolicy(sim, scorer, threshold));
    }
  }

  // ---- Embedding ---------------------------------------------------------------------------

  /** Two texts similar enough become one text on two lines; id, context, source
      and confidence of the first and the evidence of both stay. */
  ghost predicate EmbeddedTogether(u: Fragment, x: Fragment, v: Fragment, sim: Similarity, threshold: real) {
    && u.content.TextContent? && x.content.TextContent? && sim(u.content.text, x.content.text) >= threshold
    && v == u.(content := TextContent(u.content.text + "\n" + x.content.text), evidence := u.evidence + x.evidence)
  }

  ghost predicate EmbeddedApart(u: Fragment, x: Fragment, sim: Similarity, threshold: real) {
    !u.content.TextContent? || !x.content.TextContent? || sim(u.content.text, x.content.text) < threshold
  }

  ghost predicate EmbeddingOutcome(
    fs: seq<Fragment>, runs: seq<seq<Fragment>>, units: seq<seq<Fragment>>, out: seq<Fragment>, sim: Similarity, threshold: real)
  {
    && Layout(fs, runs, units, out)
    && (forall k :: 0 <= k < |runs| ==> EmbeddingRun(runs[k], units[k], sim, threshold))
    && (forall k :: 1 <= k < |runs| ==> EmbeddedApart(out[k - 1], runs[k][0], sim, threshold))
  }

  ghost predicate EmbeddingRun(run: seq<Fragment>, units: seq<Fragment>, sim: Similarity, threshold: real)
    requires |units| == |run|
  {
    forall j :: 1 <= j < |run| ==> EmbeddedTogether(units[j - 1], run[j], units[j], sim, threshold)
  }

  lemma EmbeddingSpelled(
    fs: seq<Fragment>, runs: seq<seq<Fragment>>, units: seq<seq<Fragment>>, out: seq<Fragment>, sim: Similarity, threshold: real)
    ensures EmbeddingOutcome(fs, runs, units, out, sim, threshold) <==> PolicyOutcome(fs, runs, units, out, EmbeddingPolicy(sim, threshold))
  {
    var p := EmbeddingPolicy(sim, threshold);
    forall u, x, v
      ensures EmbeddedTogether(u, x, v, sim, threshold) <==> p.accept(u, x) && v == p.join(u, x)
      ensures EmbeddedApart(u, x, sim, threshold) <==> !p.accept(u, x)
    {
    }
    if Layout(fs, runs, units, out) {
      forall k | 0 <= k < |runs| ensures EmbeddingRun(runs[k], units[k], sim, threshold) <==> RunAccepted(runs[k], units[k], p) {
      }
    }
  }

  /** The embedding loop dissolves a boundary exactly when both sides are texts
      and similar enough. */
  lemma EmbeddingMergeExactly(fs: seq<Fragment>, out: seq<Fragment>, sim: Similarity, threshold: real)
    ensures out == Merged(fs, EmbeddingPolicy(sim, threshold)) <==> exists runs, units :: EmbeddingOutcome(fs, runs, units, out, sim, threshold)
  {
    if out == Merged(fs, EmbeddingPolicy(sim, threshold)) {
      var runs, units := MergedOutcome(fs, EmbeddingPolicy(sim, threshold));
      EmbeddingSpelled(fs, runs, units, out, sim, threshold);
    }
    if runs, units :| EmbeddingOutcome(fs, runs, units, out, sim, threshold) {
      EmbeddingSpelled(fs, runs, units, out, sim, threshold);
      OutcomeMerged(fs, runs, units, out, EmbeddingPolicy(sim, threshold));
    }
  }

  // ---- The merged pair ------------------------------------------------------------------------

  /** Every field of a merged pair. */
  lemma MergePairIs(a: Fragment, b: Fragment, viaModel: Option<string>, extractor: string)
    ensures var u := MergePair(a, b, viaModel, extractor);
      && u.id == a.id && u.context == a.context && u.source == a.source && u.confidence == a.confidence
      && (if a.content.TextContent? && b.content.TextContent?
          then u.modality == a.modality && u.content == TextContent(a.content.text + "\n" + b.content.text)
          else u.modality == MixedKind && u.content == MixedContent([a.(modality := MixedKind), b]))
      && |u.evidence| == |a.evidence| + |b.evidence|
      && (forall i :: 0 <= i < |a.evidence| ==> Stamped(u.evidence[i], a.evidence[i], viaModel, extractor))
      && (forall i :: 0 <= i < |b.evidence| ==> Stamped(u.evidence[|a.evidence| + i], b.evidence[i], viaModel, extractor))
  {
  }

  /** The entry renamed to the pass, and to the model if one decided. */
  ghost predicate Stamped(e: Evidence, was: Evidence, viaModel: Option<string>, extractor: string) {
    && e.page == was.page && e.region == was.region && e.confidence == was.confidence && e.extractor == extractor
    && e.model == (if viaModel.Some? then viaModel else was.model)
  }
}
