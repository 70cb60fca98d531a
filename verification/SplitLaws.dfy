/** Where the two split passes cut and what the pieces are, with similarity,
    threshold and sizes spelled out. */
module SplitLaws {
  import opened Seqs
  import opened Text
  import opened Numerals
  import opened Sentences
  import opened Fragments
  import opened Runs
  import opened MergePasses
  import opened SplitPasses

  /** Piece `n`: the text of its units, the parent's id with a numbered suffix,
      the evidence renamed to the pass, every other field the parent's. */
  ghost predicate IsPiece(p: Fragment, f: Fragment, units: seq<string>, n: nat, suffix: string, extractor: string) {
    && p.id == f.id + suffix + Decimal(n) && p.content == TextContent(Join(units, " "))
    && p.modality == f.modality && p.context == f.context && p.source == f.source && p.confidence == f.confidence
    && |p.evidence| == |f.evidence|
    && forall i :: 0 <= i < |f.evidence| ==> p.evidence[i] == f.evidence[i].(extractor := extractor)
  }

  /** The fragment as it was, or one piece per segment if there are several. */
  ghost predicate IsCut(out: seq<Fragment>, f: Fragment, segments: seq<seq<string>>, suffix: string, extractor: string) {
    if |segments| < 2 then out == [f]
    else |out| == |segments| && forall n :: 0 <= n < |segments| ==> IsPiece(out[n], f, segments[n], n, suffix, extractor)
  }

  /** Contiguous segments of the sentence units of a text. */
  ghost predicate Segmented(text: string, segments: seq<seq<string>>) {
    Flatten(segments) == Units(text) && forall k :: 0 <= k < |segments| ==> segments[k] != []
  }

  lemma SplitOneCuts(f: Fragment, s: Splitter)
    requires f.content.TextContent? && s.gate(f.content.text)
    ensures var segments := Segments(f.content.text, s);
      IsRunPartition(segments, Units(f.content.text), s.fits) && IsCut(SplitOne(f, s), f, segments, s.suffix, s.extractor)
  {
    PackIsPartition(Units(f.content.text), s.fits);
  }

  // ---- Semantic ------------------------------------------------------------------

  /** A unit joins a segment exactly while it is similar to the segment so far. */
  ghost predicate CutBySimilarity(segments: seq<seq<string>>, sim: Similarity, threshold: real) {
    && (forall k :: 0 <= k < |segments| ==> Coherent(segments[k], sim, threshold))
    && (forall k :: 1 <= k < |segments| ==> segments[k] != [] && sim(Join(segments[k - 1], " "), segments[k][0]) < threshold)
  }

  ghost predicate Coherent(segment: seq<string>, sim: Similarity, threshold: real) {
    forall j :: 1 <= j < |segment| ==> sim(Join(segment[..j], " "), segment[j]) >= threshold
  }

  /** What the semantic pass makes of one fragment. */
  ghost predicate SemanticCut(
    f: Fragment, out: seq<Fragment>, segments: seq<seq<string>>,
    sim: Similarity, threshold: real, minChars: nat, extractor: string)
  {
    if f.content.TextContent? && |f.content.text| >= minChars then
      && Segmented(f.content.text, segments) && CutBySimilarity(segments, sim, threshold)
      && IsCut(out, f, segments, "-s", extractor)
    else out == [f]
  }

  lemma SemanticCutIs(f: Fragment, sim: Similarity, threshold: real, minChars: nat, extractor: string)
    returns (segments: seq<seq<string>>)
    ensures SemanticCut(f, SplitOne(f, Semantic(sim, threshold, minChars, extractor)), segments,
                        sim, threshold, minChars, extractor)
  {
    var s := Semantic(sim, threshold, minChars, extractor);
    segments := [];
    if f.content.TextContent? && |f.content.text| >= minChars {
      SplitOneCuts(f, s);
      segments := Segments(f.content.text, s);
      SemanticPartition(segments, Units(f.content.text), sim, threshold, minChars, extractor);
    }
  }

  lemma SemanticPartition(
    segments: seq<seq<string>>, units: seq<string>, sim: Similarity, threshold: real, minChars: nat, extractor: string)
    requires IsRunPartition(segments, units, Semantic(sim, threshold, minChars, extractor).fits)
    ensures CutBySimilarity(segments, sim, threshold)
  {
    var fits := Semantic(sim, threshold, minChars, extractor).fits;
    forall k | 0 <= k < |segments| ensures Coherent(segments[k], sim, threshold) {
      assert Grown(segments[k], fits);
      forall j | 1 <= j < |segments[k]| ensures sim(Join(segments[k][..j], " "), segments[k][j]) >= threshold {
        assert fits(segments[k][..j], segments[k][j]);
      }
    }
    forall k | 1 <= k < |segments| ensures sim(Join(segments[k - 1], " "), segments[k][0]) < threshold {
      assert !fits(segments[k - 1], segments[k][0]);
    }
  }

  // ---- Ceiling ---------------------------------------------------------------------

  /** A unit joins a piece exactly while the joined bytes stay within the limit. */
  ghost predicate CutBySize(pieces: seq<seq<string>>, maxChars: nat) {
    && (forall k :: 0 <= k < |pieces| ==> WithinLimit(pieces[k], maxChars))
    && (forall k :: 1 <= k < |pieces| ==>
          pieces[k] != [] && ByteLen(Join(pieces[k - 1] + [pieces[k][0]], " ")) > maxChars)
  }

  ghost predicate WithinLimit(piece: seq<string>, maxChars: nat) {
    forall j :: 1 <= j < |piece| ==> ByteLen(Join(piece[..j] + [piece[j]], " ")) <= maxChars
  }

  /** What the ceiling pass makes of one fragment. */
  ghost predicate CeilingCut(
    f: Fragment, out: seq<Fragment>, pieces: seq<seq<string>>, maxChars: nat, extractor: string)
  {
    if f.content.TextContent? && |f.content.text| > maxChars then
      && Segmented(f.content.text, pieces) && CutBySize(pieces, maxChars) && IsCut(out, f, pieces, "-l", extractor)
    else out == [f]
  }

  lemma CeilingCutIs(f: Fragment, maxChars: nat, extractor: string) returns (pieces: seq<seq<string>>)
    ensures CeilingCut(f, SplitOne(f, Ceiling(maxChars, extractor)), pieces, maxChars, extractor)
  {
    var s := Ceiling(maxChars, extractor);
    pieces := [];
    if f.content.TextContent? && |f.content.text| > maxChars {
      SplitOneCuts(f, s);
      pieces := Segments(f.content.text, s);
      CeilingPartition(pieces, Units(f.content.text), maxChars, extractor);
    }
  }

  lemma FitsBytes(piece: seq<string>, u: string, maxChars: nat, extractor: string)
    requires piece != []
    ensures Ceiling(maxChars, extractor).fits(piece, u) <==> ByteLen(Join(piece + [u], " ")) <= maxChars
  {
    JoinedBytesAre(piece + [u]);
    InitSnoc(piece, u);
  }

  lemma CeilingPartition(pieces: seq<seq<string>>, units: seq<string>, maxChars: nat, extractor: string)
    requires IsRunPartition(pieces, units, Ceiling(maxChars, extractor).fits)
    ensures CutBySize(pieces, maxChars)
  {
    var fits := Ceiling(maxChars, extractor).fits;
    forall k | 0 <= k < |pieces| ensures WithinLimit(pieces[k], maxChars) {
      assert Grown(pieces[k], fits);
      forall j | 1 <= j < |pieces[k]| ensures ByteLen(Join(pieces[k][..j] + [pieces[k][j]], " ")) <= maxChars {
        assert fits(pieces[k][..j], pieces[k][j]);
        FitsBytes(pieces[k][..j], pieces[k][j], maxChars, extractor);
      }
    }
    forall k | 1 <= k < |pieces| ensures ByteLen(Join(pieces[k - 1] + [pieces[k][0]], " ")) > maxChars {
      assert Grown(pieces[k - 1], fits) && !fits(pieces[k - 1], pieces[k][0]);
      FitsBytes(pieces[k - 1], pieces[k][0], maxChars, extractor);
    }
  }

  // ---- Whole lists --------------------------------------------------------------------

  type CutRule = (Fragment, seq<Fragment>, seq<seq<string>>) -> bool

  /** Every fragment is cut by the rule. */
  ghost predicate AllCut(fs: seq<Fragment>, parts: seq<seq<Fragment>>, segments: seq<seq<seq<string>>>, rule: CutRule) {
    |parts| == |segments| == |fs| && forall i :: 0 <= i < |fs| ==> rule(fs[i], parts[i], segments[i])
  }

  lemma AllCutSnoc(
    fs: seq<Fragment>, parts: seq<seq<Fragment>>, segments: seq<seq<seq<string>>>, rule: CutRule,
    f: Fragment, part: seq<Fragment>, segment: seq<seq<string>>)
    requires AllCut(fs, parts, segments, rule) && rule(f, part, segment)
    ensures AllCut(fs + [f], parts + [part], segments + [segment], rule)
  {
  }

  ghost function SemanticRule(sim: Similarity, threshold: real, minChars: nat, extractor: string): CutRule {
    (f, out, segments) => SemanticCut(f, out, segments, sim, threshold, minChars, extractor)
  }

  ghost function CeilingRule(maxChars: nat, extractor: string): CutRule {
    (f, out, pieces) => CeilingCut(f, out, pieces, maxChars, extractor)
  }

  lemma PartsSnoc(fs: seq<Fragment>, parts: seq<seq<Fragment>>, s: Splitter)
    requires fs != [] && Flatten(parts) == SplitAll(fs[..|fs| - 1], s)
    ensures Flatten(parts + [SplitOne(fs[|fs| - 1], s)]) == SplitAll(fs, s)
  {
    FlattenSnoc(parts, SplitOne(fs[|fs| - 1], s));
  }

  /** The semantic pass works fragment by fragment, in order. */
  lemma {:induction false} SemanticSplitIs(fs: seq<Fragment>, sim: Similarity, threshold: real, minChars: nat, extractor: string)
    returns (parts: seq<seq<Fragment>>, segments: seq<seq<seq<string>>>)
    ensures Flatten(parts) == SplitAll(fs, Semantic(sim, threshold, minChars, extractor))
    ensures AllCut(fs, parts, segments, SemanticRule(sim, threshold, minChars, extractor))
  {
    parts, segments := [], [];
    if fs != [] {
      var s, n := Semantic(sim, threshold, minChars, extractor), |fs| - 1;
      parts, segments := SemanticSplitIs(fs[..n], sim, threshold, minChars, extractor);
      var last := SemanticCutIs(fs[n], sim, threshold, minChars, extractor);
      AllCutSnoc(fs[..n], parts, segments, SemanticRule(sim, threshold, minChars, extractor), fs[n], SplitOne(fs[n], s), last);
      SnocInit(fs);
      PartsSnoc(fs, parts, s);
      parts, segments := parts + [SplitOne(fs[n], s)], segments + [last];
    }
  }

  /** The ceiling pass works fragment by fragment, in order. */
  lemma {:induction false} CeilingSplitIs(fs: seq<Fragment>, maxChars: nat, extractor: string)
    returns (parts: seq<seq<Fragment>>, pieces: seq<seq<seq<string>>>)
    ensures Flatten(parts) == SplitAll(fs, Ceiling(maxChars, extractor))
    ensures AllCut(fs, parts, pieces, CeilingRule(maxChars, extractor))
  {
    parts, pieces := [], [];
    if fs != [] {
      var s, n := Ceiling(maxChars, extractor), |fs| - 1;
      parts, pieces := CeilingSplitIs(fs[..n], maxChars, extractor);
      var last := CeilingCutIs(fs[n], maxChars, extractor);
      AllCutSnoc(fs[..n], parts, pieces, CeilingRule(maxChars, extractor), fs[n], SplitOne(fs[n], s), last);
      SnocInit(fs);
      PartsSnoc(fs, parts, s);
      parts, pieces := parts + [SplitOne(fs[n], s)], pieces + [last];
    }
  }
}
