/** The two passes that cut a long Text fragment at sentence boundaries: the
    size ceiling and the semantic split. */
module SplitPasses {
  import opened Seqs
  import opened Text
  import opened Wrappers
  import opened Numerals
  import opened Sentences
  import opened Fragments
  import opened Runs
  import opened MergePasses

  /** What distinguishes the two passes: which texts they look at, when a unit
      joins the running piece, and how pieces are tagged. */
  datatype Splitter = Splitter(
    gate: string -> bool, fits: (seq<string>, string) -> bool, suffix: string, extractor: string)

  /** Bytes of a piece joined with single spaces. */
  function JoinedBytes(piece: seq<string>): int {
    Load(piece, ByteLen) + |piece| - 1
  }

  /** The gate counts characters, the packing counts bytes. */
  function Ceiling(maxChars: nat, extractor: string): Splitter {
    Splitter(
      t => |t| > maxChars,
      (piece, u) => JoinedBytes(piece) + ByteLen(u) < maxChars,
      "-l", extractor)
  }

  function Semantic(sim: Similarity, threshold: real, minChars: nat, extractor: string): Splitter {
    Splitter(
      t => |t| >= minChars,
      (piece, u) => sim(Join(piece, " "), u) >= threshold,
      "-s", extractor)
  }

  function Segments(t: string, s: Splitter): seq<seq<string>> {
    Pack(Units(t), s.fits)
  }

  predicate Splits(f: Fragment, s: Splitter) {
    f.content.TextContent? && s.gate(f.content.text) && |Segments(f.content.text, s)| >= 2
  }

  /** One piece: the parent's geometry, context and evidence, its own text and
      a numbered id. */
  function Piece(f: Fragment, segment: seq<string>, n: nat, s: Splitter): Fragment {
    f.(id := f.id + s.suffix + Decimal(n),
       content := TextContent(Join(segment, " ")),
       evidence := Restamp(f.evidence, s.extractor, None))
  }

  function Pieces(f: Fragment, segments: seq<seq<string>>, s: Splitter): (r: seq<Fragment>)
    ensures |r| == |segments|
  {
    seq(|segments|, n requires 0 <= n < |segments| => Piece(f, segments[n], n, s))
  }

  function SplitOne(f: Fragment, s: Splitter): seq<Fragment> {
    if Splits(f, s) then Pieces(f, Segments(f.content.text, s), s) else [f]
  }

  function SplitAll(fs: seq<Fragment>, s: Splitter): seq<Fragment> {
    if fs == [] then [] else SplitAll(fs[..|fs| - 1], s) + SplitOne(fs[|fs| - 1], s)
  }

  lemma SplitNext(fs: seq<Fragment>, i: nat, s: Splitter)
    requires i < |fs|
    ensures SplitAll(fs[..i + 1], s) == SplitAll(fs[..i], s) + SplitOne(fs[i], s)
  {
    TakeTwice(fs, i);
  }

  // ---- The loops ---------------------------------------------------------

  method EmitPieces(f: Fragment, segments: seq<seq<string>>, s: Splitter, before: seq<Fragment>)
    returns (out: seq<Fragment>)
    ensures out == before + Pieces(f, segments, s)
  {
    out := before;
    for n := 0 to |segments|
      invariant out == before + Pieces(f, segments, s)[..n]
    {
      out := out + [Piece(f, segments[n], n, s)];
    }
  }

  /** The running list of pieces starts as one empty piece. */
  ghost predicate Packing(pieces: seq<seq<string>>, done: seq<string>, fits: (seq<string>, string) -> bool) {
    if done == [] then pieces == [[]] else pieces == Pack(done, fits)
  }

  lemma PackingStep(pieces: seq<seq<string>>, units: seq<string>, j: nat, fits: (seq<string>, string) -> bool)
    requires j < |units| && Packing(pieces, units[..j], fits)
    ensures pieces != []
    ensures var last := pieces[|pieces| - 1];
      Packing(if last == [] || fits(last, units[j]) then pieces[..|pieces| - 1] + [last + [units[j]]] else pieces + [[units[j]]],
              units[..j + 1], fits)
  {
    TakeNext(units, j);
    TakeTwice(units, j);
    if j == 0 {
      assert units[..0] == [] && [[]][..0] + [[] + [units[0]]] == [[units[0]]];
    }
  }

  /** The inner loop of the ceiling pass. */
  method PackUnits(units: seq<string>, maxChars: nat, s: Splitter) returns (pieces: seq<seq<string>>)
    requires units != [] && s == Ceiling(maxChars, s.extractor)
    ensures pieces == Pack(units, s.fits)
  {
    pieces := [[]];
    for j := 0 to |units|
      invariant Packing(pieces, units[..j], s.fits)
    {
      PackingStep(pieces, units, j, s.fits);
      var last := pieces[|pieces| - 1];
      if last == [] || JoinedBytes(last) + ByteLen(units[j]) < maxChars {
        pieces := pieces[..|pieces| - 1] + [last + [units[j]]];
      } else {
        pieces := pieces + [[units[j]]];
      }
    }
    TakeAll(units);
  }

  /** `split_text_at_ceiling`. */
  method SplitAtCeiling(fragments: seq<Fragment>, maxChars: nat, extractor: string) returns (out: seq<Fragment>)
    ensures out == SplitAll(fragments, Ceiling(maxChars, extractor))
  {
    out := [];
    var s := Ceiling(maxChars, extractor);
    for i := 0 to |fragments|
      invariant out == SplitAll(fragments[..i], s)
    {
      var f := fragments[i];
      SplitNext(fragments, i, s);
      if !f.content.TextContent? || |f.content.text| <= maxChars {
        out := out + [f];
        continue;
      }
      var units := Sentences.Split(f.content.text);
      if |units| < 2 {
        FewUnits(f.content.text, s);
        out := out + [f];
        continue;
      }
      var pieces := PackUnits(units, maxChars, s);
      if |pieces| == 1 {
        out := out + [f];
      } else {
        out := EmitPieces(f, pieces, s, out);
      }
    }
    TakeAll(fragments);
  }

  /** `split_text_fragments`. */
  method SplitTextFragments(fragments: seq<Fragment>, sim: Similarity, threshold: real, minChars: nat, extractor: string)
    returns (out: seq<Fragment>)
    ensures out == SplitAll(fragments, Semantic(sim, threshold, minChars, extractor))
  {
    out := [];
    var s := Semantic(sim, threshold, minChars, extractor);
    for i := 0 to |fragments|
      invariant out == SplitAll(fragments[..i], s)
    {
      var f := fragments[i];
      SplitNext(fragments, i, s);
      if !f.content.TextContent? || |f.content.text| < minChars {
        out := out + [f];
        continue;
      }
      var units := Sentences.Split(f.content.text);
      if |units| < 2 {
        FewUnits(f.content.text, s);
        out := out + [f];
        continue;
      }
      var segments: seq<seq<string>> := [[]];
      for j := 0 to |units|
        invariant Packing(segments, units[..j], s.fits)
      {
        PackingStep(segments, units, j, s.fits);
        var last := segments[|segments| - 1];
        if last == [] || sim(Join(last, " "), units[j]) >= threshold {
          segments := segments[..|segments| - 1] + [last + [units[j]]];
        } else {
          segments := segments + [[units[j]]];
        }
      }
      TakeAll(units);
      if |segments| == 1 {
        out := out + [f];
      } else {
        out := EmitPieces(f, segments, s, out);
      }
    }
    TakeAll(fragments);
  }

  lemma FewUnits(t: string, s: Splitter)
    requires |Units(t)| < 2
    ensures |Segments(t, s)| < 2
  {
    if |Units(t)| == 1 {
      assert Units(t)[..0] == [];
    }
  }

  // ---- What a piece keeps ---------------------------------------------------

  /** The piece has the fragment's place in the document and its evidence,
      re-stamped, and still is what its tag says. */
  ghost predicate PieceOf(g: Fragment, f: Fragment, extractor: string) {
    && g.context == f.context && g.source == f.source && g.confidence == f.confidence
    && Provenance(g.evidence) == Provenance(f.evidence)
    && (Agrees(f) ==> Agrees(g))
    && (g == f || forall e :: e in g.evidence ==> e.extractor == extractor)
  }

  lemma SplitOnePieces(f: Fragment, s: Splitter)
    ensures forall k :: 0 <= k < |SplitOne(f, s)| ==> PieceOf(SplitOne(f, s)[k], f, s.extractor)
  {
    if Splits(f, s) {
      RestampKeepsProvenance(f.evidence, s.extractor, None);
      var es := Restamp(f.evidence, s.extractor, None);
      forall e | e in es ensures e.extractor == s.extractor {
        var i :| 0 <= i < |es| && es[i] == e;
      }
    }
  }

  lemma {:induction false} SplitKeepsAgreement(fs: seq<Fragment>, s: Splitter)
    requires AllAgree(fs)
    ensures AllAgree(SplitAll(fs, s))
  {
    if fs != [] {
      SplitKeepsAgreement(fs[..|fs| - 1], s);
      var f := fs[|fs| - 1];
      SplitOnePieces(f, s);
      assert Agrees(f);
    }
  }

  // ---- Only whitespace changes --------------------------------------------

  function JoinEach(segments: seq<seq<string>>): seq<string> {
    seq(|segments|, n requires 0 <= n < |segments| => Join(segments[n], " "))
  }

  lemma {:induction false} SegmentsKeepSolid(segments: seq<seq<string>>)
    ensures Solid(Join(JoinEach(segments), "\n")) == Solid(Join(Flatten(segments), " "))
  {
    if segments != [] {
      var front, last := segments[..|segments| - 1], segments[|segments| - 1];
      SegmentsKeepSolid(front);
      assert JoinEach(segments) == JoinEach(front) + [Join(last, " ")];
      SolidJoinConcat(JoinEach(front), [Join(last, " ")], "\n");
      SolidJoinConcat(Flatten(front), last, " ");
    }
  }

  lemma PiecesRender(f: Fragment, segments: seq<seq<string>>, s: Splitter)
    ensures Render(Pieces(f, segments, s)) == Join(JoinEach(segments), "\n")
  {
    var ps := Pieces(f, segments, s);
    forall n | 0 <= n < |segments| ensures FragmentTexts(ps)[n] == JoinEach(segments)[n] {
      TextsAt(ps, n);
    }
    assert FragmentTexts(ps) == JoinEach(segments);
  }

  lemma SplitOneKeepsSolid(f: Fragment, s: Splitter)
    ensures Solid(Render(SplitOne(f, s))) == Solid(Render([f]))
  {
    if Splits(f, s) {
      var t := f.content.text;
      var segments := Segments(t, s);
      PiecesRender(f, segments, s);
      SegmentsKeepSolid(segments);
      PackIsPartition(Units(t), s.fits);
      JoinOfUnits(t);
      SolidConcat(Join(Units(t), " "), DroppedTail(t));
      SolidBlank(DroppedTail(t));
      assert FragmentTexts([f]) == [t];
    }
  }

  /** A split pass changes whitespace only. */
  lemma {:induction false} SplitKeepsSolid(fs: seq<Fragment>, s: Splitter)
    ensures Solid(Render(SplitAll(fs, s))) == Solid(Render(fs))
  {
    if fs != [] {
      var front, last := fs[..|fs| - 1], fs[|fs| - 1];
      SplitKeepsSolid(front, s);
      SplitOneKeepsSolid(last, s);
      SolidRenderBoth(SplitAll(front, s), SplitOne(last, s), front, [last]);
      SnocInit(fs);
    }
  }

  // ---- The size bound ------------------------------------------------------

  /** At most `maxChars` characters up to trailing blanks, or one sentence. */
  predicate WithinCeiling(t: string, maxChars: nat) {
    |TrimEnd(t)| <= maxChars || SingleSentence(t)
  }

  ghost predicate TextsWithin(fs: seq<Fragment>, maxChars: nat) {
    forall i :: 0 <= i < |fs| && fs[i].content.TextContent? ==> WithinCeiling(fs[i].content.text, maxChars)
  }

  lemma {:induction false} JoinedBytesAre(piece: seq<string>)
    requires piece != []
    ensures ByteLen(Join(piece, " ")) == JoinedBytes(piece)
  {
    if |piece| > 1 {
      var front, last := piece[..|piece| - 1], piece[|piece| - 1];
      JoinedBytesAre(front);
      ByteLenConcat(Join(front, " ") + " ", last);
      ByteLenConcat(Join(front, " "), " ");
      OneByte(' ');
    } else {
      assert Load(piece, ByteLen) == Load(piece[..0], ByteLen) + ByteLen(piece[0]);
      assert piece[..0] == [];
    }
  }

  /** Every packed piece is one unit or fits the ceiling in bytes. */
  lemma CeilingPieceFits(units: seq<string>, k: nat, maxChars: nat, extractor: string)
    requires k < |Pack(units, Ceiling(maxChars, extractor).fits)|
    ensures var piece := Pack(units, Ceiling(maxChars, extractor).fits)[k];
      |piece| == 1 || |Join(piece, " ")| <= maxChars
  {
    var fits := Ceiling(maxChars, extractor).fits;
    var piece := Pack(units, fits)[k];
    PackIsPartition(units, fits);
    assert Grown(piece, fits);
    if |piece| > 1 {
      var j := |piece| - 1;
      assert fits(piece[..j], piece[j]);
      JoinedBytesAre(piece);
    }
  }

  /** Segment `k` of a text is a contiguous run of its units. */
  lemma SegmentIsSubrun(t: string, s: Splitter, k: nat) returns (lo: nat, hi: nat)
    requires k < |Segments(t, s)|
    ensures lo < hi <= |Units(t)| && Segments(t, s)[k] == Units(t)[lo..hi]
  {
    var segments := Segments(t, s);
    PackIsPartition(Units(t), s.fits);
    FlattenAround(segments, k);
    lo := |Flatten(segments[..k])|;
    hi := lo + |segments[k]|;
  }

  /** Text before the segment, the segment, text after it. */
  lemma SegmentInText(t: string, lo: nat, hi: nat) returns (pre: string, post: string)
    requires lo < hi <= |Units(t)|
    ensures t == pre + Join(Units(t)[lo..hi], " ") + post
  {
    var us := Units(t);
    JoinOfUnits(t);
    var rest;
    pre, rest := JoinSlice(us, lo, hi, " ");
    post := rest + DroppedTail(t);
    Assoc(pre + Join(us[lo..hi], " "), rest, DroppedTail(t));
  }

  /** Any split of a text within the ceiling stays within it. */
  lemma SplitStaysWithin(f: Fragment, s: Splitter, maxChars: nat)
    requires f.content.TextContent? && WithinCeiling(f.content.text, maxChars)
    ensures TextsWithin(SplitOne(f, s), maxChars)
  {
    if Splits(f, s) {
      var t := f.content.text;
      assert !SingleSentence(t) by {
        if SingleSentence(t) { FewUnits(t, s); }
      }
      forall k | 0 <= k < |Segments(t, s)|
        ensures WithinCeiling(Join(Segments(t, s)[k], " "), maxChars)
      {
        var lo, hi := SegmentIsSubrun(t, s, k);
        var pre, post := SegmentInText(t, lo, hi);
        TrimEndPart(pre, Join(Units(t)[lo..hi], " "), post);
      }
    }
  }

  /** The ceiling pass brings every text within the ceiling. */
  lemma CeilingBounds(f: Fragment, maxChars: nat, extractor: string)
    ensures TextsWithin(SplitOne(f, Ceiling(maxChars, extractor)), maxChars)
  {
    var s := Ceiling(maxChars, extractor);
    if f.content.TextContent? {
      var t := f.content.text;
      if Splits(f, s) {
        forall k | 0 <= k < |Segments(t, s)|
          ensures WithinCeiling(Join(Segments(t, s)[k], " "), maxChars)
        {
          CeilingPieceFits(Units(t), k, maxChars, extractor);
          var lo, hi := SegmentIsSubrun(t, s, k);
          UnitsOfSubrun(t, lo, hi);
        }
      } else {
        UncutWithin(t, maxChars, extractor);
      }
    }
  }

  /** A text the ceiling pass leaves whole. */
  lemma UncutWithin(t: string, maxChars: nat, extractor: string)
    requires |t| <= maxChars || |Segments(t, Ceiling(maxChars, extractor))| < 2
    ensures WithinCeiling(t, maxChars)
  {
    var s := Ceiling(maxChars, extractor);
    if |t| > maxChars && |Units(t)| >= 2 {
      CeilingPieceFits(Units(t), 0, maxChars, extractor);
      OnlyRun(Units(t), s.fits);
      JoinOfUnits(t);
      TailDrops(Join(Units(t), " "), DroppedTail(t));
    }
  }

  lemma OnlyRun(units: seq<string>, fits: (seq<string>, string) -> bool)
    requires |Pack(units, fits)| == 1
    ensures Pack(units, fits)[0] == units
  {
    PackIsPartition(units, fits);
    var runs := Pack(units, fits);
    assert Flatten(runs[..0]) == [];
  }

  lemma {:induction false} TailDrops(s: string, tail: string)
    requires IsBlank(tail)
    ensures |TrimEnd(s + tail)| <= |s|
  {
    if tail == "" {
      assert s + tail == s;
    } else {
      InitConcat(s, tail);
      TailDrops(s, tail[..|tail| - 1]);
    }
  }

  lemma {:induction false} CeilingBoundsAll(fs: seq<Fragment>, maxChars: nat, extractor: string)
    ensures TextsWithin(SplitAll(fs, Ceiling(maxChars, extractor)), maxChars)
  {
    if fs != [] {
      CeilingBoundsAll(fs[..|fs| - 1], maxChars, extractor);
      CeilingBounds(fs[|fs| - 1], maxChars, extractor);
    }
  }

  lemma {:induction false} SplitStaysWithinAll(fs: seq<Fragment>, s: Splitter, maxChars: nat)
    requires TextsWithin(fs, maxChars)
    ensures TextsWithin(SplitAll(fs, s), maxChars)
  {
    if fs != [] {
      SplitStaysWithinAll(fs[..|fs| - 1], s, maxChars);
      var f := fs[|fs| - 1];
      if f.content.TextContent? {
        SplitStaysWithin(f, s, maxChars);
      }
    }
  }

  /** A piece may be one unit, or units within the byte limit. */
  ghost predicate Allowed(piece: seq<string>, maxChars: nat) {
    piece != [] && (|piece| == 1 || ByteLen(Join(piece, " ")) <= maxChars)
  }

  /** A unit and the space before it. */
  function UnitWeight(u: string): nat {
    ByteLen(u) + 1
  }

  lemma {:induction false} LoadPlusOne(run: seq<string>)
    ensures Load(run, UnitWeight) == Load(run, ByteLen) + |run|
  {
    if run != [] {
      LoadPlusOne(run[..|run| - 1]);
    }
  }

  lemma CeilingPacks(maxChars: nat, extractor: string)
    ensures PacksByLoad(Ceiling(maxChars, extractor).fits, UnitWeight, maxChars + 1)
  {
    var fits := Ceiling(maxChars, extractor).fits;
    forall run: seq<string>, u: string | run != []
      ensures fits(run, u) <==> Load(run + [u], UnitWeight) <= maxChars + 1
    {
      LoadPlusOne(run + [u]);
      InitSnoc(run, u);
    }
  }

  lemma AllowedFeasible(piece: seq<string>, maxChars: nat)
    ensures Allowed(piece, maxChars) <==> Feasible(piece, UnitWeight, maxChars + 1)
  {
    if piece != [] {
      LoadPlusOne(piece);
      JoinedBytesAre(piece);
    }
  }

  /** The ceiling packer makes allowed pieces, the fewest of any contiguous
      partition of the units into allowed pieces. */
  lemma CeilingFewestPieces(other: seq<seq<string>>, maxChars: nat, extractor: string)
    requires forall k :: 0 <= k < |other| ==> Allowed(other[k], maxChars)
    ensures var pieces := Pack(Flatten(other), Ceiling(maxChars, extractor).fits);
      && |pieces| <= |other| && Flatten(pieces) == Flatten(other)
      && forall k :: 0 <= k < |pieces| ==> Allowed(pieces[k], maxChars)
  {
    var fits := Ceiling(maxChars, extractor).fits;
    CeilingPacks(maxChars, extractor);
    forall k | 0 <= k < |other| ensures Feasible(other[k], UnitWeight, maxChars + 1) {
      AllowedFeasible(other[k], maxChars);
    }
    GreedyStaysAhead(other, fits, UnitWeight, maxChars + 1);
    PackIsPartition(Flatten(other), fits);
    PackFeasible(Flatten(other), fits, UnitWeight, maxChars + 1);
    forall piece { AllowedFeasible(piece, maxChars); }
  }
}
