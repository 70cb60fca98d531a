/** Retrieval projection: sections, greedy packing with an overlap carry, and
    running offsets. */
module Projection {
  import opened Seqs
  import opened Text
  import opened Wrappers
  import opened Numerals
  import opened Runs
  import opened Fragments

  datatype Strategy =
    | HeadingStrategy(maxChunkChars: nat, overlapChars: nat)
    | ParagraphStrategy(maxChunkChars: nat, minChunkChars: nat)
    | FixedWindowStrategy(windowChars: nat, overlapChars: nat)

  function MaxChunk(s: Strategy): nat {
    if s.FixedWindowStrategy? then s.windowChars else s.maxChunkChars
  }

  function Overlap(s: Strategy): nat {
    if s.ParagraphStrategy? then 0 else s.overlapChars
  }

  datatype Chunk = Chunk(
    id: string, text: string, charCount: nat, index: nat, page: nat, charOffset: nat,
    headingPath: seq<string>, sourceType: string, sectionTitle: Option<string>, sectionIndex: nat,
    evidence: seq<Evidence>)

  datatype Section = Section(page: nat, headingPath: seq<string>, fragments: seq<Fragment>)

  // ---- Sections -------------------------------------------------------------------

  /** Page and heading path decide the section. */
  function KeyOf(f: Fragment): (nat, seq<string>) {
    (if f.source.Some? then f.source.value.page else f.context.page.GetOr(1), f.context.headingPath)
  }

  function SameSection(): (seq<Fragment>, Fragment) -> bool {
    (run, f) => run != [] && KeyOf(run[0]) == KeyOf(f)
  }

  function SectionOf(run: seq<Fragment>): Section
    requires run != []
  {
    Section(KeyOf(run[0]).0, KeyOf(run[0]).1, run)
  }

  function SectionsOf(runs: seq<seq<Fragment>>): seq<Section>
    requires forall k :: 0 <= k < |runs| ==> runs[k] != []
  {
    seq(|runs|, k requires 0 <= k < |runs| => SectionOf(runs[k]))
  }

  function Sections(fs: seq<Fragment>): seq<Section> {
    SectionsOf(Pack(fs, SameSection()))
  }

  /** One more fragment: into the last section or into a new one. */
  function WithFragment(sections: seq<Section>, f: Fragment): seq<Section> {
    if sections == [] || (sections[|sections| - 1].page, sections[|sections| - 1].headingPath) != KeyOf(f)
    then sections + [Section(KeyOf(f).0, KeyOf(f).1, [f])] else
      var last := sections[|sections| - 1];
      sections[..|sections| - 1] + [last.(fragments := last.fragments + [f])]
  }

  lemma SectionStep(runs: seq<seq<Fragment>>, f: Fragment)
    requires forall k :: 0 <= k < |runs| ==> runs[k] != []
    ensures var next := Extend(runs, f, SameSection());
      && (forall k :: 0 <= k < |next| ==> next[k] != [])
      && SectionsOf(next) == WithFragment(SectionsOf(runs), f)
  {
    if runs != [] {
      var last := runs[|runs| - 1];
      assert SectionsOf(runs)[|runs| - 1] == SectionOf(last);
      assert SectionOf(last + [f]) == SectionOf(last).(fragments := last + [f]);
    }
  }

  lemma SectionsSnoc(fs: seq<Fragment>, f: Fragment)
    ensures Sections(fs + [f]) == WithFragment(Sections(fs), f)
  {
    InitSnoc(fs, f);
    SectionStep(Pack(fs, SameSection()), f);
  }

  /** `collect_sections`. */
  method CollectSections(fragments: seq<Fragment>) returns (sections: seq<Section>)
    ensures sections == Sections(fragments)
  {
    sections := [];
    for i := 0 to |fragments|
      invariant sections == Sections(fragments[..i])
    {
      var f := fragments[i];
      assert fragments[..i + 1] == fragments[..i] + [f];
      SectionsSnoc(fragments[..i], f);
      var startsNew := sections == [] ||
        (sections[|sections| - 1].page, sections[|sections| - 1].headingPath) != KeyOf(f);
      if startsNew {
        sections := sections + [Section(KeyOf(f).0, KeyOf(f).1, [f])];
      } else {
        var last := sections[|sections| - 1];
        sections := sections[..|sections| - 1] + [last.(fragments := last.fragments + [f])];
      }
    }
    TakeAll(fragments);
  }

  lemma RunAgrees(run: seq<Fragment>)
    requires Grown(run, SameSection())
    ensures forall i :: 0 <= i < |run| ==> KeyOf(run[i]) == KeyOf(run[0])
  {
    forall i | 1 <= i < |run| ensures KeyOf(run[i]) == KeyOf(run[0]) {
      assert SameSection()(run[..i], run[i]);
    }
  }

  /** The fragment belongs to the section's page and heading path. */
  predicate Belongs(f: Fragment, page: nat, path: seq<string>) {
    KeyOf(f) == (page, path)
  }

  ghost predicate AllBelong(fs: seq<Fragment>, page: nat, path: seq<string>) {
    forall i :: 0 <= i < |fs| ==> Belongs(fs[i], page, path)
  }

  lemma SectionsAgree(fs: seq<Fragment>)
    ensures forall k :: 0 <= k < |Sections(fs)| ==>
      AllBelong(Sections(fs)[k].fragments, Sections(fs)[k].page, Sections(fs)[k].headingPath)
  {
    PackIsPartition(fs, SameSection());
    var runs := Pack(fs, SameSection());
    forall k | 0 <= k < |runs| ensures AllBelong(runs[k], SectionOf(runs[k]).page, SectionOf(runs[k]).headingPath) {
      RunAgrees(runs[k]);
    }
  }

  // ---- Packing ----------------------------------------------------------------------

  function NonBlank(fs: seq<Fragment>): seq<Fragment> {
    if fs == [] then []
    else if IsBlank(FragmentText(fs[|fs| - 1])) then NonBlank(fs[..|fs| - 1])
    else NonBlank(fs[..|fs| - 1]) + [fs[|fs| - 1]]
  }

  /** Bytes of the fragment's text and the newline after it. */
  function Weight(f: Fragment): nat {
    ByteLen(FragmentText(f)) + 1
  }

  function Fits(maxChunk: nat): (seq<Fragment>, Fragment) -> bool {
    (run, f) => Load(run, Weight) + Weight(f) <= maxChunk
  }

  function Groups(fs: seq<Fragment>, maxChunk: nat): seq<seq<Fragment>> {
    Pack(NonBlank(fs), Fits(maxChunk))
  }

  /** `assemble_text`. */
  function Assemble(group: seq<Fragment>, carry: string, path: seq<string>, first: bool): string {
    (if carry != "" then carry + "\n" else "")
    + (if first && path != [] then Join(path, "\n") + "\n" else "")
    + Render(group)
  }

  /** The longest tail of at most `n` bytes. */
  function TailBytes(s: string, n: nat): (t: string)
    ensures |t| <= |s| && t == s[|s| - |t|..] && ByteLen(t) <= n
  {
    if ByteLen(s) <= n then s else TailBytes(s[1..], n)
  }

  /** The byte slice would fall inside a character. */
  predicate Unsliceable(s: string, n: nat) {
    n > 0 && ByteLen(s) > n && ByteLen(TailBytes(s, n)) != n
  }

  function NextCarry(carry: string, text: string, overlap: nat): string {
    if overlap > 0 && ByteLen(text) > overlap then TailBytes(text, overlap) else carry
  }

  /** The carry left behind by the groups emitted so far in a section. */
  function CarryAfter(gs: seq<seq<Fragment>>, path: seq<string>, overlap: nat): string
    decreases |gs|, 1
  {
    if gs == [] then ""
    else NextCarry(CarryAfter(gs[..|gs| - 1], path, overlap), LastText(gs, path, overlap), overlap)
  }

  /** Text of the chunk for the last of these groups. */
  function LastText(gs: seq<seq<Fragment>>, path: seq<string>, overlap: nat): string
    requires gs != []
    decreases |gs|, 0
  {
    Assemble(gs[|gs| - 1], CarryAfter(gs[..|gs| - 1], path, overlap), path, |gs| == 1)
  }

  /** A chunk before it is numbered. */
  datatype Draft = Draft(text: string, group: seq<Fragment>, page: nat, headingPath: seq<string>, sectionIndex: nat)

  function GroupDrafts(gs: seq<seq<Fragment>>, sec: Section, overlap: nat): (ds: seq<Draft>)
    ensures |ds| == |gs|
  {
    if gs == [] then [] else
      var d := Draft(LastText(gs, sec.headingPath, overlap), gs[|gs| - 1], sec.page, sec.headingPath, |gs| - 1);
      GroupDrafts(gs[..|gs| - 1], sec, overlap) + [d]
  }

  function Drafts(secs: seq<Section>, maxChunk: nat, overlap: nat): seq<Draft> {
    if secs == [] then [] else
      var last := secs[|secs| - 1];
      Drafts(secs[..|secs| - 1], maxChunk, overlap) + GroupDrafts(Groups(last.fragments, maxChunk), last, overlap)
  }

  function Offset(ds: seq<Draft>): nat {
    if ds == [] then 0 else Offset(ds[..|ds| - 1]) + ByteLen(ds[|ds| - 1].text)
  }

  function ModalityName(m: Modality): string {
    match m
    case TextKind => "text" case TableKind => "table" case ImageKind => "image" case ChartKind => "chart"
    case DiagramKind => "diagram" case FormulaKind => "formula" case CodeKind => "code" case MixedKind => "mixed"
  }

  function SourceType(group: seq<Fragment>): string {
    if group != [] && forall i :: 0 <= i < |group| ==> group[i].modality == group[0].modality
    then ModalityName(group[0].modality) else "mixed"
  }

  function GroupEvidence(group: seq<Fragment>): seq<Evidence> {
    if group == [] then [] else GroupEvidence(group[..|group| - 1]) + group[|group| - 1].evidence
  }

  function ChunkId(documentId: string, index: nat): string {
    documentId + "/chunk-" + Padded4(index)
  }

  function Numbered(d: Draft, index: nat, offset: nat, documentId: string): Chunk {
    Chunk(ChunkId(documentId, index), d.text, ByteLen(d.text), index, d.page, offset, d.headingPath,
          SourceType(d.group), if d.headingPath == [] then None else Some(d.headingPath[|d.headingPath| - 1]),
          d.sectionIndex, GroupEvidence(d.group))
  }

  function Chunks(ds: seq<Draft>, documentId: string): (cs: seq<Chunk>)
    ensures |cs| == |ds|
  {
    if ds == [] then [] else
      var front := ds[..|ds| - 1];
      Chunks(front, documentId) + [Numbered(ds[|ds| - 1], |ds| - 1, Offset(front), documentId)]
  }

  /** Some chunk that is followed by another one in its section is longer than
      the overlap and has no character boundary there. */
  ghost predicate SliceFails(sec: Section, maxChunk: nat, overlap: nat) {
    var gs := Groups(sec.fragments, maxChunk);
    exists j :: 1 <= j < |gs| && Unsliceable(LastText(gs[..j], sec.headingPath, overlap), overlap)
  }

  /** Some section cannot be sliced. */
  ghost predicate AnySliceFails(secs: seq<Section>, maxChunk: nat, overlap: nat) {
    exists k :: 0 <= k < |secs| && SliceFails(secs[k], maxChunk, overlap)
  }

  // ---- The loops -------------------------------------------------------------------------

  ghost predicate AllSlice(gs: seq<seq<Fragment>>, path: seq<string>, overlap: nat) {
    forall j :: 1 <= j <= |gs| ==> !Unsliceable(LastText(gs[..j], path, overlap), overlap)
  }

  /** State inside a section: finished groups, the pending one, the carry. */
  ghost predicate Packing(
    seen: seq<Fragment>, done: seq<seq<Fragment>>, pending: seq<Fragment>, carry: string,
    path: seq<string>, maxChunk: nat, overlap: nat)
  {
    && Groups(seen, maxChunk) == (if pending == [] then [] else done + [pending])
    && (pending == [] ==> done == [])
    && carry == CarryAfter(done, path, overlap)
    && AllSlice(done, path, overlap)
  }

  lemma GroupsSnoc(fs: seq<Fragment>, f: Fragment, maxChunk: nat)
    ensures Groups(fs + [f], maxChunk) ==
      if IsBlank(FragmentText(f)) then Groups(fs, maxChunk) else Extend(Groups(fs, maxChunk), f, Fits(maxChunk))
  {
    InitSnoc(fs, f);
    var ns := NonBlank(fs);
    InitSnoc(ns, f);
  }

  lemma LoadSnoc(run: seq<Fragment>, f: Fragment)
    ensures Load(run + [f], Weight) == Load(run, Weight) + Weight(f)
  {
    InitSnoc(run, f);
  }

  /** The pending group takes the fragment. */
  lemma PackingGrows(
    seen: seq<Fragment>, f: Fragment, done: seq<seq<Fragment>>, pending: seq<Fragment>, carry: string,
    path: seq<string>, maxChunk: nat, overlap: nat)
    requires Packing(seen, done, pending, carry, path, maxChunk, overlap)
    requires !IsBlank(FragmentText(f)) && (pending == [] || Load(pending, Weight) + Weight(f) <= maxChunk)
    ensures Packing(seen + [f], done, pending + [f], carry, path, maxChunk, overlap)
  {
    GroupsSnoc(seen, f, maxChunk);
    assert pending != [] ==> (done + [pending])[..|done|] == done;
  }

  /** The pending group is closed and the fragment opens the next one. */
  lemma PackingCloses(
    seen: seq<Fragment>, f: Fragment, done: seq<seq<Fragment>>, pending: seq<Fragment>, carry: string,
    path: seq<string>, maxChunk: nat, overlap: nat)
    requires Packing(seen, done, pending, carry, path, maxChunk, overlap)
    requires !IsBlank(FragmentText(f)) && pending != [] && Load(pending, Weight) + Weight(f) > maxChunk
    ensures Groups(seen + [f], maxChunk) == done + [pending] + [[f]]
    ensures !Unsliceable(LastText(done + [pending], path, overlap), overlap) ==>
      Packing(seen + [f], done + [pending], [f], CarryAfter(done + [pending], path, overlap), path, maxChunk, overlap)
  {
    GroupsSnoc(seen, f, maxChunk);
    if !Unsliceable(LastText(done + [pending], path, overlap), overlap) {
      CloseSlices(done, pending, path, overlap);
    }
  }

  /** `emit_chunk`: assembles, numbers and appends one chunk. */
  method EmitChunk(
    pending: seq<Fragment>, carry: string, sec: Section, sectionIndex: nat,
    chunksIn: seq<Chunk>, offsetIn: nat, documentId: string, ghost ds: seq<Draft>)
    returns (text: string, chunks: seq<Chunk>, offset: nat)
    requires chunksIn == Chunks(ds, documentId) && offsetIn == Offset(ds)
    ensures text == Assemble(pending, carry, sec.headingPath, sectionIndex == 0)
    ensures var d := Draft(text, pending, sec.page, sec.headingPath, sectionIndex);
      chunks == Chunks(ds + [d], documentId) && offset == Offset(ds + [d])
  {
    text := Assemble(pending, carry, sec.headingPath, sectionIndex == 0);
    var d := Draft(text, pending, sec.page, sec.headingPath, sectionIndex);
    InitSnoc(ds, d);
    chunks := chunksIn + [Numbered(d, |chunksIn|, offsetIn, documentId)];
    offset := offsetIn + ByteLen(text);
  }

  /** Emitting the pending group in draft terms. */
  lemma CloseGroup(before: seq<Draft>, done: seq<seq<Fragment>>, pending: seq<Fragment>, sec: Section, overlap: nat)
    ensures var text := LastText(done + [pending], sec.headingPath, overlap);
      && text == Assemble(pending, CarryAfter(done, sec.headingPath, overlap), sec.headingPath, |done| == 0)
      && CarryAfter(done + [pending], sec.headingPath, overlap)
         == NextCarry(CarryAfter(done, sec.headingPath, overlap), text, overlap)
      && before + GroupDrafts(done, sec, overlap) + [Draft(text, pending, sec.page, sec.headingPath, |done|)]
         == before + GroupDrafts(done + [pending], sec, overlap)
  {
    InitSnoc(done, pending);
  }

  /** Emits a full pending group and derives the next carry. `None` is the
      panic of a byte slice inside a character. */
  method FlushPending(
    pending: seq<Fragment>, carry: string, sec: Section, sectionIndex: nat, overlap: nat,
    chunksIn: seq<Chunk>, offsetIn: nat, documentId: string,
    ghost done: seq<seq<Fragment>>, ghost before: seq<Draft>, ghost ds: seq<Draft>)
    returns (next: Option<string>, chunks: seq<Chunk>, offset: nat, ghost ds': seq<Draft>)
    requires carry == CarryAfter(done, sec.headingPath, overlap) && sectionIndex == |done|
    requires ds == before + GroupDrafts(done, sec, overlap)
    requires chunksIn == Chunks(ds, documentId) && offsetIn == Offset(ds)
    ensures ds' == before + GroupDrafts(done + [pending], sec, overlap)
    ensures chunks == Chunks(ds', documentId) && offset == Offset(ds')
    ensures next.None? <==> Unsliceable(LastText(done + [pending], sec.headingPath, overlap), overlap)
    ensures next.Some? ==> next.value == CarryAfter(done + [pending], sec.headingPath, overlap)
  {
    CloseGroup(before, done, pending, sec, overlap);
    var text;
    text, chunks, offset := EmitChunk(pending, carry, sec, sectionIndex, chunksIn, offsetIn, documentId, ds);
    ds' := ds + [Draft(text, pending, sec.page, sec.headingPath, sectionIndex)];
    next := Some(carry);
    if overlap > 0 && ByteLen(text) > overlap {
      var tail := TailBytes(text, overlap);
      next := if ByteLen(tail) == overlap then Some(tail) else None;
    }
  }

  /** The variables of the loop over a section. */
  datatype Pen = Pen(
    pending: seq<Fragment>, pendingLen: nat, sectionIndex: nat, carry: string, chunks: seq<Chunk>, offset: nat)

  /** What they mean after the fragments `seen`, with `done` groups emitted. */
  ghost predicate Holds(
    pen: Pen, seen: seq<Fragment>, done: seq<seq<Fragment>>, ds: seq<Draft>, before: seq<Draft>,
    sec: Section, maxChunk: nat, overlap: nat, documentId: string)
  {
    && Packing(seen, done, pen.pending, pen.carry, sec.headingPath, maxChunk, overlap)
    && pen.pendingLen == Load(pen.pending, Weight) && pen.sectionIndex == |done|
    && ds == before + GroupDrafts(done, sec, overlap)
    && pen.chunks == Chunks(ds, documentId) && pen.offset == Offset(ds)
  }

  /** A fragment the pending group has no room for: emit, then start anew. */
  method StartGroup(
    f: Fragment, pen: Pen, sec: Section, maxChunk: nat, overlap: nat, documentId: string,
    ghost seen: seq<Fragment>, ghost done: seq<seq<Fragment>>, ghost ds: seq<Draft>, ghost before: seq<Draft>)
    returns (next: Option<Pen>, ghost ds': seq<Draft>)
    requires Holds(pen, seen, done, ds, before, sec, maxChunk, overlap, documentId)
    requires !IsBlank(FragmentText(f)) && pen.pending != [] && pen.pendingLen + Weight(f) > maxChunk
    ensures Groups(seen + [f], maxChunk) == done + [pen.pending] + [[f]]
    ensures next.None? <==> Unsliceable(LastText(done + [pen.pending], sec.headingPath, overlap), overlap)
    ensures next.Some? ==>
      Holds(next.value, seen + [f], done + [pen.pending], ds', before, sec, maxChunk, overlap, documentId)
  {
    var carry, chunks, offset;
    carry, chunks, offset, ds' := FlushPending(
      pen.pending, pen.carry, sec, pen.sectionIndex, overlap, pen.chunks, pen.offset, documentId, done, before, ds);
    PackingCloses(seen, f, done, pen.pending, pen.carry, sec.headingPath, maxChunk, overlap);
    if carry.None? {
      return None, ds';
    }
    SingleLoad(f);
    next := Some(Pen([f], Weight(f), pen.sectionIndex + 1, carry.value, chunks, offset));
  }

  lemma SingleLoad(f: Fragment)
    ensures Load([f], Weight) == Weight(f)
  {
    LoadSnoc([], f);
    ConcatNil([f]);
  }

  /** The loop over one section's fragments. */
  method ProjectSection(
    sec: Section, maxChunk: nat, overlap: nat, chunksIn: seq<Chunk>, offsetIn: nat, documentId: string,
    ghost before: seq<Draft>)
    returns (r: Option<(seq<Chunk>, nat)>)
    requires chunksIn == Chunks(before, documentId) && offsetIn == Offset(before)
    ensures r.None? <==> SliceFails(sec, maxChunk, overlap)
    ensures r.Some? ==>
      var ds := before + GroupDrafts(Groups(sec.fragments, maxChunk), sec, overlap);
      r.value == (Chunks(ds, documentId), Offset(ds))
  {
    var pen := Pen([], 0, 0, "", chunksIn, offsetIn);
    ghost var done: seq<seq<Fragment>>, ds := [], before;
    ConcatNil(before);
    for i := 0 to |sec.fragments|
      invariant Holds(pen, sec.fragments[..i], done, ds, before, sec, maxChunk, overlap, documentId)
    {
      var f := sec.fragments[i];
      ghost var seen := sec.fragments[..i];
      TakeNext(sec.fragments, i);
      if IsBlank(FragmentText(f)) {
        GroupsSnoc(seen, f, maxChunk);
      } else if pen.pending != [] && pen.pendingLen + Weight(f) > maxChunk {
        var next;
        next, ds := StartGroup(f, pen, sec, maxChunk, overlap, documentId, seen, done, ds, before);
        if next.None? {
          EarlyFailure(sec, i + 1, done, pen.pending, f, maxChunk, overlap);
          return None;
        }
        done := done + [pen.pending];
        pen := next.value;
      } else {
        PackingGrows(seen, f, done, pen.pending, pen.carry, sec.headingPath, maxChunk, overlap);
        LoadSnoc(pen.pending, f);
        pen := pen.(pending := pen.pending + [f], pendingLen := pen.pendingLen + Weight(f));
      }
    }
    TakeAll(sec.fragments);
    SectionSliced(sec, done, pen.pending, pen.carry, maxChunk, overlap);
    r := FinishSection(pen, sec, maxChunk, overlap, documentId, done, ds, before);
  }

  /** The last group of a section is emitted without deriving a carry. */
  method FinishSection(
    pen: Pen, sec: Section, maxChunk: nat, overlap: nat, documentId: string,
    ghost done: seq<seq<Fragment>>, ghost ds: seq<Draft>, ghost before: seq<Draft>)
    returns (r: Option<(seq<Chunk>, nat)>)
    requires Holds(pen, sec.fragments, done, ds, before, sec, maxChunk, overlap, documentId)
    ensures var all := before + GroupDrafts(Groups(sec.fragments, maxChunk), sec, overlap);
      r == Some((Chunks(all, documentId), Offset(all)))
  {
    if pen.pending == [] {
      return Some((pen.chunks, pen.offset));
    }
    CloseGroup(before, done, pen.pending, sec, overlap);
    var text, chunks, offset := EmitChunk(
      pen.pending, pen.carry, sec, pen.sectionIndex, pen.chunks, pen.offset, documentId, ds);
    r := Some((chunks, offset));
  }

  /** `HeadingProjector::project`. */
  method Project(fragments: seq<Fragment>, strategy: Strategy, documentId: string) returns (r: Option<seq<Chunk>>)
    ensures r.None? <==> AnySliceFails(Sections(fragments), MaxChunk(strategy), Overlap(strategy))
    ensures r.Some? ==>
      r.value == Chunks(Drafts(Sections(fragments), MaxChunk(strategy), Overlap(strategy)), documentId)
  {
    var maxChunk, overlap := MaxChunk(strategy), Overlap(strategy);
    var sections := CollectSections(fragments);
    var chunks: seq<Chunk>, offset := [], 0;
    ghost var ds: seq<Draft> := [];
    for s := 0 to |sections|
      invariant !AnySliceFails(sections[..s], maxChunk, overlap)
      invariant ds == Drafts(sections[..s], maxChunk, overlap)
      invariant chunks == Chunks(ds, documentId) && offset == Offset(ds)
    {
      DraftsSnoc(sections, s, maxChunk, overlap);
      FailsSnoc(sections, s, maxChunk, overlap);
      var next := ProjectSection(sections[s], maxChunk, overlap, chunks, offset, documentId, ds);
      if next.None? {
        return None;
      }
      chunks, offset := next.value.0, next.value.1;
      ds := Drafts(sections[..s + 1], maxChunk, overlap);
    }
    TakeAll(sections);
    r := Some(chunks);
  }

  lemma DraftsSnoc(secs: seq<Section>, s: nat, maxChunk: nat, overlap: nat)
    requires s < |secs|
    ensures Drafts(secs[..s + 1], maxChunk, overlap) ==
      Drafts(secs[..s], maxChunk, overlap) + GroupDrafts(Groups(secs[s].fragments, maxChunk), secs[s], overlap)
  {
    TakeTwice(secs, s);
  }

  lemma FailsSnoc(secs: seq<Section>, s: nat, maxChunk: nat, overlap: nat)
    requires s < |secs| && !AnySliceFails(secs[..s], maxChunk, overlap)
    ensures AnySliceFails(secs[..s + 1], maxChunk, overlap) <==> SliceFails(secs[s], maxChunk, overlap)
    ensures SliceFails(secs[s], maxChunk, overlap) ==> AnySliceFails(secs, maxChunk, overlap)
  {
    var a, b := secs[..s], secs[..s + 1];
    forall k | 0 <= k < s ensures !SliceFails(b[k], maxChunk, overlap) {
      assert b[k] == a[k];
    }
    assert b[s] == secs[s];
  }

  lemma CloseSlices(done: seq<seq<Fragment>>, pending: seq<Fragment>, path: seq<string>, overlap: nat)
    requires AllSlice(done, path, overlap)
    requires !Unsliceable(LastText(done + [pending], path, overlap), overlap)
    ensures AllSlice(done + [pending], path, overlap)
  {
    forall j | 1 <= j <= |done| + 1 ensures !Unsliceable(LastText((done + [pending])[..j], path, overlap), overlap) {
      if j <= |done| {
        assert (done + [pending])[..j] == done[..j];
      } else {
        assert (done + [pending])[..j] == done + [pending];
      }
    }
  }

  /** Groups that are closed stay as they are when more fragments come. */
  lemma {:induction false} ClosedGroupsStay(xs: seq<Fragment>, ys: seq<Fragment>, ok: (seq<Fragment>, Fragment) -> bool)
    requires xs != []
    ensures var p, q := Pack(xs, ok), Pack(xs + ys, ok);
      |q| >= |p| && q[..|p| - 1] == p[..|p| - 1]
  {
    if ys == [] {
      assert xs + ys == xs;
    } else {
      ClosedGroupsStay(xs, ys[..|ys| - 1], ok);
      InitConcat(xs, ys);
    }
  }

  lemma {:induction false} NonBlankConcat(a: seq<Fragment>, b: seq<Fragment>)
    ensures NonBlank(a + b) == NonBlank(a) + NonBlank(b)
  {
    if b == [] {
      assert a + b == a;
    } else {
      NonBlankConcat(a, b[..|b| - 1]);
      InitConcat(a, b);
    }
  }

  lemma EarlyFailure(
    sec: Section, i: nat, done: seq<seq<Fragment>>, pending: seq<Fragment>, f: Fragment, maxChunk: nat, overlap: nat)
    requires i <= |sec.fragments| && pending != []
    requires Groups(sec.fragments[..i], maxChunk) == done + [pending] + [[f]]
    requires Unsliceable(LastText(done + [pending], sec.headingPath, overlap), overlap)
    ensures SliceFails(sec, maxChunk, overlap)
  {
    var a, b := sec.fragments[..i], sec.fragments[i..];
    assert sec.fragments == a + b;
    NonBlankConcat(a, b);
    ClosedGroupsStay(NonBlank(a), NonBlank(b), Fits(maxChunk));
    var gs, j := Groups(sec.fragments, maxChunk), |done| + 1;
    assert gs[..j] == (done + [pending] + [[f]])[..j] == done + [pending];
    assert 1 <= j < |gs| && Unsliceable(LastText(gs[..j], sec.headingPath, overlap), overlap);
  }

  lemma SectionSliced(
    sec: Section, done: seq<seq<Fragment>>, pending: seq<Fragment>, carry: string, maxChunk: nat, overlap: nat)
    requires Packing(sec.fragments, done, pending, carry, sec.headingPath, maxChunk, overlap)
    ensures !SliceFails(sec, maxChunk, overlap)
  {
    var gs := Groups(sec.fragments, maxChunk);
    forall j | 1 <= j < |gs| ensures !Unsliceable(LastText(gs[..j], sec.headingPath, overlap), overlap) {
      assert gs[..j] == done[..j];
    }
  }
}
