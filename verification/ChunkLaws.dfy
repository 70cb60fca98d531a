/** What the projected chunks are, field by field, from the fragments alone. */
module ChunkLaws {
  import opened Seqs
  import opened Text
  import opened Wrappers
  import opened Numerals
  import opened Runs
  import opened Fragments
  import opened Projection
  import opened ProjectionLaws

  // ---- Sections ---------------------------------------------------------------------

  /** The page a fragment is on: its source, else its context, else the first. */
  function PageOf(f: Fragment): nat {
    match f.source
    case Some(span) => span.page
    case None => (match f.context.page case Some(page) => page case None => 1)
  }

  ghost predicate Together(a: Fragment, b: Fragment) {
    PageOf(a) == PageOf(b) && a.context.headingPath == b.context.headingPath
  }

  /** Contiguous runs of one page and heading path, as long as possible. */
  ghost predicate AreSections(secs: seq<seq<Fragment>>, fs: seq<Fragment>) {
    && Flatten(secs) == fs && (forall s :: 0 <= s < |secs| ==> OneSection(secs[s]))
    && (forall s :: 1 <= s < |secs| ==> secs[s] != [] && NewSection(secs[s - 1], secs[s][0]))
  }

  ghost predicate NewSection(sec: seq<Fragment>, f: Fragment) {
    sec != [] && !Together(sec[0], f)
  }

  ghost predicate OneSection(sec: seq<Fragment>) {
    sec != [] && forall i :: 0 <= i < |sec| ==> Together(sec[0], sec[i])
  }

  lemma KeyIs(f: Fragment)
    ensures KeyOf(f) == (PageOf(f), f.context.headingPath)
  {
  }

  lemma SectionsAre(fs: seq<Fragment>)
    ensures AreSections(Pack(fs, SameSection()), fs)
  {
    var secs := Pack(fs, SameSection());
    PackIsPartition(fs, SameSection());
    forall s | 0 <= s < |secs| ensures OneSection(secs[s]) {
      SectionIsOne(secs[s]);
    }
    forall s | 1 <= s < |secs| ensures NewSection(secs[s - 1], secs[s][0]) {
      assert !SameSection()(secs[s - 1], secs[s][0]);
      KeyIs(secs[s - 1][0]);
      KeyIs(secs[s][0]);
    }
  }

  lemma SectionIsOne(sec: seq<Fragment>)
    requires Grown(sec, SameSection())
    ensures OneSection(sec)
  {
    RunAgrees(sec);
    forall i | 0 <= i < |sec| ensures Together(sec[0], sec[i]) {
      KeyIs(sec[0]);
      KeyIs(sec[i]);
    }
  }

  // ---- Groups ---------------------------------------------------------------------------

  ghost predicate HasText(f: Fragment) {
    !IsBlank(FragmentText(f))
  }

  lemma {:induction false} NonBlankIs(fs: seq<Fragment>) returns (at: seq<nat>)
    ensures Chosen(NonBlank(fs), fs, at, HasText)
  {
    at := [];
    if fs != [] {
      var front, f := fs[..|fs| - 1], fs[|fs| - 1];
      var before := NonBlankIs(front);
      SnocInit(fs);
      at := ChosenSnoc(NonBlank(front), front, f, before, HasText);
    }
  }

  /** A fragment joins a group exactly while the group's text and one more
      newline stay within the limit. */
  ghost predicate Packed(groups: seq<seq<Fragment>>, maxChunk: nat) {
    && (forall k :: 0 <= k < |groups| ==> groups[k] != [] && Filled(groups[k], maxChunk))
    && (forall k :: 1 <= k < |groups| ==>
          groups[k] != [] && ByteLen(Render(groups[k - 1] + [groups[k][0]])) + 1 > maxChunk)
  }

  ghost predicate Filled(group: seq<Fragment>, maxChunk: nat) {
    forall i :: 1 <= i < |group| ==> ByteLen(Render(group[..i] + [group[i]])) + 1 <= maxChunk
  }

  lemma FitsIs(group: seq<Fragment>, f: Fragment, maxChunk: nat)
    ensures Fits(maxChunk)(group, f) <==> ByteLen(Render(group + [f])) + 1 <= maxChunk
  {
    LoadSnoc(group, f);
    GroupBytes(group + [f]);
  }

  lemma GroupsAre(fs: seq<Fragment>, maxChunk: nat)
    ensures Flatten(Groups(fs, maxChunk)) == NonBlank(fs) && Packed(Groups(fs, maxChunk), maxChunk)
  {
    var groups, ok := Groups(fs, maxChunk), Fits(maxChunk);
    PackIsPartition(NonBlank(fs), ok);
    forall k | 0 <= k < |groups| ensures Filled(groups[k], maxChunk) {
      assert Grown(groups[k], ok);
      forall i | 1 <= i < |groups[k]| ensures ByteLen(Render(groups[k][..i] + [groups[k][i]])) + 1 <= maxChunk {
        assert ok(groups[k][..i], groups[k][i]);
        FitsIs(groups[k][..i], groups[k][i], maxChunk);
      }
    }
    forall k | 1 <= k < |groups| ensures ByteLen(Render(groups[k - 1] + [groups[k][0]])) + 1 > maxChunk {
      assert !ok(groups[k - 1], groups[k][0]);
      FitsIs(groups[k - 1], groups[k][0], maxChunk);
    }
  }

  // ---- Texts ------------------------------------------------------------------------------

  ghost predicate IsTail(tail: string, s: string, bytes: nat) {
    |tail| <= |s| && tail == s[|s| - |tail|..] && ByteLen(tail) == bytes
  }

  /** A section's first chunk starts with the heading path; a later one with the
      last `overlap` bytes of the chunk before it, if that is longer. Behind it
      come the fragments' texts, one per line. */
  ghost predicate TextIs(text: string, previous: Option<string>, path: seq<string>, group: seq<Fragment>, overlap: nat) {
    match previous
    case None => text == (if path == [] then "" else Join(path, "\n") + "\n") + Join(FragmentTexts(group), "\n")
    case Some(before) =>
      if overlap > 0 && ByteLen(before) > overlap
      then exists tail :: IsTail(tail, before, overlap) && text == tail + "\n" + Join(FragmentTexts(group), "\n")
      else text == Join(FragmentTexts(group), "\n")
  }

  lemma FirstText(groups: seq<seq<Fragment>>, path: seq<string>, overlap: nat)
    requires groups != []
    ensures TextIs(LastText(groups[..1], path, overlap), None, path, groups[0], overlap)
  {
    TextOfGroup(groups, path, overlap, 1);
    assert groups[..0] == [] && CarryAfter([], path, overlap) == "";
    ConcatNil(Render(groups[0]));
  }

  lemma LaterText(groups: seq<seq<Fragment>>, path: seq<string>, overlap: nat, j: nat)
    requires 1 <= j < |groups| && AllSlice(groups[..j], path, overlap)
    ensures TextIs(LastText(groups[..j + 1], path, overlap), Some(LastText(groups[..j], path, overlap)), path, groups[j], overlap)
  {
    TextOfGroup(groups, path, overlap, j + 1);
    CarryIsTail(groups[..j], path, overlap);
    FromCarry(CarryAfter(groups[..j], path, overlap), LastText(groups[..j], path, overlap), path, groups[j], overlap);
  }

  lemma CarryIsTail(gs: seq<seq<Fragment>>, path: seq<string>, overlap: nat)
    requires gs != [] && AllSlice(gs, path, overlap)
    ensures var carry, before := CarryAfter(gs, path, overlap), LastText(gs, path, overlap);
      if overlap > 0 && ByteLen(before) > overlap then IsTail(carry, before, overlap) else carry == ""
  {
    CarryIsFresh(gs, path, overlap);
  }

  lemma FromCarry(carry: string, before: string, path: seq<string>, group: seq<Fragment>, overlap: nat)
    requires if overlap > 0 && ByteLen(before) > overlap then IsTail(carry, before, overlap) else carry == ""
    ensures TextIs(Assemble(group, carry, path, false), Some(before), path, group, overlap)
  {
    Carried(carry, group, path);
    assert ByteLen("") == 0;
  }

  lemma Carried(carry: string, group: seq<Fragment>, path: seq<string>)
    ensures Assemble(group, carry, path, false) ==
      if carry == "" then Join(FragmentTexts(group), "\n") else carry + "\n" + Join(FragmentTexts(group), "\n")
  {
    ConcatNil(Render(group));
    ConcatNil(carry + "\n");
  }

  // ---- Chunks ---------------------------------------------------------------------------------

  /** The common modality's name, or mixed. */
  ghost predicate TypeIs(sourceType: string, group: seq<Fragment>) {
    if group != [] && forall i :: 0 <= i < |group| ==> group[i].modality == group[0].modality then
      sourceType == match group[0].modality
        case TextKind => "text" case TableKind => "table" case ImageKind => "image" case ChartKind => "chart"
        case DiagramKind => "diagram" case FormulaKind => "formula" case CodeKind => "code" case MixedKind => "mixed"
    else sourceType == "mixed"
  }

  function Trails(group: seq<Fragment>): seq<seq<Evidence>> {
    seq(|group|, i requires 0 <= i < |group| => group[i].evidence)
  }

  /** Chunk `j` of a section with this first fragment. */
  ghost predicate IsChunk(c: Chunk, group: seq<Fragment>, j: nat, first: Fragment, previous: Option<string>, overlap: nat) {
    && TextIs(c.text, previous, first.context.headingPath, group, overlap) && c.charCount == ByteLen(c.text)
    && c.page == PageOf(first) && c.headingPath == first.context.headingPath && c.sectionIndex == j
    && c.sectionTitle == (if c.headingPath == [] then None else Some(c.headingPath[|c.headingPath| - 1]))
    && TypeIs(c.sourceType, group) && c.evidence == Flatten(Trails(group))
  }

  /** The chunks of one section, from its groups. */
  ghost predicate AreSectionChunks(
    cs: seq<Chunk>, sec: seq<Fragment>, groups: seq<seq<Fragment>>, maxChunk: nat, overlap: nat)
  {
    && sec != [] && |cs| == |groups| && Packed(groups, maxChunk)
    && (exists at :: Chosen(Flatten(groups), sec, at, HasText))
    && (forall j :: 0 <= j < |groups| ==> IsChunkAt(cs, groups, j, sec[0], overlap))
  }

  ghost predicate IsChunkAt(cs: seq<Chunk>, groups: seq<seq<Fragment>>, j: nat, first: Fragment, overlap: nat)
    requires j < |groups| == |cs|
  {
    IsChunk(cs[j], groups[j], j, first, if j == 0 then None else Some(cs[j - 1].text), overlap)
  }

  lemma {:induction false} EvidenceFlattens(group: seq<Fragment>)
    ensures GroupEvidence(group) == Flatten(Trails(group))
  {
    if group != [] {
      EvidenceFlattens(group[..|group| - 1]);
      assert Trails(group)[..|group| - 1] == Trails(group[..|group| - 1]);
    }
  }

  /** The chunk shows its draft, whatever its number. */
  ghost predicate ShowsDraft(c: Chunk, d: Draft) {
    exists index: nat, offset: nat, documentId: string :: c == Numbered(d, index, offset, documentId)
  }

  lemma DraftIsChunk(c: Chunk, d: Draft, j: nat, first: Fragment, previous: Option<string>, overlap: nat)
    requires ShowsDraft(c, d) && d.page == PageOf(first) && d.headingPath == first.context.headingPath
    requires d.sectionIndex == j && TextIs(d.text, previous, d.headingPath, d.group, overlap)
    ensures IsChunk(c, d.group, j, first, previous, overlap) && c.text == d.text
  {
    EvidenceFlattens(d.group);
  }

  lemma {:induction false} DraftAt(gs: seq<seq<Fragment>>, sec: Section, overlap: nat, j: nat)
    requires j < |gs|
    ensures GroupDrafts(gs, sec, overlap)[j] ==
      Draft(LastText(gs[..j + 1], sec.headingPath, overlap), gs[j], sec.page, sec.headingPath, j)
  {
    if j < |gs| - 1 {
      DraftAt(gs[..|gs| - 1], sec, overlap, j);
      assert gs[..|gs| - 1][..j + 1] == gs[..j + 1];
    } else {
      TakeAll(gs);
    }
  }

  lemma SliceableBefore(sec: Section, maxChunk: nat, overlap: nat, j: nat)
    requires !SliceFails(sec, maxChunk, overlap) && j < |Groups(sec.fragments, maxChunk)|
    ensures AllSlice(Groups(sec.fragments, maxChunk)[..j], sec.headingPath, overlap)
  {
    var gs := Groups(sec.fragments, maxChunk);
    forall i | 1 <= i <= j ensures !Unsliceable(LastText(gs[..j][..i], sec.headingPath, overlap), overlap) {
      assert gs[..j][..i] == gs[..i];
    }
  }

  lemma SectionChunk(
    cs: seq<Chunk>, gs: seq<seq<Fragment>>, sec: Section, first: Fragment, overlap: nat, j: nat)
    requires sec.page == PageOf(first) && sec.headingPath == first.context.headingPath
    requires j < |gs| && AllSlice(gs[..j], sec.headingPath, overlap)
    requires var ds := GroupDrafts(gs, sec, overlap);
      |cs| == |ds| && ShowsDraft(cs[j], ds[j]) && (j > 0 ==> ShowsDraft(cs[j - 1], ds[j - 1]))
    ensures IsChunkAt(cs, gs, j, first, overlap)
  {
    var ds := GroupDrafts(gs, sec, overlap);
    DraftAt(gs, sec, overlap, j);
    if j == 0 {
      FirstText(gs, sec.headingPath, overlap);
      DraftIsChunk(cs[0], ds[0], 0, first, None, overlap);
    } else {
      DraftAt(gs, sec, overlap, j - 1);
      LaterText(gs, sec.headingPath, overlap, j);
      DraftIsChunk(cs[j], ds[j], j, first, Some(cs[j - 1].text), overlap);
    }
  }

  lemma SectionChunksAre(cs: seq<Chunk>, run: seq<Fragment>, maxChunk: nat, overlap: nat)
    requires run != [] && !SliceFails(SectionOf(run), maxChunk, overlap)
    requires var ds := GroupDrafts(Groups(run, maxChunk), SectionOf(run), overlap);
      |cs| == |ds| && forall i :: 0 <= i < |ds| ==> ShowsDraft(cs[i], ds[i])
    ensures AreSectionChunks(cs, run, Groups(run, maxChunk), maxChunk, overlap)
  {
    var gs, sec := Groups(run, maxChunk), SectionOf(run);
    GroupsAre(run, maxChunk);
    var at := NonBlankIs(run);
    KeyIs(run[0]);
    forall j | 0 <= j < |gs| ensures IsChunkAt(cs, gs, j, run[0], overlap) {
      SliceableBefore(sec, maxChunk, overlap, j);
      SectionChunk(cs, gs, sec, run[0], overlap, j);
    }
  }

  // ---- The whole projection ------------------------------------------------------------------------

  /** The limit and the overlap a strategy asks for. */
  ghost predicate Limits(s: Strategy, maxChunk: nat, overlap: nat) {
    match s
    case HeadingStrategy(most, over) => maxChunk == most && overlap == over
    case ParagraphStrategy(most, _) => maxChunk == most && overlap == 0
    case FixedWindowStrategy(window, over) => maxChunk == window && overlap == over
  }

  /** The chunks of the document: those of its sections, one after the other. */
  ghost predicate AreChunks(
    cs: seq<Chunk>, fs: seq<Fragment>, secs: seq<seq<Fragment>>, groups: seq<seq<seq<Fragment>>>,
    parts: seq<seq<Chunk>>, maxChunk: nat, overlap: nat)
  {
    && AreSections(secs, fs) && |groups| == |parts| == |secs| && Flatten(parts) == cs
    && forall s :: 0 <= s < |secs| ==> AreSectionChunks(parts[s], secs[s], groups[s], maxChunk, overlap)
  }

  /** Chunks numbered from here on show the drafts. */
  ghost predicate ShowDrafts(cs: seq<Chunk>, ds: seq<Draft>) {
    |cs| == |ds| && forall i :: 0 <= i < |ds| ==> ShowsDraft(cs[i], ds[i])
  }

  lemma ChunksShow(ds: seq<Draft>, documentId: string)
    ensures ShowDrafts(Chunks(ds, documentId), ds)
  {
    forall k | 0 <= k < |ds| ensures ShowsDraft(Chunks(ds, documentId)[k], ds[k]) {
      ChunkAt(ds, documentId, k);
    }
  }

  function SectionDrafts(run: seq<Fragment>, maxChunk: nat, overlap: nat): seq<Draft>
    requires run != []
  {
    GroupDrafts(Groups(run, maxChunk), SectionOf(run), overlap)
  }

  lemma DraftsLast(runs: seq<seq<Fragment>>, maxChunk: nat, overlap: nat)
    requires runs != [] && forall k :: 0 <= k < |runs| ==> runs[k] != []
    ensures Drafts(SectionsOf(runs), maxChunk, overlap) ==
      Drafts(SectionsOf(runs[..|runs| - 1]), maxChunk, overlap) + SectionDrafts(runs[|runs| - 1], maxChunk, overlap)
  {
    assert SectionsOf(runs)[..|runs| - 1] == SectionsOf(runs[..|runs| - 1]);
  }

  /** Each part shows the drafts of its section. */
  ghost predicate ShowParts(parts: seq<seq<Chunk>>, runs: seq<seq<Fragment>>, maxChunk: nat, overlap: nat) {
    |parts| == |runs| && forall k :: 0 <= k < |runs| ==>
      runs[k] != [] && ShowDrafts(parts[k], SectionDrafts(runs[k], maxChunk, overlap))
  }

  lemma ShowMore(parts: seq<seq<Chunk>>, part: seq<Chunk>, runs: seq<seq<Fragment>>, run: seq<Fragment>, maxChunk: nat, overlap: nat)
    requires ShowParts(parts, runs, maxChunk, overlap)
    requires run != [] && ShowDrafts(part, SectionDrafts(run, maxChunk, overlap))
    ensures ShowParts(parts + [part], runs + [run], maxChunk, overlap)
  {
  }

  lemma {:induction false} SplitChunks(cs: seq<Chunk>, runs: seq<seq<Fragment>>, maxChunk: nat, overlap: nat)
    returns (parts: seq<seq<Chunk>>)
    requires forall k :: 0 <= k < |runs| ==> runs[k] != []
    requires ShowDrafts(cs, Drafts(SectionsOf(runs), maxChunk, overlap))
    ensures ShowParts(parts, runs, maxChunk, overlap) && Flatten(parts) == cs
    decreases |runs|
  {
    parts := [];
    if runs != [] {
      var front, last := runs[..|runs| - 1], runs[|runs| - 1];
      var before := Drafts(SectionsOf(front), maxChunk, overlap);
      DraftsLast(runs, maxChunk, overlap);
      SplitShown(cs, before, SectionDrafts(last, maxChunk, overlap));
      var a, b := cs[..|before|], cs[|before|..];
      parts := SplitChunks(a, front, maxChunk, overlap);
      FlattenSnoc(parts, b);
      ShowMore(parts, b, front, last, maxChunk, overlap);
      SnocInit(runs);
      parts := parts + [b];
    }
  }

  lemma SplitShown(cs: seq<Chunk>, a: seq<Draft>, b: seq<Draft>)
    requires ShowDrafts(cs, a + b)
    ensures ShowDrafts(cs[..|a|], a) && ShowDrafts(cs[|a|..], b) && cs == cs[..|a|] + cs[|a|..]
  {
    forall i | 0 <= i < |a| ensures ShowsDraft(cs[..|a|][i], a[i]) {
      assert (a + b)[i] == a[i];
    }
    forall i | 0 <= i < |b| ensures ShowsDraft(cs[|a|..][i], b[i]) {
      assert (a + b)[|a| + i] == b[i] && cs[|a|..][i] == cs[|a| + i];
    }
  }

  /** Unless it panics, the projection returns exactly these chunks. */
  lemma ChunksAre(fs: seq<Fragment>, s: Strategy, documentId: string)
    returns (secs: seq<seq<Fragment>>, groups: seq<seq<seq<Fragment>>>, parts: seq<seq<Chunk>>, maxChunk: nat, overlap: nat)
    requires !AnySliceFails(Sections(fs), MaxChunk(s), Overlap(s))
    ensures Limits(s, maxChunk, overlap)
    ensures AreChunks(Chunks(AllDrafts(fs, s), documentId), fs, secs, groups, parts, maxChunk, overlap)
  {
    maxChunk, overlap := MaxChunk(s), Overlap(s);
    secs := Pack(fs, SameSection());
    SectionsAre(fs);
    groups := seq(|secs|, k requires 0 <= k < |secs| => Groups(secs[k], maxChunk));
    var cs := Chunks(AllDrafts(fs, s), documentId);
    ChunksShow(AllDrafts(fs, s), documentId);
    parts := SplitChunks(cs, secs, maxChunk, overlap);
    forall k | 0 <= k < |secs| ensures AreSectionChunks(parts[k], secs[k], groups[k], maxChunk, overlap) {
      assert Sections(fs)[k] == SectionOf(secs[k]);
      SectionChunksAre(parts[k], secs[k], maxChunk, overlap);
    }
  }

  /** Chunks are numbered in order, in their position and in their id. */
  lemma NumbersAre(ds: seq<Draft>, documentId: string, k: nat) returns (digits: string)
    requires k < |ds|
    ensures Chunks(ds, documentId)[k].index == k && Chunks(ds, documentId)[k].id == documentId + "/chunk-" + digits
    ensures AllDigits(digits) && Value(digits) == k && |digits| >= 4 && (|digits| > 4 ==> digits == Decimal(k))
  {
    ChunkAt(ds, documentId, k);
    digits := Padded4(k);
    ValueOfDecimal(k);
    ValueOfPad(Decimal(k));
    LongPad(Decimal(k));
  }

  lemma {:induction false} LongPad(s: string)
    requires AllDigits(s)
    ensures |ZeroPad(s)| > 4 ==> ZeroPad(s) == s
    decreases 4 - |s|
  {
    if |s| < 4 {
      LongPad("0" + s);
    }
  }

  // ---- The slice that fails ------------------------------------------------------------------

  lemma {:induction false} TailReaches(s: string, n: nat, k: nat)
    requires k <= |s| && ByteLen(s[k..]) == n
    ensures ByteLen(TailBytes(s, n)) == n
  {
    if ByteLen(s) <= n {
      ByteLenConcat(s[..k], s[k..]);
      assert s[..k] + s[k..] == s;
    } else {
      assert k > 0 ==> s[1..][k - 1..] == s[k..];
      assert s[0..] == s;
      TailReaches(s[1..], n, k - 1);
    }
  }

  /** The byte slice fails exactly if there is one to take and no tail of the
      text has that many bytes. */
  lemma UnsliceableIs(s: string, n: nat)
    ensures Unsliceable(s, n) <==> n > 0 && ByteLen(s) > n && forall k :: 0 <= k <= |s| ==> ByteLen(s[k..]) != n
  {
    if k: nat :| k <= |s| && ByteLen(s[k..]) == n {
      TailReaches(s, n, k);
    }
    var t := TailBytes(s, n);
    assert t == s[|s| - |t|..];
  }
}
