/** What the projection guarantees about its chunks. */
module ProjectionLaws {
  import opened Seqs
  import opened Text
  import opened Wrappers
  import opened Numerals
  import opened Runs
  import opened Fragments
  import opened Projection

  // ---- Coverage -------------------------------------------------------------------

  function GroupsOf(ds: seq<Draft>): seq<seq<Fragment>> {
    seq(|ds|, k requires 0 <= k < |ds| => ds[k].group)
  }

  function FragmentsOf(secs: seq<Section>): seq<Fragment> {
    if secs == [] then [] else FragmentsOf(secs[..|secs| - 1]) + secs[|secs| - 1].fragments
  }

  lemma {:induction false} GroupDraftsGroups(gs: seq<seq<Fragment>>, sec: Section, overlap: nat)
    ensures GroupsOf(GroupDrafts(gs, sec, overlap)) == gs
  {
    if gs != [] {
      GroupDraftsGroups(gs[..|gs| - 1], sec, overlap);
      SnocInit(gs);
      GroupsOfSnoc(GroupDrafts(gs[..|gs| - 1], sec, overlap),
                   Draft(LastText(gs, sec.headingPath, overlap), gs[|gs| - 1], sec.page, sec.headingPath, |gs| - 1));
    }
  }

  lemma GroupsOfSnoc(ds: seq<Draft>, d: Draft)
    ensures GroupsOf(ds + [d]) == GroupsOf(ds) + [d.group]
  {
  }

  lemma {:induction false} DraftsCover(secs: seq<Section>, maxChunk: nat, overlap: nat)
    ensures Flatten(GroupsOf(Drafts(secs, maxChunk, overlap))) == NonBlank(FragmentsOf(secs))
  {
    if secs != [] {
      var front, last := secs[..|secs| - 1], secs[|secs| - 1];
      DraftsCover(front, maxChunk, overlap);
      var a, gs := Drafts(front, maxChunk, overlap), Groups(last.fragments, maxChunk);
      var b := GroupDrafts(gs, last, overlap);
      FlattenGroups(a, b);
      GroupDraftsGroups(gs, last, overlap);
      PackIsPartition(NonBlank(last.fragments), Fits(maxChunk));
      NonBlankConcat(FragmentsOf(front), last.fragments);
    }
  }

  lemma FlattenGroups(a: seq<Draft>, b: seq<Draft>)
    ensures Flatten(GroupsOf(a + b)) == Flatten(GroupsOf(a)) + Flatten(GroupsOf(b))
  {
    assert GroupsOf(a + b) == GroupsOf(a) + GroupsOf(b);
    FlattenConcat(GroupsOf(a), GroupsOf(b));
  }

  lemma {:induction false} SectionsFlatten(runs: seq<seq<Fragment>>)
    requires forall k :: 0 <= k < |runs| ==> runs[k] != []
    ensures FragmentsOf(SectionsOf(runs)) == Flatten(runs)
  {
    if runs != [] {
      SectionsFlatten(runs[..|runs| - 1]);
      assert SectionsOf(runs)[..|runs| - 1] == SectionsOf(runs[..|runs| - 1]);
    }
  }

  /** The drafts of a whole fragment list. */
  function AllDrafts(fs: seq<Fragment>, s: Strategy): seq<Draft> {
    Drafts(Sections(fs), MaxChunk(s), Overlap(s))
  }

  /** Every non-blank fragment lands whole in exactly one chunk, in order. */
  lemma EveryFragmentOnce(fs: seq<Fragment>, s: Strategy)
    ensures Flatten(GroupsOf(AllDrafts(fs, s))) == NonBlank(fs)
  {
    DraftsCover(Sections(fs), MaxChunk(s), Overlap(s));
    PackIsPartition(fs, SameSection());
    SectionsFlatten(Pack(fs, SameSection()));
  }

  lemma {:induction false} EvidenceConcat(a: seq<Fragment>, b: seq<Fragment>)
    ensures GroupEvidence(a + b) == GroupEvidence(a) + GroupEvidence(b)
  {
    if b == [] {
      assert a + b == a;
    } else {
      var front, es := b[..|b| - 1], b[|b| - 1].evidence;
      EvidenceConcat(a, front);
      assert (a + b)[..|a + b| - 1] == a + front;
      Assoc(GroupEvidence(a), GroupEvidence(front), es);
    }
  }

  function ChunkEvidence(cs: seq<Chunk>): seq<Evidence> {
    if cs == [] then [] else ChunkEvidence(cs[..|cs| - 1]) + cs[|cs| - 1].evidence
  }

  lemma {:induction false} ChunkEvidenceIs(ds: seq<Draft>, documentId: string)
    ensures ChunkEvidence(Chunks(ds, documentId)) == GroupEvidence(Flatten(GroupsOf(ds)))
  {
    if ds != [] {
      var front, last := ds[..|ds| - 1], ds[|ds| - 1];
      ChunkEvidenceIs(front, documentId);
      var cs, c := Chunks(front, documentId), Numbered(last, |front|, Offset(front), documentId);
      ChunkEvidenceSnoc(cs, c);
      SnocInit(ds);
      FlattenGroups(front, [last]);
      FlattenOne(last);
      EvidenceConcat(Flatten(GroupsOf(front)), last.group);
    }
  }

  lemma FlattenOne(d: Draft)
    ensures Flatten(GroupsOf([d])) == d.group
  {
    FlattenSnoc([], d.group);
    assert GroupsOf([d]) == [] + [d.group];
  }

  lemma ChunkEvidenceSnoc(cs: seq<Chunk>, c: Chunk)
    ensures ChunkEvidence(cs + [c]) == ChunkEvidence(cs) + c.evidence
  {
    InitSnoc(cs, c);
  }

  /** The chunks' evidence lists concatenate to the evidence of the non-blank
      fragments. */
  lemma EvidenceConserved(fs: seq<Fragment>, s: Strategy, documentId: string)
    ensures ChunkEvidence(Chunks(AllDrafts(fs, s), documentId)) == GroupEvidence(NonBlank(fs))
  {
    ChunkEvidenceIs(AllDrafts(fs, s), documentId);
    EveryFragmentOnce(fs, s);
  }

  // ---- One section per chunk ----------------------------------------------------------

  ghost predicate OneKey(d: Draft) {
    AllBelong(d.group, d.page, d.headingPath)
  }

  lemma {:induction false} NonBlankBelongs(fs: seq<Fragment>, page: nat, path: seq<string>)
    requires AllBelong(fs, page, path)
    ensures AllBelong(NonBlank(fs), page, path)
  {
    if fs != [] {
      NonBlankBelongs(fs[..|fs| - 1], page, path);
    }
  }

  lemma GroupsBelong(sec: Section, maxChunk: nat)
    requires AllBelong(sec.fragments, sec.page, sec.headingPath)
    ensures forall k :: 0 <= k < |Groups(sec.fragments, maxChunk)| ==>
      AllBelong(Groups(sec.fragments, maxChunk)[k], sec.page, sec.headingPath)
  {
    var ns, gs := NonBlank(sec.fragments), Groups(sec.fragments, maxChunk);
    NonBlankBelongs(sec.fragments, sec.page, sec.headingPath);
    PackIsPartition(ns, Fits(maxChunk));
    forall k, i | 0 <= k < |gs| && 0 <= i < |gs[k]| ensures Belongs(gs[k][i], sec.page, sec.headingPath) {
      RunElement(gs, k, i);
    }
  }

  lemma {:induction false} GroupDraftsOneKey(gs: seq<seq<Fragment>>, sec: Section, overlap: nat)
    requires forall k :: 0 <= k < |gs| ==> AllBelong(gs[k], sec.page, sec.headingPath)
    ensures forall k :: 0 <= k < |gs| ==> OneKey(GroupDrafts(gs, sec, overlap)[k])
  {
    if gs != [] {
      GroupDraftsOneKey(gs[..|gs| - 1], sec, overlap);
    }
  }

  lemma {:induction false} DraftsOneKey(secs: seq<Section>, maxChunk: nat, overlap: nat)
    requires forall k :: 0 <= k < |secs| ==> AllBelong(secs[k].fragments, secs[k].page, secs[k].headingPath)
    ensures forall k :: 0 <= k < |Drafts(secs, maxChunk, overlap)| ==> OneKey(Drafts(secs, maxChunk, overlap)[k])
  {
    if secs != [] {
      var last := secs[|secs| - 1];
      DraftsOneKey(secs[..|secs| - 1], maxChunk, overlap);
      GroupsBelong(last, maxChunk);
      GroupDraftsOneKey(Groups(last.fragments, maxChunk), last, overlap);
    }
  }

  /** No chunk spans a change of page or heading path. */
  lemma ChunksStayInSection(fs: seq<Fragment>, s: Strategy)
    ensures forall k :: 0 <= k < |AllDrafts(fs, s)| ==> OneKey(AllDrafts(fs, s)[k])
  {
    SectionsAgree(fs);
    DraftsOneKey(Sections(fs), MaxChunk(s), Overlap(s));
  }

  // ---- The overlap carry -----------------------------------------------------------------

  /** The carry is never stale: after any run of groups that could be sliced it
      is empty or exactly the last `overlap` bytes of the chunk just emitted. */
  lemma {:induction false} CarryIsFresh(gs: seq<seq<Fragment>>, path: seq<string>, overlap: nat)
    requires gs != [] && AllSlice(gs, path, overlap)
    ensures var text, carry := LastText(gs, path, overlap), CarryAfter(gs, path, overlap);
      if overlap > 0 && ByteLen(text) > overlap
      then ByteLen(carry) == overlap && carry == TailBytes(text, overlap)
      else carry == ""
    decreases |gs|
  {
    var front, text := gs[..|gs| - 1], LastText(gs, path, overlap);
    TakeAll(gs);
    assert !Unsliceable(LastText(gs[..|gs|], path, overlap), overlap);
    if front != [] {
      forall j | 1 <= j <= |front| ensures !Unsliceable(LastText(front[..j], path, overlap), overlap) {
        assert front[..j] == gs[..j];
      }
      CarryIsFresh(front, path, overlap);
      CarriedTextIsLonger(gs, path, overlap);
    }
  }

  lemma CarriedTextIsLonger(gs: seq<seq<Fragment>>, path: seq<string>, overlap: nat)
    requires gs != []
    ensures var carry := CarryAfter(gs[..|gs| - 1], path, overlap);
      carry != "" ==> ByteLen(LastText(gs, path, overlap)) > ByteLen(carry)
  {
    var carry := CarryAfter(gs[..|gs| - 1], path, overlap);
    if carry != "" {
      var rest := LastText(gs, path, overlap)[|carry|..];
      assert LastText(gs, path, overlap) == carry + rest && |rest| >= 1;
      ByteLenConcat(carry, rest);
    }
  }

  // ---- Sizes ----------------------------------------------------------------------------------

  /** Bytes of a rendered group: its load without the last newline. */
  lemma {:induction false} GroupBytes(group: seq<Fragment>)
    requires group != []
    ensures ByteLen(Render(group)) == Load(group, Weight) - 1
  {
    var front, last := group[..|group| - 1], group[|group| - 1];
    var ts := FragmentTexts(group);
    assert ts == FragmentTexts(front) + [FragmentText(last)];
    assert Load(group, Weight) == Load(front, Weight) + Weight(last);
    if front == [] {
      assert Render(group) == FragmentText(last);
    } else {
      GroupBytes(front);
      assert ts[..|ts| - 1] == FragmentTexts(front);
      ByteLenConcat(Render(front) + "\n", FragmentText(last));
      ByteLenConcat(Render(front), "\n");
      assert ByteLen("\n") == 1;
    }
  }

  /** A group with two fragments or more fits the limit. */
  lemma GroupFits(fs: seq<Fragment>, maxChunk: nat, k: nat)
    requires k < |Groups(fs, maxChunk)| && |Groups(fs, maxChunk)[k]| >= 2
    ensures Load(Groups(fs, maxChunk)[k], Weight) <= maxChunk
  {
    PackIsPartition(NonBlank(fs), Fits(maxChunk));
    var g := Groups(fs, maxChunk)[k];
    assert Grown(g, Fits(maxChunk));
    assert Fits(maxChunk)(g[..|g| - 1], g[|g| - 1]);
  }

  /** A chunk of two or more fragments has at most `maxChunk + overlap` bytes;
      the first of a section at most `maxChunk` plus its heading path. */
  lemma ChunkSize(sec: Section, maxChunk: nat, overlap: nat, j: nat)
    requires !SliceFails(sec, maxChunk, overlap)
    requires 1 <= j <= |Groups(sec.fragments, maxChunk)| && |Groups(sec.fragments, maxChunk)[j - 1]| >= 2
    ensures var text := LastText(Groups(sec.fragments, maxChunk)[..j], sec.headingPath, overlap);
      ByteLen(text) <= maxChunk + (if j == 1 then ByteLen(Join(sec.headingPath, "\n")) else overlap)
  {
    var gs, path := Groups(sec.fragments, maxChunk), sec.headingPath;
    CarryBounded(sec, maxChunk, overlap, j - 1);
    GroupFits(sec.fragments, maxChunk, j - 1);
    TextFits(gs, path, maxChunk, overlap, j);
  }

  lemma TextFits(gs: seq<seq<Fragment>>, path: seq<string>, maxChunk: nat, overlap: nat, j: nat)
    requires 1 <= j <= |gs| && gs[j - 1] != [] && Load(gs[j - 1], Weight) <= maxChunk
    requires var carry := CarryAfter(gs[..j - 1], path, overlap); ByteLen(carry) <= overlap && (j == 1 ==> carry == "")
    ensures ByteLen(LastText(gs[..j], path, overlap)) <=
      maxChunk + (if j == 1 then ByteLen(Join(path, "\n")) else overlap)
  {
    TextOfGroup(gs, path, overlap, j);
    AssembledFits(gs[j - 1], CarryAfter(gs[..j - 1], path, overlap), path, j == 1, maxChunk, overlap);
  }

  lemma AssembledFits(group: seq<Fragment>, carry: string, path: seq<string>, first: bool, maxChunk: nat, overlap: nat)
    requires group != [] && Load(group, Weight) <= maxChunk
    requires ByteLen(carry) <= overlap && (first ==> carry == "")
    ensures ByteLen(Assemble(group, carry, path, first)) <=
      maxChunk + (if first then ByteLen(Join(path, "\n")) else overlap)
  {
    GroupBytes(group);
    AssembledBytes(group, carry, path, first);
  }

  lemma TextOfGroup(gs: seq<seq<Fragment>>, path: seq<string>, overlap: nat, j: nat)
    requires 1 <= j <= |gs|
    ensures LastText(gs[..j], path, overlap) ==
      Assemble(gs[j - 1], CarryAfter(gs[..j - 1], path, overlap), path, j == 1)
  {
    assert gs[..j][..j - 1] == gs[..j - 1];
  }

  /** The carry into any chunk has at most `overlap` bytes, none into the first. */
  lemma CarryBounded(sec: Section, maxChunk: nat, overlap: nat, j: nat)
    requires !SliceFails(sec, maxChunk, overlap) && j < |Groups(sec.fragments, maxChunk)|
    ensures var carry := CarryAfter(Groups(sec.fragments, maxChunk)[..j], sec.headingPath, overlap);
      ByteLen(carry) <= overlap && (j == 0 ==> carry == "")
  {
    var gs := Groups(sec.fragments, maxChunk);
    var front := gs[..j];
    if j > 0 {
      forall i | 1 <= i <= |front| ensures !Unsliceable(LastText(front[..i], sec.headingPath, overlap), overlap) {
        assert front[..i] == gs[..i];
      }
      CarryIsFresh(front, sec.headingPath, overlap);
    }
  }

  lemma AssembledBytes(group: seq<Fragment>, carry: string, path: seq<string>, first: bool)
    ensures ByteLen(Assemble(group, carry, path, first)) ==
      (if carry != "" then ByteLen(carry) + 1 else 0)
      + (if first && path != [] then ByteLen(Join(path, "\n")) + 1 else 0)
      + ByteLen(Render(group))
  {
    var a := if carry != "" then carry + "\n" else "";
    var b := if first && path != [] then Join(path, "\n") + "\n" else "";
    ByteLenConcat(a + b, Render(group));
    ByteLenConcat(a, b);
    ByteLenConcat(carry, "\n");
    ByteLenConcat(Join(path, "\n"), "\n");
    assert ByteLen("\n") == 1;
  }

  /** The packer makes groups of one fragment or within the limit, the fewest
      of any contiguous grouping into such groups. */
  lemma FewestChunks(fs: seq<Fragment>, other: seq<seq<Fragment>>, maxChunk: nat)
    requires Flatten(other) == NonBlank(fs)
    requires forall k :: 0 <= k < |other| ==> Feasible(other[k], Weight, maxChunk)
    ensures |Groups(fs, maxChunk)| <= |other| && Flatten(Groups(fs, maxChunk)) == NonBlank(fs)
    ensures forall k :: 0 <= k < |Groups(fs, maxChunk)| ==> Feasible(Groups(fs, maxChunk)[k], Weight, maxChunk)
  {
    FitsPacks(maxChunk);
    GreedyStaysAhead(other, Fits(maxChunk), Weight, maxChunk);
    PackIsPartition(NonBlank(fs), Fits(maxChunk));
    PackFeasible(NonBlank(fs), Fits(maxChunk), Weight, maxChunk);
  }

  lemma FitsPacks(maxChunk: nat)
    ensures PacksByLoad(Fits(maxChunk), Weight, maxChunk)
  {
    forall run: seq<Fragment>, f: Fragment | run != []
      ensures Fits(maxChunk)(run, f) <==> Load(run + [f], Weight) <= maxChunk
    {
      LoadSnoc(run, f);
    }
  }

  // ---- Numbering -----------------------------------------------------------------------------

  lemma {:induction false} ChunkAt(ds: seq<Draft>, documentId: string, k: nat)
    requires k < |ds|
    ensures Chunks(ds, documentId)[k] == Numbered(ds[k], k, Offset(ds[..k]), documentId)
  {
    if k < |ds| - 1 {
      ChunkAt(ds[..|ds| - 1], documentId, k);
      assert ds[..|ds| - 1][..k] == ds[..k];
    }
  }

  /** Chunk offsets start at zero and each is the one before it plus that
      chunk's length: always the sum of the earlier lengths. */
  lemma OffsetsAdd(ds: seq<Draft>, documentId: string, k: nat)
    requires k < |ds|
    ensures var cs := Chunks(ds, documentId);
      && cs[0].charOffset == 0 && cs[k].charCount == ByteLen(cs[k].text)
      && (k + 1 < |cs| ==> cs[k + 1].charOffset == cs[k].charOffset + cs[k].charCount)
  {
    ChunkAt(ds, documentId, 0);
    ChunkAt(ds, documentId, k);
    if k + 1 < |ds| {
      ChunkAt(ds, documentId, k + 1);
      TakeTwice(ds, k);
    }
  }

  /** Chunk ids are distinct for any number of chunks. */
  lemma ChunkIdsDistinct(ds: seq<Draft>, documentId: string, i: nat, j: nat)
    requires i < j < |ds|
    ensures Chunks(ds, documentId)[i].id != Chunks(ds, documentId)[j].id
  {
    ChunkAt(ds, documentId, i);
    ChunkAt(ds, documentId, j);
    Padded4Injective(i, j);
    var n := |documentId| + |"/chunk-"|;
    assert ChunkId(documentId, i)[n..] == Padded4(i) && ChunkId(documentId, j)[n..] == Padded4(j);
  }

  // ---- When slicing cannot fail -----------------------------------------------------------------

  predicate SingleByte(s: string) {
    forall i :: 0 <= i < |s| ==> Utf8Width(s[i]) == 1
  }

  lemma {:induction false} SingleByteLen(s: string)
    requires SingleByte(s)
    ensures ByteLen(s) == |s|
  {
    if s != "" {
      SingleByteLen(s[..|s| - 1]);
    }
  }

  lemma {:induction false} SingleByteTail(s: string, n: nat)
    requires SingleByte(s) && n <= |s|
    ensures ByteLen(TailBytes(s, n)) == n && SingleByte(TailBytes(s, n))
  {
    SingleByteLen(s);
    if |s| > n {
      SingleByteTail(s[1..], n);
    }
  }

  lemma {:induction false} SingleByteJoin(parts: seq<string>)
    requires forall i :: 0 <= i < |parts| ==> SingleByte(parts[i])
    ensures SingleByte(Join(parts, "\n"))
  {
    if |parts| > 1 {
      SingleByteJoin(parts[..|parts| - 1]);
    }
  }

  ghost predicate SingleByteGroups(gs: seq<seq<Fragment>>) {
    forall k, i :: 0 <= k < |gs| && 0 <= i < |gs[k]| ==> SingleByte(FragmentText(gs[k][i]))
  }

  lemma SingleByteRender(group: seq<Fragment>)
    requires forall i :: 0 <= i < |group| ==> SingleByte(FragmentText(group[i]))
    ensures SingleByte(Render(group))
  {
    forall i | 0 <= i < |group| ensures SingleByte(FragmentTexts(group)[i]) {
      TextsAt(group, i);
    }
    SingleByteJoin(FragmentTexts(group));
  }

  lemma SingleByteAssemble(group: seq<Fragment>, carry: string, path: seq<string>, first: bool)
    requires forall i :: 0 <= i < |group| ==> SingleByte(FragmentText(group[i]))
    requires SingleByte(carry) && forall i :: 0 <= i < |path| ==> SingleByte(path[i])
    ensures SingleByte(Assemble(group, carry, path, first))
  {
    SingleByteRender(group);
    SingleByteJoin(path);
  }

  lemma {:induction false} SingleByteTexts(gs: seq<seq<Fragment>>, path: seq<string>, overlap: nat)
    requires SingleByteGroups(gs) && forall i :: 0 <= i < |path| ==> SingleByte(path[i])
    ensures gs != [] ==> SingleByte(LastText(gs, path, overlap)) && !Unsliceable(LastText(gs, path, overlap), overlap)
    ensures SingleByte(CarryAfter(gs, path, overlap))
    decreases |gs|
  {
    if gs != [] {
      SingleByteTexts(gs[..|gs| - 1], path, overlap);
      SingleByteAssemble(gs[|gs| - 1], CarryAfter(gs[..|gs| - 1], path, overlap), path, |gs| == 1);
      var text := LastText(gs, path, overlap);
      SingleByteLen(text);
      if overlap <= |text| {
        SingleByteTail(text, overlap);
      }
    }
  }

  /** On single-byte text the projection never fails. */
  lemma SingleByteSlices(sec: Section, maxChunk: nat, overlap: nat)
    requires forall i :: 0 <= i < |sec.fragments| ==> SingleByte(FragmentText(sec.fragments[i]))
    requires forall i :: 0 <= i < |sec.headingPath| ==> SingleByte(sec.headingPath[i])
    ensures !SliceFails(sec, maxChunk, overlap)
  {
    var gs := Groups(sec.fragments, maxChunk);
    SingleByteGrouped(sec.fragments, maxChunk);
    forall j | 1 <= j < |gs| ensures !Unsliceable(LastText(gs[..j], sec.headingPath, overlap), overlap) {
      SingleByteTexts(gs[..j], sec.headingPath, overlap);
    }
  }

  lemma SingleByteGrouped(fs: seq<Fragment>, maxChunk: nat)
    requires forall i :: 0 <= i < |fs| ==> SingleByte(FragmentText(fs[i]))
    ensures SingleByteGroups(Groups(fs, maxChunk))
  {
    var ns, gs := NonBlank(fs), Groups(fs, maxChunk);
    SingleByteNonBlank(fs);
    PackIsPartition(ns, Fits(maxChunk));
    forall k, i | 0 <= k < |gs| && 0 <= i < |gs[k]| ensures SingleByte(FragmentText(gs[k][i])) {
      RunElement(gs, k, i);
    }
  }

  lemma {:induction false} SingleByteNonBlank(fs: seq<Fragment>)
    requires forall i :: 0 <= i < |fs| ==> SingleByte(FragmentText(fs[i]))
    ensures forall i :: 0 <= i < |NonBlank(fs)| ==> SingleByte(FragmentText(NonBlank(fs)[i]))
  {
    if fs != [] {
      SingleByteNonBlank(fs[..|fs| - 1]);
    }
  }

  /** A two-byte character in front of the cut makes it fail. */
  lemma SliceCanFail() returns (sec: Section)
    ensures SliceFails(sec, 1, 1)
  {
    var text := "\U{E9}";
    var f := Fragment("f", TextKind, TextContent(text), Context([], None, [], None), None, [], 1.0);
    sec := Section(1, [], [f, f]);
    WideText(text);
    TwoGroups(f);
    var gs := [[f], [f]];
    assert gs[..1] == [[f]] && [[f]][..0] == [];
    TextOfGroup(gs, [], 1, 1);
    assert Render([f]) == text;
    ConcatNil(text);
    assert 1 <= 1 < |gs| && Unsliceable(LastText(gs[..1], sec.headingPath, 1), 1);
  }

  lemma WideText(text: string)
    requires |text| == 1 && Utf8Width(text[0]) == 2
    ensures ByteLen(text) == 2 && Unsliceable(text, 1)
  {
    assert text[..0] == "" && text[1..] == "";
    assert TailBytes(text, 1) == TailBytes(text[1..], 1);
  }

  lemma TwoGroups(f: Fragment)
    requires !IsBlank(FragmentText(f))
    ensures Groups([f, f], 1) == [[f], [f]]
  {
    OneGroup(f);
    GroupsSnoc([f], f, 1);
    assert [f] + [f] == [f, f];
    assert !Fits(1)([f], f);
  }

  lemma OneGroup(f: Fragment)
    requires !IsBlank(FragmentText(f))
    ensures Groups([f], 1) == [[f]] && Load([f], Weight) == Weight(f)
  {
    GroupsSnoc([], f, 1);
    LoadSnoc([], f);
    ConcatNil([f]);
    assert Groups([], 1) == [];
  }
}
