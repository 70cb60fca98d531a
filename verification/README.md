# Verified model of the aikoql ingestion, planning and benchmark kernels

This project models, in Dafny, the parts of aikoql that rewrite lists in place,
and proves what those rewrites keep.

- **Boundary detection** (`Sentences`, `MergePasses`, `SplitPasses`, `RuleDetector`,
  `FragmentIds`, `Detectors`, on `Text`, `Payloads`, `Fragments`). A rule pass turns a
  document tree into fragments; three merge loops, a size-ceiling splitter, a semantic
  splitter and neighbour relinking rewrite the list. The embedding provider (through
  its cosine similarity) and the transformer scorer are arbitrary functions, so every
  theorem holds for all of them, and for all thresholds and ceilings. Text is a
  sequence of Unicode scalar values with their UTF-8 widths, because the code mixes
  character counts with byte lengths. `RuleLaws`, `MergeLaws` and `SplitLaws` say what
  comes out in terms of the tree, the similarity, the scores and the sizes alone.
- **Greedy grouping** (`Runs`). One theory of "extend the last group or open a new one"
  serves the merge loops, both splitters, section collection and chunk packing: the
  grouping is the unique partition the policy accepts, and under a weight limit no
  partition has fewer groups.
- **Retrieval projection** (`Projection`, `ProjectionLaws`, `ChunkLaws`). Sections, greedy packing,
  the overlap carry, running offsets, chunk ids. The byte slice of the carry is
  modelled with its panic.
- **Plan optimizer** (`Plans`, `Planner`). Filter merging, pushdown and scan
  deduplication over an operator list. `Plans` gives the list the meaning the planner's
  comments have in mind (search, then filter, over one row list); theorems about it are
  marked "intended meaning".
- **Plan interpreter** (`Runtime`, `PlanExecution`, `SearchLaws`). The interpreter as a class: typed
  row sets, cached objects, the scored list kept for fusion, index delegation, errors.
  The store and every operator other than scan, filter and search are arbitrary
  functions. `PlanExecution` proves what the optimizer does to a plan that is really run.
- **Tree passes and tables** (`Ast`, `AstPasses`, `TreeLaws`, `DocumentTree`, `TableText`,
  `Tables`, `TableLaws`).
- **Script kernels** (`EditDistance`, `Framing`, `Ranking`, `Certification`).

`Seqs` holds slice and concatenation facts, `Numerals` decimal formatting, `Wrappers`
the option type. `dafny verify dfyconfig.toml` checks everything.

Loops of the source are methods with loops, proved equal to a specification function;
the theorems are about those functions, and the `…Laws` modules pin each of them down by
what it gives back, without naming it in the answer. In-place `Vec` parameters become an input and an
output sequence. The plan interpreter and the wire clients are classes, because their
methods update fields.

## Where a property fails, and exactly when it holds

- Fragment ids of the rule detector are distinct exactly when no two content leaves of a
  page share the index in their innermost list (`RuleIdsDistinctExactly`); nested empty
  wrappers break this (`WrapperCollides`), trees built from a document have none, so for
  them every detector's ids are distinct and its links exact (`BuildTree`).
- List-continuation nesting keeps all texts exactly when no bare list item follows a
  list and its continuation paragraphs (`ContinuedKeepsTextsExactly`); there the
  paragraphs are lost (`OrphanLosesText`, `ItemEnds`). Classification never leaves a bare
  item at top level.
- The projection panics exactly when some chunk followed by another one in its section
  is longer than the overlap and has no character boundary there (`Project`,
  `UnsliceableIs`, `SliceCanFail`); single-byte text never does (`SingleByteSlices`).
- The repository promises that the planner never changes a result
  (crates/runtime/tests/plan_oracle.rs:85-89). It holds exactly for plans in which no
  filter stands right before a search, and for plans that fail anyway: pushdown puts the
  filter behind the search, and the interpreter refuses a filter on scored rows
  (`OptimizedExecutes`, `OptimizedPreservesExactly`). The plan of a match with conditions
  and a similarity clause runs as compiled and always fails once optimized
  (`FilteredSearchRefused`, `PushdownRefused`).
- In the intended meaning, in which a filter may follow a search, the optimized result is
  a prefix of the plan's with only filters and searches after the last scan and at most
  one search behind the first filter there, and equal when no search of the optimized
  plan truncates; two truncating searches can return a row the plan did not
  (`TwoSearchesDiffer`). One pass is not always enough; `OptimizedIdleExactly` says which
  plans it leaves alone.
- A rendered table is not always read back: an empty first or last cell loses its column
  (`FirstCellLost`); `ReparsedGridExactly` says which tables are, ragged ones included.
- The comment on the hybrid merge says merged units may exceed `max_chars`; the code runs
  the ceiling pass after the merge, so a Text unit exceeds it only as a single sentence or
  by trailing blanks (`DetectorsBoundText`).
- NDCG exceeds 1 on repeated sessions (`RepeatsExceedOne`); the collapse loop rules them
  out.
- A release verdict of NO-GO without any blocker exists: everything passes but one of the
  eight areas has no row (`SilentNoGoExactly`, `SilentNoGo`). The gate documented as 100
  percent admits one failure in two hundred rows, because it compares a rounded
  percentage (`GatesExactly`), so a release can be GO with a failing top-priority row
  (`GoWithFailure`).

## Model

| member | source | states |
|---|---|---|
| Sentences.Split | crates/ingestion/src/boundary.rs:618-638 | the one-pass scanner with a moving start returns exactly the sentence units |
| Sentences.JoinOfUnits | crates/ingestion/src/boundary.rs:618-638 | joining the units with spaces gives the text back up to a blank tail |
| Sentences.UnitsOfSubrun | crates/ingestion/src/boundary.rs:622-637 | splitting the join of any contiguous run of units returns exactly that run, although the digit guard loses its left context |
| Sentences.UnitRunsExactly | crates/ingestion/src/boundary.rs:613-638 | the lists the splitter can return are exactly the runs of closed units of which all but the last end a sentence |
| Sentences.UnitsBetweenEnds | crates/ingestion/src/boundary.rs:618-638 | the units are the stretches between the terminators that end one, blank stretches skipped, and a non-blank rest |
| Runs.PartitionUnique | crates/ingestion/src/boundary.rs:181-206 | only one partition into contiguous runs has every inner step accepted and every kept boundary rejected |
| Runs.GreedyStaysAhead | crates/ingestion/src/boundary.rs:322-336 | no contiguous partition into single units or groups within the limit has fewer groups than the greedy one |
| MergePasses.EmbeddingMerge | crates/ingestion/src/boundary.rs:181-206 | the remove-in-place loop yields the folded runs of the embedding policy |
| MergePasses.HybridMerge | crates/ingestion/src/boundary.rs:492-519 | the remove-and-insert loop yields the folded runs of the similarity-or-score policy |
| MergePasses.TransformerMerge | crates/ingestion/src/boundary.rs:580-594 | the loop yields the folded runs of the score policy |
| MergePasses.MergeIsUniquePartition | crates/ingestion/src/boundary.rs:177-206 | a merge is the left fold of the one partition in which the policy accepted (accumulated unit, next) inside runs and rejected (finished unit, next run's first) between them |
| MergePasses.MergePairText | crates/ingestion/src/boundary.rs:362-398 | a merged pair, text or nested composite, renders as its two parts on consecutive lines |
| MergePasses.MergePairStamps | crates/ingestion/src/boundary.rs:390-397 | all merged evidence names the pass, and the model when the score decided |
| MergePasses.HybridConserves | crates/ingestion/src/boundary.rs:355-398 | every accepted hybrid merge keeps rendering, first id, context, source, tag agreement and both evidence trails in order |
| MergePasses.MergeKeepsRendering | crates/ingestion/src/boundary.rs:181-206 | a merge pass leaves the newline-joined rendering exactly equal, nested composites included |
| MergePasses.MergeKeepsTrail | crates/ingestion/src/boundary.rs:390-391 | a merge pass loses, invents and reorders no evidence; only extractor and model are re-stamped |
| MergePasses.MergeKeepsIds | crates/ingestion/src/boundary.rs:176-206 | distinct ids stay distinct through a merge pass and none is new |
| MergeLaws.TransformerMergeExactly | crates/ingestion/src/boundary.rs:580-594 | the output is the fold of a partition exactly if every inner step has a score of at least the threshold and every kept boundary none or a lower one |
| MergeLaws.HybridMergeExactly | crates/ingestion/src/boundary.rs:492-519 | the same with similarity of at least the threshold or a score of at least 0.7; the model is recorded exactly when its score reached 0.7 |
| MergeLaws.EmbeddingMergeExactly | crates/ingestion/src/boundary.rs:181-206 | the same with both sides text and similarity of at least the threshold |
| MergeLaws.MergePairIs | crates/ingestion/src/boundary.rs:362-398 | every field of a merged pair, two texts or a composite, and every evidence entry with its new stamp |
| SplitPasses.SplitAtCeiling | crates/ingestion/src/boundary.rs:299-353 | the drain-and-rebuild loop with byte packing equals the ceiling specification |
| SplitPasses.SplitTextFragments | crates/ingestion/src/boundary.rs:230-289 | the drain-and-rebuild loop with accumulated-text similarity equals the semantic specification |
| SplitPasses.SplitOnePieces | crates/ingestion/src/boundary.rs:277-286 | pieces keep context, source, confidence, tag and provenance, and are re-stamped |
| SplitPasses.SplitKeepsSolid | crates/ingestion/src/boundary.rs:299-353 | a split pass changes whitespace only |
| SplitPasses.CeilingBounds | crates/ingestion/src/boundary.rs:313-350 | after the ceiling pass a text has at most max_chars characters up to trailing blanks or is one sentence, although packing counts bytes |
| SplitPasses.SplitStaysWithin | crates/ingestion/src/boundary.rs:249-286 | any further split of a text within the ceiling stays within it |
| SplitPasses.CeilingFewestPieces | crates/ingestion/src/boundary.rs:322-336 | the ceiling packer makes pieces of one unit or within the byte limit, the fewest of any contiguous partition into such pieces |
| SplitLaws.SemanticSplitIs | crates/ingestion/src/boundary.rs:230-289 | per fragment: a text long enough is cut into its units exactly where the segment so far and the next unit are less similar than the threshold; pieces field by field |
| SplitLaws.CeilingSplitIs | crates/ingestion/src/boundary.rs:299-353 | per fragment: a text over the ceiling is cut exactly where the joined bytes would pass it; pieces field by field |
| Text.WordsAre | crates/ingestion/src/ast.rs:877 | the words are non-empty, free of whitespace, with real gaps of whitespace between them |
| Text.Utf8Shortest | crates/ingestion/src/boundary.rs:322-336 | byte length adds up, each character taking the fewest bytes UTF-8 allows for it |
| Payloads.ImageShows | crates/ingestion/src/chunking.rs:373-380 | caption and recognised text, as far as present, on lines of their own |
| Payloads.ChartShows | crates/ingestion/src/chunking.rs:382-396 | exactly those of title, axis labels and series names that are there, in order, one per line |
| Payloads.DiagramShows | crates/ingestion/src/chunking.rs:398-408 | node labels, then exactly the edge labels that are there, one per line |
| Fragments.FinalizeNeighbors | crates/ingestion/src/boundary.rs:599-611 | the in-place relinking sets exactly the ids before and after each position |
| Fragments.LinksFormChain | crates/ingestion/src/boundary.rs:597-611 | with distinct ids, a fragment links to another exactly when they are adjacent |
| RuleDetector.EmitBlock | crates/ingestion/src/boundary.rs:640-800 | the recursive walk with a mutable heading path equals flattening wrappers first and reading the leaves in order |
| RuleDetector.EmitBlocks | crates/ingestion/src/boundary.rs:792-794 | the loop over blocks appends exactly the leaves' headings and fragments |
| RuleDetector.Detect | crates/ingestion/src/boundary.rs:90-118 | pages in order with headings cleared per page, then the document prefix, then the links |
| RuleLaws.LeavesByType | crates/ingestion/src/boundary.rs:640-800 | which block types are read as they stand and which empty containers are read through |
| RuleLaws.RuleFragmentsAre | crates/ingestion/src/boundary.rs:90-118 | one fragment per block with content, in document order; text, code, trimmed list items or payload by block type, and as heading path the headings before it on its page |
| RuleLaws.DetectorsShowTree | crates/ingestion/src/boundary.rs:167-173 | every detector renders the texts of the tree's blocks with content in document order, up to whitespace |
| Detectors.DetectByEmbedding | crates/ingestion/src/boundary.rs:167-173 | the pipeline is the composition merge, semantic split, relink |
| Detectors.DetectHybrid | crates/ingestion/src/boundary.rs:463-483 | the pipeline is the composition merge, ceiling, semantic split, relink |
| Detectors.DetectByTransformer | crates/ingestion/src/boundary.rs:567-576 | the pipeline is the composition merge, ceiling, relink |
| Detectors.DetectorsKeepText | crates/ingestion/src/boundary.rs:167-173 | for every provider, scorer, threshold and ceiling each detector renders the rule detector's text with only whitespace changed |
| Detectors.DetectorsBoundText | crates/ingestion/src/boundary.rs:463-484 | every Text fragment of the hybrid and transformer detectors fits the ceiling up to trailing blanks or is one sentence |
| Detectors.DetectorsAgree | crates/ingestion/src/boundary.rs:370-389 | at top level the modality tag agrees with the content for every detector |
| Detectors.RuleIdsDistinctExactly | crates/ingestion/src/boundary.rs:849-854 | rule ids are pairwise distinct exactly when no two content leaves share page and innermost index, with or without the document prefix |
| Detectors.RuleIdsDistinct | crates/ingestion/src/boundary.rs:94-114 | without wrapper blocks all rule ids are distinct |
| Detectors.WrapperCollides | crates/ingestion/src/boundary.rs:786-797 | a concrete wrapper tree with two equal ids |
| Detectors.DetectorIdsDistinct | crates/ingestion/src/boundary.rs:277-287 | whenever the rule ids are distinct, ids stay distinct for every detector through merging and the -l and -s suffixes |
| Detectors.DetectorChain | crates/ingestion/src/boundary.rs:597-611 | whenever the rule ids are distinct, a fragment of any detector names another as neighbour exactly when they are adjacent |
| Detectors.TransformerDegrades | crates/ingestion/src/boundary.rs:535-577 | with a scorer without opinions the transformer detector equals the rule detector exactly when no rule fragment is cut at the ceiling |
| Projection.CollectSections | crates/ingestion/src/chunking.rs:293-320 | sections are the greedy runs of equal page and heading path |
| Projection.EmitChunk | crates/ingestion/src/chunking.rs:421-530 | one assembled, numbered chunk is appended and the offset advances by its byte length |
| Projection.StartGroup | crates/ingestion/src/chunking.rs:242-262 | a fragment without room closes the pending group, derives the carry and opens the next group, or panics on a slice inside a character |
| Projection.ProjectSection | crates/ingestion/src/chunking.rs:228-277 | the loop over a section emits exactly the greedy groups with their carries |
| Projection.Project | crates/ingestion/src/chunking.rs:199-280 | the chunks are the numbered groups of all sections, or a panic exactly when some carry slice falls inside a character |
| ProjectionLaws.EveryFragmentOnce | crates/ingestion/src/chunking.rs:237-276 | every non-blank fragment lands whole in exactly one chunk, in document order |
| ProjectionLaws.EvidenceConserved | crates/ingestion/src/chunking.rs:507 | the chunks' evidence lists concatenate to the evidence of the non-blank fragments |
| ProjectionLaws.ChunksStayInSection | crates/ingestion/src/chunking.rs:291-320 | no chunk spans a change of page or heading path |
| ProjectionLaws.CarryIsFresh | crates/ingestion/src/chunking.rs:232-260 | the carry is empty or exactly the last overlap bytes of the chunk just emitted, never an older one |
| ProjectionLaws.ChunkSize | crates/ingestion/src/chunking.rs:243-263 | a chunk of two or more fragments has at most max_chunk plus overlap bytes, the first of a section max_chunk plus its heading path |
| ProjectionLaws.FewestChunks | crates/ingestion/src/chunking.rs:237-263 | the packer makes groups of one fragment or within the limit, the fewest of any contiguous grouping into such groups |
| ProjectionLaws.OffsetsAdd | crates/ingestion/src/chunking.rs:509-529 | offsets start at 0 and advance by the byte length of each chunk |
| ProjectionLaws.ChunkIdsDistinct | crates/ingestion/src/chunking.rs:492 | zero-padded chunk ids are distinct for any chunk count |
| ProjectionLaws.SingleByteSlices | crates/ingestion/src/chunking.rs:257-259 | single-byte text never makes the carry slice fail |
| ProjectionLaws.SliceCanFail | crates/ingestion/src/chunking.rs:257-259 | a concrete section on which the carry slice falls inside a character |
| ChunkLaws.ChunksAre | crates/ingestion/src/chunking.rs:199-280 | chunk by chunk: the non-blank fragments in maximal sections and greedy groups, each text the heading path or the previous chunk's last overlap bytes, then the fragments' texts; page, heading path, title, source type and evidence from the fragments |
| ChunkLaws.NumbersAre | crates/ingestion/src/chunking.rs:481-530 | chunks are numbered in order, their ids ending in that number with at least four digits |
| ChunkLaws.UnsliceableIs | crates/ingestion/src/chunking.rs:257-259 | the carry slice fails exactly if the text is longer than a positive overlap and no tail has that many bytes |
| Plans.RankSorts | crates/compiler/src/planner.rs:60-63 | the ranking is a sorted arrangement of exactly the rows that score |
| Plans.SearchThenFilter | crates/compiler/src/planner.rs:60-73 | intended meaning: search-then-filter returns a prefix of filter-then-search, the same rows when the search has at most k hits |
| Planner.MergeFilters | crates/compiler/src/planner.rs:43-58 | the overwrite-and-remove loop conjoins each run of neighbouring filters |
| Planner.PushdownFilters | crates/compiler/src/planner.rs:64-73 | the right-to-left swap loop moves each filter behind the search after it |
| Planner.DedupScans | crates/compiler/src/planner.rs:86-113 | the retain closure drops exactly the scans equal to the operator before them |
| Planner.Optimize | crates/compiler/src/planner.rs:30-40 | the three rewrites in order |
| Planner.ConjoinedRuns | crates/compiler/src/planner.rs:42-58 | intended meaning: merging filters never changes a result |
| Planner.DedupedRuns | crates/compiler/src/planner.rs:75-113 | intended meaning: deduplicating scans never changes a result |
| Planner.PushedKeepsOrder | crates/compiler/src/planner.rs:64-73 | pushdown keeps filter order and search order and every other operator at its index |
| Planner.OptimizedPrefix | crates/compiler/src/planner.rs:30-73 | intended meaning: with only filters and searches after the last scan and at most one search behind the first filter there, the optimized result is a prefix of the plan's |
| Planner.OptimizedSame | crates/compiler/src/planner.rs:30-73 | intended meaning: if no search of the optimized plan truncates, the results are equal for any number of searches and any other operators |
| Planner.TwoSearchesDiffer | crates/compiler/src/planner.rs:60-73 | intended meaning: a concrete plan with two searches whose optimized result is not a prefix |
| Planner.OptimizedIdleExactly | crates/compiler/src/planner.rs:30-113 | the optimizer leaves a plan unchanged exactly when every filter and search run is searches then at most one filter and no consecutive scans are identical |
| Planner.OptimizedDrops | crates/compiler/src/planner.rs:30-113 | any change strictly lowers length plus filter-before-search pairs |
| Planner.Settle | crates/compiler/src/planner.rs:30-40 | repeating the optimizer terminates in a settled plan |
| Planner.SettleSame | crates/compiler/src/planner.rs:30-73 | intended meaning: if no search of the settled plan truncates, it returns the same rows |
| Planner.ConjoinedRun | crates/compiler/src/planner.rs:43-58 | a run of filters becomes one with all their predicates in order |
| Planner.ConjoinedApart | crates/compiler/src/planner.rs:43-58 | merging acts on runs of filters alone |
| Planner.PushedSearch | crates/compiler/src/planner.rs:64-73 | a search changes places with all filters right before it |
| Planner.PushedOther | crates/compiler/src/planner.rs:64-73 | filters before any other operator and at the end stay |
| Planner.DedupedRun | crates/compiler/src/planner.rs:86-113 | identical scans in a row become one |
| Planner.DedupedApart | crates/compiler/src/planner.rs:86-113 | deduplication acts on repeated scans alone |
| Runtime.Interpreter.ResolveObjects | crates/runtime/src/lib.rs:377-388 | a search ranks its input objects, or the cached ones behind a search; other row sets are an error |
| Runtime.Interpreter.ExecTextSearch | crates/runtime/src/lib.rs:1094-1131 | the best n rows by score, the first scored list kept |
| Runtime.Interpreter.ExecVectorSearch | crates/runtime/src/lib.rs:557-638 | the index for an unnarrowed scan, else a ranking, an error when no row has a score; the scored list replaced |
| Runtime.Interpreter.ExecSearch | crates/runtime/src/lib.rs:532-654 | embedding, degradation to text, the text index, and the fall-through when it finds nothing |
| Runtime.Interpreter.ExecOp | crates/runtime/src/lib.rs:390-455 | row set and all fields after a scan, filter or search, or the error |
| Runtime.ExecutePlan | crates/runtime/src/lib.rs:331-368 | the loop over the operators computes the result of the plan, the first error ending it |
| PlanExecution.ConjoinedExec | crates/compiler/src/planner.rs:42-58 | merging filters never changes rows, cached state or error of a run |
| PlanExecution.DedupedExec | crates/compiler/src/planner.rs:75-113 | deduplicating scans never changes rows, cached state or error of a run |
| PlanExecution.FilterRefused | crates/runtime/src/lib.rs:444-448 | a filter right behind a search fails every plan from every state |
| PlanExecution.PushedRefusable | crates/compiler/src/planner.rs:64-73 | a pushdown pass that moves anything leaves a filter right behind a search |
| PlanExecution.OptimizedExec | crates/compiler/src/planner.rs:30-40 | from any state: the plan's own outcome when no filter stands right before a search, else an error |
| PlanExecution.OptimizedExecutes | crates/compiler/src/planner.rs:30-40 | the optimized plan returns the plan's result when no filter stands right before a search, and fails otherwise |
| PlanExecution.OptimizedPreservesExactly | crates/runtime/tests/plan_oracle.rs:85-115 | the result is preserved exactly when no filter stands right before a search or the plan fails anyway |
| PlanExecution.FilteredSearchRefused | crates/compiler/src/parser/mod.rs:313-379 | scan, filter and text search: succeeds with scored rows exactly when the scan does, and always fails once optimized |
| PlanExecution.PushdownRefused | crates/compiler/src/planner.rs:64-73 | a concrete store and plan with its rows before and its error after |
| PlanExecution.SettleExecutes | crates/compiler/src/planner.rs:30-40 | optimizing until nothing changes has the same effect as optimizing once |
| PlanExecution.PlainPlanAgrees | crates/runtime/src/lib.rs:444-455 | on a scan, filters and a plain text search the interpreter returns the scored rows of the intended meaning |
| SearchLaws.TextSearchIs | crates/runtime/src/lib.rs:1094-1131 | the best n input rows by score, the cached ones behind a search, and the list kept only if none is |
| SearchLaws.VectorSearchIs | crates/runtime/src/lib.rs:557-638 | index hits exactly for an unnarrowed, non-temporal scan with hits; else the best n rows, an error exactly when rows exist and none scores; its list is kept |
| SearchLaws.SearchDegrades | crates/runtime/src/lib.rs:532-654 | a query given as text is the query on its embedding, or a text search without provider; an empty text index falls through |
| SearchLaws.VectorPlan | crates/runtime/src/lib.rs:532-638 | scan, filters and vector search on any store: the index answers exactly when no filter dropped a row |
| SearchLaws.TwoSearchPlan | crates/compiler/src/lib.rs:127-161 | scan, filters, a successful vector search and a text search return the best n scanned and filtered rows by text, whatever the first found, and keep the first list |
| AstPasses.FlushList | crates/ingestion/src/ast.rs:624-643 | buffered items become one list, texts in order |
| AstPasses.CollectBlocks | crates/ingestion/src/ast.rs:508-592 | classification with an item buffer gives one node per block and one list per run of items, keeps every built text in order and leaves no bare list item at top level |
| AstPasses.MergeListContinuations | crates/ingestion/src/ast.rs:1213-1249 | the loop with pending paragraphs equals the step-by-step walk |
| AstPasses.FlushedKeepsTexts | crates/ingestion/src/ast.rs:1287-1309 | attaching pending paragraphs to the last item keeps the pre-order texts |
| AstPasses.ContinuedKeepsTextsExactly | crates/ingestion/src/ast.rs:1213-1249 | all texts stay in pre-order exactly when no bare list item follows a list and its continuations |
| AstPasses.OrphanLosesText | crates/ingestion/src/ast.rs:1213-1249 | a concrete list, continuation and bare item of which the continuation's text is lost |
| AstPasses.MergeAdjacentLists | crates/ingestion/src/ast.rs:604-622 | neighbouring lists are appended to the first of them |
| AstPasses.ListsJoinedKeepsTexts | crates/ingestion/src/ast.rs:604-622 | merging lists without own text keeps the pre-order texts |
| AstPasses.DetectFigures | crates/ingestion/src/ast.rs:1317-1365 | a marker paragraph takes the paragraph after it as caption |
| AstPasses.FiguresKeepTexts | crates/ingestion/src/ast.rs:1317-1365 | figure detection keeps the pre-order texts, paragraphs having no children |
| AstPasses.ClassifyBlocks | crates/ingestion/src/ast.rs:508-602 | for every heuristic the collected blocks go through continuations, list joining and figures in that order, every built text stays once and in order, and no block is an empty wrapper |
| TreeLaws.CollectedAre | crates/ingestion/src/ast.rs:508-592 | one node per block and one list per longest run of items, every field |
| TreeLaws.ContinuedApart | crates/ingestion/src/ast.rs:1213-1249 | the continuation pass works separately before and behind a block that does not look back |
| TreeLaws.BlockContinued | crates/ingestion/src/ast.rs:1287-1309 | an item, and a list that ends in one, takes the paragraphs behind it; any other block leaves them |
| TreeLaws.ListTakesRun | crates/ingestion/src/ast.rs:1213-1309 | a list's last item gets the whole continuation run as children, none stays at top level, all else is treated alone |
| TreeLaws.ItemEnds | crates/ingestion/src/ast.rs:1213-1249 | what a bare item does to the block before it: an item keeps the paragraphs, a list loses them, another block leaves them |
| TreeLaws.ListRun | crates/ingestion/src/ast.rs:605-622 | a run of lists is its first list with the items of all |
| TreeLaws.JoinedApart | crates/ingestion/src/ast.rs:605-622 | only a list right behind a list is joined |
| TreeLaws.FiguresAre | crates/ingestion/src/ast.rs:1317-1365 | marker and caption become one figure, every other block stays, in order |
| DocumentTree.BuildPage | crates/ingestion/src/ast.rs:438-453 | a page holds the built texts in order in exactly the classified blocks, its bare image nodes last at their places, its confidence, and no empty wrapper |
| DocumentTree.BuildTree | crates/ingestion/src/ast.rs:435-461 | pages in order; under any document id every detector yields distinct ids and exactly the two-way chain |
| Tables.BuildPayload | crates/ingestion/src/ast.rs:312-368 | the loop maps the first row to headers and each later cell to its column |
| Tables.BuildTableNode | crates/ingestion/src/ast.rs:865-916 | the lines' cells become the tree and its payload |
| Tables.PayloadCell | crates/ingestion/src/ast.rs:342-367 | looking a cell up by row and header id finds exactly that cell of the tree, empty past a short row |
| Tables.RenderedGrid | crates/ingestion/src/chunking.rs:346-371 | building, converting and rendering gives the grid back row by row, each row cut or padded to the header width |
| Tables.ParsedPlain | crates/ingestion/src/ast.rs:868-877 | every cell read from a line is trimmed and free of bars and newlines |
| Tables.ReparseRowExactly | crates/ingestion/src/ast.rs:868-877 | a rendered row of plain cells is read back exactly when its first and last cells are not empty and a lone cell is one word |
| Tables.FirstCellLost | crates/ingestion/src/ast.rs:868-877 | a concrete row whose empty first cell loses its column |
| Tables.ParsedBars | crates/ingestion/src/ast.rs:868-877 | what a rendered row of two or more plain cells is read back as: its cells without an empty first and last one |
| Tables.FittedReadBack | crates/ingestion/src/chunking.rs:346-371 | a row of any length is read back exactly when of full width and reparsable, one cell short and not starting empty (or of at most one cell), or two short and all empty |
| Tables.ReparsedGridExactly | crates/ingestion/src/ast.rs:865-878 | re-parsing the rendering of any table of plain cells yields the same grid exactly when header and last row have cells and every row, cut or padded, is read back |
| TableLaws.PayloadIs | crates/ingestion/src/ast.rs:312-368 | a payload exactly for a table with children: headers, row ids and every cell with its column, those past the headers too |
| TableLaws.BarLine | crates/ingestion/src/ast.rs:868-875 | a line with a bar is trimmed, freed of one bar at either end, cut at every other bar, every piece trimmed |
| TableLaws.WordLine | crates/ingestion/src/ast.rs:876-878 | a line without a bar is its words |
| TableLaws.TableTreeIs | crates/ingestion/src/ast.rs:880-916 | one row per line, one cell per text, and the payload of that tree |
| EditDistance.Distance | scripts/bench-vs-docling.py:38-45 | the two rolling rows compute the edit table's last entry |
| EditDistance.DistanceIsLeast | scripts/bench-vs-docling.py:38-45 | the distance is the least number of single-character insertions, deletions and substitutions |
| EditDistance.DistanceIsMetric | scripts/bench-vs-docling.py:38-45 | symmetric, zero only on equal strings, triangle inequality |
| EditDistance.OcrAccuracy | scripts/bench-vs-docling.py:48-51 | in [0,1], and for non-empty gold 1 exactly on equal cleaned text |
| EditDistance.CleanIs | scripts/bench-vs-docling.py:49-50 | cleaned text is the words between gaps of spaces and bars, one space between them |
| Framing.DecodeEncoded | scripts/bench-tiers.py:149-171 | decoding a stream that starts with a frame gives its message and leaves the rest |
| Framing.HeaderBytes | scripts/bench-tiers.py:149-159 | all 22 header bytes: magic, version, flags, id, kind and length, most significant byte first |
| Framing.FrameBytes | scripts/bench-tiers.py:149-159 | header, payload, and the checksum of both with its least significant byte first |
| Framing.ReadExact | scripts/bench-tiers.py:129-136 | exactly n bytes whatever the cuts, or the stream ended first |
| Framing.Native.Send | scripts/bench-tiers.py:149-159 | one encoded frame and its byte count, or nothing sent when a field overflows |
| Framing.Native.Receive | scripts/bench-tiers.py:161-171 | the decoded head of the stream for every cut, recvd counting exactly the consumed bytes |
| Framing.Native.ReceiveAll | scripts/bench-tiers.py:161-171 | any sequence of frames is delivered in order however the stream is cut |
| Framing.LineUnique | scripts/bench-tiers.py:118-126 | a stream splits at its first newline in one way only |
| Framing.McpRaw.Receive | scripts/bench-tiers.py:118-126 | the first line of the unread bytes; the buffer holds exactly what is left |
| Framing.McpRaw.Call | scripts/bench-tiers.py:108-116 | one numbered line out, one line back, counters exact; without a newline the bytes stay buffered |
| Framing.McpRaw.ReceiveAll | scripts/bench-tiers.py:118-126 | any sequence of newline-free lines is delivered in order however the stream is cut |
| Ranking.Collapse | benchmarks/scripts/longmemeval.py:153-157 | the append-if-absent loop keeps first occurrences |
| Ranking.CollapseIsDistinct | benchmarks/scripts/longmemeval.py:153-157 | collapsed sessions are distinct and none is lost |
| Ranking.NdcgRange | benchmarks/scripts/longmemeval.py:109-112 | on distinct results NDCG is in [0,1] and 1 exactly when the first min(gold, k) results are all gold |
| Ranking.CollapsedNdcg | benchmarks/scripts/longmemeval.py:151-165 | the score of collapsed hits is in [0,1] and 1 exactly on a perfect top, for any hits |
| Ranking.MoreHitsSameNdcg | benchmarks/scripts/longmemeval.py:151-165 | once the first hits hold k sessions, more hits change no score at k |
| Ranking.RepeatsExceedOne | benchmarks/scripts/longmemeval.py:109-112 | a repeated session pushes the score above 1 |
| Ranking.OneGold | benchmarks/scripts/longmemeval.py:109-112 | one gold session scores its place's discount against the first one's, nothing past k |
| Ranking.GainAdds | benchmarks/scripts/longmemeval.py:109-112 | gains of disjoint gold sets add up |
| Ranking.SliceIs | benchmarks/scripts/longmemeval.py:128 | a shard holds exactly the rows whose number leaves it as remainder, in order |
| Ranking.ShardsPartition | benchmarks/scripts/longmemeval.py:126-128 | round-robin shards pooled in any order lose and repeat no row |
| Ranking.PooledSummary | benchmarks/scripts/merge_lme_shards.py:26-32 | counts and means pooled in any shard order equal the unsharded ones, overall and per type |
| Ranking.SummaryIs | benchmarks/scripts/longmemeval.py:115-117 | a counted row adds one to the count and its score to count times mean; another changes nothing |
| Certification.GatesExactly | scripts/certify.js:149-150 | the rounded gates pass exactly when 200, respectively 40, times the failures is at most the rows |
| Certification.PercentIs | scripts/certify.js:149 | the percentage is the nearest whole one, halves up, 100 without rows |
| Certification.PriorityRowsAre | scripts/certify.js:148 | the rows of a priority are exactly those that name it, in order |
| Certification.SeenAreas | scripts/certify.js:158-164 | an area is listed, in order of its first row, exactly when it has a row, and passes exactly when all its rows do |
| Certification.Verdict | scripts/certify.js:152-203 | the release decision and the whole blocking list in order: failing rows, priorities, failing areas, severities, benchmark |
| Certification.NoBlockerExactly | scripts/certify.js:167-174 | nothing is listed exactly when every row passes and neither severity nor benchmark blocks |
| Certification.SilentNoGoExactly | scripts/certify.js:165-194 | a NO-GO lists no blocker exactly when everything passes but some area has no row |
| Certification.SilentNoGo | scripts/certify.js:165-194 | ten passing rows with a NO-GO and no blocker |
| Certification.GoWithFailure | scripts/certify.js:149-194 | 200 rows with a GO, a failing P0 row and a P0 percentage of 100 |
| Certification.MvpMonotone | scripts/certify.js:152-203 | turning a row to pass never turns GO into NO-GO |
| Certification.Wave2Verdict | scripts/certify.js:223-263 | the gates, the error on an unknown area, the whole blocking list in order, and a blocker for every NO-GO |
| Certification.Wave2Covers | scripts/certify.js:213-221 | a second-wave GO means every row outside Performance passes |
| Certification.Wave2Monotone | scripts/certify.js:223-263 | turning a row to pass breaks no second-wave gate |
| Certification.Wave3Verdict | scripts/certify.js:717-733 | the third-wave gates, the whole blocking list in order, and a blocker for every NO-GO |
| Certification.Wave3Monotone | scripts/certify.js:717-733 | turning a row to pass breaks no third-wave gate |

## Left out

- Similarity values, thresholds and probabilities are reals; NaN and rounding are not modelled, nor is the embedding computation.
- Page and block numbers, lengths and counters are unbounded; the 32-bit page cast and machine overflow are not modelled.
- Mutation through shared `Vec` references: the rewriting passes take and return sequences; aliasing does not occur in the source.
- Operators other than scan, filter and the two searches: fusion, traversal, temporal, aggregation, join, projection, sorting and limits are arbitrary functions of the interpreter's state and rows. The store does not change while a plan runs, so INGEST, a plan of its own, is not covered.
- The cost-based index assist of scans, which promises the same rows as the full scan.
- OptimizedPrefix: one direction only; for which plans with two or more searches behind a filter, or another operator behind the search, the prefix still holds depends on the ranking and operator functions.
- Verdict: the wording and evidence excerpt of a blocker are left out, here and in Wave2Verdict and Wave3Verdict.
- The layout heuristics of the tree builder (headings, list markers, table detection, figure markers, continuation test) are arbitrary predicates.
- Splitting a page into raw blocks at blank lines, and the source type of a document.
- Captions and continuation paragraphs do not reach fragments in the source; `DetectorsShowTree` therefore speaks of the blocks with content, not of all texts of the tree.
- Entity mentions, the constant level and parent of table headers, typed values, boxes and confidence of cells, footnotes, and the asset references of visual nodes.
- `lines` in re-parsing ignores carriage returns; trimmed cells cannot end in one.
- JSON encoding, the CRC polynomial, sockets beyond a byte stream with arbitrary cuts, and timeouts.
- The weights of NDCG are any strictly decreasing positive reals; the four-digit rounding in summaries, applied to equal values on both sides.
- Certification rows carry their area and priorities directly; parsing the registry tables and mapping id prefixes to areas would only add easy members. JavaScript's double division in the percentage is exact arithmetic here.
- The plan's version and description, which the optimizer carries along.
- Loading datasets, starting the server, and writing result files.
