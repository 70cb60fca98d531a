/** The three in-place rewrites of the plan optimizer. */
module Planner {
  import opened Seqs
  import opened Wrappers
  import opened Plans

  // ---- Specifications -------------------------------------------------------

  /** Neighbouring filters become one conjunction. */
  function Conjoined(ops: seq<Op>): seq<Op> {
    if ops == [] then [] else Conjoin(Conjoined(ops[..|ops| - 1]), ops[|ops| - 1])
  }

  function Conjoin(done: seq<Op>, op: Op): seq<Op> {
    if done != [] && done[|done| - 1].Filter? && op.Filter?
    then done[..|done| - 1] + [Filter(done[|done| - 1].predicates + op.predicates)]
    else done + [op]
  }

  /** One right-to-left pass of moving a filter behind the search after it. */
  function Pushed(ops: seq<Op>): (r: seq<Op>)
    ensures |r| == |ops|
  {
    if |ops| <= 1 then ops else PushFirst(ops[0], Pushed(ops[1..]))
  }

  function PushFirst(op: Op, rest: seq<Op>): (r: seq<Op>)
    requires rest != []
    ensures |r| == |rest| + 1
  {
    if op.Filter? && rest[0].Search? then [rest[0], op] + rest[1..] else [op] + rest
  }

  /** A scan equal to the operator right before it. */
  predicate Repeats(ops: seq<Op>, i: nat)
    requires i < |ops|
  {
    i > 0 && ops[i].Scan? && ops[i - 1] == ops[i]
  }

  function Deduped(ops: seq<Op>): seq<Op> {
    if ops == [] then []
    else if Repeats(ops, |ops| - 1) then Deduped(ops[..|ops| - 1])
    else Deduped(ops[..|ops| - 1]) + [ops[|ops| - 1]]
  }

  function Optimized(ops: seq<Op>): seq<Op> {
    Deduped(Pushed(Conjoined(ops)))
  }

  // ---- The loops ---------------------------------------------------------------

  /** After `k` operators: the merged part, whose last operator is at `i`. */
  ghost predicate Progress(ops: seq<Op>, i: int, input: seq<Op>, k: nat) {
    && k <= |input|
    && ops == Conjoined(input[..k]) + input[k..]
    && if k == 0 then input == [] && i == 0 else i == |Conjoined(input[..k])| - 1 && i >= 0
  }

  lemma ProgressStart(input: seq<Op>)
    ensures Progress(input, 0, input, if input == [] then 0 else 1)
  {
    if input != [] {
      assert input[..1][..0] == [] && input == [input[0]] + input[1..];
    }
  }

  lemma ProgressStep(ops: seq<Op>, i: int, input: seq<Op>, k: nat)
    requires Progress(ops, i, input, k) && i + 1 < |ops|
    ensures 0 <= i && k < |input|
    ensures if ops[i].Filter? && ops[i + 1].Filter?
      then Progress(ops[..i] + [Filter(ops[i].predicates + ops[i + 1].predicates)] + ops[i + 2..], i, input, k + 1)
      else Progress(ops, i + 1, input, k + 1)
  {
    TakeTwice(input, k);
    AroundNext(Conjoined(input[..k]), input, k);
  }

  lemma AroundNext(done: seq<Op>, input: seq<Op>, k: nat)
    requires done != [] && k < |input|
    ensures var ops, i := done + input[k..], |done| - 1;
      && ops[..i] == done[..i] && ops[i] == done[i] && ops[i + 1] == input[k] && ops[i + 2..] == input[k + 1..]
      && ops == done + [input[k]] + input[k + 1..]
  {
  }

  /** `merge_filters`. */
  method MergeFilters(input: seq<Op>) returns (ops: seq<Op>)
    ensures ops == Conjoined(input)
  {
    ops := input;
    var i := 0;
    ghost var k := if input == [] then 0 else 1;
    ProgressStart(input);
    while i + 1 < |ops|
      invariant Progress(ops, i, input, k)
      decreases |input| - k
    {
      ProgressStep(ops, i, input, k);
      k := k + 1;
      if ops[i].Filter? && ops[i + 1].Filter? {
        var merged := ops[i].predicates + ops[i + 1].predicates;
        ops := ops[..i] + [Filter(merged)] + ops[i + 2..];
      } else {
        i := i + 1;
      }
    }
    assert input[..k] == input;
  }

  /** The list after the loop body at position `i`. */
  function Swapped(ops: seq<Op>, i: nat): seq<Op>
    requires i + 1 < |ops|
  {
    if ops[i].Filter? && ops[i + 1].Search? then ops[i := ops[i + 1]][i + 1 := ops[i]] else ops
  }

  lemma SwapStep(ops: seq<Op>, input: seq<Op>, i: nat)
    requires i + 1 < |ops| == |input|
    requires ops[..i + 1] == input[..i + 1] && ops[i + 1..] == Pushed(input[i + 1..])
    ensures Swapped(ops, i)[..i] == input[..i] && Swapped(ops, i)[i..] == Pushed(input[i..])
  {
    var rest := Pushed(input[i + 1..]);
    TakeTwice(ops, i);
    TakeTwice(input, i);
    assert ops[i] == ops[..i + 1][i] == input[i];
    assert input[i..][1..] == input[i + 1..];
    assert ops[i..] == [input[i]] + rest;
    assert Swapped(ops, i)[..i] == ops[..i];
  }

  /** `pushdown_filters`. */
  method PushdownFilters(input: seq<Op>) returns (ops: seq<Op>)
    ensures ops == Pushed(input)
  {
    ops := input;
    if |ops| <= 1 {
      return;
    }
    var i := |ops| - 1;
    assert ops[i..] == [ops[i]];
    while i > 0
      invariant 0 <= i < |ops| == |input|
      invariant ops[..i] == input[..i] && ops[i..] == Pushed(input[i..])
    {
      i := i - 1;
      SwapStep(ops, input, i);
      if ops[i].Filter? && ops[i + 1].Search? {
        ops := ops[i := ops[i + 1]][i + 1 := ops[i]];
      }
    }
    assert ops == ops[0..] && input == input[0..];
  }

  /** `dedup_scans`. */
  method DedupScans(input: seq<Op>) returns (ops: seq<Op>)
    ensures ops == Deduped(input)
  {
    ops := [];
    var last: Option<ScanKey> := None;
    for i := 0 to |input|
      invariant ops == Deduped(input[..i])
      invariant last == if i > 0 && input[i - 1].Scan? then Some(input[i - 1].key) else None
    {
      TakeTwice(input, i);
      var op := input[i];
      if op.Scan? {
        if last == Some(op.key) {
          continue;
        }
        last := Some(op.key);
      } else {
        last := None;
      }
      ops := ops + [op];
    }
    TakeAll(input);
  }

  /** `optimize`. */
  method Optimize(input: seq<Op>) returns (ops: seq<Op>)
    ensures ops == Optimized(input)
  {
    ops := MergeFilters(input);
    ops := PushdownFilters(ops);
    ops := DedupScans(ops);
  }

  // ---- Meaning: merging and deduplication ------------------------------------

  lemma RunSnoc(w: World, ops: seq<Op>, op: Op, rows: seq<Row>)
    ensures Run(w, ops + [op], rows) == Step(w, op, Run(w, ops, rows))
  {
    InitSnoc(ops, op);
  }

  lemma RunCons(w: World, op: Op, ops: seq<Op>, rows: seq<Row>)
    ensures Run(w, [op] + ops, rows) == Run(w, ops, Step(w, op, rows))
  {
    RunConcat(w, [op], ops, rows);
    assert [] + [op] == [op];
    RunSnoc(w, [], op, rows);
  }

  /** Merging filters never changes the result of a plan. */
  lemma {:induction false} ConjoinedRuns(w: World, ops: seq<Op>, rows: seq<Row>)
    ensures Run(w, Conjoined(ops), rows) == Run(w, ops, rows)
  {
    if ops != [] {
      ConjoinedRuns(w, ops[..|ops| - 1], rows);
      ConjoinRuns(w, Conjoined(ops[..|ops| - 1]), ops[|ops| - 1], rows);
    }
  }

  lemma ConjoinRuns(w: World, done: seq<Op>, op: Op, rows: seq<Row>)
    ensures Run(w, Conjoin(done, op), rows) == Step(w, op, Run(w, done, rows))
  {
    RunSnoc(w, done, op, rows);
    if done != [] && done[|done| - 1].Filter? && op.Filter? {
      var front, last := done[..|done| - 1], done[|done| - 1];
      RunSnoc(w, front, Filter(last.predicates + op.predicates), rows);
      KeepTwice(w, Run(w, front, rows), last.predicates, op.predicates);
    }
  }

  /** Deduplicating scans never changes the result of a plan. */
  lemma {:induction false} DedupedRuns(w: World, ops: seq<Op>, rows: seq<Row>)
    ensures Run(w, Deduped(ops), rows) == Run(w, ops, rows)
  {
    if ops != [] {
      var front, last := ops[..|ops| - 1], ops[|ops| - 1];
      DedupedRuns(w, front, rows);
      RunSnoc(w, Deduped(front), last, rows);
    }
  }

  // ---- Pushdown: what moves ------------------------------------------------------

  function Select(ops: seq<Op>, test: Op -> bool): seq<Op> {
    if ops == [] then []
    else if test(ops[0]) then [ops[0]] + Select(ops[1..], test)
    else Select(ops[1..], test)
  }

  function Filters(ops: seq<Op>): seq<Op> { Select(ops, (op: Op) => op.Filter?) }
  function Searches(ops: seq<Op>): seq<Op> { Select(ops, (op: Op) => op.Search?) }

  predicate Movable(op: Op) {
    op.Filter? || op.Search?
  }

  lemma PushFirstSelects(op: Op, rest: seq<Op>, test: Op -> bool)
    requires rest != []
    requires op.Filter? && rest[0].Search? ==> !(test(op) && test(rest[0]))
    ensures Select(PushFirst(op, rest), test) == Select([op] + rest, test)
  {
    if op.Filter? && rest[0].Search? {
      var s, r := rest[0], rest[1..];
      ConsTail(rest);
      assert [s, op] + r == [s] + ([op] + r);
      SelectCons(s, [op] + r, test);
      SelectCons(op, r, test);
      SelectCons(op, rest, test);
      SelectCons(s, r, test);
    }
  }

  lemma SelectCons(op: Op, ops: seq<Op>, test: Op -> bool)
    ensures Select([op] + ops, test) == if test(op) then [op] + Select(ops, test) else Select(ops, test)
  {
    TailCons(op, ops);
  }

  /** Filters keep their order, searches keep theirs, and every other operator
      keeps its index. */
  lemma {:induction false} PushedKeepsOrder(ops: seq<Op>)
    ensures Filters(Pushed(ops)) == Filters(ops) && Searches(Pushed(ops)) == Searches(ops)
    ensures forall i :: 0 <= i < |ops| ==> Movable(Pushed(ops)[i]) == Movable(ops[i])
    ensures forall i :: 0 <= i < |ops| && !Movable(ops[i]) ==> Pushed(ops)[i] == ops[i]
  {
    if |ops| > 1 {
      PushedKeepsOrder(ops[1..]);
      var rest := Pushed(ops[1..]);
      PushFirstSelects(ops[0], rest, (op: Op) => op.Filter?);
      PushFirstSelects(ops[0], rest, (op: Op) => op.Search?);
      assert ops == [ops[0]] + ops[1..] && ([ops[0]] + rest)[1..] == rest;
    }
  }

  ghost predicate AllFilters(fs: seq<Op>) {
    forall i :: 0 <= i < |fs| ==> fs[i].Filter?
  }

  /** A search changes places with all the filters right before it. */
  lemma {:induction false} PushedSearch(fs: seq<Op>, s: Op, rest: seq<Op>)
    requires AllFilters(fs) && s.Search?
    ensures Pushed(fs + ([s] + rest)) == [s] + fs + Pushed(rest)
  {
    if fs == [] {
      assert fs + ([s] + rest) == [s] + rest && [s] + fs == [s];
      TailCons(s, rest);
      ConcatNil([s]);
    } else {
      var f, tail := fs[0], fs[1..];
      PushedSearch(tail, s, rest);
      TailConcat(fs, [s] + rest);
      assert [s] + tail + Pushed(rest) == [s] + (tail + Pushed(rest));
      assert [s, f] + (tail + Pushed(rest)) == [s] + fs + Pushed(rest);
    }
  }

  /** Filters right before another operator, and at the end, stay. */
  lemma {:induction false} PushedOther(fs: seq<Op>, x: Op, rest: seq<Op>)
    requires AllFilters(fs) && !x.Filter? && !x.Search?
    ensures Pushed(fs + ([x] + rest)) == fs + [x] + Pushed(rest) && Pushed(fs) == fs
  {
    if fs == [] {
      assert fs + ([x] + rest) == [x] + rest && fs + [x] == [x];
      TailCons(x, rest);
      ConcatNil([x]);
    } else {
      var f, tail := fs[0], fs[1..];
      PushedOther(tail, x, rest);
      TailConcat(fs, [x] + rest);
      ConsTail(fs);
      assert (tail + [x] + Pushed(rest))[0] == if tail == [] then x else tail[0];
      assert [f] + (tail + [x] + Pushed(rest)) == fs + [x] + Pushed(rest);
    }
  }

  // ---- Merging and deduplication, run by run -----------------------------------------

  function Predicates(fs: seq<Op>): seq<Predicate>
    requires AllFilters(fs)
  {
    if fs == [] then [] else Predicates(fs[..|fs| - 1]) + fs[|fs| - 1].predicates
  }

  ghost predicate EndsInFilter(ops: seq<Op>) {
    ops != [] && ops[|ops| - 1].Filter?
  }

  /** A run of filters becomes one with all their predicates in order. */
  lemma {:induction false} ConjoinedRun(fs: seq<Op>)
    requires fs != [] && AllFilters(fs)
    ensures Conjoined(fs) == [Filter(Predicates(fs))]
  {
    var front, f := fs[..|fs| - 1], fs[|fs| - 1];
    if front == [] {
      assert Conjoined(front) == [] && [] + [f] == [f] && [] + f.predicates == f.predicates;
    } else {
      ConjoinedRun(front);
      assert [Filter(Predicates(front))][..0] == [];
    }
  }

  lemma {:induction false} ConjoinedEnds(ops: seq<Op>)
    ensures EndsInFilter(Conjoined(ops)) <==> EndsInFilter(ops)
    ensures ops != [] ==> Conjoined(ops) != []
  {
    if ops != [] {
      ConjoinedEnds(ops[..|ops| - 1]);
    }
  }

  /** Nothing else is touched. */
  lemma {:induction false} ConjoinedApart(a: seq<Op>, b: seq<Op>)
    requires b != [] ==> !(EndsInFilter(a) && b[0].Filter?)
    ensures Conjoined(a + b) == Conjoined(a) + Conjoined(b)
    ensures b != [] && |b| == 1 ==> Conjoined(b) == b
  {
    if b == [] {
      ConcatNil(a);
      ConcatNil(Conjoined(a));
    } else {
      var front, op := b[..|b| - 1], b[|b| - 1];
      InitConcat(a, b);
      ConjoinedApart(a, front);
      ConjoinedEnds(a);
      ConjoinedEnds(front);
      ConjoinBehind(Conjoined(a), Conjoined(front), op);
      assert front == [] ==> Conjoined(b) == [] + [op] == b;
    }
  }

  lemma ConjoinBehind(x: seq<Op>, done: seq<Op>, op: Op)
    requires done == [] ==> !(EndsInFilter(x) && op.Filter?)
    ensures Conjoin(x + done, op) == x + Conjoin(done, op)
  {
    if done == [] {
      ConcatNil(x);
    } else {
      InitConcat(x, done);
      assert (x + done)[|x + done| - 1] == done[|done| - 1];
    }
  }

  /** Identical scans in a row become one. */
  lemma {:induction false} DedupedRun(scan: Op, ops: seq<Op>)
    requires scan.Scan? && ops != [] && forall i :: 0 <= i < |ops| ==> ops[i] == scan
    ensures Deduped(ops) == [scan]
  {
    var front := ops[..|ops| - 1];
    if front == [] {
      assert Deduped(front) == [] && [] + [scan] == [scan];
    } else {
      DedupedRun(scan, front);
      assert ops[|ops| - 1 - 1] == scan;
    }
  }

  /** Nothing else is touched. */
  lemma {:induction false} DedupedApart(a: seq<Op>, b: seq<Op>)
    requires a != [] && b != [] ==> !(b[0].Scan? && a[|a| - 1] == b[0])
    ensures Deduped(a + b) == Deduped(a) + Deduped(b)
    ensures |b| == 1 ==> Deduped(b) == b
  {
    if b == [] {
      ConcatNil(a);
      ConcatNil(Deduped(a));
    } else {
      var front, op := b[..|b| - 1], b[|b| - 1];
      InitConcat(a, b);
      DedupedApart(a, front);
      Assoc(Deduped(a), Deduped(front), [op]);
      RepeatsBehind(a, b);
      assert front == [] ==> Deduped(b) == [] + [op] == b;
    }
  }

  lemma RepeatsBehind(a: seq<Op>, b: seq<Op>)
    requires b != [] && (a != [] ==> !(b[0].Scan? && a[|a| - 1] == b[0]))
    ensures Repeats(a + b, |a + b| - 1) <==> Repeats(b, |b| - 1)
  {
    assert (a + b)[|a + b| - 1] == b[|b| - 1];
    assert |a + b| > 1 ==> (a + b)[|a + b| - 1 - 1] == if |b| > 1 then b[|b| - 1 - 1] else a[|a| - 1];
  }

  // ---- Pushdown: meaning -----------------------------------------------------------

  lemma UntruncatedCons(w: World, op: Op, ops: seq<Op>, rows: seq<Row>)
    ensures Untruncated(w, [op] + ops, rows) <==>
      (op.Search? ==> |Rank(w, op.query, rows)| <= op.k) && Untruncated(w, ops, Step(w, op, rows))
  {
    UntruncatedConcat(w, [op], ops, rows);
    assert [op][..0] == [];
    assert Run(w, [], rows) == rows && Run(w, [op], rows) == Step(w, op, rows);
  }

  /** If the swapped pair runs untruncated, so does the pair as it stood, with
      the same rows behind it. */
  lemma SwapUntruncated(w: World, f: Op, s: Op, rest: seq<Op>, rows: seq<Row>)
    requires f.Filter? && s.Search? && Untruncated(w, [s, f] + rest, rows)
    ensures Untruncated(w, [s] + rest, Step(w, f, rows))
    ensures Run(w, [s, f] + rest, rows) == Run(w, [f, s] + rest, rows)
  {
    var test := Satisfies(w, f.predicates);
    assert [s, f] + rest == [s] + ([f] + rest);
    UntruncatedCons(w, s, [f] + rest, rows);
    UntruncatedCons(w, f, rest, Step(w, s, rows));
    RankKeep(w, s.query, rows, test);
    KeepLength(Rank(w, s.query, rows), test);
    UntruncatedCons(w, s, rest, Step(w, f, rows));
    var a, b := SwapRuns(w, f, s, rest, rows);
  }

  /** If the pushed plan runs without truncation, the plan returned the same
      rows, also without truncation, however many searches it has. */
  lemma {:induction false} PushedRuns(w: World, ops: seq<Op>, rows: seq<Row>)
    requires Untruncated(w, Pushed(ops), rows)
    ensures Run(w, Pushed(ops), rows) == Run(w, ops, rows) && Untruncated(w, ops, rows)
    decreases |ops|
  {
    if |ops| > 1 {
      var op, rest := ops[0], Pushed(ops[1..]);
      ConsTail(ops);
      ConsTail(rest);
      if op.Filter? && rest[0].Search? {
        SwapUntruncated(w, op, rest[0], rest[1..], rows);
        PairHead(op, rest);
      }
      UntruncatedCons(w, op, rest, rows);
      UntruncatedCons(w, op, ops[1..], rows);
      PushedRuns(w, ops[1..], Step(w, op, rows));
      RunCons(w, op, ops[1..], rows);
      RunCons(w, op, rest, rows);
    }
  }

  /** Running the swapped pair: a prefix goes into the rest of the plan, the
      same rows if the search does not truncate. */
  lemma SwapRuns(w: World, f: Op, s: Op, rest: seq<Op>, rows: seq<Row>) returns (a: seq<Row>, b: seq<Row>)
    requires f.Filter? && s.Search?
    ensures a <= b && (|Rank(w, s.query, rows)| <= s.k ==> a == b)
    ensures Run(w, [s, f] + rest, rows) == Run(w, rest, a)
    ensures Run(w, [f, s] + rest, rows) == Run(w, rest, b)
  {
    RunPair(w, s, f, rest, rows);
    RunPair(w, f, s, rest, rows);
    SearchThenFilter(w, s.query, s.k, f.predicates, rows);
    a, b := Step(w, f, Step(w, s, rows)), Step(w, s, Step(w, f, rows));
  }

  lemma RunPair(w: World, x: Op, y: Op, rest: seq<Op>, rows: seq<Row>)
    ensures Run(w, [x, y] + rest, rows) == Run(w, rest, Step(w, y, Step(w, x, rows)))
  {
    assert [x, y] + rest == [x] + ([y] + rest);
    RunCons(w, x, [y] + rest, rows);
    RunCons(w, y, rest, Step(w, x, rows));
  }

  lemma PairHead(op: Op, rest: seq<Op>)
    requires rest != []
    ensures [op] + rest == [op, rest[0]] + rest[1..]
  {
  }

  /** There is a filter after the last scan. */
  predicate LateFilter(ops: seq<Op>) {
    ops != [] && !ops[|ops| - 1].Scan? && (ops[|ops| - 1].Filter? || LateFilter(ops[..|ops| - 1]))
  }

  /** Searches behind the first filter after the last scan. */
  function LateSearches(ops: seq<Op>): nat {
    if ops == [] || ops[|ops| - 1].Scan? then 0
    else
      var front := ops[..|ops| - 1];
      LateSearches(front) + (if ops[|ops| - 1].Search? && LateFilter(front) then 1 else 0)
  }

  /** The operators from the first filter on. */
  function FromFilter(ops: seq<Op>): seq<Op> {
    if ops == [] || ops[0].Filter? then ops else FromFilter(ops[1..])
  }

  /** Only filters and searches after the last scan. */
  predicate PlainTail(ops: seq<Op>) {
    ops == [] || ops[|ops| - 1].Scan? || (Movable(ops[|ops| - 1]) && PlainTail(ops[..|ops| - 1]))
  }

  lemma {:induction false} FiltersMonotone(w: World, ops: seq<Op>, a: seq<Row>, b: seq<Row>)
    requires forall i :: 0 <= i < |ops| ==> ops[i].Filter?
    requires a <= b
    ensures Run(w, ops, a) <= Run(w, ops, b)
  {
    if ops != [] {
      FiltersMonotone(w, ops[..|ops| - 1], a, b);
      var x, y, test := Run(w, ops[..|ops| - 1], a), Run(w, ops[..|ops| - 1], b), Satisfies(w, ops[|ops| - 1].predicates);
      assert y == x + y[|x|..];
      KeepConcat(x, y[|x|..], test);
    }
  }

  /** One search among filters: pushdown gives a prefix. */
  lemma {:induction false} PushedPrefix(w: World, ops: seq<Op>, rows: seq<Row>)
    requires forall i :: 0 <= i < |ops| ==> Movable(ops[i])
    requires |Searches(ops)| <= 1
    ensures Run(w, Pushed(ops), rows) <= Run(w, ops, rows)
    decreases |ops|
  {
    if |ops| > 1 {
      var op, rest := ops[0], Pushed(ops[1..]);
      PushedPrefix(w, ops[1..], Step(w, op, rows));
      assert ops == [op] + ops[1..];
      RunCons(w, op, ops[1..], rows);
      RunCons(w, op, rest, rows);
      PushedKeepsOrder(ops[1..]);
      if op.Filter? && rest[0].Search? {
        OnlySearch(rest);
        var a, b := SwapRuns(w, op, rest[0], rest[1..], rows);
        PairHead(op, rest);
        FiltersMonotone(w, rest[1..], a, b);
      }
    }
  }

  /** Searches before the first filter stay where they are. */
  lemma {:induction false} PushedLatePrefix(w: World, ops: seq<Op>, rows: seq<Row>)
    requires forall i :: 0 <= i < |ops| ==> Movable(ops[i])
    requires |Searches(FromFilter(ops))| <= 1
    ensures Run(w, Pushed(ops), rows) <= Run(w, ops, rows)
    decreases |ops|
  {
    if ops == [] || ops[0].Filter? {
      PushedPrefix(w, ops, rows);
    } else if |ops| > 1 {
      PushedLatePrefix(w, ops[1..], Step(w, ops[0], rows));
      ConsTail(ops);
      RunCons(w, ops[0], ops[1..], rows);
      RunCons(w, ops[0], Pushed(ops[1..]), rows);
    }
  }

  lemma {:induction false} FromFilterSnoc(ops: seq<Op>, op: Op)
    ensures FromFilter(ops + [op]) == if FromFilter(ops) == [] && !op.Filter? then [] else FromFilter(ops) + [op]
  {
    if ops == [] {
      assert [] + [op] == [op] && [op][1..] == [];
    } else if !ops[0].Filter? {
      FromFilterSnoc(ops[1..], op);
      TailConcat(ops, [op]);
    }
  }

  lemma OnlySearch(ops: seq<Op>)
    requires ops != [] && ops[0].Search? && |Searches(ops)| <= 1
    requires forall i :: 0 <= i < |ops| ==> Movable(ops[i])
    ensures forall i :: 1 <= i < |ops| ==> ops[i].Filter?
  {
    NoSearch(ops[1..]);
    assert forall i :: 1 <= i < |ops| ==> ops[i] == ops[1..][i - 1];
  }

  lemma {:induction false} NoSearch(ops: seq<Op>)
    requires Searches(ops) == []
    ensures forall i :: 0 <= i < |ops| ==> !ops[i].Search?
  {
    if ops != [] {
      NoSearch(ops[1..]);
    }
  }

  lemma PushFirstApart(op: Op, rest: seq<Op>, b: seq<Op>)
    requires rest != []
    ensures PushFirst(op, rest + b) == PushFirst(op, rest) + b
  {
    TailConcat(rest, b);
  }

  /** Pushdown never crosses an operator that is not a filter or a search. */
  lemma {:induction false} PushedApart(a: seq<Op>, b: seq<Op>)
    requires a != [] && !Movable(a[|a| - 1])
    ensures Pushed(a + b) == Pushed(a) + Pushed(b)
    decreases |a|
  {
    if |a| == 1 {
      assert (a + b)[1..] == b;
      assert b == [] ==> a + b == a;
    } else {
      PushedApart(a[1..], b);
      TailConcat(a, b);
      PushFirstApart(a[0], Pushed(a[1..]), Pushed(b));
    }
  }

  /** The tail holds the late filters and searches of the plan. */
  ghost predicate TailOf(tail: seq<Op>, ops: seq<Op>) {
    |Searches(FromFilter(tail))| == LateSearches(ops) && (FromFilter(tail) != [] <==> LateFilter(ops))
  }

  lemma TailOfStep(tail: seq<Op>, ops: seq<Op>, op: Op)
    requires TailOf(tail, ops) && Movable(op)
    ensures TailOf(tail + [op], ops + [op])
  {
    TailOfSnoc(ops, op);
    FromFilterSnoc(tail, op);
    SearchesSnoc(FromFilter(tail), op);
  }

  lemma {:induction false} SplitAtLastScan(ops: seq<Op>) returns (a: seq<Op>, b: seq<Op>)
    requires PlainTail(ops)
    ensures ops == a + b && (a == [] || a[|a| - 1].Scan?)
    ensures (forall i :: 0 <= i < |b| ==> Movable(b[i])) && TailOf(b, ops)
  {
    if ops == [] || ops[|ops| - 1].Scan? {
      a, b := ops, [];
    } else {
      var front, op := ops[..|ops| - 1], ops[|ops| - 1];
      a, b := SplitAtLastScan(front);
      TailOfStep(b, front, op);
      SnocInit(ops);
      Assoc(a, b, [op]);
      b := b + [op];
    }
  }

  lemma {:induction false} SearchesSnoc(ops: seq<Op>, op: Op)
    ensures Searches(ops + [op]) == Searches(ops) + (if op.Search? then [op] else [])
  {
    if ops == [] {
      assert [] + [op] == [op] && [op][1..] == [];
    } else {
      SearchesSnoc(ops[1..], op);
      TailConcat(ops, [op]);
    }
  }

  lemma PushedTailPrefix(w: World, ops: seq<Op>, rows: seq<Row>)
    requires PlainTail(ops) && LateSearches(ops) <= 1
    ensures Run(w, Pushed(ops), rows) <= Run(w, ops, rows)
  {
    var a, b := SplitAtLastScan(ops);
    if a == [] {
      assert ops == b;
      PushedLatePrefix(w, ops, rows);
    } else {
      PushedApart(a, b);
      RunConcat(w, a, b, rows);
      RunConcat(w, Pushed(a), Pushed(b), rows);
      PushedKeepsOrder(a);
      PushedLatePrefix(w, b, Run(w, a, rows));
    }
  }

  lemma {:induction false} ConjoinedTail(ops: seq<Op>)
    ensures LateSearches(Conjoined(ops)) == LateSearches(ops) && LateFilter(Conjoined(ops)) == LateFilter(ops)
    ensures PlainTail(Conjoined(ops)) == PlainTail(ops)
  {
    if ops != [] {
      var done, op := Conjoined(ops[..|ops| - 1]), ops[|ops| - 1];
      ConjoinedTail(ops[..|ops| - 1]);
      TailOfSnoc(done, op);
      if done != [] && done[|done| - 1].Filter? && op.Filter? {
        TailOfSnoc(done[..|done| - 1], Filter(done[|done| - 1].predicates + op.predicates));
        SnocInit(done);
        TailOfSnoc(done[..|done| - 1], done[|done| - 1]);
      }
    }
  }

  lemma TailOfSnoc(ops: seq<Op>, op: Op)
    ensures LateSearches(ops + [op]) ==
      if op.Scan? then 0 else LateSearches(ops) + (if op.Search? && LateFilter(ops) then 1 else 0)
    ensures LateFilter(ops + [op]) <==> !op.Scan? && (op.Filter? || LateFilter(ops))
    ensures PlainTail(ops + [op]) <==> op.Scan? || (Movable(op) && PlainTail(ops))
  {
    InitSnoc(ops, op);
  }

  lemma {:induction false} ConjoinedUntruncated(w: World, ops: seq<Op>, rows: seq<Row>)
    ensures Untruncated(w, Conjoined(ops), rows) <==> Untruncated(w, ops, rows)
  {
    if ops != [] {
      var front, op := ops[..|ops| - 1], ops[|ops| - 1];
      var done := Conjoined(front);
      ConjoinedUntruncated(w, front, rows);
      ConjoinedRuns(w, front, rows);
      UntruncatedSnoc(w, done, op, rows);
      if done != [] && done[|done| - 1].Filter? && op.Filter? {
        UntruncatedSnoc(w, done[..|done| - 1], Filter(done[|done| - 1].predicates + op.predicates), rows);
      }
    }
  }

  lemma {:induction false} DedupedUntruncated(w: World, ops: seq<Op>, rows: seq<Row>)
    ensures Untruncated(w, Deduped(ops), rows) <==> Untruncated(w, ops, rows)
  {
    if ops != [] {
      var front, op := ops[..|ops| - 1], ops[|ops| - 1];
      DedupedUntruncated(w, front, rows);
      DedupedRuns(w, front, rows);
      UntruncatedSnoc(w, Deduped(front), op, rows);
    }
  }

  /** In the planner's intended meaning: with only filters and searches after
      the last scan, and at most one search behind the first filter there, the
      optimized plan returns a prefix of what the plan returned. */
  lemma OptimizedPrefix(w: World, ops: seq<Op>, rows: seq<Row>)
    requires PlainTail(ops) && LateSearches(ops) <= 1
    ensures Run(w, Optimized(ops), rows) <= Run(w, ops, rows)
  {
    ConjoinedRuns(w, ops, rows);
    ConjoinedTail(ops);
    PushedTailPrefix(w, Conjoined(ops), rows);
    DedupedRuns(w, Pushed(Conjoined(ops)), rows);
  }

  /** In the planner's intended meaning: if no search of the optimized plan
      truncates, it returns what the plan returned. */
  lemma OptimizedSame(w: World, ops: seq<Op>, rows: seq<Row>)
    requires Untruncated(w, Optimized(ops), rows)
    ensures Run(w, Optimized(ops), rows) == Run(w, ops, rows) && Untruncated(w, ops, rows)
  {
    DedupedUntruncated(w, Pushed(Conjoined(ops)), rows);
    DedupedRuns(w, Pushed(Conjoined(ops)), rows);
    PushedRuns(w, Conjoined(ops), rows);
    ConjoinedUntruncated(w, ops, rows);
    ConjoinedRuns(w, ops, rows);
  }

  /** In the planner's intended meaning a later search re-ranks, so with two searches the optimized plan can
      return rows the original plan did not. */
  lemma TwoSearchesDiffer() returns (w: World, ops: seq<Op>, rows: seq<Row>)
    ensures !(Run(w, Optimized(ops), rows) <= Run(w, ops, rows))
  {
    var a, b, c := Row(1, "a"), Row(2, "b"), Row(3, "c");
    var up, down := TextQuery("up", None), TextQuery("down", None);
    w := World(
      _ => [], (_, row: Row) => row.koid != 1,
      (q: Query, row: Row) => Hit(if q == up then -(row.koid as real) else row.koid as real),
      (_, rows) => rows);
    rows := [a, b, c];
    var f, s1, s2 := Filter([Predicate("", "", "")]), Search(up, 2), Search(down, 1);
    ops := [f, s1, s2];
    assert !w.holds(f.predicates[0], a);
    FilterFirst(w, f, s1, s2, a, b, c);
    SearchFirst(w, f, s1, s2, a, b, c);
    OptimizedThree(f, s1, s2);
    assert [c] != [b];
  }

  /** Rows ranked a, b, c by the first query and c before b by the second; the
      filter drops a. */
  ghost predicate Setting(w: World, f: Op, s1: Op, s2: Op, a: Row, b: Row, c: Row) {
    && f.Filter? && s1.Search? && s2.Search? && s1.k == 2 && s2.k == 1
    && Before(w, s1.query, a, b) && !Before(w, s1.query, b, a)
    && Before(w, s1.query, b, c) && !Before(w, s1.query, c, b)
    && Before(w, s2.query, c, b) && !Before(w, s2.query, b, c)
    && !HoldsAll(w, f.predicates, a) && HoldsAll(w, f.predicates, b) && HoldsAll(w, f.predicates, c)
  }

  lemma FilterFirst(w: World, f: Op, s1: Op, s2: Op, a: Row, b: Row, c: Row)
    requires Setting(w, f, s1, s2, a, b, c)
    ensures Run(w, [f, s1, s2], [a, b, c]) == [c]
  {
    KeepThree(w, f.predicates, a, b, c);
    TwoRanked(w, s1.query, b, c);
    TwoRanked(w, s2.query, c, b);
    ThreeSteps(w, f, s1, s2, [a, b, c]);
    assert [c, b][..1] == [c];
  }

  lemma SearchFirst(w: World, f: Op, s1: Op, s2: Op, a: Row, b: Row, c: Row)
    requires Setting(w, f, s1, s2, a, b, c)
    ensures Run(w, [s1, f, s2], [a, b, c]) == [b]
  {
    BestTwo(w, s1, a, b, c);
    KeepThree(w, f.predicates, a, b, c);
    BestOne(w, s2, b);
    ThreeSteps(w, s1, f, s2, [a, b, c]);
  }

  lemma BestTwo(w: World, s: Op, a: Row, b: Row, c: Row)
    requires s.Search? && s.k == 2
    requires Before(w, s.query, a, b) && !Before(w, s.query, b, a) && Before(w, s.query, b, c)
    ensures Step(w, s, [a, b, c]) == [a, b]
  {
    ThreeRanked(w, s.query, a, b, c);
    assert [a, b, c][..2] == [a, b];
  }

  lemma BestOne(w: World, s: Op, b: Row)
    requires s.Search? && s.k == 1 && w.score(s.query, b).Hit?
    ensures Step(w, s, [b]) == [b]
  {
    assert [b][..0] == [];
    assert Rank(w, s.query, [b]) == [b];
  }

  lemma OptimizedThree(f: Op, s1: Op, s2: Op)
    requires f.Filter? && s1.Search? && s2.Search?
    ensures Optimized([f, s1, s2]) == [s1, f, s2]
  {
    assert [f, s1, s2][..2] == [f, s1] && [f, s1][..1] == [f] && [f][..0] == [];
    assert Conjoined([f]) == [f] && Conjoined([f, s1]) == [f, s1] && Conjoined([f, s1, s2]) == [f, s1, s2];
    assert [f, s1, s2][1..] == [s1, s2] && [s1, s2][1..] == [s2];
    assert Pushed([s1, s2]) == [s1, s2] && Pushed([f, s1, s2]) == [s1, f, s2];
    assert [s1, f, s2][..2] == [s1, f] && [s1, f][..1] == [s1] && [s1][..0] == [];
    assert Deduped([s1]) == [s1] && Deduped([s1, f]) == [s1, f];
  }

  lemma ThreeSteps(w: World, x: Op, y: Op, z: Op, rows: seq<Row>)
    ensures Run(w, [x, y, z], rows) == Step(w, z, Step(w, y, Step(w, x, rows)))
  {
    assert [x, y, z][..2] == [x, y] && [x, y][..1] == [x] && [x][..0] == [];
    assert Run(w, [x], rows) == Step(w, x, rows);
    assert Run(w, [x, y], rows) == Step(w, y, Run(w, [x], rows));
  }

  lemma TwoRanked(w: World, q: Query, a: Row, b: Row)
    requires Before(w, q, a, b) && !Before(w, q, b, a)
    ensures Rank(w, q, [a, b]) == [a, b] && Rank(w, q, [b, a]) == [a, b]
  {
    assert [a][..0] == [] && [b][..0] == [] && [a, b][..1] == [a] && [b, a][..1] == [b];
    assert Rank(w, q, [a]) == [a] && Rank(w, q, [b]) == [b];
  }

  lemma ThreeRanked(w: World, q: Query, a: Row, b: Row, c: Row)
    requires Before(w, q, a, b) && !Before(w, q, b, a) && Before(w, q, b, c)
    ensures Rank(w, q, [a, b, c]) == [a, b, c]
  {
    TwoRanked(w, q, a, b);
    assert [a, b, c][..2] == [a, b];
  }

  lemma KeepThree(w: World, p: seq<Predicate>, a: Row, b: Row, c: Row)
    requires !HoldsAll(w, p, a) && HoldsAll(w, p, b) && HoldsAll(w, p, c)
    ensures Keep([a, b], Satisfies(w, p)) == [b] && Keep([a, b, c], Satisfies(w, p)) == [b, c]
  {
    assert [a, b, c][..2] == [a, b] && [a, b][..1] == [a] && [a][..0] == [];
    assert Keep([a], Satisfies(w, p)) == [];
  }

  // ---- When the optimizer is done --------------------------------------------------

  /** Every run of filters and searches is searches followed by at most one
      filter, and no two consecutive scans are identical. */
  ghost predicate Settled(ops: seq<Op>) {
    && (forall i :: 1 <= i < |ops| && (ops[i - 1].Filter? || ops[i - 1].Search?) && (ops[i].Filter? || ops[i].Search?) ==>
          ops[i - 1].Search?)
    && (forall i :: 1 <= i < |ops| ==> !(ops[i].Scan? && ops[i - 1] == ops[i]))
  }

  /** Pairs of a filter and a search somewhere behind it. */
  function Inversions(ops: seq<Op>): nat {
    if ops == [] then 0
    else Inversions(ops[1..]) + (if ops[0].Filter? then |Searches(ops[1..])| else 0)
  }

  function Measure(ops: seq<Op>): nat {
    |ops| + Inversions(ops)
  }

  lemma {:induction false} FiltersSnoc(ops: seq<Op>, op: Op)
    ensures |Filters(ops + [op])| == |Filters(ops)| + (if op.Filter? then 1 else 0)
  {
    if ops == [] {
      assert [] + [op] == [op] && [op][1..] == [];
    } else {
      FiltersSnoc(ops[1..], op);
      TailConcat(ops, [op]);
    }
  }

  lemma {:induction false} InversionsSnoc(ops: seq<Op>, op: Op)
    ensures Inversions(ops + [op]) == Inversions(ops) + (if op.Search? then |Filters(ops)| else 0)
  {
    if ops == [] {
      assert [] + [op] == [op] && [op][1..] == [];
    } else {
      InversionsSnoc(ops[1..], op);
      SearchesSnoc(ops[1..], op);
      TailConcat(ops, [op]);
    }
  }

  /** Merging filters never adds length, filters or inversions; it keeps the
      length only by doing nothing. */
  lemma {:induction false} ConjoinedDrops(ops: seq<Op>)
    ensures |Conjoined(ops)| <= |ops| && |Filters(Conjoined(ops))| <= |Filters(ops)|
    ensures Inversions(Conjoined(ops)) <= Inversions(ops)
    ensures |Conjoined(ops)| == |ops| ==> Conjoined(ops) == ops
  {
    if ops != [] {
      var front, op := ops[..|ops| - 1], ops[|ops| - 1];
      var done := Conjoined(front);
      SnocInit(ops);
      ConjoinedDrops(front);
      FiltersSnoc(front, op);
      InversionsSnoc(front, op);
      ConjoinDrops(done, op);
    }
  }

  lemma ConjoinDrops(done: seq<Op>, op: Op)
    ensures |Filters(Conjoin(done, op))| <= |Filters(done)| + (if op.Filter? then 1 else 0)
    ensures Inversions(Conjoin(done, op)) == Inversions(done) + (if op.Search? then |Filters(done)| else 0)
  {
    if done != [] && done[|done| - 1].Filter? && op.Filter? {
      var front, f := done[..|done| - 1], Filter(done[|done| - 1].predicates + op.predicates);
      assert done == front + [done[|done| - 1]];
      FiltersSnoc(front, f);
      FiltersSnoc(front, done[|done| - 1]);
      InversionsSnoc(front, f);
      InversionsSnoc(front, done[|done| - 1]);
    } else {
      FiltersSnoc(done, op);
      InversionsSnoc(done, op);
    }
  }

  /** A pushdown pass that moves anything removes inversions. */
  lemma {:induction false} PushedDrops(ops: seq<Op>)
    ensures Inversions(Pushed(ops)) <= Inversions(ops)
    ensures Inversions(Pushed(ops)) == Inversions(ops) ==> Pushed(ops) == ops
  {
    if |ops| > 1 {
      PushedDrops(ops[1..]);
      PushedKeepsOrder(ops[1..]);
      var rest := Pushed(ops[1..]);
      assert ([ops[0]] + rest)[1..] == rest && ops == [ops[0]] + ops[1..];
      if ops[0].Filter? && rest[0].Search? {
        SwapDrops(ops[0], rest);
      }
    }
  }

  lemma SwapDrops(f: Op, rest: seq<Op>)
    requires rest != [] && f.Filter? && rest[0].Search?
    ensures Inversions(PushFirst(f, rest)) == Inversions([f] + rest) - 1
  {
    var s, r := rest[0], rest[1..];
    assert ([s, f] + r)[1..] == [f] + r && ([f] + r)[1..] == r && ([f] + rest)[1..] == rest;
  }

  lemma {:induction false} DedupedDrops(ops: seq<Op>)
    ensures |Deduped(ops)| <= |ops| && |Filters(Deduped(ops))| == |Filters(ops)|
    ensures Inversions(Deduped(ops)) == Inversions(ops)
    ensures |Deduped(ops)| == |ops| ==> Deduped(ops) == ops
  {
    if ops != [] {
      var front, op := ops[..|ops| - 1], ops[|ops| - 1];
      SnocInit(ops);
      DedupedDrops(front);
      FiltersSnoc(front, op);
      FiltersSnoc(Deduped(front), op);
      InversionsSnoc(front, op);
      InversionsSnoc(Deduped(front), op);
    }
  }

  /** On any plan it changes, the optimizer strictly lowers length plus
      filter-before-search pairs. */
  lemma OptimizedDrops(ops: seq<Op>)
    ensures Measure(Optimized(ops)) <= Measure(ops)
    ensures Optimized(ops) != ops ==> Measure(Optimized(ops)) < Measure(ops)
  {
    ConjoinedDrops(ops);
    PushedDrops(Conjoined(ops));
    DedupedDrops(Pushed(Conjoined(ops)));
  }

  ghost predicate NothingToConjoin(ops: seq<Op>) {
    forall i :: 1 <= i < |ops| ==> !(ops[i - 1].Filter? && ops[i].Filter?)
  }

  lemma NothingToConjoinSnoc(ops: seq<Op>, op: Op)
    ensures NothingToConjoin(ops + [op]) <==>
      NothingToConjoin(ops) && !(ops != [] && ops[|ops| - 1].Filter? && op.Filter?)
  {
    var all := ops + [op];
    if NothingToConjoin(all) {
      forall i | 1 <= i < |ops| ensures !(ops[i - 1].Filter? && ops[i].Filter?) {
        assert !(all[i - 1].Filter? && all[i].Filter?);
      }
      assert ops != [] ==> !(all[|ops| - 1].Filter? && all[|ops|].Filter?);
    }
  }

  lemma {:induction false} ConjoinedIdle(ops: seq<Op>)
    ensures Conjoined(ops) == ops <==> NothingToConjoin(ops)
  {
    if ops != [] {
      var front, op := ops[..|ops| - 1], ops[|ops| - 1];
      ConjoinedIdle(front);
      ConjoinedDrops(front);
      SnocInit(ops);
      NothingToConjoinSnoc(front, op);
    }
  }

  ghost predicate NothingToPush(ops: seq<Op>) {
    forall i :: 1 <= i < |ops| ==> !(ops[i - 1].Filter? && ops[i].Search?)
  }

  lemma NothingToPushCons(ops: seq<Op>)
    requires |ops| > 1
    ensures NothingToPush(ops) <==> !(ops[0].Filter? && ops[1].Search?) && NothingToPush(ops[1..])
  {
    var tail := ops[1..];
    if NothingToPush(ops) {
      forall i | 1 <= i < |tail| ensures !(tail[i - 1].Filter? && tail[i].Search?) {
        assert tail[i - 1] == ops[i + 1 - 1] && tail[i] == ops[i + 1];
      }
    }
    if !(ops[0].Filter? && ops[1].Search?) && NothingToPush(tail) {
      forall i | 1 <= i < |ops| ensures !(ops[i - 1].Filter? && ops[i].Search?) {
        if i > 1 {
          assert tail[i - 1 - 1] == ops[i - 1] && tail[i - 1] == ops[i];
        }
      }
    }
  }

  lemma {:induction false} PushedIdle(ops: seq<Op>)
    ensures Pushed(ops) == ops <==> NothingToPush(ops)
  {
    if |ops| > 1 {
      var op, tail := ops[0], ops[1..];
      PushedIdle(tail);
      NothingToPushCons(ops);
      assert ops == [op] + tail;
      if Pushed(tail) != tail {
        PushedMoves(op, tail);
      } else if op.Filter? && tail[0].Search? {
        assert Pushed(ops)[0] == tail[0];
      }
    }
  }

  lemma PushedMoves(op: Op, tail: seq<Op>)
    requires tail != [] && Pushed(tail) != tail
    ensures PushFirst(op, Pushed(tail)) != [op] + tail
  {
    var rest := Pushed(tail);
    PushedDrops(tail);
    PushedKeepsOrder(tail);
    assert ([op] + rest)[1..] == rest && ([op] + tail)[1..] == tail;
    if op.Filter? && rest[0].Search? {
      SwapDrops(op, rest);
    }
  }

  ghost predicate NothingRepeats(ops: seq<Op>) {
    forall i :: 0 <= i < |ops| ==> !Repeats(ops, i)
  }

  lemma NothingRepeatsSnoc(ops: seq<Op>, op: Op)
    ensures NothingRepeats(ops + [op]) <==> NothingRepeats(ops) && !Repeats(ops + [op], |ops|)
  {
    assert forall i :: 0 <= i < |ops| ==> Repeats(ops, i) == Repeats(ops + [op], i);
  }

  lemma {:induction false} DedupedIdle(ops: seq<Op>)
    ensures Deduped(ops) == ops <==> NothingRepeats(ops)
  {
    if ops != [] {
      var front, op := ops[..|ops| - 1], ops[|ops| - 1];
      DedupedIdle(front);
      DedupedDrops(front);
      SnocInit(ops);
      NothingRepeatsSnoc(front, op);
    }
  }

  lemma SettledIs(ops: seq<Op>)
    ensures Settled(ops) <==> NothingToConjoin(ops) && NothingToPush(ops) && NothingRepeats(ops)
  {
    if NothingToConjoin(ops) && NothingToPush(ops) && NothingRepeats(ops) {
      forall i | 1 <= i < |ops|
        ensures (ops[i - 1].Filter? || ops[i - 1].Search?) && (ops[i].Filter? || ops[i].Search?) ==> ops[i - 1].Search?
        ensures !(ops[i].Scan? && ops[i - 1] == ops[i])
      {
        assert !Repeats(ops, i);
      }
    }
    if Settled(ops) {
      forall i | 0 <= i < |ops| ensures !Repeats(ops, i) {
        assert i > 0 ==> !(ops[i].Scan? && ops[i - 1] == ops[i]);
      }
    }
  }

  /** The optimizer leaves a plan unchanged exactly when it is settled. */
  lemma OptimizedIdleExactly(ops: seq<Op>)
    ensures Optimized(ops) == ops <==> Settled(ops)
  {
    SettledIs(ops);
    ConjoinedIdle(ops);
    PushedIdle(ops);
    DedupedIdle(ops);
    ConjoinedDrops(ops);
    PushedDrops(Conjoined(ops));
    DedupedDrops(Pushed(Conjoined(ops)));
  }

  /** Repeating the optimizer therefore ends, in a settled plan. */
  function Settle(ops: seq<Op>): (r: seq<Op>)
    ensures Settled(r)
    decreases Measure(ops)
  {
    OptimizedIdleExactly(ops);
    OptimizedDrops(ops);
    if Optimized(ops) == ops then ops else Settle(Optimized(ops))
  }

  /** In the planner's intended meaning: if no search of the settled plan
      truncates, it returns what the plan returned. */
  lemma {:induction false} SettleSame(w: World, ops: seq<Op>, rows: seq<Row>)
    requires Untruncated(w, Settle(ops), rows)
    ensures Run(w, Settle(ops), rows) == Run(w, ops, rows) && Untruncated(w, ops, rows)
    decreases Measure(ops)
  {
    OptimizedDrops(ops);
    if Optimized(ops) != ops {
      SettleSame(w, Optimized(ops), rows);
      OptimizedSame(w, ops, rows);
    }
  }
}
