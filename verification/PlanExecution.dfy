/** What the optimizer's rewrites do to a plan when the interpreter runs it. */
module PlanExecution {
  import opened Seqs
  import opened Wrappers
  import opened Plans
  import opened Planner
  import opened Runtime

  lemma ExecSnoc(k: Kernel, temporal: bool, ops: seq<Op>, op: Op, st: State, input: RowSet)
    ensures Exec(k, temporal, ops + [op], st, input) ==
      match Exec(k, temporal, ops, st, input)
      case None => None
      case Some(now) => OpStep(k, temporal, op, now.0, now.1)
  {
    InitSnoc(ops, op);
  }

  // ---- Merging filters and dropping scans ------------------------------------------

  /** Two filters in a row do what their conjunction does, cache included. */
  lemma FiltersMerge(k: Kernel, p: seq<Predicate>, q: seq<Predicate>, st: State, input: RowSet)
    ensures FilterStep(k, p + q, st, input) ==
      match FilterStep(k, p, st, input)
      case None => None
      case Some(now) => FilterStep(k, q, now.0, now.1)
  {
    if input.Objects? {
      KeepTwice(Store(k), input.rows, p, q);
    }
  }

  lemma ConjoinExec(k: Kernel, temporal: bool, done: seq<Op>, op: Op, st: State, input: RowSet)
    ensures Exec(k, temporal, Conjoin(done, op), st, input) == Exec(k, temporal, done + [op], st, input)
  {
    if done != [] && done[|done| - 1].Filter? && op.Filter? {
      var front, last := done[..|done| - 1], done[|done| - 1];
      ExecSnoc(k, temporal, done, op, st, input);
      ExecSnoc(k, temporal, front, Filter(last.predicates + op.predicates), st, input);
      var before := Exec(k, temporal, front, st, input);
      if before.Some? {
        FiltersMerge(k, last.predicates, op.predicates, before.value.0, before.value.1);
      }
    }
  }

  /** Merging filters never changes what the interpreter does. */
  lemma {:induction false} ConjoinedExec(k: Kernel, temporal: bool, ops: seq<Op>, st: State, input: RowSet)
    ensures Exec(k, temporal, Conjoined(ops), st, input) == Exec(k, temporal, ops, st, input)
  {
    if ops != [] {
      var front, op := ops[..|ops| - 1], ops[|ops| - 1];
      ConjoinedExec(k, temporal, front, st, input);
      ConjoinExec(k, temporal, Conjoined(front), op, st, input);
      ExecSnoc(k, temporal, Conjoined(front), op, st, input);
    }
  }

  /** Dropping repeated scans never changes what the interpreter does. */
  lemma {:induction false} DedupedExec(k: Kernel, temporal: bool, ops: seq<Op>, st: State, input: RowSet)
    ensures Exec(k, temporal, Deduped(ops), st, input) == Exec(k, temporal, ops, st, input)
  {
    if ops != [] {
      var front, op := ops[..|ops| - 1], ops[|ops| - 1];
      DedupedExec(k, temporal, front, st, input);
      ExecSnoc(k, temporal, Deduped(front), op, st, input);
      if Repeats(ops, |ops| - 1) {
        ScanAgain(k, temporal, front, st, input);
      }
    }
  }

  /** A scan right after the same scan changes nothing. */
  lemma ScanAgain(k: Kernel, temporal: bool, ops: seq<Op>, st: State, input: RowSet)
    requires ops != [] && ops[|ops| - 1].Scan?
    ensures Exec(k, temporal, ops + [ops[|ops| - 1]], st, input) == Exec(k, temporal, ops, st, input)
  {
    ExecSnoc(k, temporal, ops, ops[|ops| - 1], st, input);
  }

  // ---- Moving a filter behind a search ------------------------------------------------

  /** A search that succeeds hands on scored rows. */
  lemma SearchScores(k: Kernel, temporal: bool, q: Query, n: nat, st: State, input: RowSet)
    ensures var r := SearchStep(k, temporal, q, n, st, input); r.Some? ==> r.value.1.Scored?
  {
  }

  ghost predicate FilterBehindSearch(ops: seq<Op>, i: int) {
    1 <= i < |ops| && ops[i - 1].Search? && ops[i].Filter?
  }

  /** A filter right behind a search always fails the plan. */
  lemma FilterRefused(k: Kernel, temporal: bool, ops: seq<Op>, i: int, st: State, input: RowSet)
    requires FilterBehindSearch(ops, i)
    ensures Exec(k, temporal, ops, st, input) == None
  {
    var before := Exec(k, temporal, ops[..i - 1], st, input);
    TakeNext(ops, i - 1);
    TakeNext(ops, i);
    ExecSnoc(k, temporal, ops[..i - 1], ops[i - 1], st, input);
    ExecSnoc(k, temporal, ops[..i], ops[i], st, input);
    if before.Some? {
      SearchScores(k, temporal, ops[i - 1].query, ops[i - 1].k, before.value.0, before.value.1);
    }
    Stopped(k, temporal, ops, i + 1, st, input);
  }

  /** A pass that moves anything leaves a filter right behind a search. */
  lemma {:induction false} PushedRefusable(ops: seq<Op>) returns (i: int)
    requires Pushed(ops) != ops
    ensures FilterBehindSearch(Pushed(ops), i)
  {
    var op, rest := ops[0], Pushed(ops[1..]);
    ConsTail(ops);
    if op.Filter? && rest[0].Search? {
      i := 1;
    } else {
      i := PushedRefusable(ops[1..]);
      assert Pushed(ops)[i] == rest[i - 1] && Pushed(ops)[i + 1] == rest[i];
      i := i + 1;
    }
  }

  /** Merging filters neither makes nor removes a filter in front of a
      search. */
  lemma {:induction false} ConjoinedPushable(ops: seq<Op>)
    ensures NothingToPush(Conjoined(ops)) <==> NothingToPush(ops)
    ensures ops != [] ==> EndsInFilter(Conjoined(ops)) == EndsInFilter(ops) && Conjoined(ops) != []
  {
    if ops != [] {
      var front, op := ops[..|ops| - 1], ops[|ops| - 1];
      var done := Conjoined(front);
      ConjoinedPushable(front);
      SnocInit(ops);
      NothingToPushSnoc(front, op);
      NothingToPushSnoc(done, op);
      if done != [] && done[|done| - 1].Filter? && op.Filter? {
        SnocInit(done);
        NothingToPushSnoc(done[..|done| - 1], done[|done| - 1]);
        NothingToPushSnoc(done[..|done| - 1], Filter(done[|done| - 1].predicates + op.predicates));
      }
    }
  }

  lemma NothingToPushSnoc(ops: seq<Op>, op: Op)
    ensures NothingToPush(ops + [op]) <==> NothingToPush(ops) && !(EndsInFilter(ops) && op.Search?)
  {
    var all := ops + [op];
    if NothingToPush(all) {
      forall i | 1 <= i < |ops| ensures !(ops[i - 1].Filter? && ops[i].Search?) {
        assert !(all[i - 1].Filter? && all[i].Search?);
      }
      assert ops != [] ==> !(all[|ops| - 1].Filter? && all[|ops|].Search?);
    }
  }

  /** From any state, the optimized plan does what the plan does when no filter
      stands right before a search, and fails otherwise. */
  lemma OptimizedExec(k: Kernel, temporal: bool, ops: seq<Op>, st: State, input: RowSet)
    ensures Exec(k, temporal, Optimized(ops), st, input) ==
      if NothingToPush(ops) then Exec(k, temporal, ops, st, input) else None
  {
    var merged := Conjoined(ops);
    ConjoinedExec(k, temporal, ops, st, input);
    ConjoinedPushable(ops);
    PushedIdle(merged);
    DedupedExec(k, temporal, Pushed(merged), st, input);
    if Pushed(merged) != merged {
      var i := PushedRefusable(merged);
      FilterRefused(k, temporal, Pushed(merged), i, st, input);
    }
  }

  // ---- Whole plans ---------------------------------------------------------------------------

  predicate HasTemporal(k: Kernel, op: Op) {
    op.Other? && k.isTemporal(op.name)
  }

  lemma TemporalSnoc(k: Kernel, ops: seq<Op>, op: Op)
    ensures Temporal(k, ops + [op]) <==> Temporal(k, ops) || HasTemporal(k, op)
  {
    var all := ops + [op];
    if Temporal(k, ops) {
      var i :| 0 <= i < |ops| && ops[i].Other? && k.isTemporal(ops[i].name);
      assert all[i] == ops[i];
    }
    if HasTemporal(k, op) {
      assert all[|ops|] == op;
    }
  }

  lemma {:induction false} ConjoinedTemporal(k: Kernel, ops: seq<Op>)
    ensures Temporal(k, Conjoined(ops)) <==> Temporal(k, ops)
  {
    if ops != [] {
      var front, op := ops[..|ops| - 1], ops[|ops| - 1];
      var done := Conjoined(front);
      ConjoinedTemporal(k, front);
      SnocInit(ops);
      TemporalSnoc(k, front, op);
      TemporalSnoc(k, done, op);
      if done != [] && done[|done| - 1].Filter? && op.Filter? {
        SnocInit(done);
        TemporalSnoc(k, done[..|done| - 1], done[|done| - 1]);
        TemporalSnoc(k, done[..|done| - 1], Filter(done[|done| - 1].predicates + op.predicates));
      }
    }
  }

  lemma {:induction false} DedupedTemporal(k: Kernel, ops: seq<Op>)
    ensures Temporal(k, Deduped(ops)) <==> Temporal(k, ops)
  {
    if ops != [] {
      var front, op := ops[..|ops| - 1], ops[|ops| - 1];
      DedupedTemporal(k, front);
      SnocInit(ops);
      TemporalSnoc(k, front, op);
      TemporalSnoc(k, Deduped(front), op);
    }
  }

  /** Running the optimized plan: the plan's own result, unless a filter stands
      right before a search; then always an error. */
  lemma OptimizedExecutes(k: Kernel, ops: seq<Op>)
    ensures Execute(k, Optimized(ops)) == if NothingToPush(ops) then Execute(k, ops) else None
  {
    OptimizedExec(k, Temporal(k, Optimized(ops)), ops, INITIAL, Objects([]));
    if NothingToPush(ops) {
      OptimizedTemporal(k, ops);
    }
  }

  lemma OptimizedTemporal(k: Kernel, ops: seq<Op>)
    requires NothingToPush(ops)
    ensures Temporal(k, Optimized(ops)) == Temporal(k, ops)
  {
    ConjoinedPushable(ops);
    PushedIdle(Conjoined(ops));
    ConjoinedTemporal(k, ops);
    DedupedTemporal(k, Conjoined(ops));
  }

  /** The optimizer preserves the result exactly on plans without such a filter
      and on plans that fail anyway. */
  lemma OptimizedPreservesExactly(k: Kernel, ops: seq<Op>)
    ensures Execute(k, Optimized(ops)) == Execute(k, ops) <==> NothingToPush(ops) || Execute(k, ops) == None
  {
    OptimizedExecutes(k, ops);
  }

  /** The plan compiled from a match with conditions and a similarity clause
      runs whenever its scan does, and never once it is optimized. */
  lemma FilteredSearchRefused(k: Kernel, key: ScanKey, p: seq<Predicate>, text: string, scoring: Option<string>, n: nat)
    ensures var ops := [Scan(key), Filter(p), Search(TextQuery(text, scoring), n)];
      && (Execute(k, ops).Some? <==> k.scan(key, false).Some?)
      && (Execute(k, ops).Some? ==> Execute(k, ops).value.Scored?)
      && Execute(k, Optimized(ops)) == None
  {
    var ops := [Scan(key), Filter(p), Search(TextQuery(text, scoring), n)];
    FilteredSearchRuns(k, key, p, text, scoring, n);
    assert ops[1].Filter? && ops[1 + 1].Search? && !NothingToPush(ops);
    OptimizedExecutes(k, ops);
  }

  lemma FilteredSearchRuns(k: Kernel, key: ScanKey, p: seq<Predicate>, text: string, scoring: Option<string>, n: nat)
    ensures var ops := [Scan(key), Filter(p), Search(TextQuery(text, scoring), n)];
      && (Execute(k, ops).Some? <==> k.scan(key, false).Some?)
      && (Execute(k, ops).Some? ==> Execute(k, ops).value.Scored?)
  {
    var a, b, c := Scan(key), Filter(p), Search(TextQuery(text, scoring), n);
    assert !Temporal(k, [a, b, c]);
    assert [a, b] + [c] == [a, b, c] && [a] + [b] == [a, b];
    ExecSnoc(k, false, [a, b], c, INITIAL, Objects([]));
    if k.scan(key, false).Some? {
      FiltersAgree(k, key, [b]);
    } else {
      ExecSnoc(k, false, [a], b, INITIAL, Objects([]));
      ScanFails(k, key);
    }
  }

  lemma ScanFails(k: Kernel, key: ScanKey)
    requires k.scan(key, false) == None
    ensures Exec(k, false, [Scan(key)], INITIAL, Objects([])) == None
  {
    ExecSnoc(k, false, [], Scan(key), INITIAL, Objects([]));
    assert [] + [Scan(key)] == [Scan(key)];
  }

  /** Such a plan, with its rows before and its error after. */
  lemma PushdownRefused() returns (k: Kernel, ops: seq<Op>)
    ensures Execute(k, ops) == Some(Scored([ScoredRow(7, 1.0, "")])) && Execute(k, Optimized(ops)) == None
  {
    var row, q := Row(7, ""), TextQuery("", None);
    k := Kernel((_, _) => Some([row]), (_, _) => true, (_, _) => Hit(1.0), _ => "",
                (_, _) => None, (_, _, _, _) => None, (_, _, _) => None, _ => false, (_, _, _, _) => None);
    var key := ScanKey("", "", [], None);
    ops := [Scan(key), Filter([]), Search(q, 1)];
    FilteredSearchRefused(k, key, [], "", None, 1);
    OneRow(k, key, q, row);
  }

  lemma OneRow(k: Kernel, key: ScanKey, q: Query, row: Row)
    requires k.scan(key, false) == Some([row]) && q == TextQuery("", None) && k.score(q, row).Hit?
    ensures Execute(k, [Scan(key), Filter([]), Search(q, 1)]) == Some(Scored([ScoreOf(k, q, row)]))
  {
    var a, b, c := Scan(key), Filter([]), Search(q, 1);
    assert !Temporal(k, [a, b, c]);
    OneBest(k, q, row);
    OneScan(k, key, row);
    assert [a, b] + [c] == [a, b, c];
    ExecSnoc(k, false, [a, b], c, INITIAL, Objects([]));
  }

  lemma OneScan(k: Kernel, key: ScanKey, row: Row)
    requires k.scan(key, false) == Some([row])
    ensures Exec(k, false, [Scan(key), Filter([])], INITIAL, Objects([])) == Some((Narrowed(k, key, [row]), Objects([row])))
  {
    var w, a, b := Store(k), Scan(key), Filter([]);
    FiltersAgree(k, key, [b]);
    assert [a] + [b] == [a, b] && [] + [a] == [a] && [] + [row] == [row];
    RunSnoc(w, [], a, []);
    RunSnoc(w, [a], b, []);
    KeepSnoc([], row, Satisfies(w, []));
  }

  lemma OneBest(k: Kernel, q: Query, row: Row)
    requires k.score(q, row).Hit?
    ensures Keep([row], Satisfies(Store(k), [])) == [row] && Best(k, q, 1, [row]) == [ScoreOf(k, q, row)]
  {
    var w := Store(k);
    KeepSnoc([], row, Satisfies(w, []));
    RankSnoc(w, q, [], row);
    assert [] + [row] == [row];
    assert Rank(w, q, []) == [] && Insert(w, q, [], row) == [row];
  }

  // ---- Optimizing again -------------------------------------------------------------------------

  lemma {:induction false} DedupedPushable(ops: seq<Op>)
    ensures NothingToPush(ops) ==> NothingToPush(Deduped(ops))
    ensures EndsInFilter(Deduped(ops)) == EndsInFilter(ops)
  {
    if ops != [] {
      var front, op := ops[..|ops| - 1], ops[|ops| - 1];
      DedupedPushable(front);
      SnocInit(ops);
      NothingToPushSnoc(front, op);
      NothingToPushSnoc(Deduped(front), op);
    }
  }

  /** Optimizing until nothing changes has the same effect as optimizing
      once. */
  lemma {:induction false} SettleExecutes(k: Kernel, ops: seq<Op>)
    ensures Execute(k, Settle(ops)) == if NothingToPush(ops) then Execute(k, ops) else None
    decreases Measure(ops)
  {
    OptimizedExecutes(k, ops);
    OptimizedDrops(ops);
    if Optimized(ops) != ops {
      SettleExecutes(k, Optimized(ops));
      if NothingToPush(ops) {
        ConjoinedPushable(ops);
        PushedIdle(Conjoined(ops));
        DedupedPushable(Conjoined(ops));
      }
    } else {
      OptimizedIdleExactly(ops);
    }
  }

  // ---- Where both meanings agree ---------------------------------------------------------------------

  /** The interpreter behind a scan and filters that left these rows. */
  function Narrowed(k: Kernel, key: ScanKey, rows: seq<Row>): State {
    State(Some(rows), Some(key), Some(|k.scan(key, false).GetOr([])|), None)
  }

  lemma {:induction false} FiltersAgree(k: Kernel, key: ScanKey, fs: seq<Op>)
    requires k.scan(key, false).Some? && forall i :: 0 <= i < |fs| ==> fs[i].Filter?
    ensures var rows := Run(Store(k), [Scan(key)] + fs, []);
      Exec(k, false, [Scan(key)] + fs, INITIAL, Objects([])) == Some((Narrowed(k, key, rows), Objects(rows)))
  {
    var scan := [Scan(key)];
    if fs == [] {
      ConcatNil(scan);
      assert [] + scan == scan;
      ExecSnoc(k, false, [], Scan(key), INITIAL, Objects([]));
      RunSnoc(Store(k), [], Scan(key), []);
    } else {
      var front, f := fs[..|fs| - 1], fs[|fs| - 1];
      FiltersAgree(k, key, front);
      SnocInit(fs);
      Assoc(scan, front, [f]);
      ExecSnoc(k, false, scan + front, f, INITIAL, Objects([]));
      RunSnoc(Store(k), scan + front, f, []);
    }
  }

  /** A scan, filters and one plain text search: the interpreter returns the
      scored rows of the planner's meaning. */
  lemma PlainPlanAgrees(k: Kernel, key: ScanKey, fs: seq<Op>, text: string, n: nat)
    requires k.scan(key, false).Some? && forall i :: 0 <= i < |fs| ==> fs[i].Filter?
    ensures var ops, q := [Scan(key)] + fs + [Search(TextQuery(text, None), n)], TextQuery(text, None);
      Execute(k, ops) == Some(Scored(ScoresOf(k, q, Run(Store(k), ops, []))))
  {
    var search := Search(TextQuery(text, None), n);
    var front := [Scan(key)] + fs;
    FiltersAgree(k, key, fs);
    assert !Temporal(k, front + [search]);
    ExecSnoc(k, false, front, search, INITIAL, Objects([]));
    RunSnoc(Store(k), front, search, []);
  }
}
