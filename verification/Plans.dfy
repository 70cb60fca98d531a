/** Query plans over a row list: operators and the meaning the planner's own
    comments give them, in which a filter may follow a search. What the
    interpreter does with a plan is in `Runtime`. */
module Plans {
  import opened Seqs
  import opened Wrappers

  datatype ScanKey = ScanKey(typeName: string, subject: string, roles: seq<string>, tenant: Option<string>)

  datatype Predicate = Predicate(property: string, operation: string, value: string)

  /** A vector query, embedded from its text when the vector is empty, or a
      text query. */
  datatype Query =
    | VectorQuery(vector: seq<real>, queryText: Option<string>, model: Option<string>)
    | TextQuery(text: string, scoring: Option<string>)

  datatype Op =
    | Scan(key: ScanKey)
    | Filter(predicates: seq<Predicate>)
    | Search(query: Query, k: nat)
    | Other(name: string)

  datatype Row = Row(koid: int, data: string)

  /** Everything the plan does not fix: stored rows, predicate evaluation,
      relevance (a row without a score is not a hit) and the operators the
      planner never touches. */
  datatype World = World(
    scan: ScanKey -> seq<Row>,
    holds: (Predicate, Row) -> bool,
    score: (Query, Row) -> Hit,
    other: (string, seq<Row>) -> seq<Row>)

  datatype Hit = Miss | Hit(relevance: real)

  // ---- Meaning ------------------------------------------------------------

  function Keep(rows: seq<Row>, test: Row -> bool): seq<Row> {
    if rows == [] then [] else
      var kept, last := Keep(rows[..|rows| - 1], test), rows[|rows| - 1];
      if test(last) then kept + [last] else kept
  }

  predicate HoldsAll(w: World, predicates: seq<Predicate>, row: Row) {
    forall i :: 0 <= i < |predicates| ==> w.holds(predicates[i], row)
  }

  function Satisfies(w: World, predicates: seq<Predicate>): Row -> bool {
    row => HoldsAll(w, predicates, row)
  }

  /** Higher relevance first, ties by object id. */
  predicate Before(w: World, q: Query, a: Row, b: Row) {
    var x, y := w.score(q, a), w.score(q, b);
    x.Hit? && y.Hit? &&
    (x.relevance > y.relevance || (x.relevance == y.relevance && a.koid <= b.koid))
  }

  /** Insert behind every row that is not ranked later. */
  function Insert(w: World, q: Query, ranked: seq<Row>, row: Row): seq<Row> {
    if ranked == [] then [row]
    else if Before(w, q, ranked[|ranked| - 1], row) then ranked + [row]
    else Insert(w, q, ranked[..|ranked| - 1], row) + [ranked[|ranked| - 1]]
  }

  /** All hits in rank order: a stable sort of the rows that score. */
  function Rank(w: World, q: Query, rows: seq<Row>): seq<Row> {
    if rows == [] then [] else
      var front, last := Rank(w, q, rows[..|rows| - 1]), rows[|rows| - 1];
      if w.score(q, last).Hit? then Insert(w, q, front, last) else front
  }

  function Take(rows: seq<Row>, k: nat): seq<Row> {
    if |rows| <= k then rows else rows[..k]
  }

  function Step(w: World, op: Op, rows: seq<Row>): seq<Row> {
    match op
    case Scan(key) => w.scan(key)
    case Filter(predicates) => Keep(rows, Satisfies(w, predicates))
    case Search(query, k) => Take(Rank(w, query, rows), k)
    case Other(name) => w.other(name, rows)
  }

  function Run(w: World, ops: seq<Op>, rows: seq<Row>): seq<Row> {
    if ops == [] then rows else Step(w, ops[|ops| - 1], Run(w, ops[..|ops| - 1], rows))
  }

  /** Every search met while running the plan takes all its hits. */
  ghost predicate Untruncated(w: World, ops: seq<Op>, rows: seq<Row>) {
    ops == [] ||
    var front, op := ops[..|ops| - 1], ops[|ops| - 1];
    Untruncated(w, front, rows) && (op.Search? ==> |Rank(w, op.query, Run(w, front, rows))| <= op.k)
  }

  lemma UntruncatedSnoc(w: World, ops: seq<Op>, op: Op, rows: seq<Row>)
    ensures Untruncated(w, ops + [op], rows) <==>
      Untruncated(w, ops, rows) && (op.Search? ==> |Rank(w, op.query, Run(w, ops, rows))| <= op.k)
  {
    InitSnoc(ops, op);
  }

  lemma {:induction false} UntruncatedConcat(w: World, a: seq<Op>, b: seq<Op>, rows: seq<Row>)
    ensures Untruncated(w, a + b, rows) <==> Untruncated(w, a, rows) && Untruncated(w, b, Run(w, a, rows))
  {
    if b == [] {
      assert a + b == a;
    } else {
      UntruncatedConcat(w, a, b[..|b| - 1], rows);
      InitConcat(a, b);
      RunConcat(w, a, b[..|b| - 1], rows);
    }
  }

  lemma {:induction false} RunConcat(w: World, a: seq<Op>, b: seq<Op>, rows: seq<Row>)
    ensures Run(w, a + b, rows) == Run(w, b, Run(w, a, rows))
  {
    if b == [] {
      assert a + b == a;
    } else {
      RunConcat(w, a, b[..|b| - 1], rows);
      InitConcat(a, b);
    }
  }

  // ---- Filtering and ranking commute ---------------------------------------

  lemma KeepSnoc(rows: seq<Row>, x: Row, test: Row -> bool)
    ensures Keep(rows + [x], test) == if test(x) then Keep(rows, test) + [x] else Keep(rows, test)
  {
    InitSnoc(rows, x);
  }

  lemma {:induction false} KeepConcat(a: seq<Row>, b: seq<Row>, test: Row -> bool)
    ensures Keep(a + b, test) == Keep(a, test) + Keep(b, test)
  {
    if b == [] {
      assert a + b == a;
    } else {
      KeepConcat(a, b[..|b| - 1], test);
      InitConcat(a, b);
    }
  }

  lemma {:induction false} KeptRows(rows: seq<Row>, test: Row -> bool)
    ensures forall i :: 0 <= i < |Keep(rows, test)| ==> Keep(rows, test)[i] in rows && test(Keep(rows, test)[i])
  {
    if rows != [] {
      KeptRows(rows[..|rows| - 1], test);
      SnocInit(rows);
    }
  }

  /** Filtering by a conjunction is filtering twice. */
  lemma {:induction false} KeepTwice(w: World, rows: seq<Row>, p: seq<Predicate>, q: seq<Predicate>)
    ensures Keep(Keep(rows, Satisfies(w, p)), Satisfies(w, q)) == Keep(rows, Satisfies(w, p + q))
  {
    if rows != [] {
      var front, x := rows[..|rows| - 1], rows[|rows| - 1];
      KeepTwice(w, front, p, q);
      HoldsConcat(w, p, q, x);
      SnocInit(rows);
      KeepSnoc(front, x, Satisfies(w, p));
      KeepSnoc(front, x, Satisfies(w, p + q));
      KeepSnoc(Keep(front, Satisfies(w, p)), x, Satisfies(w, q));
    }
  }

  lemma HoldsConcat(w: World, p: seq<Predicate>, q: seq<Predicate>, row: Row)
    ensures HoldsAll(w, p + q, row) <==> HoldsAll(w, p, row) && HoldsAll(w, q, row)
  {
    if HoldsAll(w, p + q, row) {
      assert forall i :: 0 <= i < |p| ==> p[i] == (p + q)[i];
      assert forall i :: 0 <= i < |q| ==> q[i] == (p + q)[|p| + i];
    }
  }

  ghost predicate Ranked(w: World, q: Query, rows: seq<Row>) {
    forall i, j :: 0 <= i < j < |rows| ==> Before(w, q, rows[i], rows[j])
  }

  lemma {:induction false} InsertAdds(w: World, q: Query, rows: seq<Row>, x: Row)
    ensures multiset(Insert(w, q, rows, x)) == multiset(rows) + multiset{x}
    decreases |rows|
  {
    if rows != [] {
      InsertAdds(w, q, rows[..|rows| - 1], x);
      SnocInit(rows);
    }
  }

  lemma {:induction false} InsertRanked(w: World, q: Query, rows: seq<Row>, x: Row)
    requires Ranked(w, q, rows) && w.score(q, x).Hit?
    requires forall i :: 0 <= i < |rows| ==> w.score(q, rows[i]).Hit?
    ensures Ranked(w, q, Insert(w, q, rows, x))
    decreases |rows|
  {
    if rows != [] {
      var front, last := rows[..|rows| - 1], rows[|rows| - 1];
      if Before(w, q, last, x) {
        LastBefore(w, q, rows, x);
        RankedSnoc(w, q, rows, x);
      } else {
        InsertRanked(w, q, front, x);
        InsertAdds(w, q, front, x);
        InsertedBefore(w, q, front, last, x);
        RankedSnoc(w, q, Insert(w, q, front, x), last);
      }
    }
  }

  lemma LastBefore(w: World, q: Query, rows: seq<Row>, x: Row)
    requires rows != [] && Ranked(w, q, rows) && Before(w, q, rows[|rows| - 1], x)
    ensures forall i :: 0 <= i < |rows| ==> Before(w, q, rows[i], x)
  {
    forall i | 0 <= i < |rows| ensures Before(w, q, rows[i], x) {
      assert i < |rows| - 1 ==> Before(w, q, rows[i], rows[|rows| - 1]);
    }
  }

  lemma RankedSnoc(w: World, q: Query, rows: seq<Row>, last: Row)
    requires Ranked(w, q, rows) && forall i :: 0 <= i < |rows| ==> Before(w, q, rows[i], last)
    ensures Ranked(w, q, rows + [last])
  {
  }

  /** Rows ranked before `last` stay before it with `x` among them. */
  lemma InsertedBefore(w: World, q: Query, front: seq<Row>, last: Row, x: Row)
    requires multiset(Insert(w, q, front, x)) == multiset(front) + multiset{x}
    requires forall i :: 0 <= i < |front| ==> Before(w, q, front[i], last)
    requires w.score(q, x).Hit? && w.score(q, last).Hit? && !Before(w, q, last, x)
    ensures forall i :: 0 <= i < |Insert(w, q, front, x)| ==> Before(w, q, Insert(w, q, front, x)[i], last)
  {
    var r := Insert(w, q, front, x);
    forall i | 0 <= i < |r| ensures Before(w, q, r[i], last) {
      assert r[i] in multiset(r);
      if r[i] != x {
        assert r[i] in multiset(front);
      }
    }
  }

  /** The ranking is a sorted arrangement of exactly the rows that score. */
  lemma {:induction false} RankSorts(w: World, q: Query, rows: seq<Row>)
    ensures Ranked(w, q, Rank(w, q, rows))
    ensures forall i :: 0 <= i < |Rank(w, q, rows)| ==> w.score(q, Rank(w, q, rows)[i]).Hit?
    ensures multiset(Rank(w, q, rows)) == multiset(Keep(rows, r => w.score(q, r).Hit?))
    ensures |Rank(w, q, rows)| <= |rows|
  {
    if rows != [] {
      var front, x := rows[..|rows| - 1], rows[|rows| - 1];
      RankSorts(w, q, front);
      if w.score(q, x).Hit? {
        var f, r := Rank(w, q, front), Rank(w, q, rows);
        InsertRanked(w, q, f, x);
        InsertAdds(w, q, f, x);
        assert |multiset(r)| == |multiset(f)| + 1;
        forall i | 0 <= i < |r| ensures w.score(q, r[i]).Hit? {
          assert r[i] in multiset(r);
          if r[i] != x {
            assert r[i] in multiset(f);
          }
        }
      }
    }
  }

  lemma InsertSnoc(w: World, q: Query, ranked: seq<Row>, y: Row, x: Row)
    ensures Insert(w, q, ranked + [y], x) ==
      if Before(w, q, y, x) then ranked + [y] + [x] else Insert(w, q, ranked, x) + [y]
  {
    InitSnoc(ranked, y);
  }

  /** Dropping rows before or after an insertion gives the same list. */
  lemma {:induction false} InsertKeep(w: World, q: Query, rows: seq<Row>, x: Row, test: Row -> bool)
    requires Ranked(w, q, rows) && w.score(q, x).Hit?
    requires forall i :: 0 <= i < |rows| ==> w.score(q, rows[i]).Hit?
    ensures Keep(Insert(w, q, rows, x), test) ==
      if test(x) then Insert(w, q, Keep(rows, test), x) else Keep(rows, test)
    decreases |rows|
  {
    if rows == [] {
      KeepSnoc([], x, test);
    } else {
      var front, last := rows[..|rows| - 1], rows[|rows| - 1];
      SnocInit(rows);
      if Before(w, q, last, x) {
        KeepSnoc(rows, x, test);
        KeptRankBefore(w, q, rows, x, test);
      } else {
        InsertKeep(w, q, front, x, test);
        KeepSnoc(Insert(w, q, front, x), last, test);
        InsertSnoc(w, q, Keep(front, test), last, x);
        InsertSnoc(w, q, front, last, x);
        KeepSnoc(front, last, test);
      }
    }
  }

  /** If the last row is ranked before `x`, every kept row is. */
  lemma KeptRankBefore(w: World, q: Query, rows: seq<Row>, x: Row, test: Row -> bool)
    requires rows != [] && Ranked(w, q, rows) && Before(w, q, rows[|rows| - 1], x)
    ensures Insert(w, q, Keep(rows, test), x) == Keep(rows, test) + [x]
  {
    var kept := Keep(rows, test);
    KeptRows(rows, test);
    if kept != [] {
      var y := kept[|kept| - 1];
      var i :| 0 <= i < |rows| && rows[i] == y;
      assert Before(w, q, y, x);
    }
  }

  /** Ranking the filtered rows is filtering the ranked rows. */
  lemma {:induction false} RankKeep(w: World, q: Query, rows: seq<Row>, test: Row -> bool)
    ensures Rank(w, q, Keep(rows, test)) == Keep(Rank(w, q, rows), test)
  {
    if rows != [] {
      var front, x := rows[..|rows| - 1], rows[|rows| - 1];
      RankKeep(w, q, front, test);
      RankSorts(w, q, front);
      SnocInit(rows);
      KeepSnoc(front, x, test);
      RankSnoc(w, q, Keep(front, test), x);
      RankSnoc(w, q, front, x);
      if w.score(q, x).Hit? {
        InsertKeep(w, q, Rank(w, q, front), x, test);
      }
    }
  }

  lemma RankSnoc(w: World, q: Query, rows: seq<Row>, x: Row)
    ensures Rank(w, q, rows + [x]) ==
      if w.score(q, x).Hit? then Insert(w, q, Rank(w, q, rows), x) else Rank(w, q, rows)
  {
    InitSnoc(rows, x);
  }

  /** Filtering after the search sees only the best `k` of the whole set, so
      its rows are a prefix of filtering first; without truncation they are
      the same. */
  lemma SearchThenFilter(w: World, q: Query, k: nat, p: seq<Predicate>, rows: seq<Row>)
    ensures Step(w, Filter(p), Step(w, Search(q, k), rows)) <= Step(w, Search(q, k), Step(w, Filter(p), rows))
    ensures |Rank(w, q, rows)| <= k ==>
      Step(w, Filter(p), Step(w, Search(q, k), rows)) == Step(w, Search(q, k), Step(w, Filter(p), rows))
  {
    RankKeep(w, q, rows, Satisfies(w, p));
    KeepTake(Rank(w, q, rows), k, Satisfies(w, p));
  }

  lemma KeepTake(ranked: seq<Row>, k: nat, test: Row -> bool)
    ensures Keep(Take(ranked, k), test) <= Take(Keep(ranked, test), k)
    ensures |ranked| <= k ==> Keep(Take(ranked, k), test) == Take(Keep(ranked, test), k)
  {
    if |ranked| > k {
      var a, b := ranked[..k], ranked[k..];
      assert ranked == a + b;
      KeepConcat(a, b, test);
      KeepLength(a, test);
      PrefixTake(Keep(a, test), Keep(b, test), k);
    } else {
      KeepLength(ranked, test);
    }
  }

  lemma {:induction false} KeepLength(rows: seq<Row>, test: Row -> bool)
    ensures |Keep(rows, test)| <= |rows|
  {
    if rows != [] {
      KeepLength(rows[..|rows| - 1], test);
    }
  }

  lemma PrefixTake(a: seq<Row>, b: seq<Row>, k: nat)
    requires |a| <= k
    ensures a <= Take(a + b, k)
  {
  }
}
