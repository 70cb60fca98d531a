/** What the interpreter's searches return and leave behind, in terms of the
    stored rows and their scores. */
module SearchLaws {
  import opened Seqs
  import opened Wrappers
  import opened Plans
  import opened Runtime
  import opened PlanExecution

  // ---- The best rows ---------------------------------------------------------------

  function ScoreIn(k: Kernel, q: Query, row: Row): real {
    match k.score(q, row) case Hit(x) => x case Miss => 0.0
  }

  /** Higher score first, then the lower object id. */
  ghost predicate Descending(k: Kernel, q: Query, rows: seq<Row>) {
    forall i, j :: 0 <= i < j < |rows| ==>
      ScoreIn(k, q, rows[i]) > ScoreIn(k, q, rows[j])
      || (ScoreIn(k, q, rows[i]) == ScoreIn(k, q, rows[j]) && rows[i].koid <= rows[j].koid)
  }

  /** All rows with a score, each as often as it is there. */
  ghost predicate ScoringRows(k: Kernel, q: Query, found: seq<Row>, rows: seq<Row>) {
    forall r :: multiset(found)[r] == if k.score(q, r).Hit? then multiset(rows)[r] else 0
  }

  /** The first `n` of the rows with a score, best first. */
  ghost predicate AreBest(k: Kernel, q: Query, n: nat, rows: seq<Row>, hits: seq<ScoredRow>, ranked: seq<Row>) {
    && ScoringRows(k, q, ranked, rows) && Descending(k, q, ranked)
    && |hits| == (if |ranked| <= n then |ranked| else n)
    && forall i :: 0 <= i < |hits| ==>
      hits[i] == ScoredRow(ranked[i].koid, ScoreIn(k, q, ranked[i]), k.shown(ranked[i]))
  }

  lemma {:induction false} KeepCounts(rows: seq<Row>, test: Row -> bool, r: Row)
    ensures multiset(Keep(rows, test))[r] == if test(r) then multiset(rows)[r] else 0
  {
    if rows != [] {
      KeepCounts(rows[..|rows| - 1], test, r);
      SnocInit(rows);
      assert multiset(rows) == multiset(rows[..|rows| - 1]) + multiset{rows[|rows| - 1]};
    }
  }

  lemma RankIs(k: Kernel, q: Query, rows: seq<Row>)
    ensures ScoringRows(k, q, Rank(Store(k), q, rows), rows) && Descending(k, q, Rank(Store(k), q, rows))
  {
    var w, ranked := Store(k), Rank(Store(k), q, rows);
    RankSorts(w, q, rows);
    forall r ensures multiset(ranked)[r] == if k.score(q, r).Hit? then multiset(rows)[r] else 0 {
      KeepCounts(rows, r => w.score(q, r).Hit?, r);
    }
    forall i, j | 0 <= i < j < |ranked|
      ensures ScoreIn(k, q, ranked[i]) > ScoreIn(k, q, ranked[j])
        || (ScoreIn(k, q, ranked[i]) == ScoreIn(k, q, ranked[j]) && ranked[i].koid <= ranked[j].koid)
    {
      assert Before(w, q, ranked[i], ranked[j]);
    }
  }

  lemma BestAre(k: Kernel, q: Query, n: nat, rows: seq<Row>) returns (ranked: seq<Row>)
    ensures AreBest(k, q, n, rows, Best(k, q, n, rows), ranked)
    ensures ranked == [] <==> forall i :: 0 <= i < |rows| ==> k.score(q, rows[i]).Miss?
  {
    ranked := Rank(Store(k), q, rows);
    RankIs(k, q, rows);
    if ranked == [] {
      forall i | 0 <= i < |rows| ensures k.score(q, rows[i]).Miss? {
        assert rows[i] in multiset(rows) && multiset(ranked)[rows[i]] == 0;
      }
    } else {
      assert ranked[0] in multiset(ranked);
      var i :| 0 <= i < |rows| && rows[i] == ranked[0];
    }
  }

  // ---- One search --------------------------------------------------------------------

  /** The search ends with the best `n` of these rows, all other fields of the
      state left alone and this list kept for fusion. */
  ghost predicate Finds(k: Kernel, q: Query, n: nat, rows: seq<Row>, st: State, kept: Option<seq<ScoredRow>>, r: Outcome) {
    && r.Some? && r.value.1.Scored? && (exists ranked :: AreBest(k, q, n, rows, r.value.1.hits, ranked))
    && r.value.0 == State(st.cached, st.scope, st.scanLen, if kept.Some? then kept else Some(r.value.1.hits))
  }

  ghost predicate TextFound(k: Kernel, text: string, n: nat, rows: seq<Row>, st: State, r: Outcome) {
    Finds(k, TextQuery(text, None), n, rows, st, st.prevScored, r)
  }

  /** A plain text search ranks its input objects, or the cached ones when its
      input is a search result; only the first scored list is kept. */
  lemma TextSearchIs(k: Kernel, text: string, n: nat, st: State, input: RowSet)
    ensures var r := TextStep(k, text, n, st, input);
      match input
      case Objects(rows) => TextFound(k, text, n, rows, st, r)
      case Scored(_) => if st.cached.None? then r == None else TextFound(k, text, n, st.cached.value, st, r)
      case Derived(_) => r == None
  {
    if input.Objects? || (input.Scored? && st.cached.Some?) {
      var ranked := BestAre(k, TextQuery(text, None), n, Resolved(st, input).value);
    }
  }

  /** The vector index answers exactly for the unnarrowed output of a scan, in a
      plan without temporal operators, when it finds something. */
  ghost predicate IndexAnswers(
    k: Kernel, temporal: bool, v: seq<real>, model: Option<string>, n: nat, st: State, input: RowSet)
  {
    && input.Objects? && !temporal && n > 0 && st.scope.Some? && st.scanLen == Some(|input.rows|)
    && k.similar(st.scope.value, v, model, n).Some? && k.similar(st.scope.value, v, model, n).value != []
  }

  ghost predicate NoneScores(k: Kernel, q: Query, rows: seq<Row>) {
    rows != [] && forall i :: 0 <= i < |rows| ==> k.score(q, rows[i]).Miss?
  }

  ghost predicate VectorFound(
    k: Kernel, v: seq<real>, model: Option<string>, n: nat, rows: seq<Row>, st: State, r: Outcome)
  {
    var q := VectorQuery(v, None, model);
    if NoneScores(k, q, rows) then r == None else Finds(k, q, n, rows, st, None, r)
  }

  /** A vector search: the index, else a ranking, and an error exactly when
      there are rows and none has a score; its list is the one kept. */
  lemma VectorSearchIs(k: Kernel, temporal: bool, v: seq<real>, model: Option<string>, n: nat, st: State, input: RowSet)
    ensures var r := VectorStep(k, temporal, v, model, n, st, input);
      if IndexAnswers(k, temporal, v, model, n, st, input) then
        var hits := k.similar(st.scope.value, v, model, n).value;
        r == Some((State(st.cached, st.scope, st.scanLen, Some(hits)), Scored(hits)))
      else
        match input
        case Objects(rows) => VectorFound(k, v, model, n, rows, st, r)
        case Scored(_) => if st.cached.None? then r == None else VectorFound(k, v, model, n, st.cached.value, st, r)
        case Derived(_) => r == None
  {
    if input.Objects? || (input.Scored? && st.cached.Some?) {
      VectorRanks(k, v, model, n, Resolved(st, input).value);
    }
  }

  lemma VectorRanks(k: Kernel, v: seq<real>, model: Option<string>, n: nat, rows: seq<Row>)
    ensures var q := VectorQuery(v, None, model);
      && (NoneScores(k, q, rows) <==> rows != [] && Rank(Store(k), q, rows) == [])
      && exists ranked :: AreBest(k, q, n, rows, Best(k, q, n, rows), ranked)
  {
    var ranked := BestAre(k, VectorQuery(v, None, model), n, rows);
    RankIs(k, VectorQuery(v, None, model), rows);
  }

  /** From any state: a query given as text is the query on its embedding, or a
      plain text search without a provider; an indexed text search whose index
      finds nothing is a plain one, and otherwise returns what the index found,
      whatever its input. */
  lemma SearchDegrades(k: Kernel, temporal: bool, text: string, model: Option<string>, n: nat, st: State, input: RowSet)
    ensures var r := SearchStep(k, temporal, VectorQuery([], Some(text), model), n, st, input);
      match k.embed(text, model)
      case None => r == SearchStep(k, temporal, TextQuery(text, None), n, st, input)
      case Some(e) => e != [] ==> r == SearchStep(k, temporal, VectorQuery(e, None, model), n, st, input)
    ensures SearchStep(k, temporal, VectorQuery([], None, model), n, st, input) == None
    ensures var r := SearchStep(k, temporal, TextQuery(text, Some("bm25")), n, st, input);
      if st.scope.Some? && k.textIndex(st.scope.value, text, n).Some? && k.textIndex(st.scope.value, text, n).value != [] then
        var hits := k.textIndex(st.scope.value, text, n).value;
        r == Some((State(st.cached, st.scope, st.scanLen, Some(hits)), Scored(hits)))
      else r == SearchStep(k, temporal, TextQuery(text, None), n, st, input)
  {
  }

  // ---- Plans with searches ---------------------------------------------------------------

  /** A scan and filters, then a search on a vector: the index answers exactly
      when no filter dropped a row. */
  lemma VectorPlan(k: Kernel, key: ScanKey, fs: seq<Op>, v: seq<real>, model: Option<string>, n: nat)
    requires k.scan(key, false).Some? && v != [] && forall i :: 0 <= i < |fs| ==> fs[i].Filter?
    ensures var rows := Run(Store(k), [Scan(key)] + fs, []);
      var r := Exec(k, false, [Scan(key)] + fs + [Search(VectorQuery(v, None, model), n)], INITIAL, Objects([]));
      var st := State(Some(rows), Some(key), Some(|k.scan(key, false).value|), None);
      if n > 0 && |rows| == |k.scan(key, false).value| && k.similar(key, v, model, n).Some?
        && k.similar(key, v, model, n).value != [] then
        r.Some? && r.value.1 == Scored(k.similar(key, v, model, n).value)
      else VectorFound(k, v, model, n, rows, st, r)
  {
    FiltersAgree(k, key, fs);
    var rows, search := Run(Store(k), [Scan(key)] + fs, []), Search(VectorQuery(v, None, model), n);
    ExecSnoc(k, false, [Scan(key)] + fs, search, INITIAL, Objects([]));
    VectorSearchIs(k, false, v, model, n, Narrowed(k, key, rows), Objects(rows));
  }

  /** A search on a vector, then a plain text search: if the first succeeds, the
      second ranks the scanned and filtered rows by text, whatever the first
      found, and the first one's hits stay the list kept. */
  lemma TwoSearchPlan(k: Kernel, key: ScanKey, fs: seq<Op>, q: Query, m: nat, text: string, n: nat)
    requires k.scan(key, false).Some? && q.VectorQuery? && forall i :: 0 <= i < |fs| ==> fs[i].Filter?
    ensures var one := [Scan(key)] + fs + [Search(q, m)];
      var first := Exec(k, false, one, INITIAL, Objects([]));
      var second := Exec(k, false, one + [Search(TextQuery(text, None), n)], INITIAL, Objects([]));
      if first.None? then second == None
      else
        && first.value.1.Scored? && second.Some? && second.value.1.Scored?
        && (exists ranked :: AreBest(k, TextQuery(text, None), n, Run(Store(k), [Scan(key)] + fs, []), second.value.1.hits, ranked))
        && second.value.0.prevScored == Some(first.value.1.hits)
  {
    FiltersAgree(k, key, fs);
    var front, rows := [Scan(key)] + fs, Run(Store(k), [Scan(key)] + fs, []);
    ExecSnoc(k, false, front, Search(q, m), INITIAL, Objects([]));
    ExecSnoc(k, false, front + [Search(q, m)], Search(TextQuery(text, None), n), INITIAL, Objects([]));
    FirstSearchKeeps(k, q, m, Narrowed(k, key, rows), rows);
    var first := Exec(k, false, front + [Search(q, m)], INITIAL, Objects([]));
    if first.Some? {
      TextSearchIs(k, text, n, first.value.0, first.value.1);
    }
  }

  /** The first search of a plan leaves the cached rows and keeps its hits. */
  lemma FirstSearchKeeps(k: Kernel, q: Query, n: nat, st: State, rows: seq<Row>)
    requires q.VectorQuery? && st.prevScored == None
    ensures var r := SearchStep(k, false, q, n, st, Objects(rows));
      r.Some? ==> r.value.1.Scored? && r.value.0.cached == st.cached && r.value.0.prevScored == Some(r.value.1.hits)
  {
  }
}
