/** The plan interpreter: typed row sets, the cached state between operators,
    and its errors. */
module Runtime {
  import opened Seqs
  import opened Wrappers
  import opened Plans

  /** A search hit: object id, score, and the type and version it shows. */
  datatype ScoredRow = ScoredRow(koid: int, score: real, shown: string)

  /** What one operator hands to the next. Traversals, groups and joined pairs
      are `Derived`. */
  datatype RowSet = Objects(rows: seq<Row>) | Scored(hits: seq<ScoredRow>) | Derived(data: string)

  /** The interpreter's fields: objects of the last scan or filter, scope and
      size of the last scan, and the scored list kept for fusion. */
  datatype State = State(
    cached: Option<seq<Row>>, scope: Option<ScanKey>, scanLen: Option<nat>, prevScored: Option<seq<ScoredRow>>)

  const INITIAL := State(None, None, None, None)

  /** New state and row set, or an error. */
  type Outcome = Option<(State, RowSet)>

  /** What the interpreter asks of the store, fixed while a plan runs. Scans,
      embedding and the two indexes can fail; operators other than scan, filter
      and search are any function of the state and the rows. */
  datatype Kernel = Kernel(
    scan: (ScanKey, bool) -> Option<seq<Row>>,
    holds: (Predicate, Row) -> bool,
    score: (Query, Row) -> Hit,
    shown: Row -> string,
    embed: (string, Option<string>) -> Option<seq<real>>,
    similar: (ScanKey, seq<real>, Option<string>, nat) -> Option<seq<ScoredRow>>,
    textIndex: (ScanKey, string, nat) -> Option<seq<ScoredRow>>,
    isTemporal: string -> bool,
    other: (string, bool, State, RowSet) -> Outcome)

  // ---- Specification ----------------------------------------------------------

  /** The store's rows, predicates and relevance. */
  function Store(k: Kernel): World {
    World(key => k.scan(key, false).GetOr([]), k.holds, k.score, (_, rows) => rows)
  }

  function ScoreOf(k: Kernel, q: Query, row: Row): ScoredRow {
    ScoredRow(row.koid, match k.score(q, row) case Hit(x) => x case Miss => 0.0, k.shown(row))
  }

  function ScoresOf(k: Kernel, q: Query, rows: seq<Row>): seq<ScoredRow> {
    seq(|rows|, i requires 0 <= i < |rows| => ScoreOf(k, q, rows[i]))
  }

  /** The best `n` rows of a query, scored. */
  function Best(k: Kernel, q: Query, n: nat, rows: seq<Row>): seq<ScoredRow> {
    ScoresOf(k, q, Take(Rank(Store(k), q, rows), n))
  }

  function ScanStep(k: Kernel, temporal: bool, key: ScanKey, st: State): Outcome {
    match k.scan(key, temporal)
    case None => None
    case Some(rows) =>
      Some((st.(cached := Some(rows), scope := Some(key), scanLen := Some(|rows|)), Objects(rows)))
  }

  function FilterStep(k: Kernel, predicates: seq<Predicate>, st: State, input: RowSet): Outcome {
    if !input.Objects? then None
    else
      var kept := Keep(input.rows, Satisfies(Store(k), predicates));
      Some((st.(cached := Some(kept)), Objects(kept)))
  }

  /** The objects a search ranks: its input, or the cached ones behind a
      search. */
  function Resolved(st: State, input: RowSet): Option<seq<Row>> {
    match input
    case Objects(rows) => Some(rows)
    case Scored(_) => st.cached
    case Derived(_) => None
  }

  /** The first scored list of a plan is the one kept. */
  function TextStep(k: Kernel, text: string, n: nat, st: State, input: RowSet): Outcome {
    match Resolved(st, input)
    case None => None
    case Some(rows) =>
      var hits := Best(k, TextQuery(text, None), n, rows);
      Some((if st.prevScored.None? then st.(prevScored := Some(hits)) else st, Scored(hits)))
  }

  /** Unnarrowed scan output of a plan without temporal operators goes to the
      vector index. */
  predicate Delegates(temporal: bool, n: nat, st: State, input: RowSet) {
    input.Objects? && !temporal && n > 0 && st.scope.Some? && st.scanLen == Some(|input.rows|)
  }

  function VectorStep(
    k: Kernel, temporal: bool, vector: seq<real>, model: Option<string>, n: nat, st: State, input: RowSet): Outcome
  {
    var q := VectorQuery(vector, None, model);
    var found := if Delegates(temporal, n, st, input) then k.similar(st.scope.value, vector, model, n) else None;
    if found.Some? && found.value != [] then Some((st.(prevScored := found), Scored(found.value)))
    else
      match Resolved(st, input)
      case None => None
      case Some(rows) =>
        if Rank(Store(k), q, rows) == [] && rows != [] then None
        else Some((st.(prevScored := Some(Best(k, q, n, rows))), Scored(Best(k, q, n, rows))))
  }

  function SearchStep(k: Kernel, temporal: bool, q: Query, n: nat, st: State, input: RowSet): Outcome {
    match q
    case VectorQuery(vector, text, model) =>
      if vector != [] then VectorStep(k, temporal, vector, model, n, st, input)
      else if text.None? then None
      else (
        match k.embed(text.value, model)
        case None => TextStep(k, text.value, n, st, input)
        case Some(embedded) => VectorStep(k, temporal, embedded, model, n, st, input)
      )
    case TextQuery(text, scoring) =>
      var found := if scoring == Some("bm25") && st.scope.Some? then k.textIndex(st.scope.value, text, n) else None;
      if found.Some? && found.value != [] then Some((st.(prevScored := found), Scored(found.value)))
      else TextStep(k, text, n, st, input)
  }

  function OpStep(k: Kernel, temporal: bool, op: Op, st: State, input: RowSet): Outcome {
    match op
    case Scan(key) => ScanStep(k, temporal, key, st)
    case Filter(predicates) => FilterStep(k, predicates, st, input)
    case Search(query, n) => SearchStep(k, temporal, query, n, st, input)
    case Other(name) => k.other(name, temporal, st, input)
  }

  function Exec(k: Kernel, temporal: bool, ops: seq<Op>, st: State, input: RowSet): Outcome {
    if ops == [] then Some((st, input))
    else
      match Exec(k, temporal, ops[..|ops| - 1], st, input)
      case None => None
      case Some(now) => OpStep(k, temporal, ops[|ops| - 1], now.0, now.1)
  }

  /** The plan has a temporal operator. */
  predicate Temporal(k: Kernel, ops: seq<Op>) {
    exists i :: 0 <= i < |ops| && ops[i].Other? && k.isTemporal(ops[i].name)
  }

  /** `execute_physical`: rows of the whole plan, or an error. */
  function Execute(k: Kernel, ops: seq<Op>): Option<RowSet> {
    match Exec(k, Temporal(k, ops), ops, INITIAL, Objects([]))
    case None => None
    case Some(end) => Some(end.1)
  }

  // ---- The interpreter ----------------------------------------------------------

  class Interpreter {
    const kernel: Kernel
    const temporal: bool
    var cached: Option<seq<Row>>
    var scope: Option<ScanKey>
    var scanLen: Option<nat>
    var prevScored: Option<seq<ScoredRow>>

    constructor (kernel: Kernel, temporal: bool)
      ensures this.kernel == kernel && this.temporal == temporal && Now() == INITIAL
    {
      this.kernel, this.temporal := kernel, temporal;
      cached, scope, scanLen, prevScored := None, None, None, None;
    }

    ghost function Now(): State
      reads this
    {
      State(cached, scope, scanLen, prevScored)
    }

    /** The rows handed on and the fields left behind are the outcome; after an
        error the interpreter is dropped. */
    ghost predicate Reached(r: Option<RowSet>, outcome: Outcome)
      reads this
    {
      if r.None? then outcome.None? else outcome == Some((Now(), r.value))
    }

    method ResolveObjects(input: RowSet) returns (r: Option<seq<Row>>)
      ensures r == Resolved(Now(), input)
    {
      match input
      case Objects(rows) => r := Some(rows);
      case Scored(_) => r := cached;
      case Derived(_) => r := None;
    }

    method ExecTextSearch(text: string, n: nat, input: RowSet) returns (r: Option<RowSet>)
      modifies this
      ensures Reached(r, TextStep(kernel, text, n, old(Now()), input))
    {
      var rows := ResolveObjects(input);
      if rows.None? {
        return None;
      }
      var hits := Best(kernel, TextQuery(text, None), n, rows.value);
      if prevScored.None? {
        prevScored := Some(hits);
      }
      r := Some(Scored(hits));
    }

    method ExecVectorSearch(vector: seq<real>, model: Option<string>, n: nat, input: RowSet) returns (r: Option<RowSet>)
      modifies this
      ensures Reached(r, VectorStep(kernel, temporal, vector, model, n, old(Now()), input))
    {
      if input.Objects? && !temporal && n > 0 && scope.Some? && scanLen == Some(|input.rows|) {
        var found := kernel.similar(scope.value, vector, model, n);
        if found.Some? && found.value != [] {
          prevScored := found;
          return Some(Scored(found.value));
        }
      }
      var rows := ResolveObjects(input);
      if rows.None? {
        return None;
      }
      var q := VectorQuery(vector, None, model);
      if Rank(Store(kernel), q, rows.value) == [] && rows.value != [] {
        return None;
      }
      var hits := Best(kernel, q, n, rows.value);
      prevScored := Some(hits);
      r := Some(Scored(hits));
    }

    method ExecSearch(q: Query, n: nat, input: RowSet) returns (r: Option<RowSet>)
      modifies this
      ensures Reached(r, SearchStep(kernel, temporal, q, n, old(Now()), input))
    {
      match q
      case VectorQuery(vector, text, model) =>
        if vector != [] {
          r := ExecVectorSearch(vector, model, n, input);
        } else if text.None? {
          r := None;
        } else {
          var embedded := kernel.embed(text.value, model);
          if embedded.None? {
            r := ExecTextSearch(text.value, n, input);
          } else {
            r := ExecVectorSearch(embedded.value, model, n, input);
          }
        }
      case TextQuery(text, scoring) =>
        if scoring == Some("bm25") && scope.Some? {
          var found := kernel.textIndex(scope.value, text, n);
          if found.Some? && found.value != [] {
            prevScored := found;
            return Some(Scored(found.value));
          }
        }
        r := ExecTextSearch(text, n, input);
    }

    /** `exec_op`. */
    method ExecOp(op: Op, input: RowSet) returns (r: Option<RowSet>)
      modifies this
      ensures Reached(r, OpStep(kernel, temporal, op, old(Now()), input))
    {
      match op
      case Scan(key) =>
        var rows := kernel.scan(key, temporal);
        if rows.None? {
          return None;
        }
        cached, scope, scanLen := Some(rows.value), Some(key), Some(|rows.value|);
        r := Some(Objects(rows.value));
      case Filter(predicates) =>
        if !input.Objects? {
          return None;
        }
        var kept := Keep(input.rows, Satisfies(Store(kernel), predicates));
        cached := Some(kept);
        r := Some(Objects(kept));
      case Search(query, n) =>
        r := ExecSearch(query, n, input);
      case Other(name) =>
        var outcome := kernel.other(name, temporal, State(cached, scope, scanLen, prevScored), input);
        if outcome.None? {
          return None;
        }
        var st := outcome.value.0;
        cached, scope, scanLen, prevScored := st.cached, st.scope, st.scanLen, st.prevScored;
        r := Some(outcome.value.1);
    }
  }

  /** The loop over the operators of a plan. */
  method ExecutePlan(kernel: Kernel, ops: seq<Op>) returns (r: Option<RowSet>)
    ensures r == Execute(kernel, ops)
  {
    var temporal := Temporal(kernel, ops);
    var interp := new Interpreter(kernel, temporal);
    var rows := Objects([]);
    for i := 0 to |ops|
      invariant interp.kernel == kernel && interp.temporal == temporal
      invariant Exec(kernel, temporal, ops[..i], INITIAL, Objects([])) == Some((interp.Now(), rows))
    {
      TakeTwice(ops, i);
      var next := interp.ExecOp(ops[i], rows);
      if next.None? {
        Stopped(kernel, temporal, ops, i + 1, INITIAL, Objects([]));
        return None;
      }
      rows := next.value;
    }
    TakeAll(ops);
    r := Some(rows);
  }

  /** An error ends the plan. */
  lemma {:induction false} Stopped(k: Kernel, temporal: bool, ops: seq<Op>, i: nat, st: State, input: RowSet)
    requires i <= |ops| && Exec(k, temporal, ops[..i], st, input) == None
    ensures Exec(k, temporal, ops, st, input) == None
  {
    if i == |ops| {
      TakeAll(ops);
    } else {
      assert ops[..|ops| - 1][..i] == ops[..i];
      Stopped(k, temporal, ops[..|ops| - 1], i, st, input);
    }
  }
}
