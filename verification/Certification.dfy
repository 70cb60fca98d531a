/** The release gates: percentages, per-area results, verdicts and blockers. */
module Certification {
  import opened Seqs
  import opened Wrappers

  datatype Status = Pass | Open | NotImplemented | Blocked

  /** A registry row: its priorities, its gates, the area its id maps to. */
  datatype Row = Row(id: string, priorities: set<string>, gates: set<string>, area: Option<string>, status: Status)

  datatype Severity = Severity(sev1: nat, sev2: nat)

  function Passing(rows: seq<Row>): (n: nat)
    ensures n <= |rows|
  {
    if rows == [] then 0 else Passing(rows[..|rows| - 1]) + (if rows[|rows| - 1].status.Pass? then 1 else 0)
  }

  function WithPriority(rows: seq<Row>, p: string): seq<Row> {
    if rows == [] then [] else
      var front, r := WithPriority(rows[..|rows| - 1], p), rows[|rows| - 1];
      if p in r.priorities then front + [r] else front
  }

  /** `pct`: the rounded percentage of passing rows, 100 without rows. Halves
      round up. */
  function Percent(rows: seq<Row>): nat {
    if rows == [] then 100 else (200 * Passing(rows) + |rows|) / (2 * |rows|)
  }

  function Failures(rows: seq<Row>): nat {
    |rows| - Passing(rows)
  }

  /** The rounded gates in exact terms: 100 percent allows one failure in two
      hundred rows, 98 percent one in forty. */
  lemma GatesExactly(rows: seq<Row>)
    ensures Percent(rows) == 100 <==> 200 * Failures(rows) <= |rows|
    ensures Percent(rows) >= 98 <==> 40 * Failures(rows) <= |rows|
    ensures Percent(rows) <= 100
  {
    if rows != [] {
      var n, p := |rows|, Passing(rows);
      Rounded(200 * p + n, 2 * n, 100);
      Rounded(200 * p + n, 2 * n, 98);
      Rounded(200 * p + n, 2 * n, 101);
    }
  }

  lemma Rounded(a: nat, b: nat, q: nat)
    requires b > 0
    ensures a / b >= q <==> a >= q * b
  {
    var d := a / b;
    assert a == d * b + a % b;
    assert d >= q ==> d * b >= q * b;
    assert d < q ==> (d + 1) * b <= q * b;
  }

  /** The percentage is the nearest whole one, halves up. */
  lemma PercentIs(rows: seq<Row>)
    ensures rows == [] ==> Percent(rows) == 100
    ensures rows != [] ==>
      Percent(rows) * (2 * |rows|) <= 200 * Passing(rows) + |rows| < (Percent(rows) + 1) * (2 * |rows|)
  {
    if rows != [] {
      Rounded(200 * Passing(rows) + |rows|, 2 * |rows|, Percent(rows));
      Rounded(200 * Passing(rows) + |rows|, 2 * |rows|, Percent(rows) + 1);
    }
  }

  ghost predicate IsPass(r: Row) {
    r.status.Pass?
  }

  /** The rows counted are exactly the passing ones. */
  lemma {:induction false} PassingAre(rows: seq<Row>) returns (at: seq<nat>)
    ensures Selects(at, rows, IsPass) && |at| == Passing(rows)
  {
    at := [];
    if rows != [] {
      var front, r := rows[..|rows| - 1], rows[|rows| - 1];
      var before := PassingAre(front);
      SnocInit(rows);
      SelectsSnoc(before, front, r, IsPass);
      at := if IsPass(r) then before + [|front|] else before;
    }
  }

  /** The rows of a priority are exactly those that name it, in order. */
  lemma {:induction false} PriorityRowsAre(rows: seq<Row>, p: string) returns (at: seq<nat>)
    ensures Chosen(WithPriority(rows, p), rows, at, (r: Row) => p in r.priorities)
  {
    at := [];
    if rows != [] {
      var front, r := rows[..|rows| - 1], rows[|rows| - 1];
      var before := PriorityRowsAre(front, p);
      SnocInit(rows);
      at := ChosenSnoc(WithPriority(front, p), front, r, before, (r: Row) => p in r.priorities);
    }
  }

  // ---- Areas ---------------------------------------------------------------------------

  predicate HasArea(rows: seq<Row>, area: string) {
    exists i :: 0 <= i < |rows| && rows[i].area == Some(area)
  }

  /** Every row of the area passes. */
  predicate AreaPasses(rows: seq<Row>, area: string) {
    forall i :: 0 <= i < |rows| && rows[i].area == Some(area) ==> rows[i].status.Pass?
  }

  predicate AllPass(rows: seq<Row>) {
    forall i :: 0 <= i < |rows| ==> rows[i].status.Pass?
  }

  /** Areas of the rows that have one, row by row. */
  function AreaNames(rows: seq<Row>): seq<string> {
    if rows == [] then []
    else
      var names, r := AreaNames(rows[..|rows| - 1]), rows[|rows| - 1];
      if r.area.Some? then names + [r.area.value] else names
  }

  /** The areas seen, in the order in which the `areas` object lists them. */
  function AreaKeys(rows: seq<Row>): seq<string> {
    FirstOccurrences(AreaNames(rows))
  }

  /** The loop that fills the `areas` object of the first verdict. */
  method SeenAreas(rows: seq<Row>) returns (areas: map<string, bool>, keys: seq<string>)
    ensures keys == AreaKeys(rows) && forall a :: a in keys <==> a in areas
    ensures forall a :: a in areas <==> HasArea(rows, a)
    ensures forall a :: a in areas ==> (areas[a] <==> AreaPasses(rows, a))
  {
    areas, keys := map[], [];
    for i := 0 to |rows|
      invariant keys == AreaKeys(rows[..i]) && forall a :: a in keys <==> a in areas
      invariant forall a :: a in areas <==> HasArea(rows[..i], a)
      invariant forall a :: a in areas ==> (areas[a] <==> AreaPasses(rows[..i], a))
    {
      var r := rows[i];
      forall a {
        AreaSnoc(rows, i, a);
      }
      KeysNext(rows, i);
      if r.area.Some? {
        var a := r.area.value;
        if a !in areas {
          keys := keys + [a];
        }
        var before := if a in areas then areas[a] else true;
        assert a !in areas ==> AreaPasses(rows[..i], a);
        areas := areas[a := before && r.status.Pass?];
      }
    }
    TakeAll(rows);
  }

  lemma KeysNext(rows: seq<Row>, i: nat)
    requires i < |rows|
    ensures AreaKeys(rows[..i + 1]) ==
      var keys, a := AreaKeys(rows[..i]), rows[i].area;
      if a.None? || a.value in keys then keys else keys + [a.value]
  {
    TakeTwice(rows, i);
    if rows[i].area.Some? {
      InitSnoc(AreaNames(rows[..i]), rows[i].area.value);
    }
  }

  lemma AreaSnoc(rows: seq<Row>, i: nat, a: string)
    requires i < |rows|
    ensures HasArea(rows[..i + 1], a) <==> HasArea(rows[..i], a) || rows[i].area == Some(a)
    ensures AreaPasses(rows[..i + 1], a) <==> AreaPasses(rows[..i], a) && (rows[i].area == Some(a) ==> rows[i].status.Pass?)
  {
    var front, all := rows[..i], rows[..i + 1];
    assert all == front + [rows[i]];
    if HasArea(front, a) {
      var k :| 0 <= k < |front| && front[k].area == Some(a);
      assert all[k].area == Some(a);
    }
    if rows[i].area == Some(a) {
      assert all[i].area == Some(a);
    }
  }

  // ---- First verdict ---------------------------------------------------------------------

  const MVP_AREAS: seq<string> :=
    ["Security", "Connectors", "Evidence", "Evolution", "Temporal", "Recovery", "Docker", "E2E"]

  /** Ids that map to these areas; the first does by its gate, G3. */
  const MVP_IDS: seq<string> :=
    ["MVP-SEC", "MVP-CON", "MVP-EXT", "MVP-EVO", "MVP-TEMP", "MVP-REC", "MVP-DEP", "MVP-E2E"]

  /** The release decision of `verdict`. */
  ghost predicate MvpGo(rows: seq<Row>, benchOk: bool, sev: Severity) {
    && 200 * Failures(WithPriority(rows, "P0")) <= |WithPriority(rows, "P0")|
    && 40 * Failures(WithPriority(rows, "P1")) <= |WithPriority(rows, "P1")|
    && (forall i :: 0 <= i < |MVP_AREAS| ==> HasArea(rows, MVP_AREAS[i]) && AreaPasses(rows, MVP_AREAS[i]))
    && sev.sev1 == 0 && sev.sev2 == 0 && benchOk
  }

  /** An entry of the blocking list. */
  datatype Blocker =
    | RowFails(id: string, status: Status)
    | PriorityLow(priority: string, percent: nat, passing: nat, total: nat)
    | AreaFails(area: string)
    | SeverityOpen(level: nat, count: nat)
    | BenchMissing
    | GateFails(gate: string)

  /** One entry for every row that does not pass, in registry order. */
  function RowBlockers(rows: seq<Row>): seq<Blocker> {
    if rows == [] then []
    else
      var front, r := RowBlockers(rows[..|rows| - 1]), rows[|rows| - 1];
      if r.status.Pass? then front else front + [RowFails(r.id, r.status)]
  }

  function PriorityBlocker(rows: seq<Row>, p: string, least: nat): seq<Blocker> {
    var rs := WithPriority(rows, p);
    if Percent(rs) >= least then [] else [PriorityLow(p, Percent(rs), Passing(rs), |rs|)]
  }

  function AreaBlockers(rows: seq<Row>, keys: seq<string>): seq<Blocker> {
    if keys == [] then []
    else
      var front, a := AreaBlockers(rows, keys[..|keys| - 1]), keys[|keys| - 1];
      if AreaPasses(rows, a) then front else front + [AreaFails(a)]
  }

  function SeverityBlockers(sev: Severity): seq<Blocker> {
    (if sev.sev1 > 0 then [SeverityOpen(1, sev.sev1)] else [])
    + (if sev.sev2 > 0 then [SeverityOpen(2, sev.sev2)] else [])
  }

  function BenchBlocker(benchOk: bool): seq<Blocker> {
    if benchOk then [] else [BenchMissing]
  }

  /** Everything `verdict` lists as blocking, in its order. */
  function MvpBlockers(rows: seq<Row>, benchOk: bool, sev: Severity): seq<Blocker> {
    RowBlockers(rows) + PriorityBlocker(rows, "P0", 100) + PriorityBlocker(rows, "P1", 98)
    + AreaBlockers(rows, AreaKeys(rows)) + SeverityBlockers(sev) + BenchBlocker(benchOk)
  }

  method FailingRows(rows: seq<Row>) returns (blocking: seq<Blocker>)
    ensures blocking == RowBlockers(rows)
  {
    blocking := [];
    for i := 0 to |rows|
      invariant blocking == RowBlockers(rows[..i])
    {
      TakeTwice(rows, i);
      if !rows[i].status.Pass? {
        blocking := blocking + [RowFails(rows[i].id, rows[i].status)];
      }
    }
    TakeAll(rows);
  }

  method FailingAreas(areas: map<string, bool>, keys: seq<string>, ghost rows: seq<Row>) returns (blocking: seq<Blocker>)
    requires forall a :: a in keys ==> a in areas && (areas[a] <==> AreaPasses(rows, a))
    ensures blocking == AreaBlockers(rows, keys)
  {
    blocking := [];
    for i := 0 to |keys|
      invariant blocking == AreaBlockers(rows, keys[..i])
    {
      TakeTwice(keys, i);
      if !areas[keys[i]] {
        blocking := blocking + [AreaFails(keys[i])];
      }
    }
    TakeAll(keys);
  }

  /** All eight area lines read PASS. */
  method AreaLines(areas: map<string, bool>, ghost rows: seq<Row>) returns (ok: bool)
    requires forall a :: a in areas <==> HasArea(rows, a)
    requires forall a :: a in areas ==> (areas[a] <==> AreaPasses(rows, a))
    ensures ok <==> forall k :: 0 <= k < |MVP_AREAS| ==> HasArea(rows, MVP_AREAS[k]) && AreaPasses(rows, MVP_AREAS[k])
  {
    ok := true;
    for i := 0 to |MVP_AREAS|
      invariant ok <==> forall k :: 0 <= k < i ==> HasArea(rows, MVP_AREAS[k]) && AreaPasses(rows, MVP_AREAS[k])
    {
      var a := MVP_AREAS[i];
      ok := ok && a in areas && areas[a];
    }
  }

  /** `verdict`. */
  method Verdict(rows: seq<Row>, benchOk: bool, sev: Severity) returns (go: bool, blocking: seq<Blocker>)
    ensures go <==> MvpGo(rows, benchOk, sev)
    ensures blocking == MvpBlockers(rows, benchOk, sev)
  {
    var p0, p1 := WithPriority(rows, "P0"), WithPriority(rows, "P1");
    var areas, keys := SeenAreas(rows);
    var rowsFailing := FailingRows(rows);
    var areasFailing := FailingAreas(areas, keys, rows);
    blocking := rowsFailing + PriorityBlocker(rows, "P0", 100) + PriorityBlocker(rows, "P1", 98)
      + areasFailing + SeverityBlockers(sev) + BenchBlocker(benchOk);
    var areasOk := AreaLines(areas, rows);
    GatesExactly(p0);
    GatesExactly(p1);
    go := Percent(p0) == 100 && Percent(p1) >= 98 && areasOk && sev.sev1 == 0 && sev.sev2 == 0 && benchOk;
  }

  lemma {:induction false} NoRowBlocker(rows: seq<Row>)
    ensures RowBlockers(rows) == [] <==> AllPass(rows)
  {
    if rows != [] {
      NoRowBlocker(rows[..|rows| - 1]);
      SnocInit(rows);
    }
  }

  lemma {:induction false} NoAreaBlocker(rows: seq<Row>, keys: seq<string>)
    requires AllPass(rows)
    ensures AreaBlockers(rows, keys) == []
  {
    if keys != [] {
      NoAreaBlocker(rows, keys[..|keys| - 1]);
    }
  }

  /** Nothing is listed exactly when every row passes and neither severity nor
      benchmark blocks: the gates and areas add no blocker of their own. */
  lemma NoBlockerExactly(rows: seq<Row>, benchOk: bool, sev: Severity)
    ensures MvpBlockers(rows, benchOk, sev) == [] <==> AllPass(rows) && sev.sev1 == 0 && sev.sev2 == 0 && benchOk
  {
    NoRowBlocker(rows);
    if AllPass(rows) {
      PriorityPasses(rows, "P0");
      PriorityPasses(rows, "P1");
      GatesExactly(WithPriority(rows, "P0"));
      GatesExactly(WithPriority(rows, "P1"));
      NoAreaBlocker(rows, AreaKeys(rows));
    }
  }

  /** A NO-GO without a blocker happens exactly when everything passes but one
      of the eight areas has no row. */
  lemma SilentNoGoExactly(rows: seq<Row>, benchOk: bool, sev: Severity)
    ensures !MvpGo(rows, benchOk, sev) && MvpBlockers(rows, benchOk, sev) == [] <==>
      && AllPass(rows) && sev.sev1 == 0 && sev.sev2 == 0 && benchOk
      && exists i :: 0 <= i < |MVP_AREAS| && !HasArea(rows, MVP_AREAS[i])
  {
    NoBlockerExactly(rows, benchOk, sev);
    if AllPass(rows) {
      PriorityPasses(rows, "P0");
      PriorityPasses(rows, "P1");
    }
  }

  /** Ten passing rows of one area. */
  lemma SilentNoGo() returns (rows: seq<Row>)
    ensures |rows| == 10 && !MvpGo(rows, true, Severity(0, 0)) && MvpBlockers(rows, true, Severity(0, 0)) == []
  {
    rows := seq(10, _ => Row("MVP-CON-001", {"P0"}, {}, Some("Connectors"), Pass));
    assert MVP_AREAS[0] == "Security" && !HasArea(rows, MVP_AREAS[0]);
    SilentNoGoExactly(rows, true, Severity(0, 0));
  }

  /** A release with a failing top-priority row: 200 such rows, all areas
      covered, one failure outside them. */
  lemma GoWithFailure() returns (rows: seq<Row>)
    ensures |rows| == 200 && MvpGo(rows, true, Severity(0, 0))
    ensures "P0" in rows[0].priorities && !rows[0].status.Pass? && Percent(WithPriority(rows, "P0")) == 100
  {
    rows := seq(200, i requires 0 <= i < 200 =>
      if i == 0 then Row("MVP-KO-003", {"P0"}, {}, None, Open)
      else Row(MVP_IDS[i % 8], {"P0"}, if i % 8 == 0 then {"G3"} else {}, Some(MVP_AREAS[i % 8]), Pass));
    OnePriority(rows, "P0", "P1");
    OneFailure(rows);
    GatesExactly(rows);
    forall k | 0 <= k < |MVP_AREAS| ensures HasArea(rows, MVP_AREAS[k]) {
      assert rows[k + 8].area == Some(MVP_AREAS[(k + 8) % 8]) && (k + 8) % 8 == k;
    }
  }

  lemma {:induction false} OnePriority(rows: seq<Row>, p: string, q: string)
    requires p != q && forall i :: 0 <= i < |rows| ==> rows[i].priorities == {p}
    ensures WithPriority(rows, p) == rows && WithPriority(rows, q) == []
  {
    if rows != [] {
      OnePriority(rows[..|rows| - 1], p, q);
      SnocInit(rows);
    }
  }

  lemma {:induction false} OneFailure(rows: seq<Row>)
    requires rows != [] && !rows[0].status.Pass? && forall i :: 1 <= i < |rows| ==> rows[i].status.Pass?
    ensures Failures(rows) == 1
  {
    if |rows| > 1 {
      OneFailure(rows[..|rows| - 1]);
    }
  }

  lemma {:induction false} PriorityPasses(rows: seq<Row>, p: string)
    requires AllPass(rows)
    ensures Failures(WithPriority(rows, p)) == 0
  {
    if rows != [] {
      var front, r := rows[..|rows| - 1], rows[|rows| - 1];
      PriorityPasses(front, p);
      var ws := WithPriority(front, p);
      InitSnoc(ws, r);
    }
  }

  // ---- Turning a row to pass --------------------------------------------------------------

  /** The registry with one row turned to pass. */
  function Fixed(rows: seq<Row>, i: nat): (r: seq<Row>)
    requires i < |rows|
    ensures |r| == |rows|
  {
    rows[i := rows[i].(status := Pass)]
  }

  lemma {:induction false} FixedPriority(rows: seq<Row>, i: nat, p: string)
    requires i < |rows|
    ensures |WithPriority(Fixed(rows, i), p)| == |WithPriority(rows, p)|
    ensures Passing(WithPriority(Fixed(rows, i), p)) >= Passing(WithPriority(rows, p))
  {
    var n := |rows| - 1;
    var a, b := rows[..n], Fixed(rows, i)[..n];
    FixedInit(rows, i);
    PassingSnoc(WithPriority(a, p), rows[n]);
    PassingSnoc(WithPriority(b, p), Fixed(rows, i)[n]);
    if i < n {
      FixedPriority(a, i, p);
    }
  }

  lemma FixedInit(rows: seq<Row>, i: nat)
    requires i < |rows|
    ensures var n := |rows| - 1; Fixed(rows, i)[..n] == if i < n then Fixed(rows[..n], i) else rows[..n]
    ensures var n := |rows| - 1; Fixed(rows, i)[n] == if i < n then rows[n] else rows[n].(status := Pass)
  {
  }

  lemma PassingSnoc(rows: seq<Row>, r: Row)
    ensures Passing(rows + [r]) == Passing(rows) + (if r.status.Pass? then 1 else 0)
  {
    InitSnoc(rows, r);
  }

  lemma FixedAreas(rows: seq<Row>, i: nat, a: string)
    requires i < |rows|
    ensures HasArea(Fixed(rows, i), a) <==> HasArea(rows, a)
    ensures AreaPasses(rows, a) ==> AreaPasses(Fixed(rows, i), a)
  {
    var fixed := Fixed(rows, i);
    assert forall k :: 0 <= k < |rows| ==> fixed[k].area == rows[k].area;
    if HasArea(rows, a) {
      var k :| 0 <= k < |rows| && rows[k].area == Some(a);
      assert fixed[k].area == Some(a);
    }
  }

  /** Turning a row to pass never turns GO into NO-GO. */
  lemma MvpMonotone(rows: seq<Row>, i: nat, benchOk: bool, sev: Severity)
    requires i < |rows| && MvpGo(rows, benchOk, sev)
    ensures MvpGo(Fixed(rows, i), benchOk, sev)
  {
    FixedPriority(rows, i, "P0");
    FixedPriority(rows, i, "P1");
    forall k | 0 <= k < |MVP_AREAS|
      ensures HasArea(Fixed(rows, i), MVP_AREAS[k]) && AreaPasses(Fixed(rows, i), MVP_AREAS[k])
    {
      FixedAreas(rows, i, MVP_AREAS[k]);
    }
  }

  // ---- Second wave -----------------------------------------------------------------------------

  const W2_AREAS: set<string> := {
    "Concurrency", "Knowledge consistency", "Derived-state consistency", "Fault injection", "Schema evolution",
    "Retrieval", "Security", "Property tests", "Knowledge continuity", "Performance"}

  /** Areas behind gates W2-05 to W2-11. */
  const W2_GATES: seq<seq<string>> := [
    ["Knowledge consistency"], ["Security"], ["Retrieval"],
    ["Fault injection", "Derived-state consistency", "Knowledge continuity"],
    ["Concurrency"], ["Schema evolution"], ["Property tests"]]

  const W2_GATE_NAMES: seq<string> := ["W2-05", "W2-06", "W2-07", "W2-08", "W2-09", "W2-10", "W2-11"]

  predicate KnownAreas(rows: seq<Row>) {
    forall i :: 0 <= i < |rows| ==> rows[i].area.Some? && rows[i].area.value in W2_AREAS
  }

  predicate W2GatePasses(rows: seq<Row>, gate: seq<string>) {
    forall k :: 0 <= k < |gate| ==> AreaPasses(rows, gate[k])
  }

  ghost predicate W2Gates(rows: seq<Row>, sev: Severity) {
    && 200 * Failures(WithPriority(rows, "P0")) <= |WithPriority(rows, "P0")|
    && 40 * Failures(WithPriority(rows, "P1")) <= |WithPriority(rows, "P1")|
    && sev.sev1 == 0 && sev.sev2 == 0
    && forall g :: 0 <= g < |W2_GATES| ==> W2GatePasses(rows, W2_GATES[g])
  }

  datatype Outcome = UnknownArea | Outcome(go: bool, blocking: seq<Blocker>)

  /** Names and results of the gates, in order. */
  type Results = seq<(string, bool)>

  function W2Results(rows: seq<Row>, sev: Severity): Results {
    [("W2-01", Percent(WithPriority(rows, "P0")) == 100), ("W2-02", Percent(WithPriority(rows, "P1")) >= 98),
     ("W2-03", sev.sev1 == 0), ("W2-04", sev.sev2 == 0)] + W2AreaResults(rows, |W2_GATES|)
  }

  function W2AreaResults(rows: seq<Row>, n: nat): Results
    requires n <= |W2_GATES|
  {
    if n == 0 then []
    else W2AreaResults(rows, n - 1) + [(W2_GATE_NAMES[n - 1], W2GatePasses(rows, W2_GATES[n - 1]))]
  }

  predicate AllMet(results: Results) {
    forall i :: 0 <= i < |results| ==> results[i].1
  }

  /** The failing gates, in order. */
  function Unmet(results: Results): seq<Blocker> {
    if results == [] then []
    else
      var front, g := Unmet(results[..|results| - 1]), results[|results| - 1];
      if g.1 then front else front + [GateFails(g.0)]
  }

  method FailingGates(results: Results) returns (go: bool, blocking: seq<Blocker>)
    ensures go <==> AllMet(results)
    ensures blocking == Unmet(results)
  {
    go, blocking := true, [];
    for i := 0 to |results|
      invariant go <==> forall k :: 0 <= k < i ==> results[k].1
      invariant blocking == Unmet(results[..i])
    {
      TakeTwice(results, i);
      if !results[i].1 {
        go, blocking := false, blocking + [GateFails(results[i].0)];
      }
    }
    TakeAll(results);
  }

  lemma {:induction false} NoneUnmet(results: Results)
    ensures Unmet(results) == [] <==> AllMet(results)
  {
    if results != [] {
      NoneUnmet(results[..|results| - 1]);
      SnocInit(results);
    }
  }

  lemma {:induction false} AreaGatesMet(rows: seq<Row>, n: nat)
    requires n <= |W2_GATES|
    ensures AllMet(W2AreaResults(rows, n)) <==> forall g :: 0 <= g < n ==> W2GatePasses(rows, W2_GATES[g])
  {
    if n > 0 {
      AreaGatesMet(rows, n - 1);
      MetSnoc(W2AreaResults(rows, n - 1), (W2_GATE_NAMES[n - 1], W2GatePasses(rows, W2_GATES[n - 1])));
    }
  }

  lemma MetSnoc(results: Results, g: (string, bool))
    ensures AllMet(results + [g]) <==> AllMet(results) && g.1
  {
    var all := results + [g];
    if AllMet(all) {
      assert forall i :: 0 <= i < |results| ==> results[i] == all[i];
      assert all[|results|] == g;
    }
  }

  lemma MetConcat(a: Results, b: Results)
    ensures AllMet(a + b) <==> AllMet(a) && AllMet(b)
  {
    var all := a + b;
    if AllMet(all) {
      assert forall i :: 0 <= i < |a| ==> a[i] == all[i];
      assert forall i :: 0 <= i < |b| ==> b[i] == all[|a| + i];
    }
  }

  /** The results are the gates in exact terms. */
  lemma W2GatesExactly(rows: seq<Row>, sev: Severity)
    ensures AllMet(W2Results(rows, sev)) <==> W2Gates(rows, sev)
  {
    var p0, p1 := WithPriority(rows, "P0"), WithPriority(rows, "P1");
    var first := [("W2-01", Percent(p0) == 100), ("W2-02", Percent(p1) >= 98), ("W2-03", sev.sev1 == 0), ("W2-04", sev.sev2 == 0)];
    GatesExactly(p0);
    GatesExactly(p1);
    AreaGatesMet(rows, |W2_GATES|);
    MetConcat(first, W2AreaResults(rows, |W2_GATES|));
    assert AllMet(first) <==> first[0].1 && first[1].1 && first[2].1 && first[3].1;
  }

  /** Everything `wave2Verdict` lists as blocking, in its order. */
  function W2Blockers(rows: seq<Row>, benchOk: bool, sev: Severity): seq<Blocker> {
    RowBlockers(rows) + Unmet(W2Results(rows, sev)) + SeverityBlockers(sev) + BenchBlocker(benchOk)
  }

  /** `wave2Verdict`: a row outside the known areas is an error; a NO-GO always
      names a blocker. */
  method Wave2Verdict(rows: seq<Row>, benchOk: bool, sev: Severity) returns (r: Outcome)
    ensures r.UnknownArea? <==> !KnownAreas(rows)
    ensures r.Outcome? ==> (r.go <==> W2Gates(rows, sev) && benchOk) && r.blocking == W2Blockers(rows, benchOk, sev)
    ensures r.Outcome? ==> (r.blocking == [] <==> AllPass(rows) && r.go)
  {
    if !KnownAreas(rows) {
      return UnknownArea;
    }
    W2GatesExactly(rows, sev);
    NoneUnmet(W2Results(rows, sev));
    NoRowBlocker(rows);
    var p0, p1 := WithPriority(rows, "P0"), WithPriority(rows, "P1");
    var gates := [("W2-01", Percent(p0) == 100), ("W2-02", Percent(p1) >= 98),
                  ("W2-03", sev.sev1 == 0), ("W2-04", sev.sev2 == 0)];
    var areaGates := AreaGates(rows);
    var failing := FailingRows(rows);
    var go, unmet := FailingGates(gates + areaGates);
    r := Outcome(go && benchOk, failing + unmet + SeverityBlockers(sev) + BenchBlocker(benchOk));
  }

  /** The loop over the gates that stand for areas. */
  method AreaGates(rows: seq<Row>) returns (results: Results)
    ensures results == W2AreaResults(rows, |W2_GATES|)
  {
    var seen, _ := SeenAreas(rows);
    results := [];
    for g := 0 to |W2_GATES|
      invariant results == W2AreaResults(rows, g)
    {
      var names := W2_GATES[g];
      var ok := forall k :: 0 <= k < |names| ==> (names[k] in seen ==> seen[names[k]]);
      assert ok <==> W2GatePasses(rows, names) by {
        forall k | 0 <= k < |names|
          ensures (names[k] in seen ==> seen[names[k]]) <==> AreaPasses(rows, names[k])
        {
          NoRowsPass(rows, names[k]);
        }
      }
      results := results + [(W2_GATE_NAMES[g], ok)];
    }
  }

  lemma NoRowsPass(rows: seq<Row>, a: string)
    ensures !HasArea(rows, a) ==> AreaPasses(rows, a)
  {
  }

  /** A second-wave GO means every row outside Performance passes. */
  lemma Wave2Covers(rows: seq<Row>, sev: Severity, i: nat)
    requires KnownAreas(rows) && W2Gates(rows, sev) && i < |rows|
    requires rows[i].area != Some("Performance")
    ensures rows[i].status.Pass?
  {
    var a := rows[i].area.value;
    assert W2GatePasses(rows, W2_GATES[0]) && W2GatePasses(rows, W2_GATES[1]) && W2GatePasses(rows, W2_GATES[2]);
    assert W2GatePasses(rows, W2_GATES[3]) && W2GatePasses(rows, W2_GATES[4]) && W2GatePasses(rows, W2_GATES[5]);
    assert W2GatePasses(rows, W2_GATES[6]);
    assert AreaPasses(rows, W2_GATES[0][0]) && AreaPasses(rows, W2_GATES[1][0]) && AreaPasses(rows, W2_GATES[2][0]);
    assert AreaPasses(rows, W2_GATES[3][0]) && AreaPasses(rows, W2_GATES[3][1]) && AreaPasses(rows, W2_GATES[3][2]);
    assert AreaPasses(rows, W2_GATES[4][0]) && AreaPasses(rows, W2_GATES[5][0]) && AreaPasses(rows, W2_GATES[6][0]);
    assert AreaPasses(rows, a);
  }

  lemma Wave2Monotone(rows: seq<Row>, i: nat, sev: Severity)
    requires i < |rows| && W2Gates(rows, sev)
    ensures W2Gates(Fixed(rows, i), sev)
  {
    FixedPriority(rows, i, "P0");
    FixedPriority(rows, i, "P1");
    forall g, k | 0 <= g < |W2_GATES| && 0 <= k < |W2_GATES[g]|
      ensures AreaPasses(Fixed(rows, i), W2_GATES[g][k])
    {
      assert W2GatePasses(rows, W2_GATES[g]);
      FixedAreas(rows, i, W2_GATES[g][k]);
    }
  }

  // ---- Third wave ------------------------------------------------------------------------------

  /** Facts about the evidence documents. */
  datatype Environment = Environment(g03: bool, g05: bool, g06: bool, g07: bool, benchOk: bool)

  predicate GatePasses(rows: seq<Row>, gate: string) {
    forall i :: 0 <= i < |rows| && gate in rows[i].gates ==> rows[i].status.Pass?
  }

  ghost predicate W3Gates(rows: seq<Row>, w2Go: bool, env: Environment) {
    && w2Go && env.g03 && env.g05 && env.g07
    && GatePasses(rows, "W3-G02")
    && GatePasses(rows, "W3-G04") && env.benchOk
    && GatePasses(rows, "W3-G06") && env.g06
  }

  function W3Results(rows: seq<Row>, w2Go: bool, env: Environment): Results {
    [("W3-G01", w2Go), ("W3-G02", GatePasses(rows, "W3-G02")), ("W3-G03", env.g03),
     ("W3-G04", GatePasses(rows, "W3-G04") && env.benchOk), ("W3-G05", env.g05),
     ("W3-G06", GatePasses(rows, "W3-G06") && env.g06), ("W3-G07", env.g07)]
  }

  /** `wave3Verdict`: the failing rows, then the failing gates; a NO-GO always
      names a blocker. */
  method Wave3Verdict(rows: seq<Row>, w2Go: bool, env: Environment) returns (go: bool, blocking: seq<Blocker>)
    ensures go <==> W3Gates(rows, w2Go, env)
    ensures blocking == RowBlockers(rows) + Unmet(W3Results(rows, w2Go, env))
    ensures blocking == [] <==> AllPass(rows) && go
  {
    var results := W3Results(rows, w2Go, env);
    NoRowBlocker(rows);
    NoneUnmet(results);
    var failing := FailingRows(rows);
    var met, unmet := FailingGates(results);
    assert met <==> results[0].1 && results[1].1 && results[2].1 && results[3].1 && results[4].1 && results[5].1 && results[6].1;
    go, blocking := met, failing + unmet;
  }

  lemma Wave3Monotone(rows: seq<Row>, i: nat, w2Go: bool, env: Environment)
    requires i < |rows| && W3Gates(rows, w2Go, env)
    ensures W3Gates(Fixed(rows, i), w2Go, env)
  {
    assert forall k :: 0 <= k < |rows| ==> Fixed(rows, i)[k].gates == rows[k].gates;
  }
}
