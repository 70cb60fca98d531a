/** Greedy contiguous grouping. One theory serves the merge loops, the ceiling
    and semantic splitters, section collection and chunk packing: each walks a
    list once and either extends the last group or opens a new one. */
module Runs {
  import opened Seqs

  function Flatten<T>(runs: seq<seq<T>>): seq<T> {
    if runs == [] then [] else Flatten(runs[..|runs| - 1]) + runs[|runs| - 1]
  }

  /** Left-to-right grouping: `ok(run, x)` decides whether `x` joins `run`. */
  function Pack<T>(xs: seq<T>, ok: (seq<T>, T) -> bool): (runs: seq<seq<T>>)
    ensures xs != [] ==> runs != []
    ensures xs == [] ==> runs == []
    ensures forall k :: 0 <= k < |runs| ==> runs[k] != []
  {
    if xs == [] then []
    else Extend(Pack(xs[..|xs| - 1], ok), xs[|xs| - 1], ok)
  }

  /** One step of the walk. */
  function Extend<T>(runs: seq<seq<T>>, x: T, ok: (seq<T>, T) -> bool): (r: seq<seq<T>>)
    ensures r != []
  {
    if runs != [] && ok(runs[|runs| - 1], x)
    then runs[..|runs| - 1] + [runs[|runs| - 1] + [x]]
    else runs + [[x]]
  }

  /** The policy accepted every element after the first one of the run. */
  ghost predicate Grown<T>(run: seq<T>, ok: (seq<T>, T) -> bool) {
    run != [] && forall j :: 1 <= j < |run| ==> ok(run[..j], run[j])
  }

  /** A split of `xs` into contiguous runs where the policy accepted every
      inner step and rejected every kept boundary. */
  ghost predicate IsRunPartition<T>(runs: seq<seq<T>>, xs: seq<T>, ok: (seq<T>, T) -> bool) {
    && Flatten(runs) == xs
    && (forall k :: 0 <= k < |runs| ==> Grown(runs[k], ok))
    && (forall k :: 1 <= k < |runs| ==> runs[k] != [] && !ok(runs[k - 1], runs[k][0]))
  }

  lemma FlattenSnoc<T>(runs: seq<seq<T>>, run: seq<T>)
    ensures Flatten(runs + [run]) == Flatten(runs) + run
  {
    InitSnoc(runs, run);
  }

  lemma {:induction false} FlattenConcat<T>(a: seq<seq<T>>, b: seq<seq<T>>)
    ensures Flatten(a + b) == Flatten(a) + Flatten(b)
  {
    if b == [] {
      assert a + b == a;
    } else {
      var c := b[..|b| - 1];
      FlattenConcat(a, c);
      InitConcat(a, b);
      Assoc(Flatten(a), Flatten(c), b[|b| - 1]);
    }
  }

  /** Each run is a contiguous slice of the list. */
  lemma FlattenAround<T>(runs: seq<seq<T>>, k: nat)
    requires k < |runs|
    ensures Flatten(runs) == Flatten(runs[..k]) + runs[k] + Flatten(runs[k + 1..])
  {
    SplitAround(runs, k);
    FlattenConcat(runs[..k] + [runs[k]], runs[k + 1..]);
    FlattenSnoc(runs[..k], runs[k]);
  }

  lemma SplitAround<T>(s: seq<T>, k: nat)
    requires k < |s|
    ensures s == s[..k] + [s[k]] + s[k + 1..]
  {
  }

  lemma RunElement<T>(runs: seq<seq<T>>, k: nat, i: nat)
    requires k < |runs| && i < |runs[k]|
    ensures runs[k][i] in Flatten(runs)
  {
    FlattenAround(runs, k);
    assert runs[k][i] == (Flatten(runs[..k]) + runs[k] + Flatten(runs[k + 1..]))[|Flatten(runs[..k])| + i];
  }

  /** Greedy grouping yields such a partition. */
  lemma {:induction false} PackIsPartition<T>(xs: seq<T>, ok: (seq<T>, T) -> bool)
    ensures IsRunPartition(Pack(xs, ok), xs, ok)
  {
    if xs != [] {
      var ys, x := xs[..|xs| - 1], xs[|xs| - 1];
      PackIsPartition(ys, ok);
      ExtendPartition(Pack(ys, ok), ys, x, ok);
      assert ys + [x] == xs;
    }
  }

  lemma GrownSnoc<T>(run: seq<T>, x: T, ok: (seq<T>, T) -> bool)
    requires Grown(run, ok) && ok(run, x)
    ensures Grown(run + [x], ok)
  {
    forall j | 1 <= j < |run| + 1 ensures ok((run + [x])[..j], (run + [x])[j]) {
      assert (run + [x])[..j] == run[..j];
      TakeAll(run);
    }
  }

  lemma ExtendPartition<T>(runs: seq<seq<T>>, xs: seq<T>, x: T, ok: (seq<T>, T) -> bool)
    requires IsRunPartition(runs, xs, ok)
    ensures IsRunPartition(Extend(runs, x, ok), xs + [x], ok)
  {
    if runs != [] && ok(runs[|runs| - 1], x) {
      ExtendLastRun(runs, xs, x, ok);
    } else {
      FlattenSnoc(runs, [x]);
    }
  }

  lemma ExtendLastRun<T>(runs: seq<seq<T>>, xs: seq<T>, x: T, ok: (seq<T>, T) -> bool)
    requires IsRunPartition(runs, xs, ok) && runs != [] && ok(runs[|runs| - 1], x)
    ensures IsRunPartition(runs[..|runs| - 1] + [runs[|runs| - 1] + [x]], xs + [x], ok)
  {
    var front, last := runs[..|runs| - 1], runs[|runs| - 1];
    GrownSnoc(last, x, ok);
    FlattenSnoc(front, last + [x]);
    assert Flatten(front) + (last + [x]) == xs + [x];
  }

  /** The partition without its last element. */
  ghost function DropLast<T>(runs: seq<seq<T>>): seq<seq<T>>
    requires runs != [] && runs[|runs| - 1] != []
  {
    var front, last := runs[..|runs| - 1], runs[|runs| - 1];
    if |last| == 1 then front else front + [last[..|last| - 1]]
  }

  lemma FlattenDropLast<T>(runs: seq<seq<T>>)
    requires runs != [] && runs[|runs| - 1] != []
    ensures Flatten(runs) != []
    ensures Flatten(DropLast(runs)) == Flatten(runs)[..|Flatten(runs)| - 1]
    ensures var last := runs[|runs| - 1]; Flatten(runs)[|Flatten(runs)| - 1] == last[|last| - 1]
  {
    var front, last := runs[..|runs| - 1], runs[|runs| - 1];
    if |last| > 1 {
      FlattenSnoc(front, last[..|last| - 1]);
    }
  }

  lemma DropLastPartition<T>(runs: seq<seq<T>>, xs: seq<T>, ok: (seq<T>, T) -> bool)
    requires IsRunPartition(runs, xs, ok) && runs != []
    ensures xs != [] && IsRunPartition(DropLast(runs), xs[..|xs| - 1], ok)
  {
    var front, last := runs[..|runs| - 1], runs[|runs| - 1];
    assert Grown(last, ok);
    FlattenDropLast(runs);
    if |last| > 1 {
      var cut := last[..|last| - 1];
      assert forall j :: 1 <= j < |cut| ==> cut[..j] == last[..j] && cut[j] == last[j];
    }
  }

  /** And it is the only one. */
  lemma {:induction false} PartitionUnique<T>(runs: seq<seq<T>>, xs: seq<T>, ok: (seq<T>, T) -> bool)
    requires IsRunPartition(runs, xs, ok)
    ensures runs == Pack(xs, ok)
    decreases |xs|
  {
    if runs != [] {
      DropLastPartition(runs, xs, ok);
      PartitionUnique(DropLast(runs), xs[..|xs| - 1], ok);
      FlattenDropLast(runs);
      LastStep(runs, ok);
    }
  }

  /** The policy rebuilds the last step of a partition it produced. */
  lemma LastStep<T>(runs: seq<seq<T>>, ok: (seq<T>, T) -> bool)
    requires runs != [] && Grown(runs[|runs| - 1], ok)
    requires |runs| > 1 ==> !ok(runs[|runs| - 2], runs[|runs| - 1][0])
    ensures var last := runs[|runs| - 1]; runs == Extend(DropLast(runs), last[|last| - 1], ok)
  {
    var front, last := runs[..|runs| - 1], runs[|runs| - 1];
    SnocInit(runs);
    if |last| > 1 {
      var cut := last[..|last| - 1];
      assert last == cut + [last[|last| - 1]];
      assert ok(cut, last[|last| - 1]);
      assert DropLast(runs) == front + [cut];
    } else {
      assert last == [last[0]];
    }
  }

  // ---- Fewest groups under a weight limit -------------------------------

  function Load<T>(run: seq<T>, weight: T -> nat): nat {
    if run == [] then 0 else Load(run[..|run| - 1], weight) + weight(run[|run| - 1])
  }

  /** A group is allowed when it is one unit or within the limit. */
  ghost predicate Feasible<T>(run: seq<T>, weight: T -> nat, limit: int) {
    |run| == 1 || (run != [] && Load(run, weight) <= limit)
  }

  /** The policy adds a unit exactly while the limit holds. */
  ghost predicate PacksByLoad<T(!new)>(ok: (seq<T>, T) -> bool, weight: T -> nat, limit: int) {
    forall run: seq<T>, x: T :: run != [] ==> (ok(run, x) <==> Load(run + [x], weight) <= limit)
  }

  lemma {:induction false} LoadConcat<T>(a: seq<T>, b: seq<T>, weight: T -> nat)
    ensures Load(a + b, weight) == Load(a, weight) + Load(b, weight)
  {
    if b == [] {
      assert a + b == a;
    } else {
      LoadConcat(a, b[..|b| - 1], weight);
      InitConcat(a, b);
    }
  }

  /** Greedy groups are themselves allowed. */
  lemma {:induction false} PackFeasible<T(!new)>(xs: seq<T>, ok: (seq<T>, T) -> bool, weight: T -> nat, limit: int)
    requires PacksByLoad(ok, weight, limit)
    ensures forall k :: 0 <= k < |Pack(xs, ok)| ==> Feasible(Pack(xs, ok)[k], weight, limit)
  {
    if xs != [] {
      PackFeasible(xs[..|xs| - 1], ok, weight, limit);
    }
  }

  /** Greedy is never behind: no allowed contiguous split of the same list has
      fewer groups, and on a tie greedy's last group is the shorter one. */
  lemma {:induction false} GreedyStaysAhead<T(!new)>(other: seq<seq<T>>, ok: (seq<T>, T) -> bool, weight: T -> nat, limit: int)
    requires PacksByLoad(ok, weight, limit)
    requires forall k :: 0 <= k < |other| ==> Feasible(other[k], weight, limit)
    ensures |Pack(Flatten(other), ok)| <= |other|
    ensures NotBehind(Pack(Flatten(other), ok), other)
    decreases |Flatten(other)|
  {
    if other != [] {
      DropLastFeasible(other, weight, limit);
      FlattenDropLast(other);
      GreedyStaysAhead(DropLast(other), ok, weight, limit);
      AheadStep(other, ok, weight, limit);
    }
  }

  /** Fewer groups, or as many with a last group no longer than the rival's. */
  ghost predicate NotBehind<T>(greedy: seq<seq<T>>, other: seq<seq<T>>) {
    |greedy| < |other| ||
    (|greedy| == |other| && (other != [] ==> |greedy[|greedy| - 1]| <= |other[|other| - 1]|))
  }

  lemma DropLastFeasible<T>(other: seq<seq<T>>, weight: T -> nat, limit: int)
    requires other != [] && forall k :: 0 <= k < |other| ==> Feasible(other[k], weight, limit)
    ensures other[|other| - 1] != []
    ensures forall k :: 0 <= k < |DropLast(other)| ==> Feasible(DropLast(other)[k], weight, limit)
  {
    assert Feasible(other[|other| - 1], weight, limit);
  }

  lemma AheadStep<T(!new)>(other: seq<seq<T>>, ok: (seq<T>, T) -> bool, weight: T -> nat, limit: int)
    requires PacksByLoad(ok, weight, limit)
    requires other != [] && Feasible(other[|other| - 1], weight, limit)
    requires NotBehind(Pack(Flatten(DropLast(other)), ok), DropLast(other))
    ensures NotBehind(Pack(Flatten(other), ok), other)
  {
    var last, before := other[|other| - 1], Pack(Flatten(DropLast(other)), ok);
    DropLastCounts(other);
    if |last| > 1 && |before| == |other| {
      TieAccepts(other, before[|before| - 1], ok, weight, limit);
    }
    PackDropLast(other, ok);
    ExtendCounts(before, last[|last| - 1], ok);
    Ahead(before, Extend(before, last[|last| - 1], ok), DropLast(other), other,
          before != [] && ok(before[|before| - 1], last[|last| - 1]));
  }

  /** The counting behind one step. */
  lemma Ahead<T>(before: seq<seq<T>>, after: seq<seq<T>>, dropped: seq<seq<T>>, other: seq<seq<T>>, grew: bool)
    requires NotBehind(before, dropped) && other != [] && after != []
    requires if grew then before != [] && |after| == |before| && |after[|after| - 1]| == |before[|before| - 1]| + 1
             else |after| == |before| + 1 && |after[|after| - 1]| == 1
    requires var n := |other[|other| - 1]|;
      if n == 1 then |dropped| == |other| - 1
      else n > 1 && |dropped| == |other| && |dropped[|dropped| - 1]| == n - 1 && (|before| == |other| ==> grew)
    ensures NotBehind(after, other)
  {
  }

  lemma DropLastCounts<T>(runs: seq<seq<T>>)
    requires runs != [] && runs[|runs| - 1] != []
    ensures var last, d := runs[|runs| - 1], DropLast(runs);
      if |last| == 1 then |d| == |runs| - 1 else |d| == |runs| && |d[|d| - 1]| == |last| - 1
  {
  }

  lemma PackDropLast<T>(other: seq<seq<T>>, ok: (seq<T>, T) -> bool)
    requires other != [] && other[|other| - 1] != []
    ensures var last := other[|other| - 1];
      Pack(Flatten(other), ok) == Extend(Pack(Flatten(DropLast(other)), ok), last[|last| - 1], ok)
  {
    FlattenDropLast(other);
  }

  lemma TieAccepts<T(!new)>(other: seq<seq<T>>, g: seq<T>, ok: (seq<T>, T) -> bool, weight: T -> nat, limit: int)
    requires PacksByLoad(ok, weight, limit)
    requires other != [] && |other[|other| - 1]| > 1 && Feasible(other[|other| - 1], weight, limit)
    requires var before := Pack(Flatten(DropLast(other)), ok); before != [] && g == before[|before| - 1]
    requires |g| < |other[|other| - 1]|
    ensures var last := other[|other| - 1]; ok(g, last[|last| - 1])
  {
    var front, last := other[..|other| - 1], other[|other| - 1];
    var cut := last[..|last| - 1];
    FlattenSnoc(front, cut);
    assert last == cut + [last[|last| - 1]];
    TieExtends(Flatten(front), cut, last[|last| - 1], g, ok, weight, limit);
  }

  lemma ExtendCounts<T>(runs: seq<seq<T>>, x: T, ok: (seq<T>, T) -> bool)
    ensures var r := Extend(runs, x, ok);
      if runs != [] && ok(runs[|runs| - 1], x)
      then |r| == |runs| && |r[|r| - 1]| == |runs[|runs| - 1]| + 1
      else |r| == |runs| + 1 && |r[|r| - 1]| == 1
  {
  }

  /** On a tie greedy's last group is a suffix of the rival's, so it accepts
      whatever the rival's group still holds. */
  lemma TieExtends<T(!new)>(q: seq<T>, cut: seq<T>, x: T, g: seq<T>, ok: (seq<T>, T) -> bool, weight: T -> nat, limit: int)
    requires PacksByLoad(ok, weight, limit)
    requires Feasible(cut + [x], weight, limit)
    requires var before := Pack(q + cut, ok); before != [] && g == before[|before| - 1]
    requires |g| <= |cut|
    ensures ok(g, x)
  {
    var extra := TieSuffix(q, cut, g, ok);
    AcceptsSuffix(extra, g, x, ok, weight, limit);
  }

  lemma TieSuffix<T>(q: seq<T>, cut: seq<T>, g: seq<T>, ok: (seq<T>, T) -> bool) returns (extra: seq<T>)
    requires var before := Pack(q + cut, ok); before != [] && g == before[|before| - 1]
    requires |g| <= |cut|
    ensures g != [] && cut == extra + g
  {
    var before := Pack(q + cut, ok);
    PackIsPartition(q + cut, ok);
    assert Grown(g, ok);
    extra := CommonSuffix(Flatten(before[..|before| - 1]), g, q, cut);
  }

  lemma AcceptsSuffix<T(!new)>(extra: seq<T>, g: seq<T>, x: T, ok: (seq<T>, T) -> bool, weight: T -> nat, limit: int)
    requires PacksByLoad(ok, weight, limit)
    requires g != [] && Feasible(extra + g + [x], weight, limit)
    ensures ok(g, x)
  {
    assert extra + g + [x] == extra + (g + [x]);
    LoadConcat(extra, g + [x], weight);
  }

  lemma CommonSuffix<T>(p: seq<T>, g: seq<T>, q: seq<T>, c: seq<T>) returns (extra: seq<T>)
    requires p + g == q + c && |g| <= |c|
    ensures c == extra + g
  {
    extra := c[..|c| - |g|];
    assert g == (q + c)[|p|..];
  }
}
