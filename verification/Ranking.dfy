/** Session-level retrieval scoring: collapsing turns to sessions, NDCG, and
    pooling round-robin shards. */
module Ranking {
  import opened Seqs

  // ---- Collapse -----------------------------------------------------------------

  /** The loop that turns ranked turns into ranked sessions. */
  method Collapse<T(==)>(hits: seq<T>) returns (ranked: seq<T>)
    ensures ranked == FirstOccurrences(hits)
  {
    ranked := [];
    for i := 0 to |hits|
      invariant ranked == FirstOccurrences(hits[..i])
    {
      TakeTwice(hits, i);
      if hits[i] !in ranked {
        ranked := ranked + [hits[i]];
      }
    }
    TakeAll(hits);
  }

  /** Every session once, ranked by its best turn. */
  lemma {:induction false} CollapseIsDistinct<T>(s: seq<T>)
    ensures Distinct(FirstOccurrences(s))
    ensures forall x :: x in s <==> x in FirstOccurrences(s)
  {
    if s != [] {
      CollapseIsDistinct(s[..|s| - 1]);
      SnocInit(s);
    }
  }

  lemma {:induction false} CollapsePrefix<T>(s: seq<T>, k: nat)
    requires k <= |s|
    ensures FirstOccurrences(s[..k]) <= FirstOccurrences(s)
  {
    if k == |s| {
      assert s[..k] == s;
    } else {
      CollapsePrefix(s[..|s| - 1], k);
      assert s[..|s| - 1][..k] == s[..k];
    }
  }

  // ---- NDCG -----------------------------------------------------------------------

  /** Positive weights that get strictly smaller down the ranking. */
  ghost predicate Discounts(w: nat -> real) {
    (forall i: nat :: w(i) > 0.0) && (forall i: nat, j: nat :: i < j ==> w(i) > w(j))
  }

  /** Gain of the first `n` ranked results. */
  function Gain<T>(ranked: seq<T>, gold: set<T>, n: nat, w: nat -> real): real
    requires n <= |ranked|
  {
    if n == 0 then 0.0 else Gain(ranked, gold, n - 1, w) + (if ranked[n - 1] in gold then w(n - 1) else 0.0)
  }

  /** Gain of `m` hits in the first `m` places. */
  function Ideal(m: nat, w: nat -> real): real {
    if m == 0 then 0.0 else Ideal(m - 1, w) + w(m - 1)
  }

  function Hits<T>(ranked: seq<T>, gold: set<T>, n: nat): (h: nat)
    requires n <= |ranked|
    ensures h <= n
  {
    if n == 0 then 0 else Hits(ranked, gold, n - 1) + (if ranked[n - 1] in gold then 1 else 0)
  }

  function Min(a: nat, b: nat): nat { if a <= b then a else b }

  function Ndcg<T>(ranked: seq<T>, gold: set<T>, k: nat, w: nat -> real): real {
    var ideal := Ideal(Min(|gold|, k), w);
    if ideal == 0.0 then 0.0 else Gain(ranked, gold, Min(|ranked|, k), w) / ideal
  }

  lemma {:induction false} IdealMonotone(m: nat, n: nat, w: nat -> real)
    requires Discounts(w) && m <= n
    ensures 0.0 <= Ideal(m, w) <= Ideal(n, w)
    ensures m < n ==> Ideal(m, w) < Ideal(n, w)
    decreases n
  {
    if n > 0 {
      IdealMonotone(0, n - 1, w);
      if m < n {
        IdealMonotone(m, n - 1, w);
      }
    }
  }

  /** The hits found so far can at best sit in the first places. */
  lemma {:induction false} GainBounded<T>(ranked: seq<T>, gold: set<T>, n: nat, w: nat -> real)
    requires Discounts(w) && n <= |ranked|
    ensures 0.0 <= Gain(ranked, gold, n, w) <= Ideal(Hits(ranked, gold, n), w)
    ensures Gain(ranked, gold, n, w) == Ideal(Hits(ranked, gold, n), w) <==>
      forall i :: 0 <= i < Hits(ranked, gold, n) ==> ranked[i] in gold
  {
    if n > 0 {
      GainBounded(ranked, gold, n - 1, w);
      var h := Hits(ranked, gold, n - 1);
      if ranked[n - 1] in gold {
        if h < n - 1 {
          assert w(h) > w(n - 1);
          SomeMiss(ranked, gold, n - 1);
        }
      }
    }
  }

  /** Fewer hits than places: a place up to that count holds a miss, as soon as
      one more hit comes. */
  lemma {:induction false} SomeMiss<T>(ranked: seq<T>, gold: set<T>, n: nat)
    requires n <= |ranked| && Hits(ranked, gold, n) < n
    ensures exists i :: 0 <= i < n && i <= Hits(ranked, gold, n) && ranked[i] !in gold
  {
    if ranked[n - 1] in gold || Hits(ranked, gold, n - 1) < n - 1 {
      SomeMiss(ranked, gold, n - 1);
    }
  }

  ghost function HitSet<T>(ranked: seq<T>, gold: set<T>, n: nat): set<T>
    requires n <= |ranked|
  {
    set i | 0 <= i < n && ranked[i] in gold :: ranked[i]
  }

  /** Distinct results cannot hit more often than there are gold sessions. */
  lemma {:induction false} HitsBounded<T>(ranked: seq<T>, gold: set<T>, n: nat)
    requires Distinct(ranked) && n <= |ranked|
    ensures |HitSet(ranked, gold, n)| == Hits(ranked, gold, n) <= |gold|
  {
    if n > 0 {
      HitsBounded(ranked, gold, n - 1);
      var x := ranked[n - 1];
      if x in gold {
        assert HitSet(ranked, gold, n) == HitSet(ranked, gold, n - 1) + {x};
        assert x !in HitSet(ranked, gold, n - 1);
      } else {
        assert HitSet(ranked, gold, n) == HitSet(ranked, gold, n - 1);
      }
    }
    Subset(HitSet(ranked, gold, n), gold);
  }

  lemma {:induction false} Subset<T>(a: set<T>, b: set<T>)
    requires a <= b
    ensures |a| <= |b|
    decreases a
  {
    if a != {} {
      var x :| x in a;
      Subset(a - {x}, b - {x});
    }
  }

  /** The first `m` results exist and are all gold. */
  ghost predicate PerfectTop<T>(ranked: seq<T>, gold: set<T>, m: nat) {
    m <= |ranked| && forall i :: 0 <= i < m ==> ranked[i] in gold
  }

  lemma {:induction false} HitsOfPerfectTop<T>(ranked: seq<T>, gold: set<T>, m: nat, n: nat)
    requires m <= n <= |ranked| && PerfectTop(ranked, gold, m)
    ensures Hits(ranked, gold, n) >= m
  {
    if n > 0 {
      if m == n {
        HitsOfPerfectTop(ranked, gold, m - 1, n - 1);
      } else {
        HitsOfPerfectTop(ranked, gold, m, n - 1);
      }
    }
  }

  /** Over distinct results NDCG lies in [0, 1]; with gold sessions and k > 0 it
      is 1 exactly when the first min(|gold|, k) results are all gold. */
  lemma NdcgRange<T>(ranked: seq<T>, gold: set<T>, k: nat, w: nat -> real)
    requires Discounts(w) && Distinct(ranked)
    ensures 0.0 <= Ndcg(ranked, gold, k, w) <= 1.0
    ensures gold != {} && k > 0 ==>
      (Ndcg(ranked, gold, k, w) == 1.0 <==> PerfectTop(ranked, gold, Min(|gold|, k)))
  {
    var m, n := Min(|gold|, k), Min(|ranked|, k);
    var gain, ideal, hits := Gain(ranked, gold, n, w), Ideal(m, w), Hits(ranked, gold, n);
    HitsBounded(ranked, gold, n);
    GainBounded(ranked, gold, n, w);
    IdealMonotone(hits, m, w);
    if m > 0 {
      IdealMonotone(0, m, w);
      Share(gain, ideal);
      if PerfectTop(ranked, gold, m) {
        HitsOfPerfectTop(ranked, gold, m, n);
      }
    }
  }

  /** The score of collapsed hits, whatever the hits. */
  lemma CollapsedNdcg<T>(hits: seq<T>, gold: set<T>, k: nat, w: nat -> real)
    requires Discounts(w)
    ensures var score := Ndcg(FirstOccurrences(hits), gold, k, w);
      && 0.0 <= score <= 1.0
      && (gold != {} && k > 0 ==> (score == 1.0 <==> PerfectTop(FirstOccurrences(hits), gold, Min(|gold|, k))))
  {
    CollapseIsDistinct(hits);
    NdcgRange(FirstOccurrences(hits), gold, k, w);
  }

  /** Once the first hits hold `k` sessions, more hits change no score at `k`. */
  lemma MoreHitsSameNdcg<T>(hits: seq<T>, n: nat, gold: set<T>, k: nat, w: nat -> real)
    requires n <= |hits| && k <= |FirstOccurrences(hits[..n])|
    ensures Ndcg(FirstOccurrences(hits[..n]), gold, k, w) == Ndcg(FirstOccurrences(hits), gold, k, w)
  {
    CollapsePrefix(hits, n);
    GainOfPrefix(FirstOccurrences(hits[..n]), FirstOccurrences(hits), gold, k, w);
  }

  lemma {:induction false} GainOfPrefix<T>(a: seq<T>, b: seq<T>, gold: set<T>, n: nat, w: nat -> real)
    requires a <= b && n <= |a|
    ensures Gain(a, gold, n, w) == Gain(b, gold, n, w)
  {
    if n > 0 {
      GainOfPrefix(a, b, gold, n - 1, w);
    }
  }

  /** A single gold session in place `i` scores that place's discount against
      the first one's, and nothing outside the first `k`. */
  lemma OneGold<T>(ranked: seq<T>, i: nat, k: nat, w: nat -> real)
    requires Discounts(w) && Distinct(ranked) && i < |ranked| && k > 0
    ensures Ndcg(ranked, {ranked[i]}, k, w) == if i < k then w(i) / w(0) else 0.0
  {
    GainOfOne(ranked, i, Min(|ranked|, k), w);
    assert |{ranked[i]}| == 1 && Ideal(1, w) == Ideal(0, w) + w(0) == w(0);
    assert w(0) > 0.0;
  }

  lemma {:induction false} GainOfOne<T>(ranked: seq<T>, i: nat, n: nat, w: nat -> real)
    requires Distinct(ranked) && i < |ranked| && n <= |ranked|
    ensures Gain(ranked, {ranked[i]}, n, w) == if i < n then w(i) else 0.0
  {
    if n > 0 {
      GainOfOne(ranked, i, n - 1, w);
      assert ranked[n - 1] in {ranked[i]} <==> n - 1 == i;
    }
  }

  /** Gains of disjoint gold sets add up. */
  lemma {:induction false} GainAdds<T>(ranked: seq<T>, a: set<T>, b: set<T>, n: nat, w: nat -> real)
    requires n <= |ranked| && a !! b
    ensures Gain(ranked, a + b, n, w) == Gain(ranked, a, n, w) + Gain(ranked, b, n, w)
  {
    if n > 0 {
      GainAdds(ranked, a, b, n - 1, w);
    }
  }

  lemma Share(x: real, y: real)
    requires 0.0 <= x <= y && y > 0.0
    ensures 0.0 <= x / y <= 1.0 && (x / y == 1.0 <==> x == y)
  {
    var q := x / y;
    assert q * y == x;
    assert q < 0.0 ==> q * y < 0.0;
    assert q > 1.0 ==> q * y > y;
  }

  /** Counting a session twice could push the score above 1. */
  lemma RepeatsExceedOne(w: nat -> real) returns (ranked: seq<int>, gold: set<int>)
    requires Discounts(w)
    ensures Ndcg(ranked, gold, 2, w) > 1.0
  {
    ranked, gold := [7, 7], {7};
    assert |gold| == 1 && Ideal(1, w) == Ideal(0, w) + w(0) == w(0);
    assert Gain(ranked, gold, 1, w) == w(0) && Gain(ranked, gold, 2, w) == w(0) + w(1);
    MoreThanWhole(w(0) + w(1), w(0));
  }

  lemma MoreThanWhole(x: real, y: real)
    requires x > y > 0.0
    ensures x / y > 1.0
  {
    var q := x / y;
    assert q * y == x;
    assert q <= 1.0 ==> q * y <= y;
  }

  // ---- Shards ----------------------------------------------------------------------

  /** `questions[shard::shards]`. */
  function Slice<T>(s: seq<T>, shard: nat, shards: nat): seq<T>
    requires shard < shards
  {
    if s == [] then [] else
      var front := Slice(s[..|s| - 1], shard, shards);
      if (|s| - 1) % shards == shard then front + [s[|s| - 1]] else front
  }

  /** The row numbers below `n` that leave the shard as remainder, in order. */
  ghost predicate IsShard(at: seq<nat>, n: nat, shard: nat, shards: nat)
    requires shard < shards
  {
    && (forall i, j :: 0 <= i < j < |at| ==> at[i] < at[j])
    && (forall i :: 0 <= i < |at| ==> at[i] < n && at[i] % shards == shard)
    && (forall p: nat :: p < n && p % shards == shard ==> p in at)
  }

  lemma ShardNext(at: seq<nat>, n: nat, shard: nat, shards: nat)
    requires shard < shards && IsShard(at, n, shard, shards)
    ensures IsShard(if n % shards == shard then at + [n] else at, n + 1, shard, shards)
  {
    var next := if n % shards == shard then at + [n] else at;
    forall p: nat | p < n + 1 && p % shards == shard ensures p in next {
      if p < n {
        assert p in at;
      } else {
        assert next[|at|] == n;
      }
    }
  }

  /** A shard holds exactly the rows whose number leaves it as remainder. */
  lemma {:induction false} SliceIs<T>(s: seq<T>, shard: nat, shards: nat) returns (at: seq<nat>)
    requires shard < shards
    ensures IsShard(at, |s|, shard, shards) && |Slice(s, shard, shards)| == |at|
    ensures forall i :: 0 <= i < |at| ==> at[i] < |s| && Slice(s, shard, shards)[i] == s[at[i]]
  {
    at := [];
    if s != [] {
      var n := |s| - 1;
      var before := SliceIs(s[..n], shard, shards);
      ShardNext(before, n, shard, shards);
      SnocInit(s);
      PickedSnoc(Slice(s[..n], shard, shards), s[..n], s[n], before);
      var here := n % shards == shard;
      at := if here then before + [n] else before;
      assert Slice(s, shard, shards) == if here then Slice(s[..n], shard, shards) + [s[n]] else Slice(s[..n], shard, shards);
    }
  }

  /** The rows of the given shards, pooled in that order. */
  function Pooled<T>(s: seq<T>, order: seq<nat>, shards: nat): seq<T>
    requires forall i :: 0 <= i < |order| ==> order[i] < shards
  {
    if order == [] then []
    else Pooled(s, order[..|order| - 1], shards) + Slice(s, order[|order| - 1], shards)
  }

  /** Every shard once, in any order. */
  ghost predicate EachShard(order: seq<nat>, shards: nat) {
    && (forall i :: 0 <= i < |order| ==> order[i] < shards)
    && (forall r: nat :: r < shards ==> multiset(order)[r] == 1)
  }

  /** Round-robin shards, pooled in any order, partition the questions: no row
      is lost or counted twice. */
  lemma {:induction false} ShardsPartition<T>(s: seq<T>, order: seq<nat>, shards: nat)
    requires shards > 0 && EachShard(order, shards)
    ensures multiset(Pooled(s, order, shards)) == multiset(s)
  {
    if s == [] {
      PooledEmpty<T>(order, shards);
    } else {
      var front, x := s[..|s| - 1], s[|s| - 1];
      ShardsPartition(front, order, shards);
      PooledSnoc(front, x, order, shards);
      SnocInit(s);
    }
  }

  lemma {:induction false} PooledEmpty<T>(order: seq<nat>, shards: nat)
    requires forall i :: 0 <= i < |order| ==> order[i] < shards
    ensures Pooled<T>([], order, shards) == []
  {
    if order != [] {
      PooledEmpty<T>(order[..|order| - 1], shards);
    }
  }

  /** One more row shows up as often as its shard is pooled. */
  lemma {:induction false} PooledSnoc<T>(s: seq<T>, x: T, order: seq<nat>, shards: nat)
    requires shards > 0 && forall i :: 0 <= i < |order| ==> order[i] < shards
    ensures multiset(Pooled(s + [x], order, shards)) ==
      multiset(Pooled(s, order, shards)) + multiset{}[x := multiset(order)[|s| % shards]]
  {
    if order != [] {
      var front, shard := order[..|order| - 1], order[|order| - 1];
      PooledSnoc(s, x, front, shards);
      InitSnoc(s, x);
      SnocInit(order);
      assert multiset(order) == multiset(front) + multiset{shard};
    }
  }

  function Sum(rows: seq<real>): real {
    if rows == [] then 0.0 else Sum(rows[..|rows| - 1]) + rows[|rows| - 1]
  }

  /** One question's row: its type and its value of the metric in question. */
  datatype ScoredRow = ScoredRow(kind: string, score: real)

  /** Rows of one kind, or all of them. */
  predicate Selected(r: ScoredRow, kind: string, overall: bool) {
    overall || r.kind == kind
  }

  function Values(rows: seq<ScoredRow>, kind: string, overall: bool): seq<real> {
    if rows == [] then [] else
      var front, r := Values(rows[..|rows| - 1], kind, overall), rows[|rows| - 1];
      if Selected(r, kind, overall)
      then front + [r.score] else front
  }

  /** Count and mean of a metric, as `summary` reports them. */
  function Summary(rows: seq<ScoredRow>, kind: string, overall: bool): (nat, real) {
    var vs := Values(rows, kind, overall);
    (|vs|, if vs == [] then 0.0 else Sum(vs) / |vs| as real)
  }

  /** Count and mean, row by row. */
  lemma SummaryIs(rows: seq<ScoredRow>, r: ScoredRow, kind: string, overall: bool)
    ensures Summary([], kind, overall) == (0, 0.0)
    ensures var before, after := Summary(rows, kind, overall), Summary(rows + [r], kind, overall);
      if overall || r.kind == kind
      then after.0 == before.0 + 1 && after.1 * after.0 as real == before.1 * before.0 as real + r.score
      else after == before
  {
    InitSnoc(rows, r);
    var vs := Values(rows, kind, overall);
    MeanTimesCount(vs);
    if overall || r.kind == kind {
      MeanTimesCount(vs + [r.score]);
      SumSnoc(vs, r.score);
    }
  }

  lemma MeanTimesCount(vs: seq<real>)
    ensures (if vs == [] then 0.0 else Sum(vs) / |vs| as real) * |vs| as real == Sum(vs)
  {
    if vs != [] {
      var n := |vs| as real;
      assert Sum(vs) / n * n == Sum(vs);
    }
  }

  lemma SumSnoc(a: seq<real>, x: real)
    ensures Sum(a + [x]) == Sum(a) + x
  {
    InitSnoc(a, x);
  }

  lemma {:induction false} SumSplit(a: seq<real>, x: real, b: seq<real>)
    ensures Sum(a + [x] + b) == Sum(a + b) + x
  {
    if b == [] {
      assert a + [x] + b == a + [x] && a + b == a;
      SumSnoc(a, x);
    } else {
      var front, y := b[..|b| - 1], b[|b| - 1];
      SumSplit(a, x, front);
      assert a + [x] + b == (a + [x] + front) + [y];
      assert a + b == (a + front) + [y];
      SumSnoc(a + [x] + front, y);
      SumSnoc(a + front, y);
    }
  }

  /** The last element of one arrangement sits somewhere in the other. */
  lemma TakeOut<T>(a: seq<T>, b: seq<T>) returns (i: nat)
    requires a != [] && multiset(a) == multiset(b)
    ensures i < |b| && b == b[..i] + [a[|a| - 1]] + b[i + 1..]
    ensures multiset(a[..|a| - 1]) == multiset(b[..i] + b[i + 1..])
  {
    var front, x := a[..|a| - 1], a[|a| - 1];
    SnocInit(a);
    assert x in multiset(b);
    i :| 0 <= i < |b| && b[i] == x;
    Parts(b, i);
    assert multiset(front) == multiset(a) - multiset{x};
    assert multiset(b[..i] + b[i + 1..]) == multiset(b) - multiset{x};
  }

  lemma Parts<T>(b: seq<T>, i: nat)
    requires i < |b|
    ensures b == b[..i] + [b[i]] + b[i + 1..]
    ensures multiset(b) == multiset(b[..i] + b[i + 1..]) + multiset{b[i]}
  {
    assert b == b[..i] + [b[i]] + b[i + 1..];
  }

  lemma {:induction false} SumPermuted(a: seq<real>, b: seq<real>)
    requires multiset(a) == multiset(b)
    ensures |a| == |b| && Sum(a) == Sum(b)
    decreases |a|
  {
    assert |multiset(a)| == |a| && |multiset(b)| == |b|;
    if a != [] {
      var i := TakeOut(a, b);
      SumSplit(b[..i], a[|a| - 1], b[i + 1..]);
      SumPermuted(a[..|a| - 1], b[..i] + b[i + 1..]);
    }
  }

  lemma {:induction false} ValuesSplit(a: seq<ScoredRow>, r: ScoredRow, b: seq<ScoredRow>, kind: string, overall: bool)
    ensures multiset(Values(a + [r] + b, kind, overall)) ==
      multiset(Values(a + b, kind, overall)) + multiset(Values([r], kind, overall))
  {
    if b == [] {
      assert a + [r] + b == a + [r] && a + b == a && (a + [r])[..|a|] == a && [r][..0] == [];
    } else {
      ValuesSplit(a, r, b[..|b| - 1], kind, overall);
      assert (a + [r] + b)[..|a + [r] + b| - 1] == a + [r] + b[..|b| - 1];
      InitConcat(a, b);
    }
  }

  lemma {:induction false} ValuesPermuted(a: seq<ScoredRow>, b: seq<ScoredRow>, kind: string, overall: bool)
    requires multiset(a) == multiset(b)
    ensures multiset(Values(a, kind, overall)) == multiset(Values(b, kind, overall))
    decreases |a|
  {
    assert |multiset(a)| == |a| && |multiset(b)| == |b|;
    if a != [] {
      var front, r := a[..|a| - 1], a[|a| - 1];
      var i := TakeOut(a, b);
      assert a == front + [r] + [] && front + [] == front;
      ValuesSplit(front, r, [], kind, overall);
      ValuesSplit(b[..i], r, b[i + 1..], kind, overall);
      ValuesPermuted(front, b[..i] + b[i + 1..], kind, overall);
    }
  }

  /** Pooling the shards' rows, in any order, reports the same counts and
      means, overall and per kind, as one unsharded run. */
  lemma PooledSummary(rows: seq<ScoredRow>, order: seq<nat>, shards: nat, kind: string, overall: bool)
    requires shards > 0 && EachShard(order, shards)
    ensures Summary(Pooled(rows, order, shards), kind, overall) == Summary(rows, kind, overall)
  {
    var pooled := Pooled(rows, order, shards);
    ShardsPartition(rows, order, shards);
    ValuesPermuted(pooled, rows, kind, overall);
    SumPermuted(Values(pooled, kind, overall), Values(rows, kind, overall));
  }
}
