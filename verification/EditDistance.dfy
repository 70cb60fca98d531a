/** The two-row edit distance and the text accuracy built on it. */
module EditDistance {
  import opened Text
  import opened Seqs

  function Min3(a: nat, b: nat, c: nat): (m: nat)
    ensures m <= a && m <= b && m <= c && (m == a || m == b || m == c)
  {
    if a <= b && a <= c then a else if b <= c then b else c
  }

  /** The table entry for two prefixes, read from their last characters. */
  function Lev(a: string, b: string): nat
    decreases |a| + |b|
  {
    if a == "" then |b|
    else if b == "" then |a|
    else
      var a', b' := a[..|a| - 1], b[..|b| - 1];
      Min3(Lev(a', b') + (if a[|a| - 1] != b[|b| - 1] then 1 else 0), Lev(a', b) + 1, Lev(a, b') + 1)
  }

  lemma LevSnoc(a: string, x: char, b: string, y: char)
    ensures Lev(a + [x], b + [y]) ==
      Min3(Lev(a, b) + (if x != y then 1 else 0), Lev(a, b + [y]) + 1, Lev(a + [x], b) + 1)
  {
    assert (a + [x])[..|a|] == a && (b + [y])[..|b|] == b;
  }

  lemma LevEmpty(a: string)
    ensures Lev(a, "") == |a| && Lev("", a) == |a|
  {
  }

  /** The row holds the distances of `p` to the prefixes of `b` up to `n`. */
  ghost predicate IsRow(row: seq<nat>, p: string, b: string, n: nat) {
    n <= |b| && |row| == |b| + 1 && forall k :: 0 <= k <= n ==> row[k] == Lev(p, b[..k])
  }

  lemma NextCell(prev: seq<nat>, cur: seq<nat>, p: string, x: char, b: string, j: nat)
    requires j < |b| && IsRow(prev, p, b, |b|) && IsRow(cur, p + [x], b, j)
    ensures IsRow(cur[j + 1 := Min3(prev[j] + (if x != b[j] then 1 else 0), prev[j + 1] + 1, cur[j] + 1)], p + [x], b, j + 1)
  {
    TakeNext(b, j);
    LevSnoc(p, x, b[..j], b[j]);
  }

  /** `lev`: only the previous and the current row are kept. */
  method Distance(a: string, b: string) returns (d: nat)
    ensures d == Lev(a, b)
  {
    var prev: seq<nat> := seq(|b| + 1, j => j);
    for i := 0 to |a|
      invariant IsRow(prev, a[..i], b, |b|)
    {
      var cur: seq<nat> := [i + 1] + seq(|b|, _ => 0);
      ghost var p := a[..i];
      LevEmpty(p + [a[i]]);
      for j := 0 to |b|
        invariant IsRow(cur, p + [a[i]], b, j)
      {
        NextCell(prev, cur, p, a[i], b, j);
        cur := cur[j + 1 := Min3(prev[j] + (if a[i] != b[j] then 1 else 0), prev[j + 1] + 1, cur[j] + 1)];
      }
      prev := cur;
      assert a[..i + 1] == p + [a[i]];
    }
    assert a[..|a|] == a && b[..|b|] == b;
    d := prev[|b|];
  }

  // ---- Edit steps ------------------------------------------------------------

  /** `t` is `s` with one character inserted, deleted or substituted. */
  ghost predicate OneEdit(s: string, t: string) {
    exists p, x, y, q :: Replaces(s, t, p, x, y, q)
  }

  ghost predicate Replaces(s: string, t: string, p: string, x: string, y: string, q: string) {
    s == p + x + q && t == p + y + q && |x| <= 1 && |y| <= 1
  }

  /** A chain of edits from its first text to its last. */
  ghost predicate EditChain(c: seq<string>) {
    c != [] && forall i :: 1 <= i < |c| ==> OneEdit(c[i - 1], c[i])
  }

  // ---- The table is a metric ---------------------------------------------------

  lemma {:induction false} LevSymmetric(a: string, b: string)
    ensures Lev(a, b) == Lev(b, a)
    decreases |a| + |b|
  {
    if a != "" && b != "" {
      LevSymmetric(a[..|a| - 1], b[..|b| - 1]);
      LevSymmetric(a[..|a| - 1], b);
      LevSymmetric(a, b[..|b| - 1]);
    }
  }

  lemma {:induction false} LevZero(a: string, b: string)
    ensures Lev(a, b) == 0 <==> a == b
    decreases |a| + |b|
  {
    if a != "" && b != "" {
      LevZero(a[..|a| - 1], b[..|b| - 1]);
      assert a == a[..|a| - 1] + [a[|a| - 1]] && b == b[..|b| - 1] + [b[|b| - 1]];
    }
  }

  /** Dropping or adding the last character costs at most one. */
  lemma LevStep(a: string, x: char, b: string)
    ensures Lev(a + [x], b) <= Lev(a, b) + 1
    ensures Lev(b, a + [x]) <= Lev(b, a) + 1
  {
    InitSnoc(a, x);
  }

  lemma LevSubstitute(a: string, b: string)
    requires a != "" && b != ""
    ensures Lev(a, b) <= Lev(a[..|a| - 1], b[..|b| - 1]) + (if a[|a| - 1] != b[|b| - 1] then 1 else 0)
    ensures Lev(a, b) <= Lev(a[..|a| - 1], b) + 1
    ensures Lev(a, b) <= Lev(a, b[..|b| - 1]) + 1
  {
  }

  lemma {:induction false} LevLength(a: string, b: string)
    ensures Lev(a, b) >= if |a| <= |b| then |b| - |a| else |a| - |b|
    ensures Lev(a, b) <= if |a| <= |b| then |b| else |a|
    decreases |a| + |b|
  {
    if a != "" && b != "" {
      LevLength(a[..|a| - 1], b[..|b| - 1]);
      LevLength(a[..|a| - 1], b);
      LevLength(a, b[..|b| - 1]);
    }
  }

  lemma {:induction false} LevTriangle(a: string, b: string, c: string)
    ensures Lev(a, c) <= Lev(a, b) + Lev(b, c)
    decreases |a| + |b| + |c|
  {
    if a == "" {
      LevLength(b, c);
    } else if c == "" {
      LevLength(a, b);
    } else if b == "" {
      LevLength(a, c);
    } else {
      var a', b', c' := a[..|a| - 1], b[..|b| - 1], c[..|c| - 1];
      LevTriangle(a', b, c);
      LevTriangle(a, b, c');
      LevTriangle(a, b', c);
      LevTriangle(a', b', c');
      LevTriangle(a', b', c);
      LevTriangle(a, b', c');
      LevSubstitute(a, c);
    }
  }

  lemma LevSameLast(a: string, b: string, x: char)
    ensures Lev(a + [x], b + [x]) <= Lev(a, b)
  {
    LevSnoc(a, x, b, x);
  }

  lemma {:induction false} LevSuffix(a: string, b: string, s: string)
    ensures Lev(a + s, b + s) <= Lev(a, b)
  {
    if s == "" {
      assert a + s == a && b + s == b;
    } else {
      var s', x := s[..|s| - 1], s[|s| - 1];
      LevSuffix(a, b, s');
      SnocInit(s);
      Assoc(a, s', [x]);
      Assoc(b, s', [x]);
      LevSameLast(a + s', b + s', x);
    }
  }

  lemma {:induction false} LevPrefix(p: string, a: string, b: string)
    requires |a| <= 1 && |b| <= 1
    ensures Lev(p + a, p + b) <= 1
  {
    LevZero(p, p);
    if a == "" && b == "" {
      assert p + a == p == p + b;
    } else if a == "" {
      assert p + a == p && p + b == p + [b[0]];
      LevStep(p, b[0], p);
    } else if b == "" {
      assert p + b == p && p + a == p + [a[0]];
      LevStep(p, a[0], p);
    } else {
      assert p + a == p + [a[0]] && p + b == p + [b[0]];
      LevSnoc(p, a[0], p, b[0]);
    }
  }

  lemma OneEditCosts(s: string, t: string)
    requires OneEdit(s, t)
    ensures Lev(s, t) <= 1
  {
    var p, x, y, q :| Replaces(s, t, p, x, y, q);
    LevPrefix(p, x, y);
    LevSuffix(p + x, p + y, q);
  }

  lemma ChainInit(c: seq<string>)
    requires EditChain(c) && |c| > 1
    ensures EditChain(c[..|c| - 1])
  {
    var front := c[..|c| - 1];
    forall i | 1 <= i < |front| ensures OneEdit(front[i - 1], front[i]) {
      assert OneEdit(c[i - 1], c[i]);
    }
  }

  /** No chain of edits is shorter than the table says. */
  lemma {:induction false} ChainCosts(c: seq<string>)
    requires EditChain(c)
    ensures Lev(c[0], c[|c| - 1]) <= |c| - 1
  {
    if |c| == 1 {
      LevZero(c[0], c[0]);
    } else {
      var front := c[..|c| - 1];
      ChainInit(c);
      ChainCosts(front);
      assert OneEdit(c[|c| - 1 - 1], c[|c| - 1]);
      OneEditCosts(c[|c| - 2], c[|c| - 1]);
      LevTriangle(c[0], c[|c| - 2], c[|c| - 1]);
    }
  }

  /** The same chain with one more character behind every text. */
  lemma ExtendChain(c: seq<string>, x: char) returns (d: seq<string>)
    requires EditChain(c)
    ensures EditChain(d) && |d| == |c|
    ensures d[0] == c[0] + [x] && d[|d| - 1] == c[|c| - 1] + [x]
  {
    d := seq(|c|, i requires 0 <= i < |c| => c[i] + [x]);
    forall i | 1 <= i < |d| ensures OneEdit(d[i - 1], d[i]) {
      var p, y, z, q :| Replaces(c[i - 1], c[i], p, y, z, q);
      assert Replaces(d[i - 1], d[i], p, y, z, q + [x]);
    }
  }

  lemma AppendEdit(c: seq<string>, t: string) returns (d: seq<string>)
    requires EditChain(c) && OneEdit(c[|c| - 1], t)
    ensures EditChain(d) && |d| == |c| + 1 && d[0] == c[0] && d[|d| - 1] == t
  {
    d := c + [t];
    forall i | 1 <= i < |d| ensures OneEdit(d[i - 1], d[i]) {
      if i < |c| {
        assert OneEdit(c[i - 1], c[i]);
      }
    }
  }

  lemma PrependEdit(s: string, c: seq<string>) returns (d: seq<string>)
    requires EditChain(c) && OneEdit(s, c[0])
    ensures EditChain(d) && |d| == |c| + 1 && d[0] == s && d[|d| - 1] == c[|c| - 1]
  {
    d := [s] + c;
    forall i | 1 <= i < |d| ensures OneEdit(d[i - 1], d[i]) {
      if i > 1 {
        assert OneEdit(c[i - 1 - 1], c[i - 1]);
      }
    }
  }

  lemma EditLast(a: string, x: string, y: string)
    requires |x| <= 1 && |y| <= 1
    ensures OneEdit(a + x, a + y)
  {
    assert Replaces(a + x, a + y, a, x, y, "");
  }

  lemma DropLastEdit(a: string)
    requires a != ""
    ensures OneEdit(a, a[..|a| - 1]) && OneEdit(a[..|a| - 1], a)
  {
    var a', x := a[..|a| - 1], [a[|a| - 1]];
    SnocInit(a);
    ConcatNil(a');
    EditLast(a', x, "");
    EditLast(a', "", x);
  }

  lemma SubstituteChain(c: seq<string>, a: string, b: string) returns (d: seq<string>)
    requires a != "" && b != "" && EditChain(c) && c[0] == a[..|a| - 1] && c[|c| - 1] == b[..|b| - 1]
    ensures EditChain(d) && d[0] == a && d[|d| - 1] == b
    ensures |d| == |c| + if a[|a| - 1] != b[|b| - 1] then 1 else 0
  {
    SnocInit(a);
    SnocInit(b);
    d := ExtendChain(c, a[|a| - 1]);
    if a[|a| - 1] != b[|b| - 1] {
      EditLast(b[..|b| - 1], [a[|a| - 1]], [b[|b| - 1]]);
      d := AppendEdit(d, b);
    }
  }

  /** And a chain that short exists. */
  lemma {:induction false} ChainExists(a: string, b: string) returns (c: seq<string>)
    ensures EditChain(c) && c[0] == a && c[|c| - 1] == b && |c| == Lev(a, b) + 1
    decreases |a| + |b|
  {
    if a == "" && b == "" {
      c := [""];
    } else if a != "" && (b == "" || Lev(a, b) == Lev(a[..|a| - 1], b) + 1) {
      c := ChainExists(a[..|a| - 1], b);
      DropLastEdit(a);
      c := PrependEdit(a, c);
    } else if b != "" && (a == "" || Lev(a, b) == Lev(a, b[..|b| - 1]) + 1) {
      c := ChainExists(a, b[..|b| - 1]);
      DropLastEdit(b);
      c := AppendEdit(c, b);
    } else {
      c := ChainExists(a[..|a| - 1], b[..|b| - 1]);
      c := SubstituteChain(c, a, b);
    }
  }

  /** The distance is the least number of single-character edits. */
  lemma DistanceIsLeast(a: string, b: string)
    ensures exists c :: EditChain(c) && c[0] == a && c[|c| - 1] == b && |c| == Lev(a, b) + 1
    ensures forall c :: EditChain(c) && c[0] == a && c[|c| - 1] == b ==> |c| >= Lev(a, b) + 1
  {
    var c := ChainExists(a, b);
    forall c | EditChain(c) && c[0] == a && c[|c| - 1] == b ensures |c| >= Lev(a, b) + 1 {
      ChainCosts(c);
    }
  }

  /** Symmetric, zero only on equal texts, and satisfying the triangle
      inequality: a metric. */
  lemma DistanceIsMetric(a: string, b: string, c: string)
    ensures Lev(a, b) == Lev(b, a)
    ensures Lev(a, b) == 0 <==> a == b
    ensures Lev(a, c) <= Lev(a, b) + Lev(b, c)
  {
    LevSymmetric(a, b);
    LevZero(a, b);
    LevTriangle(a, b, c);
  }

  // ---- Accuracy -----------------------------------------------------------------

  /** Python's `str.isspace` on one character. */
  predicate IsSpace(c: char) {
    var n := c as int;
    || 9 <= n <= 13 || 0x1C <= n <= 0x20 || n == 0x85 || n == 0xA0 || n == 0x1680
    || 0x2000 <= n <= 0x200A || n == 0x2028 || n == 0x2029 || n == 0x202F
    || n == 0x205F || n == 0x3000
  }

  function BarsToSpaces(s: string): string {
    seq(|s|, i requires 0 <= i < |s| => if s[i] == '|' then ' ' else s[i])
  }

  /** `" ".join(s.replace("|", " ").split())`. */
  function Clean(s: string): string {
    Join(Words(BarsToSpaces(s), IsSpace), " ")
  }

  predicate IsGap(c: char) {
    c == '|' || IsSpace(c)
  }

  /** Bars count as spaces. */
  lemma {:induction false} BarsAreGaps(s: string)
    ensures Words(BarsToSpaces(s), IsSpace) == Words(s, IsGap)
  {
    if s != "" {
      var front := s[..|s| - 1];
      BarsAreGaps(front);
      assert BarsToSpaces(s)[..|s| - 1] == BarsToSpaces(front);
    }
  }

  /** The cleaned text is the words between gaps of spaces and bars, with one
      space between them. */
  lemma CleanIs(s: string) returns (words: seq<string>, gaps: seq<string>)
    ensures Woven(s, words, gaps, IsGap) && Clean(s) == Join(words, " ")
  {
    BarsAreGaps(s);
    words := Words(s, IsGap);
    gaps := WordsAre(s, IsGap);
  }

  /** `ocr_accuracy`, in exact arithmetic. */
  method OcrAccuracy(pred: string, gold: string) returns (r: real)
    ensures 0.0 <= r <= 1.0
    ensures Clean(gold) == "" ==> r == 1.0
    ensures Clean(gold) != "" ==> (r == 1.0 <==> Clean(pred) == Clean(gold))
    ensures Clean(gold) != "" ==>
      r == if Lev(Clean(pred), Clean(gold)) <= |Clean(gold)|
           then 1.0 - Lev(Clean(pred), Clean(gold)) as real / |Clean(gold)| as real else 0.0
  {
    var p, g := Clean(pred), Clean(gold);
    if g == "" {
      return 1.0;
    }
    var d := Distance(p, g);
    LevZero(p, g);
    var n := |g| as real;
    ShareBounds(d as real, n);
    r := 1.0 - d as real / n;
    if r < 0.0 {
      r := 0.0;
    }
  }

  lemma ShareBounds(d: real, n: real)
    requires d >= 0.0 && n > 0.0
    ensures d / n >= 0.0
    ensures d / n <= 1.0 <==> d <= n
    ensures d / n == 0.0 <==> d == 0.0
  {
    var q := d / n;
    assert q * n == d;
    assert q < 0.0 ==> q * n < 0.0;
    assert q > 1.0 ==> q * n > n;
    assert q <= 1.0 ==> q * n <= n;
  }
}
