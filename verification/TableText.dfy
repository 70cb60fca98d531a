/** Table rows as text: splitting at a character and trimming. */
module TableText {
  import opened Seqs
  import opened Text

  /** `split(c)`: always at least one piece. */
  function SplitOn(s: string, c: char): (r: seq<string>)
    ensures r != []
  {
    if s == "" then [""] else AddChar(SplitOn(s[..|s| - 1], c), s[|s| - 1], c)
  }

  function AddChar(r: seq<string>, x: char, c: char): (r': seq<string>)
    requires r != []
    ensures r' != []
  {
    if x == c then r + [""] else r[..|r| - 1] + [r[|r| - 1] + [x]]
  }

  lemma AddCharBehind(p: seq<string>, q: seq<string>, x: char, c: char)
    requires q != []
    ensures AddChar(p + q, x, c) == p + AddChar(q, x, c)
  {
  }

  lemma SplitSnoc(s: string, x: char, c: char)
    ensures SplitOn(s + [x], c) == AddChar(SplitOn(s, c), x, c)
  {
    InitSnoc(s, x);
  }

  /** Text without the separator extends the last piece. */
  lemma {:induction false} SplitExtend(s: string, t: string, c: char)
    requires c !in t
    ensures SplitOn(s + t, c) == var r := SplitOn(s, c); r[..|r| - 1] + [r[|r| - 1] + t]
  {
    var r := SplitOn(s, c);
    if t == "" {
      assert s + t == s && r[|r| - 1] + t == r[|r| - 1];
    } else {
      var front, x := t[..|t| - 1], t[|t| - 1];
      SplitExtend(s, front, c);
      assert s + t == s + front + [x];
      SplitSnoc(s + front, x, c);
      assert r[|r| - 1] + front + [x] == r[|r| - 1] + t;
    }
  }

  /** A separator cuts. */
  lemma {:induction false} SplitAt(a: string, b: string, c: char)
    ensures SplitOn(a + [c] + b, c) == SplitOn(a, c) + SplitOn(b, c)
  {
    if b == "" {
      assert a + [c] + b == a + [c];
      SplitSnoc(a, c, c);
    } else {
      var front, x := b[..|b| - 1], b[|b| - 1];
      SplitAt(a, front, c);
      assert a + [c] + b == a + [c] + front + [x];
      SplitSnoc(a + [c] + front, x, c);
      AddCharBehind(SplitOn(a, c), SplitOn(front, c), x, c);
    }
  }

  lemma SplitWhole(s: string, c: char)
    requires c !in s
    ensures SplitOn(s, c) == [s]
  {
    SplitExtend("", s, c);
    assert "" + s == s;
  }

  /** Splitting a join with a one-character separator gives the parts back. */
  lemma {:induction false} SplitOfJoin(parts: seq<string>, c: char)
    requires parts != [] && forall i :: 0 <= i < |parts| ==> c !in parts[i]
    ensures SplitOn(Join(parts, [c]), c) == parts
  {
    var front, last := parts[..|parts| - 1], parts[|parts| - 1];
    SplitWhole(last, c);
    if front != [] {
      SplitOfJoin(front, c);
      SplitAt(Join(front, [c]), last, c);
    }
    SnocInit(parts);
  }

  predicate Trimmed(s: string) {
    s == "" || (!IsWhitespace(s[0]) && !IsWhitespace(s[|s| - 1]))
  }

  lemma {:induction false} TrimStartUnique(pre: string, s: string)
    requires IsBlank(pre) && (s == "" || !IsWhitespace(s[0]))
    ensures TrimStart(pre + s) == s
  {
    if pre == "" {
      assert pre + s == s;
    } else {
      TailConcat(pre, s);
      TrimStartUnique(pre[1..], s);
    }
  }

  lemma TrimAround(pre: string, s: string, post: string)
    requires IsBlank(pre) && IsBlank(post) && Trimmed(s)
    ensures Trim(pre + s + post) == s
  {
    if s == "" {
      assert pre + s + post == (pre + post) + "";
      TrimStartUnique(pre + post, "");
    } else {
      assert pre + s + post == pre + (s + post);
      TrimStartUnique(pre, s + post);
      TrimEndUnique(s, post);
    }
  }

  /** Piece `i` of a row joined with bars. */
  function Padded(cells: seq<string>, i: nat): string
    requires i < |cells|
  {
    (if i > 0 then " " else "") + cells[i] + (if i + 1 < |cells| then " " else "")
  }

  lemma {:induction false} SplitBars(cells: seq<string>)
    requires cells != [] && forall i :: 0 <= i < |cells| ==> '|' !in cells[i]
    ensures var r := SplitOn(Join(cells, " | "), '|');
      |r| == |cells| && forall i :: 0 <= i < |cells| ==> r[i] == Padded(cells, i)
  {
    var front, last := cells[..|cells| - 1], cells[|cells| - 1];
    if front == [] {
      SplitWhole(last, '|');
    } else {
      SplitBars(front);
      var s := Join(front, " | ");
      SplitBar(s, last);
      BarStep(cells, SplitOn(s, '|'));
    }
  }

  lemma SplitBar(s: string, last: string)
    requires '|' !in last
    ensures SplitOn(s + " | " + last, '|') ==
      var r := SplitOn(s, '|'); r[..|r| - 1] + [r[|r| - 1] + " "] + [" " + last]
  {
    assert s + " | " + last == (s + " ") + ['|'] + (" " + last);
    SplitAt(s + " ", " " + last, '|');
    SplitExtend(s, " ", '|');
    SplitWhole(" " + last, '|');
  }

  lemma BarStep(cells: seq<string>, r: seq<string>)
    requires |cells| > 1 && |r| == |cells| - 1
    requires forall i :: 0 <= i < |r| ==> r[i] == Padded(cells[..|cells| - 1], i)
    ensures var q := r[..|r| - 1] + [r[|r| - 1] + " "] + [" " + cells[|cells| - 1]];
      forall i :: 0 <= i < |cells| ==> q[i] == Padded(cells, i)
  {
  }

  // ---- What trimming and splitting keep -----------------------------------------

  predicate NoSpace(s: string) {
    forall i :: 0 <= i < |s| ==> !IsWhitespace(s[i])
  }

  lemma TrimIsTrimmed(s: string)
    ensures Trimmed(Trim(s)) && forall x :: x in Trim(s) ==> x in s
  {
    var u := TrimStart(s);
    assert forall i :: 0 <= i < |TrimEnd(u)| ==> TrimEnd(u)[i] == u[i];
  }

  /** A piece has no separator and only characters of the text. */
  lemma {:induction false} SplitChars(s: string, c: char, i: nat)
    requires i < |SplitOn(s, c)|
    ensures c !in SplitOn(s, c)[i] && forall x :: x in SplitOn(s, c)[i] ==> x in s
  {
    if s != "" {
      SnocInit(s);
      var r := SplitOn(s[..|s| - 1], c);
      if i < |r| {
        SplitChars(s[..|s| - 1], c, i);
      }
    }
  }

  /** Text in front without a separator joins the first piece. */
  lemma {:induction false} SplitPrefix(a: string, s: string, c: char)
    requires c !in a
    ensures SplitOn(a + s, c) == var r := SplitOn(s, c); [a + r[0]] + r[1..]
  {
    if s == "" {
      assert a + s == a && a + "" == a;
      SplitWhole(a, c);
    } else {
      var front, x := s[..|s| - 1], s[|s| - 1];
      SplitPrefix(a, front, c);
      SnocInit(s);
      Assoc(a, front, [x]);
      SplitSnoc(a + front, x, c);
      AddCharFront(a, SplitOn(front, c), x, c);
    }
  }

  lemma AddCharFront(a: string, r: seq<string>, x: char, c: char)
    requires r != []
    ensures AddChar([a + r[0]] + r[1..], x, c) == var r' := AddChar(r, x, c); [a + r'[0]] + r'[1..]
  {
    if |r| == 1 && x != c {
      Assoc(a, r[0], [x]);
    }
  }
}
