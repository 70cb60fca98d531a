/** Text as the ingestion crate sees it: a sequence of Unicode scalar values,
    measured either in characters or in UTF-8 bytes. */
module Text {
  import opened Seqs

  /** The Unicode White_Space property (Rust's `char::is_whitespace`). */
  predicate IsWhitespace(c: char) {
    var n := c as int;
    || 9 <= n <= 13 || n == 0x20 || n == 0x85 || n == 0xA0 || n == 0x1680
    || 0x2000 <= n <= 0x200A || n == 0x2028 || n == 0x2029 || n == 0x202F
    || n == 0x205F || n == 0x3000
  }

  predicate IsAsciiDigit(c: char) {
    '0' <= c <= '9'
  }

  /** Bytes the character takes in UTF-8. */
  function Utf8Width(c: char): (w: nat)
    ensures 1 <= w <= 4
  {
    var n := c as int;
    if n < 0x80 then 1 else if n < 0x800 then 2 else if n < 0x1_0000 then 3 else 4
  }

  /** `str::len`: the length in bytes, never below the length in characters. */
  function ByteLen(s: string): (n: nat)
    ensures |s| <= n <= 4 * |s|
  {
    if s == "" then 0 else ByteLen(s[..|s| - 1]) + Utf8Width(s[|s| - 1])
  }

  predicate IsBlank(s: string) {
    forall i :: 0 <= i < |s| ==> IsWhitespace(s[i])
  }

  /** The text with every whitespace character left out. */
  function Solid(s: string): string {
    if s == "" then ""
    else Solid(s[..|s| - 1]) + (if IsWhitespace(s[|s| - 1]) then "" else [s[|s| - 1]])
  }

  function TrimEnd(s: string): (r: string)
    ensures r <= s && IsBlank(s[|r|..])
    ensures r != "" ==> !IsWhitespace(r[|r| - 1])
  {
    if s != "" && IsWhitespace(s[|s| - 1]) then TrimEnd(s[..|s| - 1]) else s
  }

  function TrimStart(s: string): (r: string)
    ensures |r| <= |s| && r == s[|s| - |r|..] && IsBlank(s[..|s| - |r|])
    ensures r != "" ==> !IsWhitespace(r[0])
  {
    if s != "" && IsWhitespace(s[0]) then TrimStart(s[1..]) else s
  }

  /** `str::trim`. */
  function Trim(s: string): string {
    TrimEnd(TrimStart(s))
  }

  /** `parts.join(sep)`. */
  function Join(parts: seq<string>, sep: string): string {
    if parts == [] then ""
    else if |parts| == 1 then parts[0]
    else Join(parts[..|parts| - 1], sep) + sep + parts[|parts| - 1]
  }

  lemma {:induction false} ByteLenConcat(s: string, t: string)
    ensures ByteLen(s + t) == ByteLen(s) + ByteLen(t)
  {
    if t == "" {
      assert s + t == s;
    } else {
      ByteLenConcat(s, t[..|t| - 1]);
      InitConcat(s, t);
    }
  }

  lemma {:induction false} SolidConcat(s: string, t: string)
    ensures Solid(s + t) == Solid(s) + Solid(t)
  {
    if t == "" {
      assert s + t == s;
    } else {
      SolidConcat(s, t[..|t| - 1]);
      InitConcat(s, t);
    }
  }

  lemma {:induction false} SolidBlank(s: string)
    ensures IsBlank(s) <==> Solid(s) == ""
  {
    if s != "" {
      var p := s[..|s| - 1];
      SolidBlank(p);
      assert s == p + [s[|s| - 1]];
      assert IsBlank(s) ==> IsBlank(p);
    }
  }

  /** Two non-empty lists join around one separator. */
  lemma {:induction false} JoinConcat(xs: seq<string>, ys: seq<string>, sep: string)
    requires xs != [] && ys != []
    ensures Join(xs + ys, sep) == Join(xs, sep) + sep + Join(ys, sep)
  {
    InitConcat(xs, ys);
    if |ys| == 1 {
      assert xs + ys[..0] == xs;
    } else {
      var zs := ys[..|ys| - 1];
      JoinConcat(xs, zs, sep);
      Assoc(Join(xs, sep) + sep, Join(zs, sep) + sep, ys[|ys| - 1]);
      Assoc(Join(xs, sep) + sep, Join(zs, sep), sep);
    }
  }

  lemma JoinPrefix(us: seq<string>, hi: nat, sep: string) returns (post: string)
    requires 0 < hi <= |us|
    ensures Join(us, sep) == Join(us[..hi], sep) + post
  {
    if hi == |us| {
      post := "";
      assert us[..hi] == us;
    } else {
      post := sep + Join(us[hi..], sep);
      JoinConcat(us[..hi], us[hi..], sep);
      assert us[..hi] + us[hi..] == us;
      assert Join(us[..hi], sep) + sep + Join(us[hi..], sep) == Join(us[..hi], sep) + post;
    }
  }

  lemma JoinSuffix(us: seq<string>, lo: nat, sep: string) returns (pre: string)
    requires lo < |us|
    ensures Join(us, sep) == pre + Join(us[lo..], sep)
  {
    if lo == 0 {
      pre := "";
      assert us[lo..] == us;
    } else {
      pre := Join(us[..lo], sep) + sep;
      JoinConcat(us[..lo], us[lo..], sep);
      assert us[..lo] + us[lo..] == us;
    }
  }

  lemma JoinSlice(us: seq<string>, lo: nat, hi: nat, sep: string) returns (pre: string, post: string)
    requires lo < hi <= |us|
    ensures Join(us, sep) == pre + Join(us[lo..hi], sep) + post
  {
    post := JoinPrefix(us, hi, sep);
    pre := JoinSuffix(us[..hi], lo, sep);
    assert us[..hi][lo..] == us[lo..hi];
  }

  lemma OneByte(c: char)
    requires Utf8Width(c) == 1
    ensures ByteLen([c]) == 1
  {
    assert [c][..0] == "";
  }

  /** Joining two neighbours first changes nothing: the law behind every merge
      pass and every `Mixed` composite. */
  lemma JoinFuse(pre: seq<string>, a: string, b: string, post: seq<string>, sep: string)
    ensures Join(pre + [a, b] + post, sep) == Join(pre + [a + sep + b] + post, sep)
  {
    JoinPair(a, b, sep);
    JoinAfter(pre, [a, b], [a + sep + b], sep);
    JoinBefore(pre + [a, b], pre + [a + sep + b], post, sep);
  }

  lemma JoinPair(a: string, b: string, sep: string)
    ensures Join([a, b], sep) == a + sep + b
  {
    assert [a, b][..1] == [a];
  }

  lemma JoinAfter(pre: seq<string>, xs: seq<string>, ys: seq<string>, sep: string)
    requires xs != [] && ys != [] && Join(xs, sep) == Join(ys, sep)
    ensures Join(pre + xs, sep) == Join(pre + ys, sep)
  {
    if pre == [] {
      ConcatNil(xs);
      ConcatNil(ys);
    } else {
      JoinConcat(pre, xs, sep);
      JoinConcat(pre, ys, sep);
    }
  }

  lemma JoinBefore(xs: seq<string>, ys: seq<string>, post: seq<string>, sep: string)
    requires xs != [] && ys != [] && Join(xs, sep) == Join(ys, sep)
    ensures Join(xs + post, sep) == Join(ys + post, sep)
  {
    if post == [] {
      ConcatNil(xs);
      ConcatNil(ys);
    } else {
      JoinConcat(xs, post, sep);
      JoinConcat(ys, post, sep);
    }
  }

  /** With a blank separator the solid part of a join is the concatenation of
      the solid parts. */
  lemma SolidJoinConcat(xs: seq<string>, ys: seq<string>, sep: string)
    requires IsBlank(sep)
    ensures Solid(Join(xs + ys, sep)) == Solid(Join(xs, sep)) + Solid(Join(ys, sep))
  {
    if xs == [] {
      assert xs + ys == ys;
    } else if ys == [] {
      assert xs + ys == xs;
    } else {
      JoinConcat(xs, ys, sep);
      SolidBlank(sep);
      SolidConcat(Join(xs, sep) + sep, Join(ys, sep));
      SolidConcat(Join(xs, sep), sep);
    }
  }

  /** Every non-blank character survives the trim. */
  lemma {:induction false} TrimEndReaches(w: string, p: nat)
    requires p < |w| && !IsWhitespace(w[p])
    ensures p < |TrimEnd(w)|
  {
    if IsWhitespace(w[|w| - 1]) {
      TrimEndReaches(w[..|w| - 1], p);
    }
  }

  /** Dropping trailing blanks never makes a part longer than the whole. */
  lemma TrimEndPart(pre: string, s: string, post: string)
    ensures |TrimEnd(s)| <= |TrimEnd(pre + s + post)|
  {
    var k := |TrimEnd(s)|;
    if k > 0 {
      assert (pre + s + post)[|pre| + k - 1] == TrimEnd(s)[k - 1];
      TrimEndReaches(pre + s + post, |pre| + k - 1);
    }
  }

  /** The trimmed text is the one prefix that ends in a non-blank character
      and leaves a blank rest. */
  lemma {:induction false} TrimEndUnique(s: string, tail: string)
    requires IsBlank(tail)
    requires s == "" || !IsWhitespace(s[|s| - 1])
    ensures TrimEnd(s + tail) == s
  {
    if tail == "" {
      assert s + tail == s;
    } else {
      InitConcat(s, tail);
      TrimEndUnique(s, tail[..|tail| - 1]);
    }
  }

  /** The maximal runs without whitespace. */
  function Words(s: string, isSpace: char -> bool): seq<string> {
    if s == "" then [] else
      var front, c := s[..|s| - 1], s[|s| - 1];
      var ws := Words(front, isSpace);
      if isSpace(c) then ws
      else if ws == [] || isSpace(front[|front| - 1]) then ws + [[c]]
      else ws[..|ws| - 1] + [ws[|ws| - 1] + [c]]
  }

  /** The text is the words with these gaps around them. */
  function Weave(words: seq<string>, gaps: seq<string>): string
    requires |gaps| == |words| + 1
    decreases |words|
  {
    if words == [] then gaps[0]
    else Weave(words[..|words| - 1], gaps[..|words|]) + words[|words| - 1] + gaps[|words|]
  }

  ghost predicate AllChars(s: string, test: char -> bool) {
    forall i :: 0 <= i < |s| ==> test(s[i])
  }

  /** Words without a space, gaps of nothing else, and a real gap between any
      two words. */
  ghost predicate Woven(s: string, words: seq<string>, gaps: seq<string>, isSpace: char -> bool) {
    && |gaps| == |words| + 1 && Weave(words, gaps) == s
    && (forall k :: 0 <= k < |words| ==> words[k] != "" && AllChars(words[k], c => !isSpace(c)))
    && (forall k :: 0 <= k < |gaps| ==> AllChars(gaps[k], isSpace))
    && (forall k :: 1 <= k < |words| ==> gaps[k] != "")
  }

  lemma WeaveGap(words: seq<string>, gaps: seq<string>, c: char)
    requires |gaps| == |words| + 1
    ensures Weave(words, gaps[|words| := gaps[|words|] + [c]]) == Weave(words, gaps) + [c]
  {
    var n := |words|;
    if n > 0 {
      var grown := gaps[n := gaps[n] + [c]];
      assert grown[..n] == gaps[..n];
      Assoc(Weave(words[..n - 1], gaps[..n]) + words[n - 1], gaps[n], [c]);
    }
  }

  lemma WeaveWord(words: seq<string>, gaps: seq<string>, c: char)
    requires |gaps| == |words| + 1
    ensures Weave(words + [[c]], gaps + [""]) == Weave(words, gaps) + [c]
  {
    InitSnoc(words, [c]);
    InitSnoc(gaps, "");
    ConcatNil(Weave(words, gaps) + [c]);
  }

  lemma WeaveLast(words: seq<string>, gaps: seq<string>, c: char)
    requires words != [] && |gaps| == |words| + 1 && gaps[|words|] == ""
    ensures Weave(words[..|words| - 1] + [words[|words| - 1] + [c]], gaps) == Weave(words, gaps) + [c]
  {
    var n := |words|;
    var pre := Weave(words[..n - 1], gaps[..n]);
    InitSnoc(words[..n - 1], words[n - 1] + [c]);
    Assoc(pre, words[n - 1], [c]);
    ConcatNil(pre + words[n - 1]);
    ConcatNil(pre + (words[n - 1] + [c]));
  }

  /** The text ends in a space exactly if its last gap is a real one. */
  lemma WovenEnd(s: string, words: seq<string>, gaps: seq<string>, isSpace: char -> bool)
    requires Woven(s, words, gaps, isSpace) && words != []
    ensures s != "" && (isSpace(s[|s| - 1]) <==> gaps[|words|] != "")
  {
    var n := |words|;
    var word, gap := words[n - 1], gaps[n];
    assert s == Weave(words[..n - 1], gaps[..n]) + word + gap;
    if gap != "" {
      assert s[|s| - 1] == gap[|gap| - 1];
    } else {
      assert s[|s| - 1] == word[|word| - 1];
    }
  }

  lemma WovenGap(s: string, words: seq<string>, gaps: seq<string>, isSpace: char -> bool, c: char)
    requires Woven(s, words, gaps, isSpace) && isSpace(c)
    ensures Woven(s + [c], words, gaps[|words| := gaps[|words|] + [c]], isSpace)
  {
    WeaveGap(words, gaps, c);
  }

  lemma WovenWord(s: string, words: seq<string>, gaps: seq<string>, isSpace: char -> bool, c: char)
    requires Woven(s, words, gaps, isSpace) && !isSpace(c)
    requires words == [] || (s != "" && isSpace(s[|s| - 1]))
    ensures Woven(s + [c], words + [[c]], gaps + [""], isSpace)
  {
    if words != [] {
      WovenEnd(s, words, gaps, isSpace);
    }
    WeaveWord(words, gaps, c);
  }

  lemma WovenLast(s: string, words: seq<string>, gaps: seq<string>, isSpace: char -> bool, c: char)
    requires Woven(s, words, gaps, isSpace) && !isSpace(c)
    requires words != [] && s != "" && !isSpace(s[|s| - 1])
    ensures Woven(s + [c], words[..|words| - 1] + [words[|words| - 1] + [c]], gaps, isSpace)
  {
    WovenEnd(s, words, gaps, isSpace);
    WeaveLast(words, gaps, c);
  }

  /** The words are the maximal runs without a space. */
  lemma {:induction false} WordsAre(s: string, isSpace: char -> bool) returns (gaps: seq<string>)
    ensures Woven(s, Words(s, isSpace), gaps, isSpace)
  {
    if s == "" {
      gaps := [""];
    } else {
      var front, c := s[..|s| - 1], s[|s| - 1];
      var before := WordsAre(front, isSpace);
      var ws := Words(front, isSpace);
      SnocInit(s);
      if isSpace(c) {
        gaps := before[|ws| := before[|ws|] + [c]];
        WovenGap(front, ws, before, isSpace, c);
      } else if ws == [] || isSpace(front[|front| - 1]) {
        gaps := before + [""];
        WovenWord(front, ws, before, isSpace, c);
      } else {
        gaps := before;
        WovenLast(front, ws, before, isSpace, c);
      }
    }
  }

  /** Most values UTF-8 holds in this many bytes. */
  function Utf8Room(width: nat): nat {
    if width == 0 then 0 else if width == 1 then 0x80 else if width == 2 then 0x800
    else if width == 3 then 0x1_0000 else 0x20_0000
  }

  /** A character takes the fewest bytes that hold it, and a text the sum. */
  lemma Utf8Shortest(s: string, c: char)
    ensures ByteLen("") == 0 && Utf8Room(ByteLen([c]) - 1) <= c as int < Utf8Room(ByteLen([c]))
    ensures ByteLen(s + [c]) == ByteLen(s) + ByteLen([c])
  {
    assert [c][..0] == "";
    ByteLenConcat(s, [c]);
  }
}
