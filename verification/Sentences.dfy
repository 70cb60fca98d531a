/** The sentence splitter of the boundary passes and its inverse, joining
    units with one space. */
module Sentences {
  import opened Seqs
  import opened Text

  predicate IsTerminator(c: char) {
    c == '.' || c == '!' || c == '?'
  }

  /** The space at index `i` ends a sentence: it follows a terminator, and not
      a full stop right after an ASCII digit. */
  predicate Cut(t: string, i: int)
    requires 1 <= i < |t|
  {
    && t[i] == ' '
    && IsTerminator(t[i - 1])
    && !(t[i - 1] == '.' && i >= 2 && IsAsciiDigit(t[i - 2]))
  }

  /** First cut at or after `i`, or the length when there is none. */
  function FirstCut(t: string, i: nat): (r: nat)
    requires 1 <= i
    ensures r <= |t|
    ensures r < |t| ==> i <= r && Cut(t, r)
    ensures forall j :: i <= j < r ==> !Cut(t, j)
    decreases |t| - i
  {
    if i >= |t| then |t| else if Cut(t, i) then i else FirstCut(t, i + 1)
  }

  /** The sentence units of a text; a blank rest after the last cut is dropped. */
  function Units(t: string): seq<string>
    decreases |t|
  {
    var i := FirstCut(t, 1);
    if i < |t| then [t[..i]] + Units(t[i + 1..])
    else if IsBlank(t) then [] else [t]
  }

  /** What `Units` drops at the end of the text. */
  function DroppedTail(t: string): string
    decreases |t|
  {
    var i := FirstCut(t, 1);
    if i < |t| then
      (if Units(t[i + 1..]) == [] then t[i..] else DroppedTail(t[i + 1..]))
    else if IsBlank(t) then t else ""
  }

  /** Cuts depend on the left context only through the space before a unit, so
      the digit guard decides alike in the whole text and in the rest of it. */
  lemma CutInRest(t: string, start: nat, j: int)
    requires 1 <= j < |t| - start
    requires start == 0 || t[start - 1] == ' '
    ensures Cut(t[start..], j) == Cut(t, start + j)
  {
  }

  lemma FirstCutIs(t: string, i: nat)
    requires 1 <= i <= |t|
    requires forall j :: 1 <= j < i ==> !Cut(t, j)
    requires i < |t| ==> Cut(t, i)
    ensures FirstCut(t, 1) == i
  {
  }

  /** The units found so far, the start of the open one, the scan position. */
  ghost predicate Scanning(text: string, units: seq<string>, start: int, i: int) {
    && 0 <= start <= |text| && start <= i
    && (start == 0 || text[start - 1] == ' ')
    && (forall j :: start < j < i && j < |text| ==> !Cut(text, j))
    && units + Units(text[start..]) == Units(text)
  }

  lemma ScanStart(text: string)
    ensures Scanning(text, [], 0, 1)
  {
    assert text[0..] == text;
    ConcatNil(Units(text));
  }

  lemma ScanStep(text: string, units: seq<string>, start: int, i: int)
    requires Scanning(text, units, start, i) && 1 <= i < |text|
    ensures Cut(text, i) ==> start < i && Scanning(text, units + [text[start..i]], i + 1, i + 1)
    ensures !Cut(text, i) ==> Scanning(text, units, start, i + 1)
  {
    if Cut(text, i) {
      UnitsStep(text, start, i, units);
    }
  }

  /** `sentences`: one scan over the characters with a moving unit start. */
  method Split(text: string) returns (units: seq<string>)
    ensures units == Units(text)
  {
    units := [];
    var start, i := 0, 1;
    ScanStart(text);
    while i < |text|
      invariant 1 <= i && Scanning(text, units, start, i)
      invariant i <= |text| || i == 1
    {
      ScanStep(text, units, start, i);
      if Cut(text, i) {
        units := units + [text[start..i]];
        start := i + 1;
      }
      i := i + 1;
    }
    var rest := text[start..];
    RestHasNoCut(text, start);
    if IsBlank(rest) {
      ConcatNil(units);
    } else {
      units := units + [rest];
    }
  }

  lemma UnitsStep(text: string, start: nat, i: nat, before: seq<string>)
    requires start < i < |text| && Cut(text, i)
    requires start == 0 || text[start - 1] == ' '
    requires forall j :: start < j < i ==> !Cut(text, j)
    ensures before + Units(text[start..]) == before + [text[start..i]] + Units(text[i + 1..])
  {
    var rest := text[start..];
    forall j | 1 <= j <= i - start ensures Cut(rest, j) == Cut(text, start + j) {
      CutInRest(text, start, j);
    }
    FirstCutIs(rest, i - start);
    RestSlices(text, start, i);
    Assoc(before, [text[start..i]], Units(text[i + 1..]));
  }

  lemma RestSlices(text: string, start: nat, i: nat)
    requires start <= i < |text|
    ensures text[start..][..i - start] == text[start..i]
    ensures text[start..][i - start + 1..] == text[i + 1..]
  {
  }

  lemma RestHasNoCut(text: string, start: nat)
    requires start <= |text|
    requires start == 0 || text[start - 1] == ' '
    requires forall j :: start < j < |text| ==> !Cut(text, j)
    ensures Units(text[start..]) == if IsBlank(text[start..]) then [] else [text[start..]]
  {
    var rest := text[start..];
    forall j | 1 <= j < |rest| ensures !Cut(rest, j) {
      CutInRest(text, start, j);
    }
  }

  // ---- Where the units end, character by character ------------------------

  /** A space behind `.`, `!` or `?`, but not behind a digit and `.`. */
  ghost predicate EndsUnit(t: string, i: int) {
    && 1 <= i < |t| && t[i] == ' ' && (t[i - 1] == '.' || t[i - 1] == '!' || t[i - 1] == '?')
    && !(t[i - 1] == '.' && i >= 2 && '0' <= t[i - 2] <= '9')
  }

  /** Exactly these positions before `n` end a unit, in order. */
  ghost predicate EndsBefore(t: string, ends: seq<nat>, n: int) {
    && (forall i, j :: 0 <= i < j < |ends| ==> ends[i] < ends[j])
    && (forall i :: 0 <= i < |ends| ==> ends[i] < n && EndsUnit(t, ends[i]))
    && (forall i: nat :: i < n && EndsUnit(t, i) ==> i in ends)
  }

  /** Where the text behind the last of these ends starts. */
  function Behind(ends: seq<nat>): nat {
    if ends == [] then 0 else ends[|ends| - 1] + 1
  }

  /** The stretches of the text up to each end, from behind the end before it. */
  function Stretches(t: string, ends: seq<nat>): seq<string> {
    if ends == [] then []
    else
      var front, end := ends[..|ends| - 1], ends[|ends| - 1];
      Stretches(t, front) + [if Behind(front) <= end <= |t| then t[Behind(front)..end] else ""]
  }

  lemma CutEndsUnit(t: string, i: int)
    requires 1 <= i < |t|
    ensures Cut(t, i) <==> EndsUnit(t, i)
  {
  }

  lemma EndsGrow(t: string, ends: seq<nat>, i: nat)
    requires EndsBefore(t, ends, i)
    ensures EndsBefore(t, if EndsUnit(t, i) then ends + [i] else ends, i + 1)
  {
    var next := if EndsUnit(t, i) then ends + [i] else ends;
    forall j: nat | j < i + 1 && EndsUnit(t, j) ensures j in next {
      if j < i {
        assert j in ends;
      } else {
        assert next[|ends|] == j;
      }
    }
  }

  lemma StretchesGrow(t: string, ends: seq<nat>, i: nat)
    requires Behind(ends) <= i <= |t|
    ensures Stretches(t, ends + [i]) == Stretches(t, ends) + [t[Behind(ends)..i]]
  {
    InitSnoc(ends, i);
  }

  /** The unit ends before `n`. */
  ghost function EndsOf(t: string, n: nat): seq<nat> {
    if n == 0 then [] else if EndsUnit(t, n - 1) then EndsOf(t, n - 1) + [n - 1] else EndsOf(t, n - 1)
  }

  lemma {:induction false} EndsOfAre(t: string, n: nat)
    ensures EndsBefore(t, EndsOf(t, n), n)
  {
    if n > 0 {
      EndsOfAre(t, n - 1);
      EndsGrow(t, EndsOf(t, n - 1), n - 1);
    }
  }

  lemma {:induction false} ScanOfEnds(t: string, i: nat)
    requires 1 <= i <= |t|
    ensures Scanning(t, Stretches(t, EndsOf(t, i)), Behind(EndsOf(t, i)), i)
  {
    if i == 1 {
      ScanStart(t);
      assert EndsOf(t, 1) == [];
    } else {
      var j := i - 1;
      ScanOfEnds(t, j);
      CutEndsUnit(t, j);
      ScanStep(t, Stretches(t, EndsOf(t, j)), Behind(EndsOf(t, j)), j);
      if Cut(t, j) {
        StretchesGrow(t, EndsOf(t, j), j);
      }
    }
  }

  /** The units of a text are the stretches between its unit ends, and what is
      left behind the last one unless it is blank. */
  lemma UnitsBetweenEnds(t: string) returns (ends: seq<nat>)
    ensures EndsBefore(t, ends, |t|) && Behind(ends) <= |t|
    ensures var rest := t[Behind(ends)..]; Units(t) == Stretches(t, ends) + (if IsBlank(rest) then [] else [rest])
  {
    ends := EndsOf(t, |t|);
    EndsOfAre(t, |t|);
    if t != "" {
      ScanOfEnds(t, |t|);
    } else {
      ScanStart(t);
    }
    UnitsOfScan(t, Stretches(t, ends), Behind(ends));
  }

  lemma UnitsOfScan(t: string, units: seq<string>, start: nat)
    requires start <= |t| && Scanning(t, units, start, if |t| == 0 then 1 else |t|)
    ensures Units(t) == units + (if IsBlank(t[start..]) then [] else [t[start..]])
  {
    RestHasNoCut(t, start);
  }

  // ---- Units and joining undo each other --------------------------------

  /** A unit no cut falls into. */
  ghost predicate Closed(u: string) {
    forall j :: 1 <= j < |u| ==> !Cut(u, j)
  }

  /** A space put after `u` would be a cut. */
  predicate EndsSentence(u: string) {
    && u != ""
    && IsTerminator(u[|u| - 1])
    && !(u[|u| - 1] == '.' && |u| >= 2 && IsAsciiDigit(u[|u| - 2]))
  }

  /** What the splitter can return: closed units, each but the last ending a
      sentence, the last one not blank. */
  ghost predicate IsUnitRun(us: seq<string>) {
    && (forall k :: 0 <= k < |us| ==> Closed(us[k]) && !IsBlank(us[k]))
    && (forall k :: 0 <= k < |us| - 1 ==> EndsSentence(us[k]))
  }

  lemma {:induction false} UnitsAreRun(t: string)
    ensures IsUnitRun(Units(t))
    decreases |t|
  {
    var i := FirstCut(t, 1);
    if i < |t| {
      UnitsAreRun(t[i + 1..]);
      HeadUnit(t, i);
      RunBefore(t[..i], Units(t[i + 1..]));
    }
  }

  lemma RunBefore(u: string, us: seq<string>)
    requires Closed(u) && EndsSentence(u) && !IsBlank(u) && IsUnitRun(us)
    ensures IsUnitRun([u] + us)
  {
  }

  lemma HeadUnit(t: string, i: nat)
    requires 1 <= i < |t| && Cut(t, i)
    requires forall j :: 1 <= j < i ==> !Cut(t, j)
    ensures Closed(t[..i]) && EndsSentence(t[..i]) && !IsBlank(t[..i])
  {
    assert !IsWhitespace(t[..i][i - 1]);
    assert forall j :: 1 <= j < i ==> Cut(t[..i], j) == Cut(t, j);
  }

  lemma JoinHead(head: string, rest: string, us: seq<string>, tail: string)
    requires rest == Join(us, " ") + tail && IsBlank(tail)
    ensures head + " " + rest ==
      Join([head] + us, " ") + (if us == [] then " " + rest else tail)
  {
    if us == [] {
      assert [head] + us == [head];
      assert head + " " + rest == head + (" " + rest);
    } else {
      JoinConcat([head], us, " ");
    }
  }

  /** Joining the units gives the text back up to a blank tail. */
  lemma {:induction false} JoinOfUnits(t: string)
    ensures t == Join(Units(t), " ") + DroppedTail(t)
    ensures IsBlank(DroppedTail(t))
    decreases |t|
  {
    var i := FirstCut(t, 1);
    if i < |t| {
      var rest := t[i + 1..];
      JoinOfUnits(rest);
      RejoinCut(t, i);
    }
  }

  lemma RejoinCut(t: string, i: nat)
    requires i < |t| && t[i] == ' '
    requires var rest := t[i + 1..]; rest == Join(Units(rest), " ") + DroppedTail(rest) && IsBlank(DroppedTail(rest))
    ensures var rest := t[i + 1..];
      var tail := if Units(rest) == [] then t[i..] else DroppedTail(rest);
      t == Join([t[..i]] + Units(rest), " ") + tail && IsBlank(tail)
  {
    var rest := t[i + 1..];
    assert t == t[..i] + " " + rest && t[i..] == " " + rest;
    JoinHead(t[..i], rest, Units(rest), DroppedTail(rest));
  }

  /** Splitting a joined unit run gives the run back. */
  lemma {:induction false} UnitsOfJoin(us: seq<string>)
    requires IsUnitRun(us)
    ensures Units(Join(us, " ")) == us
    decreases |us|
  {
    if us == [] {
      assert Join(us, " ") == "";
    } else if |us| == 1 {
      FirstCutIs(us[0], |us[0]|);
    } else {
      var head, rest := us[0], us[1..];
      assert us == [head] + rest;
      JoinConcat([head], rest, " ");
      UnitsOfJoin(rest);
      HeadCut(head, Join(rest, " "));
    }
  }

  lemma HeadCut(head: string, rest: string)
    requires Closed(head) && EndsSentence(head)
    ensures Units(head + " " + rest) == [head] + Units(rest)
  {
    var t := head + " " + rest;
    assert forall j :: 1 <= j < |head| ==> Cut(t, j) == Cut(head, j);
    FirstCutIs(t, |head|);
    assert t[..|head|] == head && t[|head| + 1..] == rest;
  }

  /** Splitting the join of any contiguous run of a text's units returns
      exactly that run. */
  lemma UnitsOfSubrun(t: string, lo: nat, hi: nat)
    requires lo <= hi <= |Units(t)|
    ensures Units(Join(Units(t)[lo..hi], " ")) == Units(t)[lo..hi]
  {
    UnitsAreRun(t);
    UnitsOfJoin(Units(t)[lo..hi]);
  }

  /** The image of the splitter is exactly the unit runs. */
  lemma UnitRunsExactly(us: seq<string>)
    ensures IsUnitRun(us) <==> exists t: string :: Units(t) == us
  {
    if IsUnitRun(us) {
      UnitsOfJoin(us);
    }
    forall t: string | Units(t) == us ensures IsUnitRun(us) {
      UnitsAreRun(t);
    }
  }

  /** A text is a single sentence (or blank) when it has at most one unit. */
  predicate SingleSentence(t: string) {
    |Units(t)| <= 1
  }
}
