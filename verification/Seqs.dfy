/** Facts about slices and concatenation that the verifier should be told
    rather than search for. */
module Seqs {

  lemma TakeNext<T>(s: seq<T>, i: nat)
    requires i < |s|
    ensures s[..i + 1] == s[..i] + [s[i]]
  {
  }

  lemma TakeTwice<T>(s: seq<T>, i: nat)
    requires i < |s|
    ensures s[..i + 1][..i] == s[..i]
  {
  }

  lemma TakeAll<T>(s: seq<T>)
    ensures s[..|s|] == s
  {
  }

  lemma Assoc<T>(a: seq<T>, b: seq<T>, c: seq<T>)
    ensures a + b + c == a + (b + c)
  {
  }

  lemma InitSnoc<T>(s: seq<T>, x: T)
    ensures (s + [x])[..|s|] == s
  {
  }

  lemma SnocInit<T>(s: seq<T>)
    requires s != []
    ensures s == s[..|s| - 1] + [s[|s| - 1]]
  {
  }

  lemma InitConcat<T>(a: seq<T>, b: seq<T>)
    requires b != []
    ensures (a + b)[..|a + b| - 1] == a + b[..|b| - 1]
  {
  }

  lemma TailCons<T>(x: T, s: seq<T>)
    ensures ([x] + s)[1..] == s
  {
  }

  lemma TailConcat<T>(a: seq<T>, b: seq<T>)
    requires a != []
    ensures (a + b)[1..] == a[1..] + b
  {
  }

  lemma ConsTail<T>(s: seq<T>)
    requires s != []
    ensures s == [s[0]] + s[1..]
  {
  }

  lemma Middle<T>(a: seq<T>, b: seq<T>, c: seq<T>, k: nat)
    requires k < |b|
    ensures (a + b + c)[|a| + k] == b[k]
  {
  }

  lemma ConcatNil<T>(a: seq<T>)
    ensures a + [] == a && [] + a == a
  {
  }

  ghost predicate Distinct<T>(s: seq<T>) {
    forall i, j :: 0 <= i < j < |s| ==> s[i] != s[j]
  }

  /** Every element once, in order of first occurrence. */
  function FirstOccurrences<T(==)>(s: seq<T>): seq<T> {
    if s == [] then [] else
      var front, x := FirstOccurrences(s[..|s| - 1]), s[|s| - 1];
      if x in front then front else front + [x]
  }

  /** The positions of exactly the elements that pass, in order. */
  ghost predicate Selects<T>(at: seq<nat>, s: seq<T>, test: T -> bool) {
    && (forall i, j :: 0 <= i < j < |at| ==> at[i] < at[j])
    && (forall i :: 0 <= i < |at| ==> at[i] < |s| && test(s[at[i]]))
    && (forall p: nat :: p < |s| && test(s[p]) ==> p in at)
  }

  lemma SelectsSnoc<T>(at: seq<nat>, s: seq<T>, x: T, test: T -> bool)
    requires Selects(at, s, test)
    ensures Selects(if test(x) then at + [|s|] else at, s + [x], test)
  {
    var next := if test(x) then at + [|s|] else at;
    forall p: nat | p < |s + [x]| && test((s + [x])[p]) ensures p in next {
      if p < |s| {
        assert p in at;
      } else {
        assert next[|at|] == p;
      }
    }
  }

  /** The elements that pass, in order. */
  ghost predicate Chosen<T>(kept: seq<T>, s: seq<T>, at: seq<nat>, test: T -> bool) {
    Selects(at, s, test) && |kept| == |at| && forall k :: 0 <= k < |at| ==> kept[k] == s[at[k]]
  }

  lemma ChosenSnoc<T>(kept: seq<T>, s: seq<T>, x: T, before: seq<nat>, test: T -> bool) returns (at: seq<nat>)
    requires Chosen(kept, s, before, test)
    ensures Chosen(if test(x) then kept + [x] else kept, s + [x], at, test)
  {
    at := if test(x) then before + [|s|] else before;
    SelectsSnoc(before, s, x, test);
    PickedSnoc(kept, s, x, before);
  }

  lemma PickedSnoc<T>(kept: seq<T>, s: seq<T>, x: T, at: seq<nat>)
    requires |kept| == |at| && forall k :: 0 <= k < |at| ==> at[k] < |s| && kept[k] == s[at[k]]
    ensures forall k :: 0 <= k < |at| ==> at[k] < |s| && kept[k] == (s + [x])[at[k]]
    ensures forall k :: 0 <= k < |at + [|s|]| ==>
      (at + [|s|])[k] < |s + [x]| && (kept + [x])[k] == (s + [x])[(at + [|s|])[k]]
  {
  }
}
