/** Fragment ids stay distinct through positions, the document prefix and the
    suffixes the split passes append. */
module FragmentIds {
  import opened Text
  import opened Numerals
  import opened Fragments
  import opened SplitPasses

  /** The id ends in `tag` followed by digits only. */
  ghost predicate Tagged(id: string, tag: char) {
    exists p: string, d: string :: AllDigits(d) && id == p + [tag] + d
  }

  ghost predicate AllTagged(fs: seq<Fragment>, tags: set<char>) {
    forall i :: 0 <= i < |fs| ==> exists tag :: tag in tags && Tagged(fs[i].id, tag)
  }

  lemma TagsExclude(id: string, a: char, b: char)
    requires Tagged(id, a) && !IsAsciiDigit(a) && !IsAsciiDigit(b) && a != b
    ensures !Tagged(id, b)
  {
    var p, d :| AllDigits(d) && id == p + [a] + d;
    forall q: string, e: string | AllDigits(e) && id == q + [b] + e ensures false {
      TagUnique(p, a, d, q, b, e);
    }
  }

  // ---- Splitting -------------------------------------------------------

  /** The id is the parent's, or the parent's with a numbered suffix. */
  ghost predicate Derived(id: string, parent: string, tag: char) {
    id == parent || exists n: nat :: id == parent + ['-', tag] + Decimal(n)
  }

  lemma PieceTagged(parent: string, tag: char, n: nat)
    ensures Tagged(parent + ['-', tag] + Decimal(n), tag)
  {
    assert parent + ['-', tag] + Decimal(n) == (parent + ['-']) + [tag] + Decimal(n);
  }

  /** Different untagged parents never share a derived id. */
  lemma DerivedApart(id: string, p: string, q: string, tag: char)
    requires !IsAsciiDigit(tag) && !Tagged(p, tag) && !Tagged(q, tag)
    requires Derived(id, p, tag) && Derived(id, q, tag)
    ensures p == q
  {
    if id != p {
      var n: nat :| id == p + ['-', tag] + Decimal(n);
      PieceTagged(p, tag, n);
      var m: nat :| id == q + ['-', tag] + Decimal(m);
      assert p + ['-', tag] == (p + ['-']) + [tag] && q + ['-', tag] == (q + ['-']) + [tag];
      TagUnique(p + ['-'], tag, Decimal(n), q + ['-'], tag, Decimal(m));
      assert p == (p + ['-'])[..|p|] && q == (q + ['-'])[..|q|];
    } else if id != q {
      var m: nat :| id == q + ['-', tag] + Decimal(m);
      PieceTagged(q, tag, m);
    }
  }

  lemma PiecesDistinct(f: Fragment, s: Splitter, tag: char)
    requires s.suffix == ['-', tag]
    ensures DistinctIds(SplitOne(f, s))
    ensures forall k :: 0 <= k < |SplitOne(f, s)| ==> Derived(SplitOne(f, s)[k].id, f.id, tag)
  {
    if Splits(f, s) {
      var ps := SplitOne(f, s);
      forall i, j | 0 <= i < j < |ps| ensures ps[i].id != ps[j].id {
        DecimalInjective(i, j);
        assert Decimal(i) == ps[i].id[|f.id| + 2..] && Decimal(j) == ps[j].id[|f.id| + 2..];
      }
    }
  }

  /** Every id of a split list derives from some input id. */
  ghost predicate ComesFrom(id: string, fs: seq<Fragment>, tag: char) {
    exists i :: 0 <= i < |fs| && Derived(id, fs[i].id, tag)
  }

  /** A split pass keeps ids distinct when no input id already ends like one
      of its own pieces. */
  lemma {:induction false} SplitKeepsIds(fs: seq<Fragment>, s: Splitter, tag: char)
    requires s.suffix == ['-', tag] && !IsAsciiDigit(tag)
    requires DistinctIds(fs) && forall i :: 0 <= i < |fs| ==> !Tagged(fs[i].id, tag)
    ensures DistinctIds(SplitAll(fs, s))
    ensures forall k :: 0 <= k < |SplitAll(fs, s)| ==> ComesFrom(SplitAll(fs, s)[k].id, fs, tag)
  {
    if fs != [] {
      var front, last := fs[..|fs| - 1], fs[|fs| - 1];
      SplitKeepsIds(front, s, tag);
      PiecesDistinct(last, s, tag);
      var a, b := SplitAll(front, s), SplitOne(last, s);
      forall i, j | 0 <= i < |a| && 0 <= j < |b| ensures a[i].id != b[j].id {
        assert ComesFrom(a[i].id, front, tag);
        var k :| 0 <= k < |front| && Derived(a[i].id, front[k].id, tag);
        assert fs[k].id != fs[|fs| - 1].id;
        if a[i].id == b[j].id {
          DerivedApart(a[i].id, front[k].id, last.id, tag);
        }
      }
      DistinctConcat(a, b);
      OriginsConcat(fs, s, tag);
    }
  }

  lemma DistinctConcat(a: seq<Fragment>, b: seq<Fragment>)
    requires DistinctIds(a) && DistinctIds(b)
    requires forall i, j :: 0 <= i < |a| && 0 <= j < |b| ==> a[i].id != b[j].id
    ensures DistinctIds(a + b)
  {
  }

  lemma OriginsConcat(fs: seq<Fragment>, s: Splitter, tag: char)
    requires fs != []
    requires var front := fs[..|fs| - 1];
      forall k :: 0 <= k < |SplitAll(front, s)| ==> ComesFrom(SplitAll(front, s)[k].id, front, tag)
    requires var f := fs[|fs| - 1];
      forall k :: 0 <= k < |SplitOne(f, s)| ==> Derived(SplitOne(f, s)[k].id, f.id, tag)
    ensures forall k :: 0 <= k < |SplitAll(fs, s)| ==> ComesFrom(SplitAll(fs, s)[k].id, fs, tag)
  {
    var front, last := fs[..|fs| - 1], fs[|fs| - 1];
    var a, b, c := SplitAll(front, s), SplitOne(last, s), SplitAll(fs, s);
    forall k | 0 <= k < |c| ensures ComesFrom(c[k].id, fs, tag) {
      if k < |a| {
        assert c[k] == a[k];
        var i :| 0 <= i < |front| && Derived(a[k].id, front[i].id, tag);
        assert Derived(c[k].id, fs[i].id, tag);
      } else {
        assert c[k] == b[k - |a|];
        assert Derived(c[k].id, fs[|fs| - 1].id, tag);
      }
    }
  }

  /** A split pass adds its own tag to the tags that occur. */
  lemma SplitTags(fs: seq<Fragment>, s: Splitter, tag: char, tags: set<char>)
    requires forall k :: 0 <= k < |SplitAll(fs, s)| ==> ComesFrom(SplitAll(fs, s)[k].id, fs, tag)
    requires AllTagged(fs, tags)
    ensures AllTagged(SplitAll(fs, s), tags + {tag})
  {
    var out := SplitAll(fs, s);
    forall k | 0 <= k < |out| ensures exists t :: t in tags + {tag} && Tagged(out[k].id, t) {
      assert ComesFrom(out[k].id, fs, tag);
      var i :| 0 <= i < |fs| && Derived(out[k].id, fs[i].id, tag);
      if out[k].id == fs[i].id {
        var t :| t in tags && Tagged(fs[i].id, t);
        assert t in tags + {tag} && Tagged(out[k].id, t);
      } else {
        var n: nat :| out[k].id == fs[i].id + ['-', tag] + Decimal(n);
        PieceTagged(fs[i].id, tag, n);
        assert tag in tags + {tag};
      }
    }
  }

  lemma NotTagged(fs: seq<Fragment>, tags: set<char>, tag: char)
    requires AllTagged(fs, tags) && tag !in tags && !IsAsciiDigit(tag)
    requires forall t :: t in tags ==> !IsAsciiDigit(t)
    ensures forall i :: 0 <= i < |fs| ==> !Tagged(fs[i].id, tag)
  {
    forall i | 0 <= i < |fs| ensures !Tagged(fs[i].id, tag) {
      var t :| t in tags && Tagged(fs[i].id, t);
      TagsExclude(fs[i].id, t, tag);
    }
  }
}
