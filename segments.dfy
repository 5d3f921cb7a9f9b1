/** `_segments_gen` of both analyzers: every split of a word into a prefix
    of at most `maxPrefix` characters, a non-empty stem and a suffix of at
    most `maxSuffix` characters, shortest prefix first and, for one
    prefix, shortest stem first. */
module Segmenter {

  datatype Seg = Seg(prefix: string, stem: string, suffix: string)

  /** The triple cuts `word` into three consecutive pieces. */
  predicate Cuts(word: string, t: Seg)
  {
    t.prefix + t.stem + t.suffix == word
  }

  /** The splits the generator is meant to enumerate. */
  predicate Allowed(word: string, maxPrefix: nat, maxSuffix: nat, t: Seg)
  {
    Cuts(word, t) && |t.stem| >= 1 && |t.prefix| <= maxPrefix && |t.suffix| <= maxSuffix
  }

  /** The inner loop: prefix length `p`, stem lengths `s` up to `|word| - p`. */
  function Row(word: string, p: nat, s: nat): seq<Seg>
    requires p <= |word|
    decreases |word| - p - s
  {
    if p + s > |word| then []
    else [Seg(word[..p], word[p..p + s], word[p + s..])] + Row(word, p, s + 1)
  }

  /** The outer loop from prefix length `p` on. */
  function Rows(word: string, p: nat, maxPrefix: nat, maxSuffix: nat): seq<Seg>
    decreases |word| - p
  {
    if p > maxPrefix || p >= |word| then []
    else
      var lo := if |word| - p - maxSuffix > 1 then |word| - p - maxSuffix else 1;
      Row(word, p, lo) + Rows(word, p + 1, maxPrefix, maxSuffix)
  }

  /** `_segments_gen(word, max_prefix, max_suffix)`. */
  function Segments(word: string, maxPrefix: nat, maxSuffix: nat): seq<Seg>
  {
    Rows(word, 0, maxPrefix, maxSuffix)
  }

  /** `a` comes strictly before `b` in the generator's order. */
  predicate Before(a: Seg, b: Seg)
  {
    |a.prefix| < |b.prefix| || (|a.prefix| == |b.prefix| && |a.stem| < |b.stem|)
  }

  predicate Ordered(segs: seq<Seg>)
  {
    forall i, j :: 0 <= i < j < |segs| ==> Before(segs[i], segs[j])
  }

  /** A split is determined by its word and the lengths of its first two
      pieces. */
  lemma CutAt(word: string, t: Seg)
    requires Cuts(word, t)
    ensures t == Seg(word[..|t.prefix|], word[|t.prefix|..|t.prefix| + |t.stem|], word[|t.prefix| + |t.stem|..])
  {
    var p, s := |t.prefix|, |t.stem|;
    assert word[..p] == t.prefix;
    assert word[p..p + s] == t.stem;
    assert word[p + s..] == t.suffix;
  }

  lemma {:induction false} RowMembers(word: string, p: nat, s: nat, t: Seg)
    requires p <= |word|
    ensures t in Row(word, p, s) <==> Cuts(word, t) && |t.prefix| == p && |t.stem| >= s
    decreases |word| - p - s
  {
    if p + s <= |word| {
      RowMembers(word, p, s + 1, t);
      var head := Seg(word[..p], word[p..p + s], word[p + s..]);
      assert Cuts(word, head) by {
        assert word[..p] + word[p..p + s] + word[p + s..] == word;
      }
      if Cuts(word, t) && |t.prefix| == p && |t.stem| == s {
        CutAt(word, t);
      }
    } else if Cuts(word, t) && |t.prefix| == p {
      assert |t.stem| <= |word| - p;
    }
  }

  lemma {:induction false} RowsMembers(word: string, p: nat, maxPrefix: nat, maxSuffix: nat, t: Seg)
    ensures t in Rows(word, p, maxPrefix, maxSuffix)
        <==> Allowed(word, maxPrefix, maxSuffix, t) && |t.prefix| >= p
    decreases |word| - p
  {
    if p > maxPrefix || p >= |word| {
      if Cuts(word, t) {
        assert |t.prefix| + |t.stem| + |t.suffix| == |word|;
      }
    } else {
      var lo := if |word| - p - maxSuffix > 1 then |word| - p - maxSuffix else 1;
      RowMembers(word, p, lo, t);
      RowsMembers(word, p + 1, maxPrefix, maxSuffix, t);
      if Cuts(word, t) {
        assert |t.prefix| + |t.stem| + |t.suffix| == |word|;
      }
    }
  }

  /** The generator yields exactly the allowed splits. */
  lemma SegmentsExact(word: string, maxPrefix: nat, maxSuffix: nat, t: Seg)
    ensures t in Segments(word, maxPrefix, maxSuffix) <==> Allowed(word, maxPrefix, maxSuffix, t)
  {
    RowsMembers(word, 0, maxPrefix, maxSuffix, t);
  }

  lemma {:induction false} RowOrdered(word: string, p: nat, s: nat)
    requires p <= |word|
    ensures Ordered(Row(word, p, s))
    ensures forall t :: t in Row(word, p, s) ==> |t.prefix| == p && |t.stem| >= s
    decreases |word| - p - s
  {
    if p + s <= |word| {
      RowOrdered(word, p, s + 1);
      var r := Row(word, p, s);
      assert r[1..] == Row(word, p, s + 1);
      forall i, j | 0 <= i < j < |r| ensures Before(r[i], r[j]) {
        if i > 0 {
          assert r[i] == r[1..][i - 1] && r[j] == r[1..][j - 1];
        } else {
          assert r[j] in Row(word, p, s + 1);
        }
      }
    }
  }

  lemma {:induction false} RowsOrdered(word: string, p: nat, maxPrefix: nat, maxSuffix: nat)
    ensures Ordered(Rows(word, p, maxPrefix, maxSuffix))
    ensures forall t :: t in Rows(word, p, maxPrefix, maxSuffix) ==> |t.prefix| >= p
    decreases |word| - p
  {
    if !(p > maxPrefix || p >= |word|) {
      var lo := if |word| - p - maxSuffix > 1 then |word| - p - maxSuffix else 1;
      RowOrdered(word, p, lo);
      RowsOrdered(word, p + 1, maxPrefix, maxSuffix);
      var a, b := Row(word, p, lo), Rows(word, p + 1, maxPrefix, maxSuffix);
      var r := a + b;
      forall i, j | 0 <= i < j < |r| ensures Before(r[i], r[j]) {
        if j < |a| {
          assert r[i] == a[i] && r[j] == a[j];
        } else if i >= |a| {
          assert r[i] == b[i - |a|] && r[j] == b[j - |a|];
        } else {
          assert r[i] == a[i] && r[j] == b[j - |a|];
          assert a[i] in a && b[j - |a|] in b;
        }
      }
      forall t | t in r ensures |t.prefix| >= p {
        assert t in a || t in b;
      }
    }
  }

  /** Shortest prefix first, then shortest stem: no split is yielded
      twice. */
  lemma SegmentsOrdered(word: string, maxPrefix: nat, maxSuffix: nat)
    ensures Ordered(Segments(word, maxPrefix, maxSuffix))
    ensures forall i, j :: 0 <= i < j < |Segments(word, maxPrefix, maxSuffix)| ==>
      Segments(word, maxPrefix, maxSuffix)[i] != Segments(word, maxPrefix, maxSuffix)[j]
  {
    RowsOrdered(word, 0, maxPrefix, maxSuffix);
  }

  /** The empty word has no split; a one-character word has only itself as
      stem. */
  lemma SegmentsSmall(c: char, maxPrefix: nat, maxSuffix: nat)
    ensures Segments("", maxPrefix, maxSuffix) == []
    ensures Segments([c], maxPrefix, maxSuffix) == [Seg("", [c], "")]
  {
    var w := [c];
    assert w[..0] == "" && w[0..1] == w && w[1..] == "";
    var lo := if 1 - maxSuffix > 1 then 1 - maxSuffix else 1;
    assert lo == 1;
    assert Row(w, 0, 2) == [];
    assert Row(w, 0, 1) == [Seg("", w, "")];
    assert Rows(w, 1, maxPrefix, maxSuffix) == [];
  }
}
