/** The analysis serialisers of the morphology command-line tools: a
    header line naming the word (or lemma), then either NO_ANALYSIS or one
    line per distinct analysis, each the `feat:value` pairs of the
    requested features in order, all joined by newlines. */
module CliSerialize {
  import opened PyStr
  import opened Features
  import opened SetOrder
  import opened CliParse

  /** `str(value)`: None prints as 'None', a float as its text. */
  function Show(v: Val): string
  {
    match v
    case Str(s) => s
    case Null => "None"
    case Float(t) => t
  }

  /** The `feat:value` pairs of the features of `order` the analysis has. */
  function Fields(a: Analysis, order: seq<string>): (r: seq<string>)
    ensures |r| <= |order|
  {
    if order == [] then []
    else
      var f := order[|order| - 1];
      Fields(a, order[..|order| - 1]) + if f in a then [f + ":" + Show(a[f])] else []
  }

  /** A field holds each feature of `order` the analysis has, and nothing else. */
  lemma {:induction false} FieldsMembers(a: Analysis, order: seq<string>, f: string)
    requires ':' !in f && forall i :: 0 <= i < |order| ==> ':' !in order[i]
    ensures (exists v :: f + ":" + v in Fields(a, order)) <==> f in a && f in order
    decreases |order|
  {
    if order != [] {
      var init := order[..|order| - 1];
      var g := order[|order| - 1];
      FieldsMembers(a, init, f);
      assert forall x :: x in order <==> x in init || x == g;
      if f in a && f == g {
        assert f + ":" + Show(a[f]) in Fields(a, order);
      }
      if exists v :: f + ":" + v in Fields(a, order) {
        var v :| f + ":" + v in Fields(a, order);
        if f + ":" + v !in Fields(a, init) {
          assert g in a && f + ":" + v == g + ":" + Show(a[g]);
          SameName(f, v, g, Show(a[g]));
        }
      }
    }
  }

  /** Two `name:value` texts with colon-free names agree on the name. */
  lemma SameName(f: string, v: string, g: string, w: string)
    requires ':' !in f && ':' !in g && f + ":" + v == g + ":" + w
    ensures f == g
  {
    TokenRoundTrip(f, v);
    TokenRoundTrip(g, w);
  }

  /** One analysis line. */
  function Line(a: Analysis, order: seq<string>): string
  {
    Join(" ", Fields(a, order))
  }

  function Lines(analyses: seq<Analysis>, order: seq<string>): (r: seq<string>)
    ensures |r| == |analyses| && forall i :: 0 <= i < |r| ==> r[i] == Line(analyses[i], order)
  {
    seq(|analyses|, i requires 0 <= i < |analyses| => Line(analyses[i], order))
  }

  /** The lines without repeats, each kept where it first occurs. */
  function Dedup(xs: seq<string>): seq<string>
  {
    if xs == [] then []
    else
      var d := Dedup(xs[..|xs| - 1]);
      if xs[|xs| - 1] in d then d else d + [xs[|xs| - 1]]
  }

  predicate Distinct(xs: seq<string>)
  {
    forall i, j :: 0 <= i < j < |xs| ==> xs[i] != xs[j]
  }

  /** Every line is kept, none is added and none repeats ... */
  lemma {:induction false} DedupMembers(xs: seq<string>)
    ensures forall x :: x in Dedup(xs) <==> x in xs
    ensures Distinct(Dedup(xs))
    decreases |xs|
  {
    if xs != [] {
      var init := xs[..|xs| - 1];
      DedupMembers(init);
      assert forall x :: x in xs <==> x in init || x == xs[|xs| - 1];
    }
  }

  /** ... and the order is that of first occurrence: extending the input
      only extends the output. */
  lemma {:induction false} DedupPrefix(xs: seq<string>, ys: seq<string>)
    ensures Dedup(xs) <= Dedup(xs + ys)
    decreases |ys|
  {
    if ys == [] {
      assert xs + ys == xs;
    } else {
      var init := ys[..|ys| - 1];
      DedupPrefix(xs, init);
      assert (xs + ys)[..|xs + ys| - 1] == xs + init;
    }
  }

  /** Lines that are already distinct are left as they are. */
  lemma {:induction false} DedupOfDistinct(xs: seq<string>)
    requires Distinct(xs)
    ensures Dedup(xs) == xs
    decreases |xs|
  {
    if xs != [] {
      var init := xs[..|xs| - 1];
      DedupOfDistinct(init);
      DedupMembers(init);
    }
  }

  function Header(word: string, generation: bool): string
  {
    (if generation then "#LEMMA: " else "#WORD: ") + word
  }

  /** The text `_serialize_analyses` of the morphology tool returns. */
  function Serialized(word: string, analyses: seq<Analysis>, order: seq<string>, generation: bool): string
  {
    var body := if analyses == [] then ["NO_ANALYSIS"] else Dedup(Lines(analyses, order));
    Join("\n", [Header(word, generation)] + body)
  }

  /** The header comes first; with no analyses the only other line is
      NO_ANALYSIS. */
  lemma SerializedShape(word: string, analyses: seq<Analysis>, order: seq<string>, generation: bool)
    ensures StartsWith(Serialized(word, analyses, order, generation), Header(word, generation))
    ensures analyses == [] ==> Serialized(word, analyses, order, generation) == Header(word, generation) + "\nNO_ANALYSIS"
  {
    var body := if analyses == [] then ["NO_ANALYSIS"] else Dedup(Lines(analyses, order));
    var all := [Header(word, generation)] + body;
    if analyses != [] {
      assert Lines(analyses, order)[0] in Lines(analyses, order);
      DedupMembers(Lines(analyses, order));
    }
    assert |body| >= 1;
    assert all[1..] == body;
    assert Join("\n", all) == Header(word, generation) + "\n" + Join("\n", body);
  }

  /** The dictionary-backed loop of the morphology tool: the analysis
      lines, in order, each the first time it appears. */
  method UniqueLines(analyses: seq<Analysis>, order: seq<string>) returns (lines: seq<string>)
    ensures lines == Dedup(Lines(analyses, order))
  {
    lines := [];
    var seen: set<string> := {};
    ghost var all := Lines(analyses, order);
    for i := 0 to |analyses|
      invariant lines == Dedup(all[..i])
      invariant forall x :: x in seen <==> x in lines
    {
      assert all[..i + 1][..i] == all[..i];
      var output := Join(" ", Fields(analyses[i], order));
      if output !in seen {
        seen := seen + {output};
        lines := lines + [output];
      }
    }
    assert all[..|analyses|] == all;
  }

  /** `_serialize_analyses` of the morphology tool. */
  method SerializeAnalyses(word: string, analyses: seq<Analysis>, order: seq<string>, generation: bool)
    returns (text: string)
    ensures text == Serialized(word, analyses, order, generation)
  {
    var buff := [Header(word, generation)];
    if |analyses| == 0 {
      buff := buff + ["NO_ANALYSIS"];
    } else {
      var lines := UniqueLines(analyses, order);
      buff := buff + lines;
    }
    text := Join("\n", buff);
  }

  // ------------------------------------------------ the set-based variant

  function LineSet(analyses: seq<Analysis>, order: seq<string>): set<string>
  {
    set i | 0 <= i < |analyses| :: Line(analyses[i], order)
  }

  /** The text `_serialize_analyses` of the CALIMA-star tool returns. Its
      lines come from a set, so their order is Python's set order; the
      model lists them in increasing order. */
  function SerializedSet(word: string, analyses: seq<Analysis>, order: seq<string>, generation: bool): string
  {
    var body := if analyses == [] then ["NO_ANALYSIS"] else Elems(LineSet(analyses, order));
    Join("\n", [Header(word, generation)] + body)
  }

  /** Each distinct analysis line is listed exactly once: the two tools
      list the same lines, differing only in order. */
  lemma SameLines(analyses: seq<Analysis>, order: seq<string>)
    ensures forall x :: x in Elems(LineSet(analyses, order)) <==> x in Dedup(Lines(analyses, order))
    ensures |Elems(LineSet(analyses, order))| == |Dedup(Lines(analyses, order))|
    ensures Distinct(Elems(LineSet(analyses, order)))
  {
    var ls := Lines(analyses, order);
    var d := Dedup(ls);
    DedupMembers(ls);
    var e := Elems(LineSet(analyses, order));
    forall x ensures x in e <==> x in d {
      if x in d {
        var i :| 0 <= i < |ls| && ls[i] == x;
        assert x == Line(analyses[i], order);
      }
    }
    ElemsSorted(LineSet(analyses, order));
    DistinctCount(d, LineSet(analyses, order));
  }

  /** A repeat-free list of exactly the members of a set has its size. */
  lemma {:induction false} DistinctCount(xs: seq<string>, s: set<string>)
    requires Distinct(xs) && forall x :: x in xs <==> x in s
    ensures |xs| == |s|
    decreases |xs|
  {
    if xs != [] {
      var last := xs[|xs| - 1];
      var init := xs[..|xs| - 1];
      assert forall x :: x in init <==> x in s - {last};
      DistinctCount(init, s - {last});
    } else {
      assert forall x :: x !in s;
      assert s == {};
    }
  }

  /** The set-filling loop of the CALIMA-star tool. */
  method LineSetOf(analyses: seq<Analysis>, order: seq<string>) returns (lines: set<string>)
    ensures lines == LineSet(analyses, order)
  {
    lines := {};
    for i := 0 to |analyses|
      invariant lines == LineSet(analyses[..i], order)
    {
      assert forall j :: 0 <= j < i ==> analyses[..i + 1][j] == analyses[..i][j];
      lines := lines + {Join(" ", Fields(analyses[i], order))};
      assert LineSet(analyses[..i + 1], order) == LineSet(analyses[..i], order) + {Line(analyses[i], order)};
    }
    assert analyses[..|analyses|] == analyses;
  }

  /** `_serialize_analyses` of the CALIMA-star tool. */
  method SerializeAnalysesSet(word: string, analyses: seq<Analysis>, order: seq<string>, generation: bool)
    returns (text: string)
    ensures text == SerializedSet(word, analyses, order, generation)
  {
    var buff := [Header(word, generation)];
    if |analyses| == 0 {
      buff := buff + ["NO_ANALYSIS"];
    } else {
      var lines := LineSetOf(analyses, order);
      buff := buff + Elems(lines);
    }
    text := Join("\n", buff);
  }
}
