/** `merge_features` of the legacy CALIMA-Star engine. Every feature of
    the separated family is always written, as prefix, stem and suffix
    values around two '+' signs, empty values included; the unseparated
    family is always concatenated; `gen` and `num` are always read. */
module CalimaMerge {
  import opened Wrappers
  import opened PyStr
  import opened Regex
  import opened Charsets
  import opened Features
  import opened MorphRewrite
  import opened CalimaRewrite
  import opened MorphMerge

  const CALIMA_CONCAT_FEATS: set<string> := {"diac", "bw", "gloss", "pattern", "caphi", "catib6", "ud"}
  const CALIMA_CONCAT_FEATS_NONE: set<string> :=
    {"d3tok", "d3seg", "atbseg", "d2seg", "d1seg", "d1tok", "d2tok", "atbtok"}

  /** `'{}+{}+{}'.format(...)`: the three values, empty ones included. */
  function ThreeJoin(p: Feats, s: Feats, x: Feats, k: string): string
  {
    Get(p, k, "") + "+" + Get(s, k, "") + "+" + Get(x, k, "")
  }

  /** `'{}{}{}'.format(...)`: the three values with no separator. */
  function PlainConcat(p: Feats, s: Feats, x: Feats, k: string): string
  {
    Get(p, k, "") + Get(s, k, "") + Get(x, k, "")
  }

  /** The pattern built from the prefix's and suffix's diac around the
      stem's pattern, which is not rewritten. */
  function CalimaPatternOf(p: Feats, s: Feats, x: Feats): string
    requires "pattern" in s
  {
    Get(p, "diac", "") + s["pattern"] + Get(x, "diac", "")
  }

  /** The keys the legacy `merge_features` reads without a default:
      `stem['diac']`, `result['gen']`, `result['num']`, their `form_`
      fallbacks when the value is '-', and `stem['pattern']` when the
      pattern is recomputed. */
  predicate CalimaReadable(computeFeats: set<string>, p: Feats, s: Feats, x: Feats)
  {
    && "diac" in s && "gen" in s && "num" in s
    && (Override(p, s, x, "gen") == "-" ==> "form_gen" in s)
    && (Override(p, s, x, "num") == "-" ==> "form_num" in s)
    && ("pattern" in computeFeats ==> "pattern" in s)
  }

  function CalimaMergedKeys(computeFeats: set<string>, s: Feats): set<string>
  {
    s.Keys + CALIMA_CONCAT_FEATS + CALIMA_CONCAT_FEATS_NONE + {"stem", "stemgloss"}
  }

  /** The value of key `k` in the merged analysis, defined key by key. */
  function CalimaMergedVal(computeFeats: set<string>, p: Feats, s: Feats, x: Feats, k: string): Val
    requires CalimaReadable(computeFeats, p, s, x)
  {
    if k == "pattern" && k in computeFeats then Str(CalimaPatternOf(p, s, x))
    else if k in {"gen", "num"} && Override(p, s, x, k) == "-" then Str(Override(p, s, x, FormOf(k)))
    else if k == "caphi" then Str(CalimaRewriteCaphi(ThreeJoin(p, s, x, k)))
    else if k == "diac" then Str(CalimaRewriteDiac(ThreeJoin(p, s, x, k)))
    else if k == "stemgloss" then Str(Get(s, "gloss", ""))
    else if k == "stem" then Str(s["diac"])
    else if k in CALIMA_CONCAT_FEATS then Str(ThreeJoin(p, s, x, k))
    else if k in CALIMA_CONCAT_FEATS_NONE then Str(PlainConcat(p, s, x, k))
    else if k in s then Str(Override(p, s, x, k))
    else Null
  }

  /** `for k in keys: r[k] = '{}+{}+{}'.format(...)`. */
  method ThreeJoinEach(m: Analysis, keys: set<string>, prefix: Feats, stem: Feats, suffix: Feats) returns (r: Analysis)
    ensures r.Keys == m.Keys + keys
    ensures forall k :: k in r ==> r[k] == if k in keys then Str(ThreeJoin(prefix, stem, suffix, k)) else m[k]
  {
    r := m;
    var todo := keys;
    while todo != {}
      invariant todo <= keys
      invariant r.Keys == m.Keys + (keys - todo)
      invariant forall k :: k in r ==> r[k] == if k in keys - todo then Str(ThreeJoin(prefix, stem, suffix, k)) else m[k]
      decreases todo
    {
      var k :| k in todo;
      r := r[k := Str(ThreeJoin(prefix, stem, suffix, k))];
      todo := todo - {k};
    }
  }

  /** `for k in keys: r[k] = '{}{}{}'.format(...)`. */
  method PlainConcatEach(m: Analysis, keys: set<string>, prefix: Feats, stem: Feats, suffix: Feats) returns (r: Analysis)
    ensures r.Keys == m.Keys + keys
    ensures forall k :: k in r ==> r[k] == if k in keys then Str(PlainConcat(prefix, stem, suffix, k)) else m[k]
  {
    r := m;
    var todo := keys;
    while todo != {}
      invariant todo <= keys
      invariant r.Keys == m.Keys + (keys - todo)
      invariant forall k :: k in r ==> r[k] == if k in keys - todo then Str(PlainConcat(prefix, stem, suffix, k)) else m[k]
      decreases todo
    {
      var k :| k in todo;
      r := r[k := Str(PlainConcat(prefix, stem, suffix, k))];
      todo := todo - {k};
    }
  }

  /** What the override and concatenation loops leave under key `k`. */
  function CalimaJoinedVal(p: Feats, s: Feats, x: Feats, k: string): Val
    requires k in s || k in CALIMA_CONCAT_FEATS + CALIMA_CONCAT_FEATS_NONE
  {
    if k in CALIMA_CONCAT_FEATS_NONE then Str(PlainConcat(p, s, x, k))
    else if k in CALIMA_CONCAT_FEATS then Str(ThreeJoin(p, s, x, k))
    else Str(Override(p, s, x, k))
  }

  /** The override loop and the two concatenation loops of the legacy
      `merge_features`. */
  method CalimaJoinStage(prefix: Feats, stem: Feats, suffix: Feats) returns (result: Analysis)
    ensures result.Keys == stem.Keys + CALIMA_CONCAT_FEATS + CALIMA_CONCAT_FEATS_NONE
    ensures forall k :: k in result ==> result[k] == CalimaJoinedVal(prefix, stem, suffix, k)
  {
    result := OverrideAll(prefix, stem, suffix);
    result := ThreeJoinEach(result, CALIMA_CONCAT_FEATS, prefix, stem, suffix);
    result := PlainConcatEach(result, CALIMA_CONCAT_FEATS_NONE, prefix, stem, suffix);
  }

  /** The families of the legacy engine leave the agreement features,
      their fallbacks and the stem keys alone, and hold `diac`, `caphi`
      and `pattern` among the separated ones. */
  lemma CalimaFamilyFacts()
    ensures CALIMA_CONCAT_FEATS !! CALIMA_CONCAT_FEATS_NONE
    ensures {"gen", "num", "form_gen", "form_num", "stem", "stemgloss"} !! (CALIMA_CONCAT_FEATS + CALIMA_CONCAT_FEATS_NONE)
    ensures {"diac", "caphi", "pattern"} <= CALIMA_CONCAT_FEATS
  {
  }

  /** What the `stem`, `stemgloss`, `diac` and `caphi` assignments leave
      under key `k`. */
  function CalimaRewrittenVal(m: Analysis, s: Feats, diacMode: string, k: string): Val
    requires "diac" in s && "diac" in m
    requires k in m || k in {"stem", "stemgloss", "caphi"}
  {
    if k == "caphi" then Str(CalimaRewriteCaphi(TextOr(m, "caphi", "")))
    else if k == "diac" then Str(NormalizeTanwyn(CalimaRewriteDiac(Text(m["diac"])), diacMode))
    else if k == "stemgloss" then Str(Get(s, "gloss", ""))
    else if k == "stem" then Str(s["diac"])
    else m[k]
  }

  /** The `stem`, `stemgloss`, `diac` and `caphi` assignments of the
      legacy `merge_features`. */
  method CalimaRewriteStage(m: Analysis, stem: Feats, diacMode: string) returns (result: Analysis)
    requires "diac" in stem && "diac" in m
    ensures result.Keys == m.Keys + {"stem", "stemgloss", "caphi"}
    ensures forall k :: k in result ==> result[k] == CalimaRewrittenVal(m, stem, diacMode, k)
  {
    result := m["stem" := Str(stem["diac"])];
    result := result["stemgloss" := Str(Get(stem, "gloss", ""))];
    result := result["diac" := Str(NormalizeTanwyn(CalimaRewriteDiac(Text(result["diac"])), diacMode))];
    result := result["caphi" := Str(CalimaRewriteCaphi(TextOr(result, "caphi", "")))];
  }

  /** What the agreement fallbacks and the pattern step leave under key
      `k`. */
  function CalimaTailVal(m: Analysis, computeFeats: set<string>, p: Feats, s: Feats, x: Feats, k: string): Val
    requires "pattern" in computeFeats ==> "pattern" in s
    requires k in m || (k == "pattern" && k in computeFeats)
  {
    if k == "pattern" && k in computeFeats then Str(CalimaPatternOf(p, s, x))
    else if k in {"gen", "num"} && m[k] == Str("-") && FormOf(k) in m then m[FormOf(k)]
    else m[k]
  }

  /** The `gen`/`num` fallbacks and the pattern step of the legacy
      `merge_features`. */
  method CalimaTailStage(m: Analysis, computeFeats: set<string>, prefix: Feats, stem: Feats, suffix: Feats)
    returns (result: Analysis)
    requires "pattern" in computeFeats ==> "pattern" in stem
    requires "gen" in m && (m["gen"] == Str("-") ==> "form_gen" in m)
    requires "num" in m && (m["num"] == Str("-") ==> "form_num" in m)
    ensures result.Keys == m.Keys + (if "pattern" in computeFeats then {"pattern"} else {})
    ensures forall k :: k in result ==> result[k] == CalimaTailVal(m, computeFeats, prefix, stem, suffix, k)
  {
    result := m;
    if result["gen"] == Str("-") {
      result := result["gen" := result["form_gen"]];
    }
    ghost var gen := result;
    if result["num"] == Str("-") {
      result := result["num" := result["form_num"]];
    }
    if "pattern" in computeFeats {
      result := result["pattern" := Str(CalimaPatternOf(prefix, stem, suffix))];
    }
    forall k | k in result
      ensures result[k] == CalimaTailVal(m, computeFeats, prefix, stem, suffix, k)
    {
      if k == "gen" {
        assert m[k] == Str("-") ==> gen[k] == m["form_gen"];
      }
    }
  }

  /** The three stages of the legacy `merge_features` at key `k`. */
  predicate CalimaStagedAt(computeFeats: set<string>, p: Feats, s: Feats, x: Feats, diacMode: string,
    joined: Analysis, rewritten: Analysis, result: Analysis, k: string)
    requires "diac" in s && "diac" in joined
    requires "pattern" in computeFeats ==> "pattern" in s
  {
    && (k in joined <==> k in s || k in CALIMA_CONCAT_FEATS + CALIMA_CONCAT_FEATS_NONE)
    && (k in joined ==> joined[k] == CalimaJoinedVal(p, s, x, k))
    && (k in rewritten <==> k in joined || k in {"stem", "stemgloss", "caphi"})
    && (k in rewritten ==> rewritten[k] == CalimaRewrittenVal(joined, s, diacMode, k))
    && (k in result <==> k in rewritten || (k == "pattern" && k in computeFeats))
    && (k in result ==> result[k] == CalimaTailVal(rewritten, computeFeats, p, s, x, k))
  }

  /** The stage contracts, read at key `k`. */
  lemma CalimaStagesAt(computeFeats: set<string>, p: Feats, s: Feats, x: Feats, diacMode: string,
      joined: Analysis, rewritten: Analysis, result: Analysis, k: string)
    requires "diac" in s && ("pattern" in computeFeats ==> "pattern" in s)
    requires joined.Keys == s.Keys + CALIMA_CONCAT_FEATS + CALIMA_CONCAT_FEATS_NONE
    requires forall k :: k in joined ==> joined[k] == CalimaJoinedVal(p, s, x, k)
    requires rewritten.Keys == joined.Keys + {"stem", "stemgloss", "caphi"}
    requires forall k :: k in rewritten ==> rewritten[k] == CalimaRewrittenVal(joined, s, diacMode, k)
    requires result.Keys == rewritten.Keys + (if "pattern" in computeFeats then {"pattern"} else {})
    requires forall k :: k in result ==> result[k] == CalimaTailVal(rewritten, computeFeats, p, s, x, k)
    ensures "diac" in joined
    ensures CalimaStagedAt(computeFeats, p, s, x, diacMode, joined, rewritten, result, k)
  {
    assert "diac" in CALIMA_CONCAT_FEATS;
    JoinedAt(p, s, x, joined, k);
    RewrittenAt(s, diacMode, joined, rewritten, k);
    TailAt(computeFeats, p, s, x, rewritten, result, k);
  }

  lemma JoinedAt(p: Feats, s: Feats, x: Feats, joined: Analysis, k: string)
    requires joined.Keys == s.Keys + CALIMA_CONCAT_FEATS + CALIMA_CONCAT_FEATS_NONE
    requires forall k :: k in joined ==> joined[k] == CalimaJoinedVal(p, s, x, k)
    ensures k in joined <==> k in s || k in CALIMA_CONCAT_FEATS + CALIMA_CONCAT_FEATS_NONE
    ensures k in joined ==> joined[k] == CalimaJoinedVal(p, s, x, k)
  {
  }

  lemma RewrittenAt(s: Feats, diacMode: string, joined: Analysis, rewritten: Analysis, k: string)
    requires "diac" in s && "diac" in joined
    requires rewritten.Keys == joined.Keys + {"stem", "stemgloss", "caphi"}
    requires forall k :: k in rewritten ==> rewritten[k] == CalimaRewrittenVal(joined, s, diacMode, k)
    ensures k in rewritten <==> k in joined || k in {"stem", "stemgloss", "caphi"}
    ensures k in rewritten ==> rewritten[k] == CalimaRewrittenVal(joined, s, diacMode, k)
  {
  }

  lemma TailAt(computeFeats: set<string>, p: Feats, s: Feats, x: Feats, rewritten: Analysis, result: Analysis, k: string)
    requires "pattern" in computeFeats ==> "pattern" in s
    requires result.Keys == rewritten.Keys + (if "pattern" in computeFeats then {"pattern"} else {})
    requires forall k :: k in result ==> result[k] == CalimaTailVal(rewritten, computeFeats, p, s, x, k)
    ensures k in result <==> k in rewritten || (k == "pattern" && k in computeFeats)
    ensures k in result ==> result[k] == CalimaTailVal(rewritten, computeFeats, p, s, x, k)
  {
  }

  /** One key of the legacy `merge_features`: the three stages compose to
      `CalimaMergedVal`. */
  lemma CalimaMergedAt(computeFeats: set<string>, p: Feats, s: Feats, x: Feats, diacMode: string,
      joined: Analysis, rewritten: Analysis, result: Analysis, k: string)
    requires CalimaReadable(computeFeats, p, s, x) && "diac" in joined
    requires CalimaStagedAt(computeFeats, p, s, x, diacMode, joined, rewritten, result, k)
    requires CalimaStagedAt(computeFeats, p, s, x, diacMode, joined, rewritten, result, "diac")
    requires CalimaStagedAt(computeFeats, p, s, x, diacMode, joined, rewritten, result, "caphi")
    requires CalimaStagedAt(computeFeats, p, s, x, diacMode, joined, rewritten, result, FormOf(k))
    requires k in result
    ensures result[k] == CalimaMergedVal(computeFeats, p, s, x, k)
  {
    CalimaFamilyFacts();
    if k == "pattern" && k in computeFeats {
    } else if k in {"gen", "num"} {
      assert rewritten[k] == joined[k] == Str(Override(p, s, x, k));
      if FormOf(k) in s {
        assert rewritten[FormOf(k)] == joined[FormOf(k)] == Str(Override(p, s, x, FormOf(k)));
      }
    } else if k in {"caphi", "diac", "stem", "stemgloss"} {
      assert joined["diac"] == Str(ThreeJoin(p, s, x, "diac"));
      assert joined["caphi"] == Str(ThreeJoin(p, s, x, "caphi"));
    } else {
      assert result[k] == rewritten[k] == joined[k];
    }
  }

  /** After the first two stages, the keys the tail stage reads are
      present, and the keys are those of the merged analysis. */
  lemma CalimaTailReady(computeFeats: set<string>, p: Feats, s: Feats, x: Feats, diacMode: string,
      joined: Analysis, rewritten: Analysis)
    requires CalimaReadable(computeFeats, p, s, x)
    requires joined.Keys == s.Keys + CALIMA_CONCAT_FEATS + CALIMA_CONCAT_FEATS_NONE
    requires forall k :: k in joined ==> joined[k] == CalimaJoinedVal(p, s, x, k)
    requires "diac" in joined
    requires rewritten.Keys == joined.Keys + {"stem", "stemgloss", "caphi"}
    requires forall k :: k in rewritten ==> rewritten[k] == CalimaRewrittenVal(joined, s, diacMode, k)
    ensures "gen" in rewritten && (rewritten["gen"] == Str("-") ==> "form_gen" in rewritten)
    ensures "num" in rewritten && (rewritten["num"] == Str("-") ==> "form_num" in rewritten)
    ensures rewritten.Keys + (if "pattern" in computeFeats then {"pattern"} else {}) == CalimaMergedKeys(computeFeats, s)
  {
    CalimaFamilyFacts();
    JoinedAt(p, s, x, joined, "gen");
    JoinedAt(p, s, x, joined, "num");
    JoinedAt(p, s, x, joined, "form_gen");
    JoinedAt(p, s, x, joined, "form_num");
    RewrittenAt(s, diacMode, joined, rewritten, "gen");
    RewrittenAt(s, diacMode, joined, rewritten, "num");
    RewrittenAt(s, diacMode, joined, rewritten, "form_gen");
    RewrittenAt(s, diacMode, joined, rewritten, "form_num");
  }

  /** The three stage contracts compose to `CalimaMergedVal` at every
      key. */
  lemma CalimaComposed(computeFeats: set<string>, p: Feats, s: Feats, x: Feats, diacMode: string,
      joined: Analysis, rewritten: Analysis, result: Analysis, k: string)
    requires CalimaReadable(computeFeats, p, s, x)
    requires joined.Keys == s.Keys + CALIMA_CONCAT_FEATS + CALIMA_CONCAT_FEATS_NONE
    requires forall k :: k in joined ==> joined[k] == CalimaJoinedVal(p, s, x, k)
    requires rewritten.Keys == joined.Keys + {"stem", "stemgloss", "caphi"}
    requires forall k :: k in rewritten ==> rewritten[k] == CalimaRewrittenVal(joined, s, diacMode, k)
    requires result.Keys == rewritten.Keys + (if "pattern" in computeFeats then {"pattern"} else {})
    requires forall k :: k in result ==> result[k] == CalimaTailVal(rewritten, computeFeats, p, s, x, k)
    requires k in result
    ensures result[k] == CalimaMergedVal(computeFeats, p, s, x, k)
  {
    CalimaStagesAt(computeFeats, p, s, x, diacMode, joined, rewritten, result, k);
    CalimaStagesAt(computeFeats, p, s, x, diacMode, joined, rewritten, result, "diac");
    CalimaStagesAt(computeFeats, p, s, x, diacMode, joined, rewritten, result, "caphi");
    CalimaStagesAt(computeFeats, p, s, x, diacMode, joined, rewritten, result, FormOf(k));
    CalimaMergedAt(computeFeats, p, s, x, diacMode, joined, rewritten, result, k);
  }

  /** The merged analysis as one value, key by key. */
  function CalimaMerged(computeFeats: set<string>, p: Feats, s: Feats, x: Feats): Analysis
    requires CalimaReadable(computeFeats, p, s, x)
  {
    map k | k in CalimaMergedKeys(computeFeats, s) :: CalimaMergedVal(computeFeats, p, s, x, k)
  }

  /** A map with the merged keys and, key by key, the merged values is the
      merged analysis. */
  lemma CalimaMergedIs(computeFeats: set<string>, p: Feats, s: Feats, x: Feats, m: Analysis)
    requires CalimaReadable(computeFeats, p, s, x)
    requires m.Keys == CalimaMergedKeys(computeFeats, s)
    requires forall k :: k in m ==> m[k] == CalimaMergedVal(computeFeats, p, s, x, k)
    ensures m == CalimaMerged(computeFeats, p, s, x)
  {
  }

  /** `merge_features(db, prefix_feats, stem_feats, suffix_feats,
      diac_mode)` of the legacy engine, with `db.compute_feats` given as
      the set of its keys. */
  method CalimaMergeFeatures(computeFeats: set<string>, prefix: Feats, stem: Feats, suffix: Feats, diacMode: string)
    returns (result: Analysis)
    requires CalimaReadable(computeFeats, prefix, stem, suffix)
    ensures result.Keys == CalimaMergedKeys(computeFeats, stem)
    ensures forall k :: k in result ==> result[k] == CalimaMergedVal(computeFeats, prefix, stem, suffix, k)
  {
    var joined := CalimaJoinStage(prefix, stem, suffix);
    assert "diac" in joined;
    var rewritten := CalimaRewriteStage(joined, stem, diacMode);
    CalimaTailReady(computeFeats, prefix, stem, suffix, diacMode, joined, rewritten);
    result := CalimaTailStage(rewritten, computeFeats, prefix, stem, suffix);
    forall k | k in result
      ensures result[k] == CalimaMergedVal(computeFeats, prefix, stem, suffix, k)
    {
      CalimaComposed(computeFeats, prefix, stem, suffix, diacMode, joined, rewritten, result, k);
    }
  }

  /** A separated feature always splits on '+' into exactly three parts,
      the prefix's, the stem's and the suffix's values, empty ones
      included, when no value holds a '+'. */
  lemma ThreeJoinSplits(p: Feats, s: Feats, x: Feats, k: string)
    requires '+' !in Get(p, k, "") && '+' !in Get(s, k, "") && '+' !in Get(x, k, "")
    ensures Split(ThreeJoin(p, s, x, k), '+') == [Get(p, k, ""), Get(s, k, ""), Get(x, k, "")]
  {
    var parts := [Get(p, k, ""), Get(s, k, ""), Get(x, k, "")];
    assert Join("+", parts[2..]) == parts[2];
    assert Join("+", parts[1..]) == parts[1] + "+" + parts[2] by {
      assert parts[1..][1..] == parts[2..];
    }
    assert Join("+", parts) == ThreeJoin(p, s, x, k);
    SplitJoin(parts, '+');
  }

  /** A separated feature that none of the three entries gives is "++",
      where the current engine writes an empty value. */
  lemma CalimaEmptyJoin(computeFeats: set<string>, p: Feats, s: Feats, x: Feats, k: string)
    requires CalimaReadable(computeFeats, p, s, x)
    requires k in CALIMA_CONCAT_FEATS - {"diac", "caphi", "pattern"}
    requires k !in p && k !in s && k !in x
    ensures CalimaMergedVal(computeFeats, p, s, x, k) == Str("++")
  {
    CalimaFamilyFacts();
  }

  /** The merged `diac` of the legacy engine has no '+' boundary and no
      hamza-wasl alef, and never two shaddas in a row. */
  lemma CalimaMergedDiacClean(computeFeats: set<string>, p: Feats, s: Feats, x: Feats)
    requires CalimaReadable(computeFeats, p, s, x)
    ensures var v := CalimaMergedVal(computeFeats, p, s, x, "diac");
      v.Str? && '+' !in v.s && ALEF_WASLA !in v.s && NoDouble(v.s, SHADDA)
  {
    CalimaMergedDiac(computeFeats, p, s, x);
    CalimaRewriteDiacClean(ThreeJoin(p, s, x, "diac"));
  }

  /** The merged `diac` is the rewritten three-part join. */
  lemma CalimaMergedDiac(computeFeats: set<string>, p: Feats, s: Feats, x: Feats)
    requires CalimaReadable(computeFeats, p, s, x)
    ensures CalimaMergedVal(computeFeats, p, s, x, "diac") == Str(CalimaRewriteDiac(ThreeJoin(p, s, x, "diac")))
  {
    assert "diac" !in {"gen", "num"};
  }

  /** The merged CAPHI transcription of the legacy engine has no '+'. */
  lemma CalimaMergedCaphiNoPlus(computeFeats: set<string>, p: Feats, s: Feats, x: Feats)
    requires CalimaReadable(computeFeats, p, s, x)
    ensures var v := CalimaMergedVal(computeFeats, p, s, x, "caphi");
      v.Str? && '+' !in v.s
  {
    CalimaRewriteCaphiNoPlus(ThreeJoin(p, s, x, "caphi"));
  }

  /** Every key of the legacy merged analysis holds a string. */
  lemma CalimaMergedStrings(computeFeats: set<string>, p: Feats, s: Feats, x: Feats, k: string)
    requires CalimaReadable(computeFeats, p, s, x)
    requires k in CalimaMergedKeys(computeFeats, s)
    ensures CalimaMergedVal(computeFeats, p, s, x, k).Str?
  {
  }
}
