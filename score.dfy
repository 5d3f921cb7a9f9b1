/** The uniform feature-match score of the disambiguators: how many of the
    listed features an analysis shares with a reference prediction. The
    'tag' tie-breaker, a product of model probabilities, is not part of
    this model. */
module Score {
  import opened Features

  const Feats10: seq<string> := ["pos", "per", "form_gen", "form_num", "asp", "prc0", "prc1", "prc2", "prc3", "enc0"]

  const Feats14: seq<string> := ["pos", "per", "form_gen", "form_num", "asp", "mod", "vox", "stt", "cas",
                                 "prc0", "prc1", "prc2", "prc3", "enc0"]

  const Feats16: seq<string> := Feats14 + ["enc1", "enc2"]

  /** `FEATURE_SET_MAP`: the three lists by name. */
  const FeatureSetMap: map<string, seq<string>> := map["feats_10" := Feats10, "feats_14" := Feats14, "feats_16" := Feats16]

  /** The fourteen features come first among the sixteen. */
  lemma FeatureSets()
    ensures FeatureSetMap.Keys == {"feats_10", "feats_14", "feats_16"}
    ensures |FeatureSetMap["feats_14"]| == 14 && |FeatureSetMap["feats_16"]| == 16 && |FeatureSetMap["feats_10"]| == 10
    ensures FeatureSetMap["feats_14"] == FeatureSetMap["feats_16"][..14]
  {
    assert Feats16[..14] == Feats14;
  }

  /** `analysis.get(feat, '')` */
  function GetOr(m: Analysis, f: string): Val
  {
    if f in m then m[f] else Str("")
  }

  /** The analysis a scorer sees: form_num and form_gen, when missing, are
      copied from num and gen. */
  function Filled(m: Analysis): (r: Analysis)
    requires "form_num" in m || "num" in m
    requires "form_gen" in m || "gen" in m
    ensures r.Keys == m.Keys + {"form_num", "form_gen"}
    ensures forall f | f in m :: r[f] == m[f]
    ensures "form_num" !in m ==> r["form_num"] == m["num"]
    ensures "form_gen" !in m ==> r["form_gen"] == m["gen"]
  {
    var n := if "form_num" in m then m else m["form_num" := m["num"]];
    if "form_gen" in n then n else n["form_gen" := n["gen"]]
  }

  /** Number of `features` on which the two agree, a missing value
      counting as ''. */
  function Matches(m: Analysis, reference: Analysis, features: seq<string>): (score: nat)
    ensures score <= |features|
  {
    if features == [] then 0
    else
      var f := features[|features| - 1];
      Matches(m, reference, features[..|features| - 1]) + (if GetOr(m, f) == GetOr(reference, f) then 1 else 0)
  }

  /** The score adds up over a split of the feature list. */
  lemma {:induction false} MatchesAppend(m: Analysis, reference: Analysis, p: seq<string>, q: seq<string>)
    ensures Matches(m, reference, p + q) == Matches(m, reference, p) + Matches(m, reference, q)
    decreases |q|
  {
    if q == [] {
      assert p + q == p;
    } else {
      var q' := q[..|q| - 1];
      MatchesAppend(m, reference, p, q');
      assert (p + q)[..|p + q| - 1] == p + q';
    }
  }

  /** Scoring with more features never lowers the score: the score under
      FEATS_14 is at most the one under FEATS_16. */
  lemma PrefixScoresLess(m: Analysis, reference: Analysis, p: seq<string>, q: seq<string>)
    ensures Matches(m, reference, p) <= Matches(m, reference, p + q)
  {
    MatchesAppend(m, reference, p, q);
  }

  lemma Feats14Below16(m: Analysis, reference: Analysis)
    ensures Matches(m, reference, Feats14) <= Matches(m, reference, Feats16)
  {
    PrefixScoresLess(m, reference, Feats14, ["enc1", "enc2"]);
  }

  /** The full score is reached exactly when the two agree on every listed
      feature. */
  lemma {:induction false} FullScore(m: Analysis, reference: Analysis, features: seq<string>)
    ensures Matches(m, reference, features) == |features| <==>
      forall i :: 0 <= i < |features| ==> GetOr(m, features[i]) == GetOr(reference, features[i])
    decreases |features|
  {
    if features != [] {
      var init := features[..|features| - 1];
      FullScore(m, reference, init);
      assert forall i :: 0 <= i < |init| ==> init[i] == features[i];
    }
  }

  /** The analysis dictionary the caller passes, which the scorer extends
      in place. */
  class AnalysisDict {
    var m: Analysis

    constructor (m0: Analysis)
      ensures m == m0
    {
      m := m0;
    }
  }

  /** `score_analysis_uniform(analysis, reference, features=...)` without
      the tie-breaker: fills the missing form features into the caller's
      dictionary, then counts the matches. */
  method ScoreUniform(analysis: AnalysisDict, reference: Analysis, features: seq<string>) returns (score: nat)
    requires "form_num" in analysis.m || "num" in analysis.m
    requires "form_gen" in analysis.m || "gen" in analysis.m
    modifies analysis
    ensures analysis.m == Filled(old(analysis.m))
    ensures score == Matches(analysis.m, reference, features)
  {
    if "form_num" !in analysis.m {
      analysis.m := analysis.m["form_num" := analysis.m["num"]];
    }
    if "form_gen" !in analysis.m {
      analysis.m := analysis.m["form_gen" := analysis.m["gen"]];
    }
    score := Matches(analysis.m, reference, features);
  }
}
