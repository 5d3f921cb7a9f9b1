/** `merge_features` of the current morphology engine: the features of a
    prefix, a stem and a suffix entry combined into one analysis. Plain
    features take the prefix's value, else the suffix's, else the stem's;
    some features are joined or concatenated across the three entries;
    the diacritised form, the tokenisations, the CAPHI transcription and
    the pattern are then rewritten. */
module MorphMerge {
  import opened Wrappers
  import opened PyStr
  import opened Features
  import opened Regex
  import opened Charsets
  import opened MorphRewrite

  const JOIN_FEATS: set<string> := {"gloss", "bw"}
  const CONCAT_FEATS: set<string> := {"diac", "pattern", "caphi", "catib6", "ud"}
  const CONCAT_FEATS_NONE: set<string> :=
    {"d3tok", "d3seg", "atbseg", "d2seg", "d1seg", "d1tok", "d2tok", "atbtok", "bwtok"}
  const LOGPROB_FEATS: set<string> := {"pos_logprob", "lex_logprob", "pos_lex_logprob"}
  /** Schemes that get the sun-letter and fatha rules. */
  const TOK_SCHEMES_1: set<string> := {"d1tok", "d2tok", "atbtok", "d1seg", "d2seg", "d3seg", "atbseg"}
  /** Schemes that get the fatha rule. */
  const TOK_SCHEMES_2: set<string> := {"d3tok", "d3seg"}

  /** The value a plain feature takes: the prefix's when given, else the
      suffix's when given, else the stem's. */
  function Override(p: Feats, s: Feats, x: Feats, k: string): string
    requires k in s
  {
    if Given(Get(p, k, "")) then p[k] else if Given(Get(x, k, "")) then x[k] else s[k]
  }

  /** A tokenisation before rewriting: prefix, stem (or the stem's diac
      when the stem lacks the scheme) and suffix, with no separator. */
  function TokBase(p: Feats, s: Feats, x: Feats, k: string): string
  {
    Get(p, k, "") + Get(s, k, Get(s, "diac", "")) + Get(x, k, "")
  }

  /** The rewriting a tokenisation scheme receives. */
  function TokRewrite(k: string, w: string): string
  {
    var w1 := if k in TOK_SCHEMES_1 then RewriteTok1(w) else w;
    if k in TOK_SCHEMES_2 then RewriteTok2(w1) else w1
  }

  function PlusJoinOf(p: Feats, s: Feats, x: Feats, k: string): string
  {
    PlusJoin(Get(p, k, ""), Get(s, k, ""), Get(x, k, ""))
  }

  /** The fallback feature of `gen` and `num`. */
  function FormOf(k: string): string
  {
    if k == "gen" then "form_gen" else "form_num"
  }

  /** `result['gen']` / `result['num']` and their `form_` fallbacks exist
      whenever the code reads them. */
  predicate GenNumReadable(defines: set<string>, p: Feats, s: Feats, x: Feats)
  {
    && ("form_gen" in defines ==> "gen" in s && (Override(p, s, x, "gen") == "-" ==> "form_gen" in s))
    && ("form_num" in defines ==> "num" in s && (Override(p, s, x, "num") == "-" ==> "form_num" in s))
  }

  /** The pattern recomputed from the diacritised forms. */
  function PatternOf(p: Feats, s: Feats, x: Feats): string
    requires "diac" in s
  {
    RewritePattern(Get(p, "diac", "") + Get(s, "pattern", s["diac"]) + Get(x, "diac", ""))
  }

  function Families(): set<string>
  {
    JOIN_FEATS + CONCAT_FEATS + CONCAT_FEATS_NONE + LOGPROB_FEATS
  }

  /** The keys of the merged analysis. */
  function MergedKeys(defines: set<string>, computeFeats: set<string>, s: Feats): set<string>
  {
    s.Keys + {"stem", "stemgloss", "diac"}
    + defines * Families()
    + (if "pattern" in computeFeats then {"pattern"} else {})
  }

  /** The value of key `k` in the merged analysis, defined key by key. */
  function MergedVal(defines: set<string>, computeFeats: set<string>, p: Feats, s: Feats, x: Feats, k: string): Val
    requires "diac" in s
  {
    if k in LOGPROB_FEATS && k in defines then
      Float(if k in s then Override(p, s, x, k) else "-99.0")
    else if k == "pattern" && k in computeFeats then Str(PatternOf(p, s, x))
    else if k in {"gen", "num"} && FormOf(k) in defines && k in s && Override(p, s, x, k) == "-" && FormOf(k) in s then
      Str(Override(p, s, x, FormOf(k)))
    else if k == "caphi" && k in defines then Str(RewriteCaphi(PlusJoinOf(p, s, x, k)))
    else if k in CONCAT_FEATS_NONE && k in defines then Str(TokRewrite(k, TokBase(p, s, x, k)))
    else if k == "diac" then
      Str(RewriteDiac(if k in defines then PlusJoinOf(p, s, x, k) else Override(p, s, x, k)))
    else if k == "stemgloss" then Str(Get(s, "gloss", ""))
    else if k == "stem" then Str(s["diac"])
    else if (k in JOIN_FEATS || k in CONCAT_FEATS) && k in defines then Str(PlusJoinOf(p, s, x, k))
    else if k in s then Str(Override(p, s, x, k))
    else Null
  }

  /** `for k in keys: if k in defines: r[k] = rw(r.get(k, ''))`. */
  method RewriteEach(m: Analysis, keys: set<string>, defines: set<string>, rw: string -> string) returns (r: Analysis)
    ensures r.Keys == m.Keys + keys * defines
    ensures forall k :: k in r ==> r[k] == if k in keys * defines then Str(rw(TextOr(m, k, ""))) else m[k]
  {
    r := m;
    var todo := keys;
    while todo != {}
      invariant todo <= keys
      invariant r.Keys == m.Keys + (keys - todo) * defines
      invariant forall k :: k in r ==> r[k] == if k in (keys - todo) * defines then Str(rw(TextOr(m, k, ""))) else m[k]
      decreases todo
    {
      var k :| k in todo;
      if k in defines {
        r := r[k := Str(rw(TextOr(r, k, "")))];
      }
      todo := todo - {k};
    }
  }

  /** `for k in keys: if k in defines: r[k] = float(r.get(k, -99.0))`,
      the float kept as its text. */
  method FloatEach(m: Analysis, keys: set<string>, defines: set<string>) returns (r: Analysis)
    ensures r.Keys == m.Keys + keys * defines
    ensures forall k :: k in r ==> r[k] == if k in keys * defines then Float(if k in m then Text(m[k]) else "-99.0") else m[k]
  {
    r := m;
    var todo := keys;
    while todo != {}
      invariant todo <= keys
      invariant r.Keys == m.Keys + (keys - todo) * defines
      invariant forall k :: k in r ==> r[k] == if k in (keys - todo) * defines then Float(if k in m then Text(m[k]) else "-99.0") else m[k]
      decreases todo
    {
      var k :| k in todo;
      if k in defines {
        r := r[k := Float(if k in r then Text(r[k]) else "-99.0")];
      }
      todo := todo - {k};
    }
  }

  function Text(v: Val): string
  {
    if v.Str? then v.s else ""
  }

  /** The first loop of `merge_features`: every stem feature, overridden
      by the suffix's value and then by the prefix's when given. */
  method OverrideAll(prefix: Feats, stem: Feats, suffix: Feats) returns (result: Analysis)
    ensures result.Keys == stem.Keys
    ensures forall k :: k in result ==> result[k] == Str(Override(prefix, stem, suffix, k))
  {
    result := Lift(stem);
    var todo := stem.Keys;
    while todo != {}
      invariant todo <= stem.Keys && result.Keys == stem.Keys
      invariant forall k :: k in result ==> result[k] == if k in todo then Str(stem[k]) else Str(Override(prefix, stem, suffix, k))
      decreases todo
    {
      var k :| k in todo;
      var suffixVal := Get(suffix, k, "");
      if suffixVal != "-" && suffixVal != "" {
        result := result[k := Str(suffixVal)];
      }
      var prefixVal := Get(prefix, k, "");
      if prefixVal != "-" && prefixVal != "" {
        result := result[k := Str(prefixVal)];
      }
      todo := todo - {k};
    }
  }

  /** How the feature families overlap: the tokenisation schemes are
      among the unseparated concatenations, and no other two families
      share a feature. */
  lemma FamilyFacts()
    ensures TOK_SCHEMES_1 <= CONCAT_FEATS_NONE && TOK_SCHEMES_2 <= CONCAT_FEATS_NONE
    ensures JOIN_FEATS !! CONCAT_FEATS && JOIN_FEATS !! CONCAT_FEATS_NONE && CONCAT_FEATS !! CONCAT_FEATS_NONE
    ensures LOGPROB_FEATS !! (JOIN_FEATS + CONCAT_FEATS + CONCAT_FEATS_NONE)
    ensures {"gen", "num", "form_gen", "form_num", "stem", "stemgloss"} !! Families()
    ensures {"diac", "caphi", "pattern"} <= CONCAT_FEATS
  {
    TokFamilies();
    JoinFamilies();
    LogprobFamily();
    AgreementOutside();
  }

  lemma TokFamilies()
    ensures TOK_SCHEMES_1 <= CONCAT_FEATS_NONE && TOK_SCHEMES_2 <= CONCAT_FEATS_NONE
  {
  }

  lemma JoinFamilies()
    ensures JOIN_FEATS !! CONCAT_FEATS && JOIN_FEATS !! CONCAT_FEATS_NONE && CONCAT_FEATS !! CONCAT_FEATS_NONE
  {
  }

  lemma LogprobFamily()
    ensures LOGPROB_FEATS !! (JOIN_FEATS + CONCAT_FEATS + CONCAT_FEATS_NONE)
  {
  }

  lemma AgreementOutside()
    ensures {"gen", "num", "form_gen", "form_num", "stem", "stemgloss"} !! Families()
  {
  }

  /** The agreement features and their `form_` fallbacks belong to none
      of the rewritten families. */
  lemma GenNumOutside(k: string)
    requires k in {"gen", "num", "form_gen", "form_num"}
    ensures k !in Families() && k !in TOK_SCHEMES_1 + TOK_SCHEMES_2
    ensures k !in {"stem", "stemgloss", "diac", "caphi", "pattern"}
  {
  }

  lemma KeysUnion(s: set<string>, d: set<string>, f: set<string>, l: set<string>, pat: set<string>)
    ensures s + {"stem", "stemgloss", "diac"} + d * f + pat + l * d
      == s + {"stem", "stemgloss", "diac"} + d * (f + l) + pat
  {
  }

  /** What the joining loops leave under key `k`. */
  function JoinedVal(defines: set<string>, p: Feats, s: Feats, x: Feats, k: string): Val
    requires k in s || k in defines * (JOIN_FEATS + CONCAT_FEATS + CONCAT_FEATS_NONE)
  {
    if k in CONCAT_FEATS_NONE * defines then Str(TokBase(p, s, x, k))
    else if k in (JOIN_FEATS + CONCAT_FEATS) * defines then Str(PlusJoinOf(p, s, x, k))
    else Str(Override(p, s, x, k))
  }

  /** `for k in keys: if k in defines: r[k] = '+'.join(...)`: the
      non-empty values of the three entries joined with '+'. */
  method JoinEach(m: Analysis, keys: set<string>, defines: set<string>, prefix: Feats, stem: Feats, suffix: Feats)
    returns (r: Analysis)
    ensures r.Keys == m.Keys + keys * defines
    ensures forall k :: k in r ==> r[k] == if k in keys * defines then Str(PlusJoinOf(prefix, stem, suffix, k)) else m[k]
  {
    r := m;
    var todo := keys;
    while todo != {}
      invariant todo <= keys
      invariant r.Keys == m.Keys + (keys - todo) * defines
      invariant forall k :: k in r ==> r[k] == if k in (keys - todo) * defines then Str(PlusJoinOf(prefix, stem, suffix, k)) else m[k]
      decreases todo
    {
      var k :| k in todo;
      if k in defines {
        r := r[k := Str(PlusJoinOf(prefix, stem, suffix, k))];
      }
      todo := todo - {k};
    }
  }

  /** `for k in keys: if k in defines: r[k] = prefix + stem + suffix`,
      with no separator and the stem's diac standing in for a missing
      stem value. */
  method ConcatEach(m: Analysis, keys: set<string>, defines: set<string>, prefix: Feats, stem: Feats, suffix: Feats)
    returns (r: Analysis)
    ensures r.Keys == m.Keys + keys * defines
    ensures forall k :: k in r ==> r[k] == if k in keys * defines then Str(TokBase(prefix, stem, suffix, k)) else m[k]
  {
    r := m;
    var todo := keys;
    while todo != {}
      invariant todo <= keys
      invariant r.Keys == m.Keys + (keys - todo) * defines
      invariant forall k :: k in r ==> r[k] == if k in (keys - todo) * defines then Str(TokBase(prefix, stem, suffix, k)) else m[k]
      decreases todo
    {
      var k :| k in todo;
      if k in defines {
        r := r[k := Str(TokBase(prefix, stem, suffix, k))];
      }
      todo := todo - {k};
    }
  }

  /** The override loop and the three joining loops of `merge_features`. */
  method JoinStage(defines: set<string>, prefix: Feats, stem: Feats, suffix: Feats) returns (result: Analysis)
    ensures result.Keys == stem.Keys + defines * (JOIN_FEATS + CONCAT_FEATS + CONCAT_FEATS_NONE)
    ensures forall k :: k in result ==> result[k] == JoinedVal(defines, prefix, stem, suffix, k)
  {
    var overridden := OverrideAll(prefix, stem, suffix);
    var joined := JoinEach(overridden, JOIN_FEATS, defines, prefix, stem, suffix);
    var concatenated := JoinEach(joined, CONCAT_FEATS, defines, prefix, stem, suffix);
    result := ConcatEach(concatenated, CONCAT_FEATS_NONE, defines, prefix, stem, suffix);
    forall k | k in result
      ensures result[k] == JoinedVal(defines, prefix, stem, suffix, k)
    {
      JoinedAt(defines, prefix, stem, suffix, overridden, joined, concatenated, result, k);
    }
  }

  /** The four joining loops compose, at key `k`, to `JoinedVal`. */
  lemma JoinedAt(defines: set<string>, p: Feats, s: Feats, x: Feats,
      overridden: Analysis, joined: Analysis, concatenated: Analysis, result: Analysis, k: string)
    requires overridden.Keys == s.Keys
    requires k in overridden ==> overridden[k] == Str(Override(p, s, x, k))
    requires k in joined <==> k in overridden || k in JOIN_FEATS * defines
    requires k in joined ==> joined[k] == if k in JOIN_FEATS * defines then Str(PlusJoinOf(p, s, x, k)) else overridden[k]
    requires k in concatenated <==> k in joined || k in CONCAT_FEATS * defines
    requires k in concatenated ==> concatenated[k] == if k in CONCAT_FEATS * defines then Str(PlusJoinOf(p, s, x, k)) else joined[k]
    requires k in result <==> k in concatenated || k in CONCAT_FEATS_NONE * defines
    requires k in result ==> result[k] == if k in CONCAT_FEATS_NONE * defines then Str(TokBase(p, s, x, k)) else concatenated[k]
    requires k in result
    ensures k in s || k in defines * (JOIN_FEATS + CONCAT_FEATS + CONCAT_FEATS_NONE)
    ensures result[k] == JoinedVal(defines, p, s, x, k)
  {
    JoinFamilies();
  }

  /** What the stem, diac and tokenisation steps leave under key `k`. */
  function RewrittenVal(m: Analysis, defines: set<string>, s: Feats, diacMode: string, k: string): Val
    requires "diac" in s && "diac" in m
    requires k in m || k in {"stem", "stemgloss"}
  {
    if k == "diac" then Str(NormalizeTanwyn(RewriteDiac(Text(m["diac"])), diacMode))
    else if k == "stemgloss" then Str(Get(s, "gloss", ""))
    else if k == "stem" then Str(s["diac"])
    else if k in (TOK_SCHEMES_1 + TOK_SCHEMES_2) * defines then Str(TokRewrite(k, TextOr(m, k, "")))
    else m[k]
  }

  /** The `stem`, `stemgloss` and `diac` assignments and the two
      tokenisation loops of `merge_features`. */
  method RewriteStage(m: Analysis, defines: set<string>, stem: Feats, diacMode: string) returns (result: Analysis)
    requires "diac" in stem && "diac" in m
    requires defines * (TOK_SCHEMES_1 + TOK_SCHEMES_2) <= m.Keys
    ensures result.Keys == m.Keys + {"stem", "stemgloss"}
    ensures forall k :: k in result ==> result[k] == RewrittenVal(m, defines, stem, diacMode, k)
  {
    result := m["stem" := Str(stem["diac"])];
    result := result["stemgloss" := Str(Get(stem, "gloss", ""))];
    result := result["diac" := Str(NormalizeTanwyn(RewriteDiac(Text(result["diac"])), diacMode))];
    var based := result;
    var tok1 := RewriteEach(based, TOK_SCHEMES_1, defines, RewriteTok1);
    result := RewriteEach(tok1, TOK_SCHEMES_2, defines, RewriteTok2);
    TokFamilies();
    forall k | k in result
      ensures result[k] == RewrittenVal(m, defines, stem, diacMode, k)
    {
      RewrittenAt(m, defines, stem, diacMode, based, tok1, result, k);
    }
  }

  /** The stem assignments and the two tokenisation loops compose, at key
      `k`, to `RewrittenVal`. */
  lemma RewrittenAt(m: Analysis, defines: set<string>, s: Feats, diacMode: string,
      based: Analysis, tok1: Analysis, result: Analysis, k: string)
    requires "diac" in s && "diac" in m
    requires defines * (TOK_SCHEMES_1 + TOK_SCHEMES_2) <= m.Keys
    requires TOK_SCHEMES_1 <= CONCAT_FEATS_NONE && TOK_SCHEMES_2 <= CONCAT_FEATS_NONE
    requires based == m["stem" := Str(s["diac"])]["stemgloss" := Str(Get(s, "gloss", ""))]
                       ["diac" := Str(NormalizeTanwyn(RewriteDiac(Text(m["diac"])), diacMode))]
    requires k in tok1 <==> k in based || k in TOK_SCHEMES_1 * defines
    requires k in tok1 ==> tok1[k] == if k in TOK_SCHEMES_1 * defines then Str(RewriteTok1(TextOr(based, k, ""))) else based[k]
    requires k in result <==> k in tok1 || k in TOK_SCHEMES_2 * defines
    requires k in result ==> result[k] == if k in TOK_SCHEMES_2 * defines then Str(RewriteTok2(TextOr(tok1, k, ""))) else tok1[k]
    requires k in result
    ensures k in m || k in {"stem", "stemgloss"}
    ensures result[k] == RewrittenVal(m, defines, s, diacMode, k)
  {
    if k in (TOK_SCHEMES_1 + TOK_SCHEMES_2) * defines {
      assert k != "diac" && k != "stem" && k != "stemgloss";
      assert TextOr(based, k, "") == TextOr(m, k, "");
    }
  }

  /** `gen`/`num` fall back on `form_gen`/`form_num` when their value is
      '-'. */
  predicate FallsBack(m: Analysis, defines: set<string>, k: string)
  {
    FormOf(k) in defines && k in m && m[k] == Str("-") && FormOf(k) in m
  }

  /** What the CAPHI rewrite and the agreement fallbacks leave under key
      `k`. */
  function AgreedVal(m: Analysis, defines: set<string>, k: string): Val
    requires k in m
  {
    if k in {"gen", "num"} && FallsBack(m, defines, k) then m[FormOf(k)]
    else if k == "caphi" && k in defines then Str(RewriteCaphi(TextOr(m, "caphi", "")))
    else m[k]
  }

  /** The CAPHI rewrite and the `gen`/`num` fallbacks of `merge_features`. */
  method AgreeStage(m: Analysis, defines: set<string>) returns (result: Analysis)
    requires "caphi" in defines ==> "caphi" in m
    requires "form_gen" in defines ==> "gen" in m && (m["gen"] == Str("-") ==> "form_gen" in m)
    requires "form_num" in defines ==> "num" in m && (m["num"] == Str("-") ==> "form_num" in m)
    ensures result.Keys == m.Keys
    ensures forall k :: k in result ==> result[k] == AgreedVal(m, defines, k)
  {
    result := m;
    if "caphi" in defines {
      result := result["caphi" := Str(RewriteCaphi(TextOr(result, "caphi", "")))];
    }
    if "form_gen" in defines && result["gen"] == Str("-") {
      result := result["gen" := result["form_gen"]];
    }
    ghost var gen := result;
    if "form_num" in defines && result["num"] == Str("-") {
      result := result["num" := result["form_num"]];
    }
    forall k | k in result
      ensures result[k] == AgreedVal(m, defines, k)
    {
      if k == "gen" {
        assert FallsBack(m, defines, k) ==> gen[k] == m["form_gen"];
      }
    }
  }

  /** What the pattern step and the log-probability loop leave under key
      `k`. */
  function FinalVal(m: Analysis, defines: set<string>, computeFeats: set<string>, p: Feats, s: Feats, x: Feats, k: string): Val
    requires "diac" in s
    requires k in m || k in LOGPROB_FEATS * defines || (k == "pattern" && k in computeFeats)
  {
    if k in LOGPROB_FEATS * defines then Float(if k in m then Text(m[k]) else "-99.0")
    else if k == "pattern" && k in computeFeats then Str(PatternOf(p, s, x))
    else m[k]
  }

  /** The pattern recomputation and the log-probability loop of
      `merge_features`. */
  method FinalStage(m: Analysis, defines: set<string>, computeFeats: set<string>, prefix: Feats, stem: Feats, suffix: Feats)
    returns (result: Analysis)
    requires "diac" in stem
    ensures result.Keys == m.Keys + LOGPROB_FEATS * defines + (if "pattern" in computeFeats then {"pattern"} else {})
    ensures forall k :: k in result ==> result[k] == FinalVal(m, defines, computeFeats, prefix, stem, suffix, k)
  {
    result := m;
    if "pattern" in computeFeats {
      result := result["pattern" := Str(PatternOf(prefix, stem, suffix))];
    }
    assert "pattern" !in LOGPROB_FEATS;
    result := FloatEach(result, LOGPROB_FEATS, defines);
  }

  /** The four stages of `merge_features` at key `k`, each as its
      contract states. */
  predicate StagedAt(defines: set<string>, computeFeats: set<string>, p: Feats, s: Feats, x: Feats, diacMode: string,
    joined: Analysis, toks: Analysis, agreed: Analysis, result: Analysis, k: string)
    requires "diac" in s && "diac" in joined
  {
    && (k in joined <==> k in s || k in defines * (JOIN_FEATS + CONCAT_FEATS + CONCAT_FEATS_NONE))
    && (k in joined ==> joined[k] == JoinedVal(defines, p, s, x, k))
    && (k in toks <==> k in joined || k in {"stem", "stemgloss"})
    && (k in toks ==> toks[k] == RewrittenVal(joined, defines, s, diacMode, k))
    && (k in agreed <==> k in toks)
    && (k in agreed ==> agreed[k] == AgreedVal(toks, defines, k))
    && (k in result <==> k in agreed || k in LOGPROB_FEATS * defines || (k == "pattern" && k in computeFeats))
    && (k in result ==> result[k] == FinalVal(agreed, defines, computeFeats, p, s, x, k))
  }

  /** The stages at key `k`, at `"diac"`, and at the fallback of `k`. */
  predicate Staged(defines: set<string>, computeFeats: set<string>, p: Feats, s: Feats, x: Feats, diacMode: string,
    joined: Analysis, toks: Analysis, agreed: Analysis, result: Analysis, k: string)
  {
    && "diac" in s && "diac" in joined
    && StagedAt(defines, computeFeats, p, s, x, diacMode, joined, toks, agreed, result, k)
    && StagedAt(defines, computeFeats, p, s, x, diacMode, joined, toks, agreed, result, "diac")
    && StagedAt(defines, computeFeats, p, s, x, diacMode, joined, toks, agreed, result, FormOf(k))
  }

  /** The stage contracts, read at key `k`. */
  lemma StagesAt(defines: set<string>, computeFeats: set<string>, p: Feats, s: Feats, x: Feats, diacMode: string,
      joined: Analysis, toks: Analysis, agreed: Analysis, result: Analysis, k: string)
    requires "diac" in s
    requires joined.Keys == s.Keys + defines * (JOIN_FEATS + CONCAT_FEATS + CONCAT_FEATS_NONE)
    requires forall k :: k in joined ==> joined[k] == JoinedVal(defines, p, s, x, k)
    requires toks.Keys == joined.Keys + {"stem", "stemgloss"}
    requires forall k :: k in toks ==> toks[k] == RewrittenVal(joined, defines, s, diacMode, k)
    requires agreed.Keys == toks.Keys
    requires forall k :: k in agreed ==> agreed[k] == AgreedVal(toks, defines, k)
    requires result.Keys == agreed.Keys + LOGPROB_FEATS * defines + (if "pattern" in computeFeats then {"pattern"} else {})
    requires forall k :: k in result ==> result[k] == FinalVal(agreed, defines, computeFeats, p, s, x, k)
    ensures "diac" in joined
    ensures StagedAt(defines, computeFeats, p, s, x, diacMode, joined, toks, agreed, result, k)
  {
  }

  lemma MergedAtLogprob(defines: set<string>, computeFeats: set<string>, p: Feats, s: Feats, x: Feats, diacMode: string,
      joined: Analysis, toks: Analysis, agreed: Analysis, result: Analysis, k: string)
    requires "diac" in s && "diac" in joined
    requires StagedAt(defines, computeFeats, p, s, x, diacMode, joined, toks, agreed, result, k)
    requires k in LOGPROB_FEATS * defines
    ensures result[k] == MergedVal(defines, computeFeats, p, s, x, k)
  {
    LogprobKeyOutside(k);
    if k in s {
      assert joined[k] == Str(Override(p, s, x, k));
      assert toks[k] == joined[k];
      assert agreed[k] == toks[k];
    }
  }

  /** A log-probability key is plain in every stage but the last. */
  lemma LogprobKeyOutside(k: string)
    requires k in LOGPROB_FEATS
    ensures k !in {"stem", "stemgloss", "diac", "caphi", "gen", "num", "pattern"}
    ensures k !in TOK_SCHEMES_1 + TOK_SCHEMES_2 && k !in JOIN_FEATS + CONCAT_FEATS + CONCAT_FEATS_NONE
  {
  }

  lemma MergedAtGenNum(defines: set<string>, computeFeats: set<string>, p: Feats, s: Feats, x: Feats, diacMode: string,
      joined: Analysis, toks: Analysis, agreed: Analysis, result: Analysis, k: string)
    requires Staged(defines, computeFeats, p, s, x, diacMode, joined, toks, agreed, result, k)
    requires k in {"gen", "num"} && k in result
    ensures result[k] == MergedVal(defines, computeFeats, p, s, x, k)
  {
    GenNumOutside(k);
    GenNumOutside(FormOf(k));
    assert k in agreed;
    assert k in toks && toks[k] == joined[k];
    assert FormOf(k) in toks ==> toks[FormOf(k)] == joined[FormOf(k)];
  }

  lemma MergedAtTok(defines: set<string>, computeFeats: set<string>, p: Feats, s: Feats, x: Feats, diacMode: string,
      joined: Analysis, toks: Analysis, agreed: Analysis, result: Analysis, k: string)
    requires "diac" in s && "diac" in joined
    requires StagedAt(defines, computeFeats, p, s, x, diacMode, joined, toks, agreed, result, k)
    requires k in CONCAT_FEATS_NONE * defines
    ensures result[k] == MergedVal(defines, computeFeats, p, s, x, k)
  {
    TokKeyOutside(k);
    var base := TokBase(p, s, x, k);
    assert joined[k] == Str(base);
    TokRewritten(joined, defines, s, diacMode, k, base);
    assert agreed[k] == toks[k];
    MergedValTok(defines, computeFeats, p, s, x, k);
  }

  /** A tokenisation key is none of the keys the other stages treat. */
  lemma TokKeyOutside(k: string)
    requires k in CONCAT_FEATS_NONE
    ensures k !in LOGPROB_FEATS && k !in {"pattern", "gen", "num", "caphi", "diac", "stem", "stemgloss"}
  {
  }

  /** The rewrite stage at a tokenisation key whose base is `base`. */
  lemma TokRewritten(m: Analysis, defines: set<string>, s: Feats, diacMode: string, k: string, base: string)
    requires "diac" in s && "diac" in m
    requires k in CONCAT_FEATS_NONE * defines && k in m && m[k] == Str(base)
    ensures RewrittenVal(m, defines, s, diacMode, k) == Str(TokRewrite(k, base))
  {
    TokKeyOutside(k);
    assert TextOr(m, k, "") == base;
    if k !in TOK_SCHEMES_1 + TOK_SCHEMES_2 {
      assert TokRewrite(k, base) == base;
    }
  }

  /** The merged value at a tokenisation key. */
  lemma MergedValTok(defines: set<string>, computeFeats: set<string>, p: Feats, s: Feats, x: Feats, k: string)
    requires "diac" in s && k in CONCAT_FEATS_NONE * defines
    ensures MergedVal(defines, computeFeats, p, s, x, k) == Str(TokRewrite(k, TokBase(p, s, x, k)))
  {
    TokKeyOutside(k);
  }

  lemma MergedAtDiac(defines: set<string>, computeFeats: set<string>, p: Feats, s: Feats, x: Feats, diacMode: string,
      joined: Analysis, toks: Analysis, agreed: Analysis, result: Analysis, k: string)
    requires Staged(defines, computeFeats, p, s, x, diacMode, joined, toks, agreed, result, k)
    requires k in {"diac", "stem", "stemgloss", "caphi"}
    requires k in result
    ensures result[k] == MergedVal(defines, computeFeats, p, s, x, k)
  {
    DiacKeyOutside(k);
    assert k in agreed;
    if k == "caphi" {
      assert result[k] == agreed[k];
    } else {
      assert result[k] == agreed[k] == toks[k];
      if k == "diac" {
        assert joined["diac"] == JoinedVal(defines, p, s, x, "diac");
      }
    }
  }

  /** The rewritten keys are plain in the first and the last stage. */
  lemma DiacKeyOutside(k: string)
    requires k in {"diac", "stem", "stemgloss", "caphi"}
    ensures k !in LOGPROB_FEATS && k !in CONCAT_FEATS_NONE && k !in TOK_SCHEMES_1 + TOK_SCHEMES_2
    ensures k !in {"gen", "num", "pattern"}
  {
  }

  lemma MergedAtOther(defines: set<string>, computeFeats: set<string>, p: Feats, s: Feats, x: Feats, diacMode: string,
      joined: Analysis, toks: Analysis, agreed: Analysis, result: Analysis, k: string)
    requires Staged(defines, computeFeats, p, s, x, diacMode, joined, toks, agreed, result, k)
    requires k !in LOGPROB_FEATS * defines && k !in {"gen", "num", "diac", "stem", "stemgloss", "caphi"}
    requires k !in CONCAT_FEATS_NONE * defines
    requires k in result
    ensures result[k] == MergedVal(defines, computeFeats, p, s, x, k)
  {
    if k == "pattern" && k in computeFeats {
    } else {
      assert k in agreed && agreed[k] == toks[k] == joined[k];
    }
  }

  /** One key of `merge_features`: the four stages compose to
      `MergedVal`. */
  lemma MergedAt(defines: set<string>, computeFeats: set<string>, p: Feats, s: Feats, x: Feats, diacMode: string,
      joined: Analysis, toks: Analysis, agreed: Analysis, result: Analysis, k: string)
    requires Staged(defines, computeFeats, p, s, x, diacMode, joined, toks, agreed, result, k)
    requires k in result
    ensures result[k] == MergedVal(defines, computeFeats, p, s, x, k)
  {
    if k in LOGPROB_FEATS * defines {
      MergedAtLogprob(defines, computeFeats, p, s, x, diacMode, joined, toks, agreed, result, k);
    } else if k in {"gen", "num"} {
      MergedAtGenNum(defines, computeFeats, p, s, x, diacMode, joined, toks, agreed, result, k);
    } else if k in CONCAT_FEATS_NONE * defines {
      MergedAtTok(defines, computeFeats, p, s, x, diacMode, joined, toks, agreed, result, k);
    } else if k in {"diac", "stem", "stemgloss", "caphi"} {
      MergedAtDiac(defines, computeFeats, p, s, x, diacMode, joined, toks, agreed, result, k);
    } else {
      MergedAtOther(defines, computeFeats, p, s, x, diacMode, joined, toks, agreed, result, k);
    }
  }

  /** The merged analysis as one value, key by key. */
  function Merged(defines: set<string>, computeFeats: set<string>, p: Feats, s: Feats, x: Feats): Analysis
    requires "diac" in s && GenNumReadable(defines, p, s, x)
  {
    map k | k in MergedKeys(defines, computeFeats, s) :: MergedVal(defines, computeFeats, p, s, x, k)
  }

  /** `merge_features(db, prefix_feats, stem_feats, suffix_feats,
      diac_mode)`, with `db.defines` and `db.compute_feats` given as the
      sets of their keys. */
  method MergeFeatures(defines: set<string>, computeFeats: set<string>, prefix: Feats, stem: Feats, suffix: Feats, diacMode: string)
    returns (result: Analysis)
    requires "diac" in stem
    requires GenNumReadable(defines, prefix, stem, suffix)
    ensures result.Keys == MergedKeys(defines, computeFeats, stem)
    ensures forall k :: k in result ==> result[k] == MergedVal(defines, computeFeats, prefix, stem, suffix, k)
  {
    FamilyFacts();
    var joined := JoinStage(defines, prefix, stem, suffix);
    var toks := RewriteStage(joined, defines, stem, diacMode);
    GenNumOutside("gen");
    GenNumOutside("num");
    GenNumOutside("form_gen");
    GenNumOutside("form_num");
    var agreed := AgreeStage(toks, defines);
    result := FinalStage(agreed, defines, computeFeats, prefix, stem, suffix);
    KeysUnion(stem.Keys, defines, JOIN_FEATS + CONCAT_FEATS + CONCAT_FEATS_NONE, LOGPROB_FEATS,
      if "pattern" in computeFeats then {"pattern"} else {});
    forall k | k in result
      ensures result[k] == MergedVal(defines, computeFeats, prefix, stem, suffix, k)
    {
      StagesAt(defines, computeFeats, prefix, stem, suffix, diacMode, joined, toks, agreed, result, k);
      StagesAt(defines, computeFeats, prefix, stem, suffix, diacMode, joined, toks, agreed, result, "diac");
      StagesAt(defines, computeFeats, prefix, stem, suffix, diacMode, joined, toks, agreed, result, FormOf(k));
      MergedAt(defines, computeFeats, prefix, stem, suffix, diacMode, joined, toks, agreed, result, k);
    }
  }

  /** A plain feature takes the prefix's value when the prefix gives one,
      else the suffix's when it gives one, and only otherwise the stem's. */
  lemma OverridePrecedence(p: Feats, s: Feats, x: Feats, k: string)
    requires k in s
    ensures var v := Override(p, s, x, k);
      && (k in p && Given(p[k]) ==> v == p[k])
      && (!(k in p && Given(p[k])) && k in x && Given(x[k]) ==> v == x[k])
      && (!(k in p && Given(p[k])) && !(k in x && Given(x[k])) ==> v == s[k])
  {
  }

  /** Every key of the merged analysis holds a value: `None` never
      appears, and the log-probabilities are the only floats. */
  lemma MergedNoNull(defines: set<string>, computeFeats: set<string>, p: Feats, s: Feats, x: Feats, k: string)
    requires "diac" in s
    requires k in MergedKeys(defines, computeFeats, s)
    ensures MergedVal(defines, computeFeats, p, s, x, k) != Null
    ensures MergedVal(defines, computeFeats, p, s, x, k).Float? <==> k in LOGPROB_FEATS * defines
  {
    FamilyFacts();
  }

  /** A feature no family claims keeps the override value. */
  lemma MergedPlain(defines: set<string>, computeFeats: set<string>, p: Feats, s: Feats, x: Feats, k: string)
    requires "diac" in s && k in s
    requires k !in Families() && k !in {"stem", "stemgloss", "gen", "num", "pattern"}
    ensures MergedVal(defines, computeFeats, p, s, x, k) == Str(Override(p, s, x, k))
  {
  }

  /** The merged `diac` has no '+' boundary, no '#' article marker and
      no hamza-wasl alef, and never two shaddas in a row. */
  lemma MergedDiacClean(defines: set<string>, computeFeats: set<string>, p: Feats, s: Feats, x: Feats)
    requires "diac" in s
    ensures var v := MergedVal(defines, computeFeats, p, s, x, "diac");
      v.Str? && '+' !in v.s && '#' !in v.s && ALEF_WASLA !in v.s && NoDouble(v.s, SHADDA)
  {
    FamilyFacts();
    var w := if "diac" in defines then PlusJoinOf(p, s, x, "diac") else Override(p, s, x, "diac");
    assert MergedVal(defines, computeFeats, p, s, x, "diac") == Str(RewriteDiac(w));
    RewriteDiacClean(w);
  }

  /** The merged CAPHI transcription has no '+' or '-', no doubled '_',
      and no '_' at either end. */
  lemma MergedCaphiClean(defines: set<string>, computeFeats: set<string>, p: Feats, s: Feats, x: Feats)
    requires "diac" in s && "caphi" in defines
    ensures var v := MergedVal(defines, computeFeats, p, s, x, "caphi");
      && v.Str? && '+' !in v.s && '-' !in v.s && NoDouble(v.s, '_')
      && (|v.s| > 0 ==> v.s[0] != '_' && v.s[|v.s| - 1] != '_')
  {
    FamilyFacts();
    var w := PlusJoinOf(p, s, x, "caphi");
    assert MergedVal(defines, computeFeats, p, s, x, "caphi") == Str(RewriteCaphi(w));
    RewriteCaphiClean(w);
  }

  /** A recomputed pattern carries no '#' marker. */
  lemma MergedPatternClean(defines: set<string>, computeFeats: set<string>, p: Feats, s: Feats, x: Feats)
    requires "diac" in s && "pattern" in computeFeats
    ensures var v := MergedVal(defines, computeFeats, p, s, x, "pattern");
      v.Str? && '#' !in v.s
  {
    RewritePatternClean(Get(p, "diac", "") + Get(s, "pattern", s["diac"]) + Get(x, "diac", ""));
  }

  /** The schemes with the sun-letter rule carry no '#' marker. */
  lemma MergedTokNoHash(defines: set<string>, computeFeats: set<string>, p: Feats, s: Feats, x: Feats, k: string)
    requires "diac" in s && k in TOK_SCHEMES_1 * defines
    ensures var v := MergedVal(defines, computeFeats, p, s, x, k);
      v.Str? && '#' !in v.s
  {
    FamilyFacts();
    var base := TokBase(p, s, x, k);
    assert k !in LOGPROB_FEATS && k !in {"pattern", "gen", "num", "caphi"};
    assert MergedVal(defines, computeFeats, p, s, x, k) == Str(TokRewrite(k, base));
    RewriteTok1NoHash(base);
    if k in TOK_SCHEMES_2 {
      FathaRuleKeepsOut(RewriteTok1(base), '#');
    }
  }

  /** A joined feature splits on '+' back into the non-empty values of
      prefix, stem and suffix, in that order, when no value holds a '+'. */
  lemma MergedJoinSplits(defines: set<string>, computeFeats: set<string>, p: Feats, s: Feats, x: Feats, k: string)
    requires "diac" in s && k in JOIN_FEATS * defines
    requires '+' !in Get(p, k, "") && '+' !in Get(s, k, "") && '+' !in Get(x, k, "")
    requires Get(p, k, "") != "" || Get(s, k, "") != "" || Get(x, k, "") != ""
    ensures var v := MergedVal(defines, computeFeats, p, s, x, k);
      v.Str? && Split(v.s, '+') == NonEmpty([Get(p, k, ""), Get(s, k, ""), Get(x, k, "")])
  {
    FamilyFacts();
    assert k !in LOGPROB_FEATS && k !in {"pattern", "gen", "num", "caphi", "diac", "stem", "stemgloss"};
    assert MergedVal(defines, computeFeats, p, s, x, k) == Str(PlusJoinOf(p, s, x, k));
    PlusJoinSplits(Get(p, k, ""), Get(s, k, ""), Get(x, k, ""));
  }
}
