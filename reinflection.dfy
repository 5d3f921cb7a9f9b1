/** The feature bookkeeping the two reinflectors share: which analyses of
    the word are used, and which of their features are handed to the
    generator with which values. The engines differ only in their ignored
    feature sets and in the 'ANY' wildcard, which only the current engine
    knows. */
module Reinflection {
  import opened Wrappers
  import opened Features
  import opened Database
  import opened SetOrder
  import opened Dediac
  import opened MorphRewrite

  /** Requested features, and the features handed to a generator. */
  type Request = map<string, Val>

  /** What distinguishes the two reinflectors: the features they ignore
      and whether a requested 'ANY' leaves a feature out. */
  datatype Rules = Rules(ignored: set<string>, anyWild: bool)

  /** `_IGNORED_FEATS` of each engine. */
  function IgnoredFeats(ver: Version): set<string>
  {
    {"diac", "lex", "bw", "gloss", "source", "stem", "stemcat", "lmm", "dediac", "caphi", "catib6", "ud",
     "d3seg", "atbseg", "d2seg", "d1seg", "d1tok", "d2tok", "atbtok", "d3tok", "root", "pattern", "freq",
     "stemgloss"}
    + (if ver == Morphology then {"bwtok", "pos_logprob", "lex_logprob", "pos_lex_logprob"} else {"POS_prob"})
  }

  function RulesOf(ver: Version): Rules
  {
    Rules(IgnoredFeats(ver), ver == Morphology)
  }

  /** `_CLITIC_FEATS`. */
  predicate IsClitic(f: string)
  {
    f == "enc0" || f == "prc0" || f == "prc1" || f == "prc2" || f == "prc3"
  }

  /** `_SPECIFIED_FEATS`: passed on only when requested. */
  predicate Specified(f: string)
  {
    f == "form_gen" || f == "form_num"
  }

  /** `_CLITIC_IGNORED_FEATS`: dropped when a clitic is requested. */
  predicate ClitIgnored(f: string)
  {
    f == "stt" || f == "cas" || f == "mod"
  }

  /** `_ANY_FEATS`: the features whose closed value list admits 'ANY'. */
  predicate AnyFeat(f: string)
  {
    f == "per" || f == "gen" || f == "num" || f == "cas" || f == "stt" || f == "vox" || f == "mod" || f == "asp"
  }

  /** Some clitic feature is requested. */
  predicate HasClitics(feats: Request)
  {
    "enc0" in feats || "prc0" in feats || "prc1" in feats || "prc2" in feats || "prc3" in feats
  }

  const Clitics: seq<string> := ["enc0", "prc0", "prc1", "prc2", "prc3"]

  /** The loop that looks for a requested clitic feature. */
  method AnyClitic(feats: Request) returns (b: bool)
    ensures b <==> HasClitics(feats)
  {
    var i := 0;
    while i < |Clitics|
      invariant 0 <= i <= |Clitics|
      invariant forall j | 0 <= j < i :: Clitics[j] !in feats
    {
      if Clitics[i] in feats {
        return true;
      }
      i := i + 1;
    }
    assert Clitics[0] !in feats && Clitics[1] !in feats && Clitics[2] !in feats;
    assert Clitics[3] !in feats && Clitics[4] !in feats;
    return false;
  }

  /** The feature of the analysis is not looked at. */
  predicate Skipped(rules: Rules, feats: Request, hasClitics: bool, f: string)
  {
    f in rules.ignored || (Specified(f) && f !in feats) || (hasClitics && ClitIgnored(f))
  }

  /** A requested 'ANY' leaves the feature out (current engine only). */
  predicate Wild(rules: Rules, feats: Request, f: string)
  {
    rules.anyWild && f in feats && feats[f] == Str("ANY")
  }

  /** The feature of `m` goes to the generator. */
  predicate Passed(rules: Rules, feats: Request, hasClitics: bool, m: Analysis, f: string)
    requires f in m
  {
    !Skipped(rules, feats, hasClitics, f) && !Wild(rules, feats, f) && m[f] != Str("na")
  }

  /** A requested feature that `m` marks 'na' rules `m` out. */
  predicate Blocks(rules: Rules, feats: Request, hasClitics: bool, m: Analysis, f: string)
    requires f in m
  {
    !Skipped(rules, feats, hasClitics, f) && !Wild(rules, feats, f) && f in feats && m[f] == Str("na")
  }

  /** The features handed to the generator for analysis `m`, or None when
      `m` is ruled out. */
  function GenFeats(rules: Rules, feats: Request, hasClitics: bool, m: Analysis): (r: Option<Request>)
    ensures r.None? <==> exists f | f in m && f in feats :: Blocks(rules, feats, hasClitics, m, f)
    ensures r.Some? ==> forall f | f in r.value :: f in m && f !in rules.ignored && m[f] != Str("na")
    ensures r.Some? ==> forall f | f in r.value :: (Specified(f) ==> f in feats) && !(hasClitics && ClitIgnored(f))
    ensures r.Some? ==> forall f | f in r.value && f in feats :: r.value[f] == feats[f] && !Wild(rules, feats, f)
    ensures r.Some? ==> forall f | f in r.value && f !in feats :: r.value[f] == m[f]
    ensures r.Some? ==> forall f | f in m && Passed(rules, feats, hasClitics, m, f) :: f in r.value
  {
    if exists f | f in m && f in feats :: Blocks(rules, feats, hasClitics, m, f) then None
    else Some(PassedMap(rules, feats, hasClitics, m))
  }

  function PassedMap(rules: Rules, feats: Request, hasClitics: bool, m: Analysis): Request
  {
    map f | f in m && Passed(rules, feats, hasClitics, m, f) :: if f in feats then feats[f] else m[f]
  }

  /** The loop over the analysis's features with its `is_valid` flag. */
  method BuildGenFeats(rules: Rules, feats: Request, hasClitics: bool, m: Analysis) returns (r: Option<Request>)
    ensures r == GenFeats(rules, feats, hasClitics, m)
  {
    var keys := Elems(m.Keys);
    var gen: Request := map[];
    var i := 0;
    while i < |keys|
      invariant 0 <= i <= |keys|
      invariant SoFar(rules, feats, hasClitics, m, keys[..i], gen)
    {
      var f := keys[i];
      assert f in m;
      assert keys[..i + 1] == keys[..i] + [f];
      var next := gen;
      if Skipped(rules, feats, hasClitics, f) {
      } else if f in feats {
        if feats[f] == Str("ANY") && rules.anyWild {
        } else if m[f] != Str("na") {
          next := gen[f := feats[f]];
        } else {
          GenFeatsBlocked(rules, feats, hasClitics, m, f);
          return None;
        }
      } else if m[f] != Str("na") {
        next := gen[f := m[f]];
      }
      SoFarStep(rules, feats, hasClitics, m, keys[..i], f, gen, next);
      gen := next;
      i := i + 1;
    }
    assert keys[..i] == keys;
    GenFeatsPassed(rules, feats, hasClitics, m, gen);
    return Some(gen);
  }

  /** `gen` is what the loop has built after the features `done`. */
  ghost predicate SoFar(rules: Rules, feats: Request, hasClitics: bool, m: Analysis, done: seq<string>, gen: Request)
  {
    && (forall f | f in m && f in done :: !Blocks(rules, feats, hasClitics, m, f))
    && (forall f :: f in gen <==> f in m && f in done && Passed(rules, feats, hasClitics, m, f))
    && (forall f | f in gen :: gen[f] == if f in feats then feats[f] else m[f])
  }

  lemma SoFarStep(rules: Rules, feats: Request, hasClitics: bool, m: Analysis, done: seq<string>, f: string,
                  gen: Request, next: Request)
    requires f in m && SoFar(rules, feats, hasClitics, m, done, gen) && !Blocks(rules, feats, hasClitics, m, f)
    requires next == if Passed(rules, feats, hasClitics, m, f) then gen[f := if f in feats then feats[f] else m[f]] else gen
    ensures SoFar(rules, feats, hasClitics, m, done + [f], next)
  {
  }

  lemma GenFeatsBlocked(rules: Rules, feats: Request, hasClitics: bool, m: Analysis, f: string)
    requires f in m && f in feats && Blocks(rules, feats, hasClitics, m, f)
    ensures GenFeats(rules, feats, hasClitics, m) == None
  {
  }

  lemma GenFeatsPassed(rules: Rules, feats: Request, hasClitics: bool, m: Analysis, gen: Request)
    requires forall f | f in m :: !Blocks(rules, feats, hasClitics, m, f)
    requires forall f :: f in gen <==> f in m && Passed(rules, feats, hasClitics, m, f)
    requires forall f | f in gen :: gen[f] == if f in feats then feats[f] else m[f]
    ensures GenFeats(rules, feats, hasClitics, m) == Some(gen)
  {
    assert !exists f | f in m && f in feats :: Blocks(rules, feats, hasClitics, m, f);
    PassedMapIs(rules, feats, hasClitics, m, gen);
  }

  lemma PassedMapIs(rules: Rules, feats: Request, hasClitics: bool, m: Analysis, gen: Request)
    requires forall f :: f in gen <==> f in m && Passed(rules, feats, hasClitics, m, f)
    requires forall f | f in gen :: gen[f] == if f in feats then feats[f] else m[f]
    ensures PassedMap(rules, feats, hasClitics, m) == gen
  {
    var mm := PassedMap(rules, feats, hasClitics, m);
    assert mm.Keys == gen.Keys;
    assert forall f | f in mm :: mm[f] == gen[f];
  }

  // ------------------------------------------------------------ analyses

  /** What the reinflector reads from an analysis exists. */
  predicate Readable(feats: Request, m: Analysis)
  {
    "diac" in m && m["diac"].Str? && "lex" in m && m["lex"].Str? && ("pos" in feats ==> "pos" in m)
  }

  /** The lemma handed to the generator: the lex up to the first '-' or
      '_'. */
  function LemmaOf(m: Analysis): (r: string)
    requires "lex" in m && m["lex"].Str?
    ensures r <= m["lex"].s && '_' !in r && '-' !in r
  {
    StripLex(m["lex"].s)
  }

  /** An analysis is used only if its undiacritised form is the word's and
      its part of speech and lemma are the requested ones. */
  predicate Considered(word: string, feats: Request, m: Analysis)
    requires Readable(feats, m)
  {
    && DediacAr(m["diac"].s) == DediacAr(word)
    && ("pos" in feats ==> feats["pos"] == m["pos"])
    && ("lex" in feats ==> feats["lex"] == Str(LemmaOf(m)))
  }
}
