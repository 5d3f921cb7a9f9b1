/** The reinflector of the current engine: it analyses a word, keeps the
    analyses that match the request, turns each into a generator request
    and collects what the generator returns, without repeats. The
    generator of the current engine is not part of this model; it is a
    function the reinflector is given. */
module MorphReinflector {
  import opened Wrappers
  import opened Features
  import opened Database
  import opened SetOrder
  import opened MorphAnalyzer
  import opened Reinflection

  datatype ReinflectorError =
    | ReinflectorError(msg: string)
    | AnalyzerFailed(err: AnalyzerError)
    | InvalidReinflectorFeature(feat: string)
    | InvalidReinflectorFeatureValue(feat: string, value: Val)

  /** `Generator.generate(lemma, feats)`: the analyses for a lemma and a
      feature request, or None. */
  type GenerateFn = (string, Request) -> Option<seq<Analysis>>

  datatype Reinflector = Reinflector(analyzer: Analyzer, generate: GenerateFn)

  /** `Reinflector(db)`: the database must be of the current engine and
      loaded for generation; the analyzer built with its defaults must
      accept it too. */
  function NewReinflector(ver: Version, db: Db, generate: GenerateFn): (r: Result<Reinflector, ReinflectorError>)
    ensures r.Success? <==> ver == Morphology && db.flags.generation && db.flags.analysis
    ensures ver != Morphology ==> r == Failure(ReinflectorError("DB is not an instance of MorphologyDB"))
    ensures ver == Morphology && !db.flags.generation ==> r == Failure(ReinflectorError("DB does not support reinflection"))
    ensures ver == Morphology && db.flags.generation && !db.flags.analysis ==> r == Failure(AnalyzerFailed(NoAnalysisSupport))
    ensures r.Success? ==> r.value.analyzer.db == db && r.value.analyzer.backoff == NoBackoff && r.value.generate == generate
  {
    if ver != Morphology then Failure(ReinflectorError("DB is not an instance of MorphologyDB"))
    else if !db.flags.generation then Failure(ReinflectorError("DB does not support reinflection"))
    else
      match NewAnalyzer(ver, db, "NONE", None, false, IntSize(0))
      case Failure(e) => Failure(AnalyzerFailed(e))
      case Success(a) => Success(Reinflector(a, generate))
  }

  // -------------------------------------------------------------- validation

  /** A requested value the database accepts: any value of an open
      feature, a listed value, or 'ANY' for the features that allow it. */
  predicate Valid(defines: Defines, f: string, v: Val)
  {
    f in defines && (defines[f].None? || (AnyFeat(f) && v == Str("ANY")) || (v.Str? && v.s in defines[f].value))
  }

  /** The error for the first feature of `keys` that fails validation. */
  function FirstInvalid(defines: Defines, feats: Request, keys: seq<string>): (r: Option<ReinflectorError>)
    requires forall k | k in keys :: k in feats
    ensures r.None? <==> forall k | k in keys :: Valid(defines, k, feats[k])
    ensures r.Some? ==> exists k :: (k in keys && !Valid(defines, k, feats[k])
      && r.value == (if k in defines then InvalidReinflectorFeatureValue(k, feats[k]) else InvalidReinflectorFeature(k)))
  {
    if keys == [] then None
    else
      var k := keys[0];
      assert k in keys;
      assert forall j | j in keys[1..] :: j in keys;
      if !Valid(defines, k, feats[k]) then
        Some(if k in defines then InvalidReinflectorFeatureValue(k, feats[k]) else InvalidReinflectorFeature(k))
      else
        var rest := FirstInvalid(defines, feats, keys[1..]);
        assert forall j | j in keys :: j == k || j in keys[1..];
        rest
  }

  /** The validation loop over the request's features. */
  method ValidateRequest(defines: Defines, feats: Request) returns (r: Option<ReinflectorError>)
    ensures r == FirstInvalid(defines, feats, Elems(feats.Keys))
  {
    var keys := Elems(feats.Keys);
    var i := 0;
    while i < |keys|
      invariant 0 <= i <= |keys|
      invariant FirstInvalid(defines, feats, keys) == FirstInvalid(defines, feats, keys[i..])
    {
      var k := keys[i];
      if k !in defines {
        return Some(InvalidReinflectorFeature(k));
      }
      if defines[k].Some? {
        if AnyFeat(k) && feats[k] == Str("ANY") {
        } else if !(feats[k].Str? && feats[k].s in defines[k].value) {
          return Some(InvalidReinflectorFeatureValue(k, feats[k]));
        }
      }
      assert keys[i..][1..] == keys[i + 1..];
      i := i + 1;
    }
    return None;
  }

  // --------------------------------------------------------------- collect

  /** What the generator returns for analysis `m`: nothing when `m` is not
      considered, is ruled out, or the generator returns None. */
  function Generated(r: Reinflector, word: string, feats: Request, hasClitics: bool, m: Analysis): seq<Analysis>
    requires Readable(feats, m)
  {
    if !Considered(word, feats, m) then []
    else
      match GenFeats(RulesOf(Morphology), feats, hasClitics, m)
      case None => []
      case Some(gf) =>
        match r.generate(LemmaOf(m), gf)
        case None => []
        case Some(out) => out
  }

  /** The generated analyses of `ms`, in analysis order. */
  function Collect(r: Reinflector, word: string, feats: Request, hasClitics: bool, ms: seq<Analysis>): (out: seq<Analysis>)
    requires forall m | m in ms :: Readable(feats, m)
    ensures forall x | x in out :: exists m :: m in ms && x in Generated(r, word, feats, hasClitics, m)
  {
    if ms == [] then []
    else
      var m := ms[|ms| - 1];
      assert m in ms;
      var init := Collect(r, word, feats, hasClitics, ms[..|ms| - 1]);
      assert forall y | y in ms[..|ms| - 1] :: y in ms;
      init + Generated(r, word, feats, hasClitics, m)
  }

  lemma {:induction false} CollectComplete(r: Reinflector, word: string, feats: Request, hasClitics: bool, ms: seq<Analysis>,
                                           m: Analysis, x: Analysis)
    requires forall y | y in ms :: Readable(feats, y)
    requires m in ms && x in Generated(r, word, feats, hasClitics, m)
    ensures x in Collect(r, word, feats, hasClitics, ms)
    decreases |ms|
  {
    var init := ms[..|ms| - 1];
    assert ms == init + [ms[|ms| - 1]];
    if m != ms[|ms| - 1] {
      assert m in init;
      assert forall y | y in init :: y in ms;
      CollectComplete(r, word, feats, hasClitics, init, m, x);
    }
  }

  /** The list without repeats, each kept at its first occurrence. */
  function Distinct(xs: seq<Analysis>): (r: seq<Analysis>)
    ensures forall x :: x in r <==> x in xs
    ensures forall i, j | 0 <= i < j < |r| :: r[i] != r[j]
  {
    if xs == [] then []
    else
      var init := Distinct(xs[..|xs| - 1]);
      var x := xs[|xs| - 1];
      assert xs == xs[..|xs| - 1] + [x];
      if x in init then init else init + [x]
  }

  // ------------------------------------------------------------- reinflect

  /** What `reinflect` reads exists: the word can be analysed and every
      analysis has the fields the filter reads. */
  predicate ReinflectReady(r: Reinflector, punc: char -> bool, word: string, feats: Request)
  {
    && Ready(r.analyzer, punc, word)
    && (Analyze(r.analyzer, punc, word).Success? ==> forall m | m in Analyze(r.analyzer, punc, word).value :: Readable(feats, m))
  }

  /** `reinflect(word, feats)`: an error of the analyzer is passed on; no
      analyses give no result before any validation; an invalid request
      is an error; otherwise the distinct analyses the generator returns
      for the considered analyses. */
  function Reinflect(r: Reinflector, punc: char -> bool, word: string, feats: Request): (res: Result<seq<Analysis>, ReinflectorError>)
    requires ReinflectReady(r, punc, word, feats)
    ensures Analyze(r.analyzer, punc, word).Failure? ==> res == Failure(AnalyzerFailed(Analyze(r.analyzer, punc, word).error))
    ensures Analyze(r.analyzer, punc, word) == Success([]) ==> res == Success([])
    ensures res.Failure? <==>
      || Analyze(r.analyzer, punc, word).Failure?
      || (Analyze(r.analyzer, punc, word).value != [] && exists k | k in feats :: !Valid(r.analyzer.db.defines, k, feats[k]))
    ensures res.Failure? && Analyze(r.analyzer, punc, word).Success? ==>
      exists k | k in feats :: (!Valid(r.analyzer.db.defines, k, feats[k])
        && res.error == (if k in r.analyzer.db.defines then InvalidReinflectorFeatureValue(k, feats[k]) else InvalidReinflectorFeature(k)))
    ensures res.Success? ==> forall i, j | 0 <= i < j < |res.value| :: res.value[i] != res.value[j]
  {
    match Analyze(r.analyzer, punc, word)
    case Failure(e) => Failure(AnalyzerFailed(e))
    case Success(analyses) =>
      if analyses == [] then Success([])
      else
        match FirstInvalid(r.analyzer.db.defines, feats, Elems(feats.Keys))
        case Some(e) => Failure(e)
        case None => Success(Distinct(Collect(r, word, feats, HasClitics(feats), analyses)))
  }

  /** The result holds exactly what the generator returns, for the
      stripped lemma and the derived request, over the analyses that
      match the word and the request. */
  lemma ReinflectMembers(r: Reinflector, punc: char -> bool, word: string, feats: Request, x: Analysis)
    requires ReinflectReady(r, punc, word, feats) && Reinflect(r, punc, word, feats).Success?
    ensures Analyze(r.analyzer, punc, word).Success?
    ensures x in Reinflect(r, punc, word, feats).value <==>
      exists m :: m in Analyze(r.analyzer, punc, word).value && x in Generated(r, word, feats, HasClitics(feats), m)
  {
    var analyses := Analyze(r.analyzer, punc, word).value;
    assert Reinflect(r, punc, word, feats).value == Distinct(Collect(r, word, feats, HasClitics(feats), analyses));
    DistinctCollectMembers(r, word, feats, HasClitics(feats), analyses, x);
  }

  /** An analysis is among the distinct collected results exactly when
      the generator returns it for one of the analyses. */
  lemma DistinctCollectMembers(r: Reinflector, word: string, feats: Request, hasClitics: bool, ms: seq<Analysis>, x: Analysis)
    requires forall m | m in ms :: Readable(feats, m)
    ensures x in Distinct(Collect(r, word, feats, hasClitics, ms)) <==>
      exists m :: m in ms && x in Generated(r, word, feats, hasClitics, m)
  {
    if exists m :: m in ms && x in Generated(r, word, feats, hasClitics, m) {
      var m :| m in ms && x in Generated(r, word, feats, hasClitics, m);
      CollectComplete(r, word, feats, hasClitics, ms, m, x);
    }
  }

  // --------------------------------------------------------------- methods

  method Dedup(xs: seq<Analysis>) returns (out: seq<Analysis>)
    ensures out == Distinct(xs)
  {
    out := [];
    var i := 0;
    while i < |xs|
      invariant 0 <= i <= |xs|
      invariant out == Distinct(xs[..i])
    {
      if xs[i] !in out {
        out := out + [xs[i]];
      }
      assert xs[..i + 1][..i] == xs[..i];
      i := i + 1;
    }
    assert xs[..i] == xs;
  }

  /** Collecting one more analysis appends what the generator returns for it. */
  lemma CollectSnoc(r: Reinflector, word: string, feats: Request, hasClitics: bool, ms: seq<Analysis>, i: int)
    requires forall m | m in ms :: Readable(feats, m)
    requires 0 <= i < |ms|
    ensures Readable(feats, ms[i])
    ensures forall y | y in ms[..i + 1] :: Readable(feats, y)
    ensures forall y | y in ms[..i] :: Readable(feats, y)
    ensures Collect(r, word, feats, hasClitics, ms[..i + 1])
         == Collect(r, word, feats, hasClitics, ms[..i]) + Generated(r, word, feats, hasClitics, ms[i])
  {
    assert ms[i] in ms;
    assert ms[..i + 1][..i] == ms[..i];
  }

  /** One pass of the loop body: the generator's answer for analysis `m`. */
  method GenerateFor(r: Reinflector, word: string, feats: Request, hasClitics: bool, m: Analysis)
    returns (out: seq<Analysis>)
    requires Readable(feats, m)
    ensures out == Generated(r, word, feats, hasClitics, m)
  {
    out := [];
    if Considered(word, feats, m) {
      var gf := BuildGenFeats(RulesOf(Morphology), feats, hasClitics, m);
      if gf.Some? {
        var generated := r.generate(LemmaOf(m), gf.value);
        if generated.Some? {
          out := generated.value;
        }
      }
    }
  }

  /** The loop over the analyses, extending the results with what the
      generator returns. */
  method CollectAll(r: Reinflector, word: string, feats: Request, hasClitics: bool, analyses: seq<Analysis>)
    returns (results: seq<Analysis>)
    requires forall m | m in analyses :: Readable(feats, m)
    ensures results == Collect(r, word, feats, hasClitics, analyses)
  {
    results := [];
    for i := 0 to |analyses|
      invariant results == Collect(r, word, feats, hasClitics, analyses[..i])
    {
      CollectSnoc(r, word, feats, hasClitics, analyses, i);
      var generated := GenerateFor(r, word, feats, hasClitics, analyses[i]);
      results := results + generated;
    }
    assert analyses[..|analyses|] == analyses;
  }

  /** `Reinflector.reinflect`. */
  method ReinflectWord(r: Reinflector, punc: char -> bool, word: string, feats: Request)
    returns (res: Result<seq<Analysis>, ReinflectorError>)
    requires ReinflectReady(r, punc, word, feats)
    ensures res == Reinflect(r, punc, word, feats)
  {
    var analyzed := AnalyzeWord(r.analyzer, punc, word);
    if analyzed.Failure? {
      return Failure(AnalyzerFailed(analyzed.error));
    }
    var analyses := analyzed.value;
    if analyses == [] {
      return Success([]);
    }
    var invalid := ValidateRequest(r.analyzer.db.defines, feats);
    if invalid.Some? {
      return Failure(invalid.value);
    }
    var hasClitics := AnyClitic(feats);
    var results := CollectAll(r, word, feats, hasClitics, analyses);
    var unique := Dedup(results);
    return Success(unique);
  }
}
