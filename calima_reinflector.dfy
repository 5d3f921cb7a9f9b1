/** The legacy reinflector `CalimaStarReinflector`: like the current one,
    but an invalid request gives None instead of an error, there is no
    'ANY' wildcard, the legacy generator is called, and the results are
    concatenated in analysis order without removing repeats. */
module CalimaReinflector {
  import opened Wrappers
  import opened Features
  import opened Database
  import opened SetOrder
  import opened MorphAnalyzer
  import opened Reinflection
  import G = CalimaGenerator

  /** What the reinflector can raise: the analyzer's or the generator's
      error. */
  datatype ReinflectorError = AnalyzerFailed(analyzerErr: AnalyzerError) | GeneratorFailed(generatorErr: G.GeneratorError)

  datatype Reinflector = Reinflector(analyzer: Analyzer, generator: G.Generator)

  /** `CalimaStarReinflector(db)`: builds the analyzer with its defaults
      and the generator over the same database. */
  function NewReinflector(ver: Version, db: Db): (r: Result<Reinflector, ReinflectorError>)
    ensures r.Success? <==> ver == CalimaStar && db.flags.analysis && db.flags.generation
    ensures r.Success? ==> r.value.analyzer.db == db && r.value.generator.db == db && r.value.analyzer.backoff == NoBackoff
    ensures ver == CalimaStar && db.flags.analysis && !db.flags.generation ==>
      r == Failure(GeneratorFailed(G.GeneratorError("DB does not support generation")))
  {
    match NewCalimaAnalyzer(ver, db, "NONE", None)
    case Failure(e) => Failure(AnalyzerFailed(e))
    case Success(a) =>
      match G.NewGenerator(ver, db)
      case Failure(e) => Failure(GeneratorFailed(e))
      case Success(g) => Success(Reinflector(a, g))
  }

  /** Every requested feature is defined and, for a closed feature, one of
      its values. */
  predicate RequestValid(defines: Defines, feats: Request)
  {
    forall k | k in feats :: G.Valid(defines, k, feats[k])
  }

  /** The validation loop, which returns early on the first bad feature. */
  method CheckRequest(defines: Defines, feats: Request) returns (ok: bool)
    ensures ok <==> RequestValid(defines, feats)
  {
    var keys := Elems(feats.Keys);
    var i := 0;
    while i < |keys|
      invariant 0 <= i <= |keys|
      invariant forall k | k in keys[..i] :: G.Valid(defines, k, feats[k])
    {
      var k := keys[i];
      assert k in feats;
      if k !in defines || (defines[k].Some? && !(feats[k].Str? && feats[k].s in defines[k].value)) {
        assert !G.Valid(defines, k, feats[k]);
        return false;
      }
      assert keys[..i + 1] == keys[..i] + [k];
      i := i + 1;
    }
    assert keys[..i] == keys;
    return true;
  }

  // --------------------------------------------------------------- collect

  /** The generator can be called for `m` if it is used. */
  predicate GenOk(r: Reinflector, word: string, feats: Request, hasClitics: bool, m: Analysis)
    requires Readable(feats, m)
  {
    var gf := GenFeats(RulesOf(CalimaStar), feats, hasClitics, m);
    Considered(word, feats, m) && gf.Some? ==> G.GenReady(r.generator, LemmaOf(m), gf.value)
  }

  /** What the generator returns for analysis `m`, or its error. */
  function Generated(r: Reinflector, word: string, feats: Request, hasClitics: bool, m: Analysis)
    : Result<seq<Analysis>, G.GeneratorError>
    requires Readable(feats, m) && GenOk(r, word, feats, hasClitics, m)
  {
    if !Considered(word, feats, m) then Success([])
    else
      match GenFeats(RulesOf(CalimaStar), feats, hasClitics, m)
      case None => Success([])
      case Some(gf) => G.Generate(r.generator, LemmaOf(m), gf)
  }

  predicate AllReady(r: Reinflector, word: string, feats: Request, hasClitics: bool, ms: seq<Analysis>)
  {
    forall m | m in ms :: Readable(feats, m) && GenOk(r, word, feats, hasClitics, m)
  }

  /** The generated analyses of `ms` concatenated in analysis order; the
      first generator error aborts. */
  function Collect(r: Reinflector, word: string, feats: Request, hasClitics: bool, ms: seq<Analysis>)
    : (out: Result<seq<Analysis>, G.GeneratorError>)
    requires AllReady(r, word, feats, hasClitics, ms)
  {
    if ms == [] then Success([])
    else
      var m := ms[|ms| - 1];
      assert m in ms;
      assert forall y | y in ms[..|ms| - 1] :: y in ms;
      var init := Collect(r, word, feats, hasClitics, ms[..|ms| - 1]);
      if init.Failure? then init
      else
        match Generated(r, word, feats, hasClitics, m)
        case Failure(e) => Failure(e)
        case Success(out) => Success(init.value + out)
  }

  /** Collecting succeeds exactly when every generator call does. */
  lemma {:induction false} CollectSucceeds(r: Reinflector, word: string, feats: Request, hasClitics: bool, ms: seq<Analysis>)
    requires AllReady(r, word, feats, hasClitics, ms)
    ensures Collect(r, word, feats, hasClitics, ms).Success? <==>
      forall m | m in ms :: Generated(r, word, feats, hasClitics, m).Success?
    decreases |ms|
  {
    if ms != [] {
      var init, m := ms[..|ms| - 1], ms[|ms| - 1];
      assert ms == init + [m];
      assert forall y | y in init :: y in ms;
      assert m in ms;
      CollectSucceeds(r, word, feats, hasClitics, init);
      forall y | y in ms ensures y in init || y == m {
      }
    }
  }

  /** A successful collection holds exactly what the calls return. */
  lemma {:induction false} CollectMembers(r: Reinflector, word: string, feats: Request, hasClitics: bool,
                                          ms: seq<Analysis>, x: Analysis)
    requires AllReady(r, word, feats, hasClitics, ms) && Collect(r, word, feats, hasClitics, ms).Success?
    ensures forall m | m in ms :: Generated(r, word, feats, hasClitics, m).Success?
    ensures x in Collect(r, word, feats, hasClitics, ms).value <==>
      exists m :: m in ms && x in Generated(r, word, feats, hasClitics, m).value
    decreases |ms|
  {
    CollectSucceeds(r, word, feats, hasClitics, ms);
    if ms != [] {
      var init, m := ms[..|ms| - 1], ms[|ms| - 1];
      CollectLast(r, word, feats, hasClitics, ms, m);
      CollectMembers(r, word, feats, hasClitics, init, x);
      forall y | y in ms && x in Generated(r, word, feats, hasClitics, y).value
        ensures x in Collect(r, word, feats, hasClitics, ms).value
      {
        if y != m {
          assert y in init;
        }
      }
    }
  }

  /** A successful collection of a non-empty list is the collection of
      all but the last analysis followed by what the last call returns. */
  lemma CollectLast(r: Reinflector, word: string, feats: Request, hasClitics: bool, ms: seq<Analysis>, m: Analysis)
    requires AllReady(r, word, feats, hasClitics, ms) && Collect(r, word, feats, hasClitics, ms).Success?
    requires ms != [] && m == ms[|ms| - 1]
    ensures ms == ms[..|ms| - 1] + [m]
    ensures m in ms && forall y | y in ms[..|ms| - 1] :: y in ms
    ensures AllReady(r, word, feats, hasClitics, ms[..|ms| - 1])
    ensures Collect(r, word, feats, hasClitics, ms[..|ms| - 1]).Success?
    ensures Readable(feats, m) && GenOk(r, word, feats, hasClitics, m)
    ensures Generated(r, word, feats, hasClitics, m).Success?
    ensures Collect(r, word, feats, hasClitics, ms).value
         == Collect(r, word, feats, hasClitics, ms[..|ms| - 1]).value + Generated(r, word, feats, hasClitics, m).value
  {
    assert m in ms;
    assert forall y | y in ms[..|ms| - 1] :: y in ms;
  }

  // ------------------------------------------------------------- reinflect

  predicate ReinflectReady(r: Reinflector, punc: char -> bool, word: string, feats: Request)
  {
    && Ready(r.analyzer, punc, word)
    && (Analyze(r.analyzer, punc, word).Success? ==>
          AllReady(r, word, feats, HasClitics(feats), Analyze(r.analyzer, punc, word).value))
  }

  /** `reinflect(word, feats)`: an error of the analyzer is passed on; no
      analyses give an empty list before any validation; an invalid
      request gives None; otherwise the generated analyses in order, or
      the generator's error. */
  function Reinflect(r: Reinflector, punc: char -> bool, word: string, feats: Request)
    : (res: Result<Option<seq<Analysis>>, ReinflectorError>)
    requires ReinflectReady(r, punc, word, feats)
    ensures Analyze(r.analyzer, punc, word).Failure? ==> res == Failure(AnalyzerFailed(Analyze(r.analyzer, punc, word).error))
    ensures Analyze(r.analyzer, punc, word) == Success([]) ==> res == Success(Some([]))
    ensures res == Success(None) <==>
      && Analyze(r.analyzer, punc, word).Success? && Analyze(r.analyzer, punc, word).value != []
      && !RequestValid(r.analyzer.db.defines, feats)
    ensures res.Failure? && Analyze(r.analyzer, punc, word).Success? ==> res.error.GeneratorFailed?
  {
    match Analyze(r.analyzer, punc, word)
    case Failure(e) => Failure(AnalyzerFailed(e))
    case Success(analyses) =>
      if analyses == [] then Success(Some([]))
      else if !RequestValid(r.analyzer.db.defines, feats) then Success(None)
      else
        match Collect(r, word, feats, HasClitics(feats), analyses)
        case Failure(e) => Failure(GeneratorFailed(e))
        case Success(out) => Success(Some(out))
  }

  /** Every reinflected analysis comes from an analysis of the word that
      matches the request, and carries every requested value of the
      generator request built from it. */
  lemma ReinflectFrom(r: Reinflector, punc: char -> bool, word: string, feats: Request, x: Analysis)
    requires ReinflectReady(r, punc, word, feats)
    requires Reinflect(r, punc, word, feats).Success? && Reinflect(r, punc, word, feats).value.Some?
    requires x in Reinflect(r, punc, word, feats).value.value
    ensures Analyze(r.analyzer, punc, word).Success?
    ensures exists m :: m in Analyze(r.analyzer, punc, word).value && Readable(feats, m) && Considered(word, feats, m)
              && GenFeats(RulesOf(CalimaStar), feats, HasClitics(feats), m).Some?
              && G.Agrees(x, GenFeats(RulesOf(CalimaStar), feats, HasClitics(feats), m).value)
  {
    CollectFrom(r, word, feats, HasClitics(feats), Analyze(r.analyzer, punc, word).value, x);
  }

  /** Every collected analysis comes from a considered analysis of `ms`
      and agrees with the generator request built from it. */
  lemma CollectFrom(r: Reinflector, word: string, feats: Request, hasClitics: bool, ms: seq<Analysis>, x: Analysis)
    requires AllReady(r, word, feats, hasClitics, ms) && Collect(r, word, feats, hasClitics, ms).Success?
    requires x in Collect(r, word, feats, hasClitics, ms).value
    ensures exists m :: m in ms && Readable(feats, m) && Considered(word, feats, m)
              && GenFeats(RulesOf(CalimaStar), feats, hasClitics, m).Some?
              && G.Agrees(x, GenFeats(RulesOf(CalimaStar), feats, hasClitics, m).value)
  {
    CollectMembers(r, word, feats, hasClitics, ms, x);
    var m :| m in ms && x in Generated(r, word, feats, hasClitics, m).value;
    assert Readable(feats, m);
  }

  // --------------------------------------------------------------- methods

  /** One round of the loop: the generator call for analysis `m`, if it
      is used. */
  method GenerateFor(r: Reinflector, word: string, feats: Request, hasClitics: bool, m: Analysis)
    returns (out: Result<seq<Analysis>, G.GeneratorError>)
    requires Readable(feats, m) && GenOk(r, word, feats, hasClitics, m)
    ensures out == Generated(r, word, feats, hasClitics, m)
  {
    out := Success([]);
    if Considered(word, feats, m) {
      var gf := BuildGenFeats(RulesOf(CalimaStar), feats, hasClitics, m);
      if gf.Some? {
        out := G.GenerateAnalyses(r.generator, LemmaOf(m), gf.value);
      }
    }
  }

  /** Collecting one more analysis after a successful prefix. */
  lemma CollectStep(r: Reinflector, word: string, feats: Request, hasClitics: bool, ms: seq<Analysis>, k: nat)
    requires AllReady(r, word, feats, hasClitics, ms) && k < |ms|
    requires AllReady(r, word, feats, hasClitics, ms[..k]) && Collect(r, word, feats, hasClitics, ms[..k]).Success?
    ensures AllReady(r, word, feats, hasClitics, ms[..k + 1])
    ensures Readable(feats, ms[k]) && GenOk(r, word, feats, hasClitics, ms[k])
    ensures Collect(r, word, feats, hasClitics, ms[..k + 1]) ==
      match Generated(r, word, feats, hasClitics, ms[k])
      case Failure(e) => Failure(e)
      case Success(out) => Success(Collect(r, word, feats, hasClitics, ms[..k]).value + out)
  {
    assert ms[k] in ms;
    assert ms[..k + 1][..k] == ms[..k];
    assert ms[..k + 1][k] == ms[k];
    assert forall y | y in ms[..k + 1] :: y in ms;
  }

  /** The loop over the analyses, extending the results with what the
      generator returns. */
  method CollectAll(r: Reinflector, word: string, feats: Request, hasClitics: bool, analyses: seq<Analysis>)
    returns (out: Result<seq<Analysis>, G.GeneratorError>)
    requires AllReady(r, word, feats, hasClitics, analyses)
    ensures out == Collect(r, word, feats, hasClitics, analyses)
  {
    var results: seq<Analysis> := [];
    var i := 0;
    assert analyses[..0] == [];
    while i < |analyses|
      invariant 0 <= i <= |analyses|
      invariant AllReady(r, word, feats, hasClitics, analyses[..i])
      invariant Collect(r, word, feats, hasClitics, analyses[..i]) == Success(results)
    {
      CollectStep(r, word, feats, hasClitics, analyses, i);
      var generated := GenerateFor(r, word, feats, hasClitics, analyses[i]);
      if generated.Failure? {
        CollectAborts(r, word, feats, hasClitics, analyses, i + 1);
        return Failure(generated.error);
      }
      results := results + generated.value;
      i := i + 1;
    }
    assert analyses[..i] == analyses;
    return Success(results);
  }

  /** A failure in the first `k` analyses is the failure of all of them. */
  lemma {:induction false} CollectAborts(r: Reinflector, word: string, feats: Request, hasClitics: bool,
                                         ms: seq<Analysis>, k: nat)
    requires AllReady(r, word, feats, hasClitics, ms) && k <= |ms|
    requires Collect(r, word, feats, hasClitics, ms[..k]).Failure?
    ensures Collect(r, word, feats, hasClitics, ms) == Collect(r, word, feats, hasClitics, ms[..k])
    decreases |ms| - k
  {
    if k < |ms| {
      assert ms[..k + 1][..k] == ms[..k];
      CollectAborts(r, word, feats, hasClitics, ms, k + 1);
    } else {
      assert ms[..k] == ms;
    }
  }

  /** `CalimaStarReinflector.reinflect`. */
  method ReinflectWord(r: Reinflector, punc: char -> bool, word: string, feats: Request)
    returns (res: Result<Option<seq<Analysis>>, ReinflectorError>)
    requires ReinflectReady(r, punc, word, feats)
    ensures res == Reinflect(r, punc, word, feats)
  {
    var analyzed := AnalyzeWord(r.analyzer, punc, word);
    if analyzed.Failure? {
      return Failure(AnalyzerFailed(analyzed.error));
    }
    var analyses := analyzed.value;
    if analyses == [] {
      return Success(Some([]));
    }
    var ok := CheckRequest(r.analyzer.db.defines, feats);
    if !ok {
      return Success(None);
    }
    var hasClitics := AnyClitic(feats);
    var out := CollectAll(r, word, feats, hasClitics, analyses);
    if out.Failure? {
      return Failure(GeneratorFailed(out.error));
    }
    return Success(Some(out.value));
  }
}
