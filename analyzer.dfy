/** The analyzers of both engines (`Analyzer` of the current morphology
    package and `CalimaStarAnalyzer` of the legacy one), sharing one model
    that branches on the database version where the two differ: a word is
    stripped and classified (digit, punctuation, word holding punctuation,
    foreign, Arabic); the special classes get one analysis built from a
    database default; an Arabic word is de-diacritised, normalised and cut
    into every bounded prefix/stem/suffix split, whose lexicon entries are
    joined through the three compatibility tables; finally the NOAN
    backoff pass may add analyses built from placeholder stems. */
module MorphAnalyzer {
  import opened Wrappers
  import opened PyStr
  import opened Regex
  import opened Charsets
  import opened Dediac
  import opened CharMap
  import opened Features
  import opened MorphRewrite
  import opened MorphMerge
  import opened CalimaMerge
  import opened Database
  import opened Segmenter
  import opened Folds

  // ------------------------------------------------------------ construction

  /** The backoff setting: no backoff, or a condition ('NOAN' or 'ADD') and
      an action ('ALL' or 'PROP'). */
  datatype Backoff = NoBackoff | Backoff(condition: string, action: string)

  datatype AnalyzerError =
    | WrongDb            // the database is not of this engine's class
    | NoAnalysisSupport  // the database was not loaded for analysis
    | InvalidBackoff(mode: string)
    | InvalidCacheSize
    | BadTemplate(stem: string)  // the stem is not a valid replacement template

  /** The `cache_size` argument: an `int`, or a value of another type. */
  datatype CacheSize = IntSize(n: int) | NotInt

  /** An analyzer: the database, its engine, the backoff setting, whether
      digits are recognised strictly, and the normalisation map with its
      default. */
  datatype Analyzer = Analyzer(ver: Version, db: Db, backoff: Backoff, strictDigit: bool,
                               norm: Expanded, normDefault: Option<string>)

  /** `_BACKOFF_TYPES`: the five backoff modes. */
  predicate IsBackoffType(mode: string)
  {
    mode == "NONE" || mode == "NOAN_ALL" || mode == "NOAN_PROP" || mode == "ADD_ALL" || mode == "ADD_PROP"
  }

  /** `DEFAULT_NORMALIZE_MAP`: the alef variants to bare alef, alef maksura
      to yeh, teh marbuta to heh, and tatweel deleted. */
  const DEFAULT_NORMALIZE_MAP: Expanded := map[
    HAMZA_BELOW_ALEF := Some([ALEF]), HAMZA_ABOVE_ALEF := Some([ALEF]),
    MADDA_ALEF := Some([ALEF]), ALEF_WASLA := Some([ALEF]),
    ALEF_MAKSURA := Some([YEH]), TEH_MARBUTA := Some([HEH]),
    TATWEEL := Some("")]

  /** The legacy default map: the same without the tatweel entry. */
  const CALIMA_NORMALIZE_MAP: Expanded := map[
    HAMZA_BELOW_ALEF := Some([ALEF]), HAMZA_ABOVE_ALEF := Some([ALEF]),
    MADDA_ALEF := Some([ALEF]), ALEF_WASLA := Some([ALEF]),
    ALEF_MAKSURA := Some([YEH]), TEH_MARBUTA := Some([HEH])]

  /** Splitting at the only '_' of `s` gives the text before it and the
      text after it. */
  lemma SplitAt(s: string, i: nat)
    requires i < |s| && s[i] == '_'
    requires forall j :: 0 <= j < |s| && j != i ==> s[j] != '_'
    ensures Split(s, '_') == [s[..i], s[i + 1..]]
  {
    assert IndexOf(s, '_') == i;
    var t := s[i + 1..];
    assert forall j :: 0 <= j < |t| ==> t[j] == s[i + 1 + j];
    assert IndexOf(t, '_') == |t|;
  }

  /** Splitting a mode at its '_' gives its condition and its action. */
  lemma SplitMode(mode: string, i: nat, condition: string, action: string)
    requires i < |mode| && mode[i] == '_'
    requires mode[..i] == condition && mode[i + 1..] == action
    requires forall j :: 0 <= j < |mode| && j != i ==> mode[j] != '_'
    ensures Split(mode, '_') == [condition, action]
  {
    SplitAt(mode, i);
  }

  /** The two halves of the four backoff modes other than 'NONE'. */
  lemma BackoffSplit(mode: string)
    requires IsBackoffType(mode) && mode != "NONE"
    ensures |Split(mode, '_')| == 2
    ensures mode == "NOAN_ALL" ==> Split(mode, '_') == ["NOAN", "ALL"]
    ensures mode == "NOAN_PROP" ==> Split(mode, '_') == ["NOAN", "PROP"]
    ensures mode == "ADD_ALL" ==> Split(mode, '_') == ["ADD", "ALL"]
    ensures mode == "ADD_PROP" ==> Split(mode, '_') == ["ADD", "PROP"]
  {
    if mode == "NOAN_ALL" {
      SplitMode(mode, 4, "NOAN", "ALL");
    } else if mode == "NOAN_PROP" {
      SplitMode(mode, 4, "NOAN", "PROP");
    } else if mode == "ADD_ALL" {
      SplitMode(mode, 3, "ADD", "ALL");
    } else {
      SplitMode(mode, 3, "ADD", "PROP");
    }
  }

  /** The current engine's reading of `backoff`: a member of the five
      modes, split at '_' into condition and action. */
  function MorphBackoff(mode: string): Option<Backoff>
  {
    if !IsBackoffType(mode) then None
    else if mode == "NONE" then Some(NoBackoff)
    else
      BackoffSplit(mode);
      var toks := Split(mode, '_');
      Some(Backoff(toks[0], toks[1]))
  }

  /** The legacy engine's reading of `backoff`, one mode at a time. */
  function CalimaBackoff(mode: string): Option<Backoff>
  {
    if mode == "NONE" then Some(NoBackoff)
    else if mode == "NOAN_ALL" then Some(Backoff("NOAN", "ALL"))
    else if mode == "NOAN_PROP" then Some(Backoff("NOAN", "PROP"))
    else if mode == "ADD_ALL" then Some(Backoff("ADD", "ALL"))
    else if mode == "ADD_PROP" then Some(Backoff("ADD", "PROP"))
    else None
  }

  /** The two engines accept the same five modes and read them alike. */
  lemma BackoffReadingsAgree(mode: string)
    ensures MorphBackoff(mode) == CalimaBackoff(mode)
    ensures MorphBackoff(mode).Some? <==> IsBackoffType(mode)
    ensures MorphBackoff(mode) == Some(NoBackoff) <==> mode == "NONE"
  {
    if IsBackoffType(mode) && mode != "NONE" {
      BackoffSplit(mode);
    }
  }

  /** `Analyzer(db, backoff, norm_map, strict_digit, cache_size)`, with the
      database given with the engine that loaded it. */
  function NewAnalyzer(ver: Version, db: Db, backoff: string, normMap: Option<CharMapper>,
                       strictDigit: bool, cacheSize: CacheSize): (r: Result<Analyzer, AnalyzerError>)
    ensures r.Success? <==> ver == Morphology && db.flags.analysis && IsBackoffType(backoff) && cacheSize.IntSize?
    ensures ver != Morphology ==> r == Failure(WrongDb)
    ensures ver == Morphology && !db.flags.analysis ==> r == Failure(NoAnalysisSupport)
    ensures ver == Morphology && db.flags.analysis && !IsBackoffType(backoff) ==> r == Failure(InvalidBackoff(backoff))
    ensures r.Success? ==> r.value.ver == Morphology && r.value.db == db && r.value.strictDigit == strictDigit
    ensures r.Success? && normMap.None? ==> r.value.norm == DEFAULT_NORMALIZE_MAP && r.value.normDefault.None?
    ensures r.Success? && normMap.Some? ==>
      r.value.norm == normMap.value.charmap && r.value.normDefault == normMap.value.default
  {
    if ver != Morphology then Failure(WrongDb)
    else if !db.flags.analysis then Failure(NoAnalysisSupport)
    else
      match MorphBackoff(backoff)
      case None => Failure(InvalidBackoff(backoff))
      case Some(b) =>
        if cacheSize.NotInt? then Failure(InvalidCacheSize)
        else if normMap.None? then Success(Analyzer(ver, db, b, strictDigit, DEFAULT_NORMALIZE_MAP, None))
        else Success(Analyzer(ver, db, b, strictDigit, normMap.value.charmap, normMap.value.default))
  }

  /** `CalimaStarAnalyzer(db, backoff, normalization_map)`: the map argument
      is ignored and the legacy default map is always used. */
  function NewCalimaAnalyzer(ver: Version, db: Db, backoff: string, normalizationMap: Option<CharMapper>)
    : (r: Result<Analyzer, AnalyzerError>)
    ensures r.Success? <==> ver == CalimaStar && db.flags.analysis && IsBackoffType(backoff)
    ensures ver != CalimaStar ==> r == Failure(WrongDb)
    ensures ver == CalimaStar && !db.flags.analysis ==> r == Failure(NoAnalysisSupport)
    ensures r.Success? ==> r.value.ver == CalimaStar && r.value.db == db && r.value.strictDigit
    ensures r.Success? ==> r.value.norm == CALIMA_NORMALIZE_MAP && r.value.normDefault.None?
  {
    BackoffReadingsAgree(backoff);
    if ver != CalimaStar then Failure(WrongDb)
    else if !db.flags.analysis then Failure(NoAnalysisSupport)
    else
      match CalimaBackoff(backoff)
      case None => Failure(InvalidBackoff(backoff))
      case Some(b) => Success(Analyzer(ver, db, b, true, CALIMA_NORMALIZE_MAP, None))
  }

  // ---------------------------------------------------------- classification

  /** What `$` leaves to the body of an anchored `re.match`: a final
      newline may stand after the match. */
  function Body(w: string): string
  {
    if |w| > 0 && w[|w| - 1] == '\n' then w[..|w| - 1] else w
  }

  /** `_IS_DIGIT_RE` (current engine, loose): one line holding a digit. */
  predicate LooseDigit(w: string)
  {
    var b := Body(w);
    '\n' !in b && exists i :: 0 <= i < |b| && IsDigitChar(b[i])
  }

  /** `^[0-9٠-٩]+$`: digits only. */
  predicate StrictDigit(w: string)
  {
    var b := Body(w);
    |b| > 0 && forall i :: 0 <= i < |b| ==> IsDigitChar(b[i])
  }

  /** `^[P]+$` over a character class `cls`, with `re.match`. */
  predicate MatchAll(cls: char -> bool, w: string)
  {
    var b := Body(w);
    |b| > 0 && forall i :: 0 <= i < |b| ==> cls(b[i])
  }

  /** The same pattern with `re.fullmatch`: no final newline is allowed. */
  predicate FullAll(cls: char -> bool, w: string)
  {
    |w| > 0 && forall i :: 0 <= i < |w| ==> cls(w[i])
  }

  /** The letters of the legacy engine's `_IS_AR_RE`, whose class also
      holds the apostrophe. */
  predicate IsCalimaArChar(c: char)
  {
    IsArChar(c) || c == '\''
  }

  datatype Kind = Digit | Punc | HasPunc | Foreign | Arabic

  /** The class of a stripped word, tested in the engine's order; `punc`
      is the Unicode punctuation-and-symbol class. */
  function Classify(a: Analyzer, punc: char -> bool, w: string): Kind
  {
    if a.ver == Morphology then
      if (if a.strictDigit then StrictDigit(w) else LooseDigit(w)) then Digit
      else if MatchAll(punc, w) then Punc
      else if exists i :: 0 <= i < |w| && punc(w[i]) then HasPunc
      else if !MatchAll(IsArChar, w) then Foreign
      else Arabic
    else
      if StrictDigit(w) then Digit
      else if FullAll(punc, w) then Punc
      else if |w| > 0 && punc(w[0]) then HasPunc
      else if !FullAll(IsCalimaArChar, w) then Foreign
      else Arabic
  }

  /** A strict digit string is also a loose one. */
  lemma StrictIsLoose(w: string)
    requires StrictDigit(w)
    ensures LooseDigit(w)
  {
    var b := Body(w);
    assert IsDigitChar(b[0]);
    assert forall i :: 0 <= i < |b| ==> b[i] != '\n' by {
      assert !IsDigitChar('\n');
    }
  }

  /** On a stripped word the anchors see the whole word. */
  lemma BodyOfStripped(word: string)
    ensures Body(Strip(word)) == Strip(word)
  {
  }

  /** What each class says about the characters of a stripped, non-empty
      word. */
  lemma ClassifyMeaning(a: Analyzer, punc: char -> bool, word: string)
    requires Strip(word) != ""
    ensures var w := Strip(word); var k := Classify(a, punc, w);
      && (k == Digit && (a.ver == CalimaStar || a.strictDigit) ==> forall i :: 0 <= i < |w| ==> IsDigitChar(w[i]))
      && (k == Digit ==> exists i :: 0 <= i < |w| && IsDigitChar(w[i]))
      && (k == Punc ==> forall i :: 0 <= i < |w| ==> punc(w[i]))
      && (k == HasPunc ==> exists i :: 0 <= i < |w| && punc(w[i]))
      && (k == HasPunc && a.ver == CalimaStar ==> punc(w[0]))
      && (k == Arabic && a.ver == Morphology ==> forall i :: 0 <= i < |w| ==> IsArChar(w[i]) && !punc(w[i]))
      && (k == Arabic && a.ver == CalimaStar ==> forall i :: 0 <= i < |w| ==> IsCalimaArChar(w[i]))
      && (k == Foreign && a.ver == Morphology ==> exists i :: 0 <= i < |w| && !IsArChar(w[i]))
      && (k == Foreign && a.ver == CalimaStar ==> exists i :: 0 <= i < |w| && !IsCalimaArChar(w[i]))
  {
    var w := Strip(word);
    BodyOfStripped(word);
    if Classify(a, punc, w) == Digit && a.ver == Morphology && !a.strictDigit {
      assert LooseDigit(w);
    } else if Classify(a, punc, w) == Digit {
      assert IsDigitChar(w[0]);
    }
  }

  // ----------------------------------------------------- special analyses

  const COPY_FEATS: set<string> :=
    {"gloss", "atbtok", "atbseg", "d1tok", "d1seg", "d2tok", "d2seg", "d3tok", "d3seg", "bwtok"}
  const UNDEFINED_LEX_FEATS: set<string> := {"root", "pattern", "caphi"}

  /** How one special class is tagged: the default entry it copies, the
      'pos' it forces (if any), the bw suffix, the source, the value of the
      lexical features, and the catib6 and ud tags. */
  datatype Tags = Tags(defaultPos: string, pos: Option<string>, bwTag: string, source: string,
                       lexTag: string, catib6: string, ud: string)

  const DIGIT_TAGS: Tags := Tags("digit", None, "/NOUN_NUM", "digit", "DIGIT", "NOM", "NUM")
  const PUNC_TAGS: Tags := Tags("punc", None, "/PUNC", "punc", "PUNC", "PNX", "PUNCT")
  const FOREIGN_TAGS: Tags := Tags("latin", Some("foreign"), "/FOREIGN", "foreign", "FOREIGN", "FOREIGN", "X")
  /** The legacy engine copies `defaults['noun']` for foreign words. */
  const CALIMA_FOREIGN_TAGS: Tags := Tags("noun", None, "/FOREIGN", "foreign", "", "", "")

  function TagsOf(ver: Version, k: Kind): Tags
    requires k in {Digit, Punc, Foreign}
  {
    if k == Digit then DIGIT_TAGS
    else if k == Punc then PUNC_TAGS
    else if ver == Morphology then FOREIGN_TAGS else CALIMA_FOREIGN_TAGS
  }

  /** `result['gen']` (or 'num') and its `form_` fallback exist whenever
      the special analysis reads them. */
  predicate FallbackReadable(defines: set<string>, base: Analysis)
  {
    && ("form_gen" in defines ==> "gen" in base && (base["gen"] == Str("-") ==> "form_gen" in base))
    && ("form_num" in defines ==> "num" in base && (base["num"] == Str("-") ==> "form_num" in base))
  }

  /** The keys of a special analysis of the current engine. */
  function SpecialKeys(base: Analysis, defines: set<string>, t: Tags): set<string>
  {
    base.Keys + {"diac", "stem", "stemgloss", "stemcat", "lex", "bw", "source"}
    + (if t.pos.Some? then {"pos"} else {})
    + (COPY_FEATS + UNDEFINED_LEX_FEATS + {"catib6", "ud"}) * defines
    + LOGPROB_FEATS
  }

  /** The value of key `k` in a special analysis of the current engine:
      the copied default, overwritten field by field (the overwritten
      fields are pairwise distinct, so their order does not matter), and
      finally `gen`/`num` of '-' replaced by their `form_` values. */
  function SpecialVal(base: Analysis, defines: set<string>, w: string, t: Tags, k: string): Val
    requires k in SpecialKeys(base, defines, t)
    requires FallbackReadable(defines, base)
  {
    if k in LOGPROB_FEATS then Float("-99.0")
    else if k in {"diac", "stem", "stemgloss", "lex"} then Str(w)
    else if k == "stemcat" then Null
    else if k == "bw" then Str(w + t.bwTag)
    else if k == "source" then Str(t.source)
    else if k == "pos" && t.pos.Some? then Str(t.pos.value)
    else if k in COPY_FEATS && k in defines then Str(w)
    else if k in UNDEFINED_LEX_FEATS && k in defines then Str(t.lexTag)
    else if k == "catib6" && k in defines then Str(t.catib6)
    else if k == "ud" && k in defines then Str(t.ud)
    else if k in {"gen", "num"} && FormOf(k) in defines && base[k] == Str("-") then base[FormOf(k)]
    else base[k]
  }

  /** The one analysis of a digit, punctuation or foreign word in the
      current engine. */
  function MorphSpecial(db: Db, w: string, t: Tags): Analysis
    requires Str(t.defaultPos) in db.defaults
    requires FallbackReadable(db.defines.Keys, db.defaults[Str(t.defaultPos)])
  {
    var base := db.defaults[Str(t.defaultPos)];
    map k | k in SpecialKeys(base, db.defines.Keys, t) :: SpecialVal(base, db.defines.Keys, w, t, k)
  }

  /** The one analysis of a digit, punctuation or foreign word in the
      legacy engine. */
  function CalimaSpecial(db: Db, w: string, t: Tags): Analysis
    requires Str(t.defaultPos) in db.defaults
  {
    db.defaults[Str(t.defaultPos)]["diac" := Str(w)]["lex" := Str(w + "_0")]["bw" := Str(w + t.bwTag)]
      ["gloss" := Str(w)]["source" := Str(t.source)]
  }

  /** The default entry a special class needs, and what reading it needs. */
  predicate SpecialReady(a: Analyzer, t: Tags)
  {
    Str(t.defaultPos) in a.db.defaults
    && (a.ver == Morphology ==> FallbackReadable(a.db.defines.Keys, a.db.defaults[Str(t.defaultPos)]))
  }

  function Special(a: Analyzer, w: string, t: Tags): Analysis
    requires SpecialReady(a, t)
  {
    if a.ver == Morphology then MorphSpecial(a.db, w, t) else CalimaSpecial(a.db, w, t)
  }

  /** A special analysis copies its default entry, then records the word as
      its diacritised form and lemma, tags its bw and names its source; the
      current engine also makes the word its stem and stem gloss, leaves
      the stem category empty, and scores it with the -99.0 sentinel. */
  lemma SpecialShape(a: Analyzer, w: string, t: Tags)
    requires SpecialReady(a, t)
    ensures var r := Special(a, w, t);
      && a.db.defaults[Str(t.defaultPos)].Keys <= r.Keys
      && r["diac"] == Str(w)
      && r["bw"] == Str(w + t.bwTag)
      && r["source"] == Str(t.source)
      && (a.ver == Morphology ==>
            && r["lex"] == Str(w) && r["stem"] == Str(w) && r["stemgloss"] == Str(w)
            && r["stemcat"] == Null && r["pos_logprob"] == Float("-99.0"))
      && (a.ver == Morphology && t.pos.Some? ==> r["pos"] == Str(t.pos.value))
      && (a.ver == CalimaStar ==> r["lex"] == Str(w + "_0") && r["gloss"] == Str(w))
  {
    if a.ver == Morphology {
      MorphSpecialShape(a.db, w, t);
    }
  }

  lemma MorphSpecialShape(db: Db, w: string, t: Tags)
    requires Str(t.defaultPos) in db.defaults
    requires FallbackReadable(db.defines.Keys, db.defaults[Str(t.defaultPos)])
    ensures var r := MorphSpecial(db, w, t);
      && db.defaults[Str(t.defaultPos)].Keys <= r.Keys
      && r["diac"] == Str(w) && r["bw"] == Str(w + t.bwTag) && r["source"] == Str(t.source)
      && r["lex"] == Str(w) && r["stem"] == Str(w) && r["stemgloss"] == Str(w)
      && r["stemcat"] == Null && r["pos_logprob"] == Float("-99.0")
      && (t.pos.Some? ==> r["pos"] == Str(t.pos.value))
  {
    var base, defs := db.defaults[Str(t.defaultPos)], db.defines.Keys;
    var keys := SpecialKeys(base, defs, t);
    assert "pos_logprob" in LOGPROB_FEATS;
    assert base.Keys <= keys;
    assert "diac" in keys && "lex" in keys && "stem" in keys && "stemgloss" in keys && "stemcat" in keys
        && "bw" in keys && "source" in keys && "pos_logprob" in keys;
  }

  // ---------------------------------------------------------------- joining

  /** What `merge_features` reads exists for this triple of entries. */
  predicate MergeOk(a: Analyzer, p: Feats, s: Feats, x: Feats)
  {
    if a.ver == Morphology then "diac" in s && GenNumReadable(a.db.defines.Keys, p, s, x)
    else CalimaReadable(a.db.computeFeats, p, s, x)
  }

  /** `merge_features(db, prefix_feats, stem_feats, suffix_feats)` of the
      analyzer's engine, in the default diac mode 'AF'. */
  function Merge(a: Analyzer, p: Feats, s: Feats, x: Feats): Analysis
    requires MergeOk(a, p, s, x)
  {
    if a.ver == Morphology then Merged(a.db.defines.Keys, a.db.computeFeats, p, s, x)
    else CalimaMerged(a.db.computeFeats, p, s, x)
  }

  method MergeWith(a: Analyzer, p: Feats, s: Feats, x: Feats) returns (m: Analysis)
    requires MergeOk(a, p, s, x)
    ensures m == Merge(a, p, s, x)
  {
    if a.ver == Morphology {
      m := MergeFeatures(a.db.defines.Keys, a.db.computeFeats, p, s, x, "AF");
    } else {
      m := CalimaMergeFeatures(a.db.computeFeats, p, s, x, "AF");
    }
  }

  /** The merged diacritised form is always a string. */
  lemma MergeDiac(a: Analyzer, p: Feats, s: Feats, x: Feats)
    requires MergeOk(a, p, s, x)
    ensures "diac" in Merge(a, p, s, x) && Merge(a, p, s, x)["diac"].Str?
  {
    if a.ver == Morphology {
      MergedDiacClean(a.db.defines.Keys, a.db.computeFeats, p, s, x);
    } else {
      CalimaMergedDiacClean(a.db.computeFeats, p, s, x);
    }
  }

  /** A spelling variant: once diacritics are dropped, the word (in the
      current engine also without tatweel) differs from the analysis's
      diacritised form. */
  predicate Variant(ver: Version, wordDediac: string, diac: string)
  {
    if ver == Morphology then Delete({TATWEEL}, wordDediac) != DediacAr(diac)
    else wordDediac != DediacAr(diac)
  }

  /** `stem_cat in prefix_stem_compat[prefix_cat]`. */
  predicate StemFits(a: Analyzer, p: Entry, s: Entry)
    requires p.cat in a.db.prefixStemCompat
  {
    s.cat in a.db.prefixStemCompat[p.cat]
  }

  /** The suffix test of `_combined_analyses`, every lookup guarded. */
  predicate SuffixFits(a: Analyzer, p: Entry, s: Entry, x: Entry)
  {
    && s.cat in a.db.stemSuffixCompat && p.cat in a.db.prefixSuffixCompat
    && x.cat in a.db.stemSuffixCompat[s.cat] && x.cat in a.db.prefixSuffixCompat[p.cat]
  }

  predicate Mergeable(a: Analyzer, p: Entry, s: Entry, x: Entry)
  {
    SuffixFits(a, p, s, x) ==> MergeOk(a, p.feats, s.feats, x.feats)
  }

  /** The analysis of one compatible triple: the merged features with the
      stem's diacritised form as 'stem', the stem category as 'stemcat',
      and 'source' set to 'spvar' for a spelling variant. */
  function Joined(a: Analyzer, wd: string, p: Entry, s: Entry, x: Entry): Analysis
    requires MergeOk(a, p.feats, s.feats, x.feats)
  {
    Marked(a.ver, wd, Merge(a, p.feats, s.feats, x.feats), s)
  }

  /** The overrides `_combined_analyses` applies to a merged analysis. */
  function Marked(ver: Version, wd: string, merged: Analysis, s: Entry): Analysis
    requires "diac" in s.feats
  {
    var m := merged["stem" := Str(s.feats["diac"])]["stemcat" := Str(s.cat)];
    if Variant(ver, wd, TextOr(merged, "diac", "")) then m["source" := Str("spvar")] else m
  }

  /** The inner loop of `_combined_analyses` over the suffix entries. */
  function SuffixRun(a: Analyzer, wd: string, p: Entry, s: Entry, xs: seq<Entry>): seq<Analysis>
    requires forall x | x in xs :: Mergeable(a, p, s, x)
  {
    if xs == [] then []
    else
      var x := xs[|xs| - 1];
      assert x in xs && Mergeable(a, p, s, x);
      SuffixRun(a, wd, p, s, xs[..|xs| - 1]) + (if SuffixFits(a, p, s, x) then [Joined(a, wd, p, s, x)] else [])
  }

  /** The stems paired with one prefix entry. */
  function StemRun(a: Analyzer, wd: string, p: Entry, ss: seq<Entry>, xs: seq<Entry>): seq<Analysis>
    requires p.cat in a.db.prefixStemCompat
    requires forall s, x | s in ss && x in xs :: Mergeable(a, p, s, x)
  {
    if ss == [] then []
    else
      var s := ss[|ss| - 1];
      assert s in ss;
      StemRun(a, wd, p, ss[..|ss| - 1], xs) + (if StemFits(a, p, s) then SuffixRun(a, wd, p, s, xs) else [])
  }

  /** Every prefix category is a key of `prefix_stem_compat`, which is
      indexed without a guard. */
  predicate PrefixesKeyed(a: Analyzer, ps: seq<Entry>)
  {
    forall p | p in ps :: p.cat in a.db.prefixStemCompat
  }

  predicate AllMergeable(a: Analyzer, ps: seq<Entry>, ss: seq<Entry>, xs: seq<Entry>)
  {
    forall p, s, x | p in ps && s in ss && x in xs :: Mergeable(a, p, s, x)
  }

  /** `_combined_analyses(word_dediac, prefix_analyses, stem_analyses,
      suffix_analyses)`: the product of prefix and stem entries in order,
      each compatible pair followed through the suffix entries. */
  function Combined(a: Analyzer, wd: string, ps: seq<Entry>, ss: seq<Entry>, xs: seq<Entry>): seq<Analysis>
    requires PrefixesKeyed(a, ps) && AllMergeable(a, ps, ss, xs)
  {
    if ps == [] then []
    else Combined(a, wd, ps[..|ps| - 1], ss, xs) + StemRun(a, wd, ps[|ps| - 1], ss, xs)
  }

  /** One compatible triple turned into an analysis, as the body of the
      innermost loop does it. */
  method JoinTriple(a: Analyzer, wd: string, p: Entry, s: Entry, x: Entry) returns (merged: Analysis)
    requires MergeOk(a, p.feats, s.feats, x.feats)
    ensures merged == Joined(a, wd, p, s, x)
  {
    merged := MergeWith(a, p.feats, s.feats, x.feats);
    MergeDiac(a, p.feats, s.feats, x.feats);
    var mergedDiac := merged["diac"].s;
    merged := merged["stem" := Str(s.feats["diac"])];
    merged := merged["stemcat" := Str(s.cat)];
    if Variant(a.ver, wd, mergedDiac) {
      merged := merged["source" := Str("spvar")];
    }
  }

  method SuffixAnalyses(a: Analyzer, wd: string, p: Entry, s: Entry, xs: seq<Entry>) returns (out: seq<Analysis>)
    requires forall x | x in xs :: Mergeable(a, p, s, x)
    ensures out == SuffixRun(a, wd, p, s, xs)
  {
    out := [];
    var k := 0;
    while k < |xs|
      invariant 0 <= k <= |xs|
      invariant out == SuffixRun(a, wd, p, s, xs[..k])
    {
      var x := xs[k];
      assert Mergeable(a, p, s, x);
      if SuffixFits(a, p, s, x) {
        var merged := JoinTriple(a, wd, p, s, x);
        out := out + [merged];
      }
      assert xs[..k + 1][..k] == xs[..k];
      k := k + 1;
    }
    assert xs[..k] == xs;
  }

  method StemAnalyses(a: Analyzer, wd: string, p: Entry, ss: seq<Entry>, xs: seq<Entry>) returns (out: seq<Analysis>)
    requires p.cat in a.db.prefixStemCompat
    requires forall s, x | s in ss && x in xs :: Mergeable(a, p, s, x)
    ensures out == StemRun(a, wd, p, ss, xs)
  {
    out := [];
    for j := 0 to |ss|
      invariant out == StemRun(a, wd, p, ss[..j], xs)
    {
      StemRunSnoc(a, wd, p, ss, xs, j);
      out := StemStep(a, wd, p, ss[j], xs, out);
    }
    assert ss[..|ss|] == ss;
  }

  /** The body of the loop over stem entries. */
  method StemStep(a: Analyzer, wd: string, p: Entry, s: Entry, xs: seq<Entry>, out: seq<Analysis>)
    returns (out': seq<Analysis>)
    requires p.cat in a.db.prefixStemCompat
    requires forall x | x in xs :: Mergeable(a, p, s, x)
    ensures out' == out + (if StemFits(a, p, s) then SuffixRun(a, wd, p, s, xs) else [])
  {
    out' := out;
    if s.cat in a.db.prefixStemCompat[p.cat] {
      var run := SuffixAnalyses(a, wd, p, s, xs);
      out' := out' + run;
    }
  }

  /** One more stem entry extends the stem run by its suffix run. */
  lemma StemRunSnoc(a: Analyzer, wd: string, p: Entry, ss: seq<Entry>, xs: seq<Entry>, j: nat)
    requires p.cat in a.db.prefixStemCompat
    requires forall s, x | s in ss && x in xs :: Mergeable(a, p, s, x)
    requires j < |ss|
    ensures forall x | x in xs :: Mergeable(a, p, ss[j], x)
    ensures forall s, x | s in ss[..j + 1] && x in xs :: Mergeable(a, p, s, x)
    ensures StemRun(a, wd, p, ss[..j + 1], xs)
         == StemRun(a, wd, p, ss[..j], xs) + (if StemFits(a, p, ss[j]) then SuffixRun(a, wd, p, ss[j], xs) else [])
  {
    assert ss[j] in ss;
    assert ss[..j + 1][..j] == ss[..j];
  }

  method CombinedAnalyses(a: Analyzer, wd: string, ps: seq<Entry>, ss: seq<Entry>, xs: seq<Entry>)
    returns (combined: seq<Analysis>)
    requires PrefixesKeyed(a, ps) && AllMergeable(a, ps, ss, xs)
    ensures combined == Combined(a, wd, ps, ss, xs)
  {
    combined := [];
    var i := 0;
    while i < |ps|
      invariant 0 <= i <= |ps|
      invariant combined == Combined(a, wd, ps[..i], ss, xs)
    {
      var run := StemAnalyses(a, wd, ps[i], ss, xs);
      combined := combined + run;
      assert ps[..i + 1][..i] == ps[..i];
      i := i + 1;
    }
    assert ps[..i] == ps;
  }

  /** `m` is the analysis of the compatible triple `p`, `s`, `x`. */
  predicate Yields(a: Analyzer, wd: string, p: Entry, s: Entry, x: Entry, m: Analysis)
  {
    SuffixFits(a, p, s, x) && MergeOk(a, p.feats, s.feats, x.feats) && m == Joined(a, wd, p, s, x)
  }

  lemma {:induction false} SuffixRunMembers(a: Analyzer, wd: string, p: Entry, s: Entry, xs: seq<Entry>, m: Analysis)
    requires forall x | x in xs :: Mergeable(a, p, s, x)
    ensures m in SuffixRun(a, wd, p, s, xs) <==> exists x :: x in xs && Yields(a, wd, p, s, x, m)
    decreases |xs|
  {
    if xs != [] {
      var init, x := xs[..|xs| - 1], xs[|xs| - 1];
      SuffixRunLast(a, wd, p, s, xs, m);
      SuffixRunMembers(a, wd, p, s, init, m);
      if m in SuffixRun(a, wd, p, s, xs) {
        if m in SuffixRun(a, wd, p, s, init) {
          var y :| y in init && Yields(a, wd, p, s, y, m);
          assert y in xs;
        } else {
          assert x in xs && Yields(a, wd, p, s, x, m);
        }
      } else {
        forall y | y in xs
          ensures !Yields(a, wd, p, s, y, m)
        {
          if y != x {
            assert xs == init + [x];
            assert y in init;
          }
        }
      }
    }
  }

  /** The suffix run unfolded at its last entry, read at `m`. */
  lemma SuffixRunLast(a: Analyzer, wd: string, p: Entry, s: Entry, xs: seq<Entry>, m: Analysis)
    requires forall x | x in xs :: Mergeable(a, p, s, x)
    requires xs != []
    ensures forall x | x in xs[..|xs| - 1] :: Mergeable(a, p, s, x)
    ensures m in SuffixRun(a, wd, p, s, xs)
        <==> m in SuffixRun(a, wd, p, s, xs[..|xs| - 1]) || Yields(a, wd, p, s, xs[|xs| - 1], m)
  {
    var init, x := xs[..|xs| - 1], xs[|xs| - 1];
    assert forall y | y in init :: y in xs;
    assert x in xs;
    var tail := if SuffixFits(a, p, s, x) then [Joined(a, wd, p, s, x)] else [];
    assert SuffixRun(a, wd, p, s, xs) == SuffixRun(a, wd, p, s, init) + tail;
    assert m in tail <==> Yields(a, wd, p, s, x, m);
  }

  lemma {:induction false} StemRunMembers(a: Analyzer, wd: string, p: Entry, ss: seq<Entry>, xs: seq<Entry>, m: Analysis)
    requires p.cat in a.db.prefixStemCompat
    requires forall s, x | s in ss && x in xs :: Mergeable(a, p, s, x)
    ensures m in StemRun(a, wd, p, ss, xs)
        <==> exists s, x :: s in ss && x in xs && StemFits(a, p, s) && Yields(a, wd, p, s, x, m)
    decreases |ss|
  {
    if ss != [] {
      var init, s := ss[..|ss| - 1], ss[|ss| - 1];
      assert ss == init + [s];
      assert forall t | t in init :: t in ss;
      StemRunMembers(a, wd, p, init, xs, m);
      SuffixRunMembers(a, wd, p, s, xs, m);
      if exists t, x :: t in ss && x in xs && StemFits(a, p, t) && Yields(a, wd, p, t, x, m) {
        var t, x :| t in ss && x in xs && StemFits(a, p, t) && Yields(a, wd, p, t, x, m);
        if t != s {
          assert t in init;
        }
      }
    }
  }

  /** Every analysis of `_combined_analyses` comes from one prefix, stem
      and suffix entry that are pairwise compatible, and every such triple
      contributes its analysis. */
  lemma {:induction false} CombinedMembers(a: Analyzer, wd: string, ps: seq<Entry>, ss: seq<Entry>, xs: seq<Entry>, m: Analysis)
    requires PrefixesKeyed(a, ps) && AllMergeable(a, ps, ss, xs)
    ensures m in Combined(a, wd, ps, ss, xs)
        <==> exists p, s, x :: p in ps && s in ss && x in xs && StemFits(a, p, s) && Yields(a, wd, p, s, x, m)
    decreases |ps|
  {
    if ps != [] {
      var init, p := ps[..|ps| - 1], ps[|ps| - 1];
      assert ps == init + [p];
      assert forall q | q in init :: q in ps;
      CombinedMembers(a, wd, init, ss, xs, m);
      StemRunMembers(a, wd, p, ss, xs, m);
      if exists q, s, x :: q in ps && s in ss && x in xs && StemFits(a, q, s) && Yields(a, wd, q, s, x, m) {
        var q, s, x :| q in ps && s in ss && x in xs && StemFits(a, q, s) && Yields(a, wd, q, s, x, m);
        if q != p {
          assert q in init;
        }
      }
    }
  }

  /** The analysis of a triple carries the stem's diacritised form and
      category; it is marked 'spvar' exactly for a spelling variant and
      otherwise keeps the merged 'source'; every other merged feature is
      kept. */
  lemma JoinedShape(a: Analyzer, wd: string, p: Entry, s: Entry, x: Entry)
    requires MergeOk(a, p.feats, s.feats, x.feats)
    ensures var merged := Merge(a, p.feats, s.feats, x.feats);
      var m := Joined(a, wd, p, s, x);
      && m.Keys == merged.Keys + {"stem", "stemcat"} + (if Variant(a.ver, wd, TextOr(merged, "diac", "")) then {"source"} else {})
      && m["stem"] == Str(s.feats["diac"]) && m["stemcat"] == Str(s.cat)
      && m["diac"] == merged["diac"]
      && (Variant(a.ver, wd, TextOr(merged, "diac", "")) ==> m["source"] == Str("spvar"))
      && (forall k | k in merged && k != "stem" && k != "stemcat" && k != "source" :: m[k] == merged[k])
      && (!Variant(a.ver, wd, TextOr(merged, "diac", "")) && "source" in merged ==> m["source"] == merged["source"])
  {
    MergeDiac(a, p.feats, s.feats, x.feats);
    MarkedShape(a.ver, wd, Merge(a, p.feats, s.feats, x.feats), s);
  }

  lemma MarkedShape(ver: Version, wd: string, merged: Analysis, s: Entry)
    requires "diac" in s.feats && "diac" in merged
    ensures var m := Marked(ver, wd, merged, s);
      && m.Keys == merged.Keys + {"stem", "stemcat"} + (if Variant(ver, wd, TextOr(merged, "diac", "")) then {"source"} else {})
      && m["stem"] == Str(s.feats["diac"]) && m["stemcat"] == Str(s.cat)
      && m["diac"] == merged["diac"]
      && (Variant(ver, wd, TextOr(merged, "diac", "")) ==> m["source"] == Str("spvar"))
      && (forall k | k in merged && k != "stem" && k != "stemcat" && k != "source" :: m[k] == merged[k])
      && (!Variant(ver, wd, TextOr(merged, "diac", "")) && "source" in merged ==> m["source"] == merged["source"])
  {
  }

  // ---------------------------------------------------------------- backoff

  /** Python's `sub in s` on strings. */
  predicate Occurs(sub: string, s: string)
    decreases |s|
  {
    StartsWith(s, sub) || (s != [] && Occurs(sub, s[1..]))
  }

  /** The features the backoff rewrites in the placeholder stem. */
  predicate Rewritten(k: string)
  {
    k == "bw" || k == "diac" || k == "lex" || k == "caphi"
  }

  /** What the backoff reads from the placeholder stem. */
  predicate NoanKeys(sf: Feats)
  {
    "bw" in sf && "diac" in sf && "lex" in sf && "gloss" in sf
  }

  /** `sf` grew out of `s` by rewriting: it has every key of `s` and
      agrees with it off the rewritten features. */
  predicate Descends(s: Feats, sf: Feats)
  {
    && (forall k | k in s :: k in sf)
    && (forall k | k in s && !Rewritten(k) :: sf[k] == s[k])
  }

  /** The text that replaces 'NOAN': the stem read as a replacement
      template. Where the template is malformed the search fails before
      any analysis is built (see `SegBackoff`), and the stem stands in. */
  function Replacement(stem: string): string
  {
    var r := Template("NOAN", stem);
    if r.Some? then r.value else stem
  }

  /** A stem without a backslash replaces 'NOAN' as it stands. */
  lemma ReplacementPlain(stem: string)
    requires '\\' !in stem
    ensures Replacement(stem) == stem
  {
    TemplatePlain("NOAN", stem);
  }

  /** Every 'NOAN' in 'bw', 'diac' and 'lex' replaced by the expansion of
      the stem as a template; the current engine also transcribes the stem
      into 'caphi'. */
  function Substituted(ver: Version, sf: Feats, stem: string): Feats
    requires NoanKeys(sf)
  {
    var noan := Lit("NOAN", Replacement(stem));
    var f := sf["bw" := Sub(noan, sf["bw"])]["diac" := Sub(noan, sf["diac"])]["lex" := Sub(noan, sf["lex"])];
    if ver == Morphology then f["caphi" := SimpleArToCaphi(stem)] else f
  }

  lemma SubstitutedDescends(ver: Version, s: Feats, sf: Feats, stem: string)
    requires Descends(s, sf) && NoanKeys(sf)
    ensures Descends(s, Substituted(ver, sf, stem)) && NoanKeys(Substituted(ver, sf, stem))
  {
  }

  /** Rewriting the placeholder stem keeps `merge_features` readable. */
  lemma MergeOkKept(a: Analyzer, p: Feats, s: Feats, sf: Feats, x: Feats)
    requires MergeOk(a, p, s, x) && Descends(s, sf)
    ensures MergeOk(a, p, sf, x)
  {
    assert "diac" in sf;
    if "gen" in s {
      assert sf["gen"] == s["gen"] && Override(p, sf, x, "gen") == Override(p, s, x, "gen");
    }
    if "num" in s {
      assert sf["num"] == s["num"] && Override(p, sf, x, "num") == Override(p, s, x, "num");
    }
  }

  /** The suffix test of `_combined_backoff_analyses`: the current engine
      guards the prefix lookup of `prefix_suffix_compat`, CALIMA-star does
      not. */
  predicate BackoffFits(a: Analyzer, p: Entry, s: Entry, x: Entry)
    requires s.cat in a.db.stemSuffixCompat
    requires a.ver == CalimaStar ==> p.cat in a.db.prefixSuffixCompat
  {
    && x.cat in a.db.stemSuffixCompat[s.cat]
    && (if a.ver == Morphology then p.cat in a.db.prefixSuffixCompat && x.cat in a.db.prefixSuffixCompat[p.cat]
        else x.cat in a.db.prefixSuffixCompat[p.cat])
  }

  /** The 'PROP' action keeps only placeholder stems tagged as proper
      nouns. */
  predicate Skips(a: Analyzer, sf: Feats)
    requires NoanKeys(sf)
  {
    a.backoff.Backoff? && a.backoff.action == "PROP" && !Occurs("NOUN_PROP", sf["bw"])
  }

  /** The unguarded lookups of one backoff stem entry. */
  predicate BackoffKeyed(a: Analyzer, p: Entry, s: Entry)
  {
    s.cat in a.db.stemSuffixCompat && (a.ver == CalimaStar ==> p.cat in a.db.prefixSuffixCompat)
  }

  /** What `_combined_backoff_analyses` reads for one triple exists. */
  predicate BackoffTripleOk(a: Analyzer, p: Entry, s: Entry, x: Entry)
  {
    p.cat in a.db.prefixStemCompat && s.cat in a.db.prefixStemCompat[p.cat] ==>
      BackoffKeyed(a, p, s)
      && (BackoffFits(a, p, s, x) ==> NoanKeys(s.feats) && MergeOk(a, p.feats, s.feats, x.feats))
  }

  /** The analysis built from the rewritten placeholder stem `sf`. */
  function BackoffJoined(a: Analyzer, p: Entry, cat: string, sf: Feats, x: Entry): Analysis
    requires MergeOk(a, p.feats, sf, x.feats) && NoanKeys(sf)
  {
    var merged := Merge(a, p.feats, sf, x.feats);
    var m := merged["stem" := Str(sf["diac"])]["stemcat" := Str(cat)]["source" := Str("backoff")];
    var m' := if a.ver == Morphology then m["pattern" := Str("backoff")] else m;
    m'["gloss" := Str(sf["gloss"])]
  }

  /** One suffix of the backoff loop applied to the state (analyses so
      far, stem features as rewritten so far). */
  function BackoffStep(a: Analyzer, stem: string, p: Entry, s: Entry, x: Entry, st: (seq<Analysis>, Feats)): (r: (seq<Analysis>, Feats))
    requires BackoffKeyed(a, p, s) && Descends(s.feats, st.1)
    requires BackoffFits(a, p, s, x) ==> NoanKeys(s.feats) && MergeOk(a, p.feats, s.feats, x.feats)
    ensures Descends(s.feats, r.1)
  {
    if !BackoffFits(a, p, s, x) then st
    else
      var sf := st.1;
      assert NoanKeys(sf);
      if Skips(a, sf) then st
      else
        var sf' := Substituted(a.ver, sf, stem);
        SubstitutedDescends(a.ver, s.feats, sf, stem);
        MergeOkKept(a, p.feats, s.feats, sf', x.feats);
        (st.0 + [BackoffJoined(a, p, s.cat, sf', x)], sf')
  }

  /** What the suffix loop reads for one prefix and placeholder stem. */
  predicate SuffixesReady(a: Analyzer, p: Entry, s: Entry, xs: seq<Entry>)
  {
    && (xs != [] ==> BackoffKeyed(a, p, s))
    && forall x | x in xs :: BackoffFits(a, p, s, x) ==> NoanKeys(s.feats) && MergeOk(a, p.feats, s.feats, x.feats)
  }

  lemma SuffixesReadyPrefix(a: Analyzer, p: Entry, s: Entry, xs: seq<Entry>, k: nat)
    requires SuffixesReady(a, p, s, xs) && k <= |xs|
    ensures SuffixesReady(a, p, s, xs[..k])
  {
    assert forall x | x in xs[..k] :: x in xs;
  }

  lemma SuffixesReadyFrom(a: Analyzer, p: Entry, s: Entry, xs: seq<Entry>)
    requires p.cat in a.db.prefixStemCompat && StemFits(a, p, s)
    requires forall x | x in xs :: BackoffTripleOk(a, p, s, x)
    ensures SuffixesReady(a, p, s, xs)
  {
    if xs != [] {
      assert BackoffTripleOk(a, p, s, xs[0]);
    }
  }

  /** The suffix loop for one prefix and placeholder stem: the analyses
      so far, and the stem features as the loop has rewritten them. The
      rewriting accumulates, as the copied stem features are changed in
      place for every fitting suffix. */
  function BackoffSuffixRun(a: Analyzer, stem: string, p: Entry, s: Entry, xs: seq<Entry>): (r: (seq<Analysis>, Feats))
    requires SuffixesReady(a, p, s, xs)
    ensures Descends(s.feats, r.1)
    decreases |xs|
  {
    if xs == [] then ([], s.feats)
    else
      assert xs[|xs| - 1] in xs;
      SuffixesReadyPrefix(a, p, s, xs, |xs| - 1);
      BackoffStep(a, stem, p, s, xs[|xs| - 1], BackoffSuffixRun(a, stem, p, s, xs[..|xs| - 1]))
  }

  predicate BackoffReadyFor(a: Analyzer, ps: seq<Entry>, ss: seq<Entry>, xs: seq<Entry>)
  {
    && PrefixesKeyed(a, ps)
    && forall p, s, x | p in ps && s in ss && x in xs :: BackoffTripleOk(a, p, s, x)
  }

  function BackoffStemRun(a: Analyzer, stem: string, p: Entry, ss: seq<Entry>, xs: seq<Entry>): seq<Analysis>
    requires p.cat in a.db.prefixStemCompat
    requires forall s, x | s in ss && x in xs :: BackoffTripleOk(a, p, s, x)
  {
    if ss == [] then []
    else
      var s := ss[|ss| - 1];
      assert s in ss;
      BackoffStemRun(a, stem, p, ss[..|ss| - 1], xs)
        + (if StemFits(a, p, s) then
             SuffixesReadyFrom(a, p, s, xs);
             BackoffSuffixRun(a, stem, p, s, xs).0
           else [])
  }

  /** `_combined_backoff_analyses(stem, word_dediac, prefix_analyses,
      stem_analyses, suffix_analyses)`. */
  function BackoffCombined(a: Analyzer, stem: string, ps: seq<Entry>, ss: seq<Entry>, xs: seq<Entry>): seq<Analysis>
    requires BackoffReadyFor(a, ps, ss, xs)
  {
    if ps == [] then []
    else
      assert ps[|ps| - 1] in ps;
      BackoffCombined(a, stem, ps[..|ps| - 1], ss, xs) + BackoffStemRun(a, stem, ps[|ps| - 1], ss, xs)
  }

  /** The merge and the overrides applied to the rewritten stem. */
  method BackoffJoin(a: Analyzer, p: Entry, cat: string, sf: Feats, x: Entry) returns (merged: Analysis)
    requires MergeOk(a, p.feats, sf, x.feats) && NoanKeys(sf)
    ensures merged == BackoffJoined(a, p, cat, sf, x)
  {
    merged := MergeWith(a, p.feats, sf, x.feats);
    merged := merged["stem" := Str(sf["diac"])];
    merged := merged["stemcat" := Str(cat)];
    merged := merged["source" := Str("backoff")];
    if a.ver == Morphology {
      merged := merged["pattern" := Str("backoff")];
    }
    merged := merged["gloss" := Str(sf["gloss"])];
  }

  /** One pass of the suffix loop's body. */
  method BackoffSuffixStep(a: Analyzer, stem: string, p: Entry, s: Entry, x: Entry, out: seq<Analysis>, stemFeats: Feats)
    returns (out': seq<Analysis>, stemFeats': Feats)
    requires BackoffKeyed(a, p, s) && Descends(s.feats, stemFeats)
    requires BackoffFits(a, p, s, x) ==> NoanKeys(s.feats) && MergeOk(a, p.feats, s.feats, x.feats)
    ensures (out', stemFeats') == BackoffStep(a, stem, p, s, x, (out, stemFeats))
  {
    out', stemFeats' := out, stemFeats;
    if BackoffFits(a, p, s, x) {
      assert NoanKeys(stemFeats');
      if !Skips(a, stemFeats') {
        var noan := Lit("NOAN", Replacement(stem));
        stemFeats' := stemFeats'["bw" := Sub(noan, stemFeats'["bw"])];
        stemFeats' := stemFeats'["diac" := Sub(noan, stemFeats'["diac"])];
        stemFeats' := stemFeats'["lex" := Sub(noan, stemFeats'["lex"])];
        if a.ver == Morphology {
          stemFeats' := stemFeats'["caphi" := SimpleArToCaphi(stem)];
        }
        assert stemFeats' == Substituted(a.ver, stemFeats, stem);
        SubstitutedDescends(a.ver, s.feats, stemFeats, stem);
        MergeOkKept(a, p.feats, s.feats, stemFeats', x.feats);
        var merged := BackoffJoin(a, p, s.cat, stemFeats', x);
        out' := out' + [merged];
      }
    }
  }

  method BackoffSuffixAnalyses(a: Analyzer, stem: string, p: Entry, s: Entry, xs: seq<Entry>) returns (out: seq<Analysis>)
    requires SuffixesReady(a, p, s, xs)
    ensures out == BackoffSuffixRun(a, stem, p, s, xs).0
  {
    out := [];
    var stemFeats := s.feats;
    var k := 0;
    while k < |xs|
      invariant 0 <= k <= |xs|
      invariant (out, stemFeats) == BackoffSuffixRun(a, stem, p, s, xs[..k])
    {
      assert xs[k] in xs;
      assert xs[..k + 1][..k] == xs[..k];
      SuffixesReadyPrefix(a, p, s, xs, k + 1);
      out, stemFeats := BackoffSuffixStep(a, stem, p, s, xs[k], out, stemFeats);
      k := k + 1;
    }
    assert xs[..k] == xs;
  }

  method BackoffStemAnalyses(a: Analyzer, stem: string, p: Entry, ss: seq<Entry>, xs: seq<Entry>) returns (out: seq<Analysis>)
    requires p.cat in a.db.prefixStemCompat
    requires forall s, x | s in ss && x in xs :: BackoffTripleOk(a, p, s, x)
    ensures out == BackoffStemRun(a, stem, p, ss, xs)
  {
    out := [];
    var j := 0;
    while j < |ss|
      invariant 0 <= j <= |ss|
      invariant out == BackoffStemRun(a, stem, p, ss[..j], xs)
    {
      var s := ss[j];
      assert s in ss;
      if s.cat in a.db.prefixStemCompat[p.cat] {
        SuffixesReadyFrom(a, p, s, xs);
        var run := BackoffSuffixAnalyses(a, stem, p, s, xs);
        out := out + run;
      }
      assert ss[..j + 1][..j] == ss[..j];
      j := j + 1;
    }
    assert ss[..j] == ss;
  }

  method BackoffAnalyses(a: Analyzer, stem: string, ps: seq<Entry>, ss: seq<Entry>, xs: seq<Entry>)
    returns (combined: seq<Analysis>)
    requires BackoffReadyFor(a, ps, ss, xs)
    ensures combined == BackoffCombined(a, stem, ps, ss, xs)
  {
    combined := [];
    var i := 0;
    while i < |ps|
      invariant 0 <= i <= |ps|
      invariant combined == BackoffCombined(a, stem, ps[..i], ss, xs)
    {
      assert ps[i] in ps;
      var run := BackoffStemAnalyses(a, stem, ps[i], ss, xs);
      combined := combined + run;
      assert ps[..i + 1][..i] == ps[..i];
      i := i + 1;
    }
    assert ps[..i] == ps;
  }

  /** Some suffix of `xs` fits `p` and `s`, and the action lets `s`
      through: the suffix loop reaches the substitution. */
  predicate Reached(a: Analyzer, p: Entry, s: Entry, xs: seq<Entry>)
  {
    exists x | x in xs :: BackoffKeyed(a, p, s) && BackoffFits(a, p, s, x) && NoanKeys(s.feats) && !Skips(a, s.feats)
  }

  /** Some prefix entry and compatible placeholder stem entry reach the
      substitution. */
  predicate Reaches(a: Analyzer, ps: seq<Entry>, ss: seq<Entry>, xs: seq<Entry>)
  {
    exists p, s | p in ps && s in ss :: p.cat in a.db.prefixStemCompat && StemFits(a, p, s) && Reached(a, p, s, xs)
  }

  /** The suffix loop builds nothing exactly when it never reaches the
      substitution, and then leaves the stem features as they were. */
  lemma {:induction false} BackoffSuffixRunEmpty(a: Analyzer, stem: string, p: Entry, s: Entry, xs: seq<Entry>)
    requires SuffixesReady(a, p, s, xs)
    ensures BackoffSuffixRun(a, stem, p, s, xs).0 == [] <==> !Reached(a, p, s, xs)
    ensures !Reached(a, p, s, xs) ==> BackoffSuffixRun(a, stem, p, s, xs).1 == s.feats
    decreases |xs|
  {
    if xs != [] {
      var init, x := xs[..|xs| - 1], xs[|xs| - 1];
      assert x in xs;
      assert forall y | y in xs :: y in init || y == x;
      assert forall y | y in init :: y in xs;
      SuffixesReadyPrefix(a, p, s, xs, |xs| - 1);
      BackoffSuffixRunEmpty(a, stem, p, s, init);
    }
  }

  lemma {:induction false} BackoffStemRunEmpty(a: Analyzer, stem: string, p: Entry, ss: seq<Entry>, xs: seq<Entry>)
    requires p.cat in a.db.prefixStemCompat
    requires forall s, x | s in ss && x in xs :: BackoffTripleOk(a, p, s, x)
    ensures BackoffStemRun(a, stem, p, ss, xs) == [] <==> !exists s | s in ss :: StemFits(a, p, s) && Reached(a, p, s, xs)
    decreases |ss|
  {
    if ss != [] {
      var init, s := ss[..|ss| - 1], ss[|ss| - 1];
      assert s in ss;
      assert forall t | t in ss :: t in init || t == s;
      assert forall t | t in init :: t in ss;
      BackoffStemRunEmpty(a, stem, p, init, xs);
      if StemFits(a, p, s) {
        SuffixesReadyFrom(a, p, s, xs);
        BackoffSuffixRunEmpty(a, stem, p, s, xs);
      }
    }
  }

  /** `_combined_backoff_analyses` builds something exactly when some
      triple reaches the substitution, whatever text replaces 'NOAN'. */
  lemma {:induction false} BackoffCombinedEmpty(a: Analyzer, stem: string, ps: seq<Entry>, ss: seq<Entry>, xs: seq<Entry>)
    requires BackoffReadyFor(a, ps, ss, xs)
    ensures BackoffCombined(a, stem, ps, ss, xs) == [] <==> !Reaches(a, ps, ss, xs)
    decreases |ps|
  {
    if ps != [] {
      var init, p := ps[..|ps| - 1], ps[|ps| - 1];
      assert p in ps;
      assert forall q | q in ps :: q in init || q == p;
      assert forall q | q in init :: q in ps;
      BackoffCombinedEmpty(a, stem, init, ss, xs);
      BackoffStemRunEmpty(a, stem, p, ss, xs);
    }
  }

  /** The marks of a backoff analysis built on the placeholder stem
      entry `s`: its category, 'backoff' as source (and, in the current
      engine, as pattern) and the entry's own gloss. */
  predicate BackoffMarked(a: Analyzer, m: Analysis, s: Entry)
  {
    && "stem" in m && "source" in m && m["source"] == Str("backoff")
    && "stemcat" in m && m["stemcat"] == Str(s.cat)
    && "gloss" in s.feats && "gloss" in m && m["gloss"] == Str(s.feats["gloss"])
    && (a.ver == Morphology ==> "pattern" in m && m["pattern"] == Str("backoff"))
  }

  /** The suffixes that pass the compatibility test. */
  function Fitting(a: Analyzer, p: Entry, s: Entry, xs: seq<Entry>): nat
    requires xs != [] ==> BackoffKeyed(a, p, s)
  {
    if xs == [] then 0
    else Fitting(a, p, s, xs[..|xs| - 1]) + (if BackoffFits(a, p, s, xs[|xs| - 1]) then 1 else 0)
  }

  /** Every analysis of the suffix loop is marked as a backoff of `s`;
      unless the action is 'PROP', every fitting suffix yields exactly one
      analysis. */
  lemma BackoffJoinedMarked(a: Analyzer, p: Entry, s: Entry, sf: Feats, x: Entry)
    requires MergeOk(a, p.feats, sf, x.feats) && NoanKeys(sf) && Descends(s.feats, sf) && "gloss" in s.feats
    ensures BackoffMarked(a, BackoffJoined(a, p, s.cat, sf, x), s)
  {
    assert !Rewritten("gloss");
  }

  lemma BackoffStepMarked(a: Analyzer, stem: string, p: Entry, s: Entry, x: Entry, st: (seq<Analysis>, Feats))
    requires BackoffKeyed(a, p, s) && Descends(s.feats, st.1)
    requires BackoffFits(a, p, s, x) ==> NoanKeys(s.feats) && MergeOk(a, p.feats, s.feats, x.feats)
    requires forall m | m in st.0 :: BackoffMarked(a, m, s)
    ensures forall m | m in BackoffStep(a, stem, p, s, x, st).0 :: BackoffMarked(a, m, s)
    ensures !(a.backoff.Backoff? && a.backoff.action == "PROP") ==>
      |BackoffStep(a, stem, p, s, x, st).0| == |st.0| + (if BackoffFits(a, p, s, x) then 1 else 0)
  {
    if BackoffFits(a, p, s, x) {
      assert NoanKeys(st.1);
      if !Skips(a, st.1) {
        var sf' := Substituted(a.ver, st.1, stem);
        SubstitutedDescends(a.ver, s.feats, st.1, stem);
        MergeOkKept(a, p.feats, s.feats, sf', x.feats);
        BackoffJoinedMarked(a, p, s, sf', x);
      }
    }
  }

  /** Every analysis of the suffix loop is marked as a backoff of `s`;
      unless the action is 'PROP', every fitting suffix yields exactly one
      analysis. */
  lemma {:induction false} BackoffSuffixRunMarked(a: Analyzer, stem: string, p: Entry, s: Entry, xs: seq<Entry>)
    requires SuffixesReady(a, p, s, xs)
    ensures forall m | m in BackoffSuffixRun(a, stem, p, s, xs).0 :: BackoffMarked(a, m, s)
    ensures !(a.backoff.Backoff? && a.backoff.action == "PROP") ==>
      |BackoffSuffixRun(a, stem, p, s, xs).0| == Fitting(a, p, s, xs)
    decreases |xs|
  {
    if xs != [] {
      var init, x := xs[..|xs| - 1], xs[|xs| - 1];
      assert x in xs;
      SuffixesReadyPrefix(a, p, s, xs, |xs| - 1);
      BackoffSuffixRunMarked(a, stem, p, s, init);
      BackoffStepMarked(a, stem, p, s, x, BackoffSuffixRun(a, stem, p, s, init));
    }
  }

  lemma {:induction false} BackoffStemRunMarked(a: Analyzer, stem: string, p: Entry, ss: seq<Entry>, xs: seq<Entry>, m: Analysis)
    requires p.cat in a.db.prefixStemCompat
    requires forall s, x | s in ss && x in xs :: BackoffTripleOk(a, p, s, x)
    requires m in BackoffStemRun(a, stem, p, ss, xs)
    ensures exists s :: s in ss && StemFits(a, p, s) && BackoffMarked(a, m, s)
    decreases |ss|
  {
    var init, s := ss[..|ss| - 1], ss[|ss| - 1];
    assert s in ss;
    assert forall t | t in init :: t in ss;
    if m in BackoffStemRun(a, stem, p, init, xs) {
      BackoffStemRunMarked(a, stem, p, init, xs, m);
      var t :| t in init && StemFits(a, p, t) && BackoffMarked(a, m, t);
      assert t in ss;
    } else {
      SuffixesReadyFrom(a, p, s, xs);
      BackoffSuffixRunMarked(a, stem, p, s, xs);
    }
  }

  /** Every analysis of `_combined_backoff_analyses` is marked as the
      backoff of a placeholder stem entry compatible with one of the
      prefix entries. */
  lemma {:induction false} BackoffCombinedMarked(a: Analyzer, stem: string, ps: seq<Entry>, ss: seq<Entry>, xs: seq<Entry>, m: Analysis)
    requires BackoffReadyFor(a, ps, ss, xs)
    requires m in BackoffCombined(a, stem, ps, ss, xs)
    ensures exists p, s :: p in ps && s in ss && p.cat in a.db.prefixStemCompat && StemFits(a, p, s) && BackoffMarked(a, m, s)
    decreases |ps|
  {
    var init, p := ps[..|ps| - 1], ps[|ps| - 1];
    assert p in ps;
    assert forall q | q in init :: q in ps;
    if m in BackoffCombined(a, stem, init, ss, xs) {
      BackoffCombinedMarked(a, stem, init, ss, xs, m);
      var q, s :| q in init && s in ss && q.cat in a.db.prefixStemCompat && StemFits(a, q, s) && BackoffMarked(a, m, s);
      assert q in ps;
    } else {
      BackoffStemRunMarked(a, stem, p, ss, xs, m);
    }
  }

  /** A literal found at `j` occurs in `s`. */
  lemma {:induction false} OccursAt(sub: string, s: string, j: nat)
    requires j + |sub| <= |s| && s[j..j + |sub|] == sub
    ensures Occurs(sub, s)
    decreases j
  {
    if j == 0 {
      assert s[..|sub|] == sub;
    } else {
      assert s[1..][j - 1..j - 1 + |sub|] == s[j..j + |sub|];
      OccursAt(sub, s[1..], j - 1);
    }
  }

  /** Where 'NOAN' does not occur, replacing it changes nothing. */
  lemma NoanAbsent(t: string, repl: string)
    requires !Occurs("NOAN", t)
    ensures Sub(Lit("NOAN", repl), t) == t
  {
    forall j | 0 <= j < |t|
      ensures !Fits(Lit("NOAN", repl), t, j)
    {
      if Fits(Lit("NOAN", repl), t, j) {
        OccursAt("NOAN", t, j);
      }
    }
    SubIdentity(Lit("NOAN", repl), t, 0);
  }

  /** The placeholder stem's features after `n` substitutions in place. */
  function Resubstituted(ver: Version, sf: Feats, stem: string, n: nat): (r: Feats)
    requires NoanKeys(sf)
    ensures NoanKeys(r)
  {
    if n == 0 then sf else Substituted(ver, Resubstituted(ver, sf, stem, n - 1), stem)
  }

  lemma {:induction false} ResubstitutedDescends(ver: Version, sf: Feats, stem: string, n: nat)
    requires NoanKeys(sf)
    ensures Descends(sf, Resubstituted(ver, sf, stem, n))
  {
    if n > 0 {
      ResubstitutedDescends(ver, sf, stem, n - 1);
      SubstitutedDescends(ver, sf, Resubstituted(ver, sf, stem, n - 1), stem);
    }
  }

  /** One substitution leaves nothing for the next: no 'NOAN' is left in
      the rewritten features, and the 'PROP' test reads the same before
      and after. */
  predicate Settled(ver: Version, sf: Feats, stem: string)
  {
    NoanKeys(sf) ==>
      var once := Substituted(ver, sf, stem);
      && !Occurs("NOAN", once["bw"]) && !Occurs("NOAN", once["diac"]) && !Occurs("NOAN", once["lex"])
      && (Occurs("NOUN_PROP", once["bw"]) <==> Occurs("NOUN_PROP", sf["bw"]))
  }

  /** Substituting again into a settled copy changes nothing. */
  lemma SubstituteAgain(ver: Version, sf: Feats, stem: string)
    requires NoanKeys(sf) && Settled(ver, sf, stem)
    ensures Substituted(ver, Substituted(ver, sf, stem), stem) == Substituted(ver, sf, stem)
  {
    var once := Substituted(ver, sf, stem);
    NoanAbsent(once["bw"], Replacement(stem));
    NoanAbsent(once["diac"], Replacement(stem));
    NoanAbsent(once["lex"], Replacement(stem));
  }

  /** So every substitution after the first sees the first one's result. */
  lemma {:induction false} ResubstitutedSettled(ver: Version, sf: Feats, stem: string, n: nat)
    requires NoanKeys(sf) && Settled(ver, sf, stem) && 0 < n
    ensures Resubstituted(ver, sf, stem, n) == Substituted(ver, sf, stem)
  {
    if n > 1 {
      ResubstitutedSettled(ver, sf, stem, n - 1);
      SubstituteAgain(ver, sf, stem);
    }
  }

  /** `m` is the analysis of the prefix `p`, the fitting suffix `x` and
      the placeholder stem `s` as the `n`-th substitution in place left it,
      the 'PROP' test having let the copy before it through. */
  predicate BackoffYields(a: Analyzer, stem: string, p: Entry, s: Entry, x: Entry, n: nat, m: Analysis)
  {
    && BackoffKeyed(a, p, s) && BackoffFits(a, p, s, x) && NoanKeys(s.feats) && 0 < n
    && !Skips(a, Resubstituted(a.ver, s.feats, stem, n - 1))
    && MergeOk(a, p.feats, Resubstituted(a.ver, s.feats, stem, n), x.feats)
    && m == BackoffJoined(a, p, s.cat, Resubstituted(a.ver, s.feats, stem, n), x)
  }

  /** One suffix of the loop keeps the stem features or substitutes them
      once more, and adds at most the analysis built on the new copy. */
  lemma BackoffStepFrom(a: Analyzer, stem: string, p: Entry, s: Entry, x: Entry, st: (seq<Analysis>, Feats), n: nat)
    returns (n': nat)
    requires BackoffKeyed(a, p, s) && Descends(s.feats, st.1) && NoanKeys(s.feats)
    requires BackoffFits(a, p, s, x) ==> MergeOk(a, p.feats, s.feats, x.feats)
    requires st.1 == Resubstituted(a.ver, s.feats, stem, n)
    ensures BackoffStep(a, stem, p, s, x, st).1 == Resubstituted(a.ver, s.feats, stem, n')
    ensures forall m | m in BackoffStep(a, stem, p, s, x, st).0 :: m in st.0 || BackoffYields(a, stem, p, s, x, n', m)
  {
    if BackoffFits(a, p, s, x) && !Skips(a, st.1) {
      n' := n + 1;
      var sf := Substituted(a.ver, st.1, stem);
      assert sf == Resubstituted(a.ver, s.feats, stem, n');
      SubstitutedDescends(a.ver, s.feats, st.1, stem);
      MergeOkKept(a, p.feats, s.feats, sf, x.feats);
      assert BackoffStep(a, stem, p, s, x, st) == (st.0 + [BackoffJoined(a, p, s.cat, sf, x)], sf);
    } else {
      n' := n;
    }
  }

  /** The stem features the suffix loop carries are always the placeholder
      stem's substituted some number of times. */
  lemma {:induction false} BackoffSuffixRunState(a: Analyzer, stem: string, p: Entry, s: Entry, xs: seq<Entry>)
    returns (n: nat)
    requires SuffixesReady(a, p, s, xs) && NoanKeys(s.feats)
    ensures BackoffSuffixRun(a, stem, p, s, xs).1 == Resubstituted(a.ver, s.feats, stem, n)
    decreases |xs|
  {
    if xs == [] {
      n := 0;
    } else {
      var init, x := xs[..|xs| - 1], xs[|xs| - 1];
      assert x in xs;
      SuffixesReadyPrefix(a, p, s, xs, |xs| - 1);
      var k := BackoffSuffixRunState(a, stem, p, s, init);
      n := BackoffStepFrom(a, stem, p, s, x, BackoffSuffixRun(a, stem, p, s, init), k);
    }
  }

  /** Every analysis of the suffix loop is the merge of the prefix, a
      fitting suffix and the stem features as substituted so far. */
  lemma {:induction false} BackoffSuffixRunFrom(a: Analyzer, stem: string, p: Entry, s: Entry, xs: seq<Entry>, m: Analysis)
    requires SuffixesReady(a, p, s, xs)
    requires m in BackoffSuffixRun(a, stem, p, s, xs).0
    ensures exists x, n :: x in xs && BackoffYields(a, stem, p, s, x, n, m)
    decreases |xs|
  {
    if !Reached(a, p, s, xs) {
      BackoffSuffixRunEmpty(a, stem, p, s, xs);
    } else {
      var init, x := xs[..|xs| - 1], xs[|xs| - 1];
      assert x in xs;
      assert forall y | y in init :: y in xs;
      SuffixesReadyPrefix(a, p, s, xs, |xs| - 1);
      var k := BackoffSuffixRunState(a, stem, p, s, init);
      var k' := BackoffStepFrom(a, stem, p, s, x, BackoffSuffixRun(a, stem, p, s, init), k);
      if m in BackoffSuffixRun(a, stem, p, s, init).0 {
        BackoffSuffixRunFrom(a, stem, p, s, init, m);
        var y, n :| y in init && BackoffYields(a, stem, p, s, y, n, m);
        assert y in xs;
      } else {
        assert BackoffYields(a, stem, p, s, x, k', m);
      }
    }
  }

  /** With a settled stem, one suffix keeps the stem features or the copy
      substituted once, and adds the analysis built on that copy exactly
      when the suffix fits and the 'PROP' test lets the stem through. */
  lemma BackoffStepExact(a: Analyzer, stem: string, p: Entry, s: Entry, x: Entry, st: (seq<Analysis>, Feats), m: Analysis)
    requires BackoffKeyed(a, p, s) && Descends(s.feats, st.1) && NoanKeys(s.feats) && Settled(a.ver, s.feats, stem)
    requires BackoffFits(a, p, s, x) ==> MergeOk(a, p.feats, s.feats, x.feats)
    requires st.1 == s.feats || st.1 == Substituted(a.ver, s.feats, stem)
    ensures || BackoffStep(a, stem, p, s, x, st).1 == s.feats
            || BackoffStep(a, stem, p, s, x, st).1 == Substituted(a.ver, s.feats, stem)
    ensures m in BackoffStep(a, stem, p, s, x, st).0 <==> m in st.0 || BackoffYields(a, stem, p, s, x, 1, m)
  {
    var once := Substituted(a.ver, s.feats, stem);
    assert Resubstituted(a.ver, s.feats, stem, 1) == once;
    SubstituteAgain(a.ver, s.feats, stem);
    assert Skips(a, st.1) == Skips(a, s.feats);
    if BackoffFits(a, p, s, x) && !Skips(a, st.1) {
      SubstitutedDescends(a.ver, s.feats, s.feats, stem);
      MergeOkKept(a, p.feats, s.feats, once, x.feats);
      assert BackoffStep(a, stem, p, s, x, st) == (st.0 + [BackoffJoined(a, p, s.cat, once, x)], once);
    }
  }

  /** With a settled stem, the suffix loop builds exactly one analysis per
      fitting suffix, on the stem substituted once, unless the 'PROP' test
      drops the stem. */
  lemma {:induction false} BackoffSuffixRunExact(a: Analyzer, stem: string, p: Entry, s: Entry, xs: seq<Entry>, m: Analysis)
    requires SuffixesReady(a, p, s, xs) && Settled(a.ver, s.feats, stem)
    ensures NoanKeys(s.feats) ==>
      || BackoffSuffixRun(a, stem, p, s, xs).1 == s.feats
      || BackoffSuffixRun(a, stem, p, s, xs).1 == Substituted(a.ver, s.feats, stem)
    ensures m in BackoffSuffixRun(a, stem, p, s, xs).0 <==> exists x :: x in xs && BackoffYields(a, stem, p, s, x, 1, m)
    decreases |xs|
  {
    if !NoanKeys(s.feats) {
      BackoffSuffixRunEmpty(a, stem, p, s, xs);
    } else if xs != [] {
      var init, x := xs[..|xs| - 1], xs[|xs| - 1];
      assert x in xs;
      assert forall y | y in xs :: y in init || y == x;
      assert forall y | y in init :: y in xs;
      SuffixesReadyPrefix(a, p, s, xs, |xs| - 1);
      BackoffSuffixRunExact(a, stem, p, s, init, m);
      BackoffStepExact(a, stem, p, s, x, BackoffSuffixRun(a, stem, p, s, init), m);
    }
  }

  lemma {:induction false} BackoffStemRunFrom(a: Analyzer, stem: string, p: Entry, ss: seq<Entry>, xs: seq<Entry>, m: Analysis)
    requires p.cat in a.db.prefixStemCompat
    requires forall s, x | s in ss && x in xs :: BackoffTripleOk(a, p, s, x)
    requires m in BackoffStemRun(a, stem, p, ss, xs)
    ensures exists s, x, n :: s in ss && x in xs && StemFits(a, p, s) && BackoffYields(a, stem, p, s, x, n, m)
    decreases |ss|
  {
    var init, s := ss[..|ss| - 1], ss[|ss| - 1];
    assert s in ss;
    assert forall t | t in init :: t in ss;
    if m in BackoffStemRun(a, stem, p, init, xs) {
      BackoffStemRunFrom(a, stem, p, init, xs, m);
      var t, x, n :| t in init && x in xs && StemFits(a, p, t) && BackoffYields(a, stem, p, t, x, n, m);
      assert t in ss;
    } else {
      SuffixesReadyFrom(a, p, s, xs);
      BackoffSuffixRunFrom(a, stem, p, s, xs, m);
    }
  }

  lemma {:induction false} BackoffStemRunExact(a: Analyzer, stem: string, p: Entry, ss: seq<Entry>, xs: seq<Entry>, m: Analysis)
    requires p.cat in a.db.prefixStemCompat
    requires forall s, x | s in ss && x in xs :: BackoffTripleOk(a, p, s, x)
    requires forall s | s in ss :: Settled(a.ver, s.feats, stem)
    ensures m in BackoffStemRun(a, stem, p, ss, xs)
        <==> exists s, x :: s in ss && x in xs && StemFits(a, p, s) && BackoffYields(a, stem, p, s, x, 1, m)
    decreases |ss|
  {
    if ss != [] {
      var init, s := ss[..|ss| - 1], ss[|ss| - 1];
      assert ss == init + [s];
      assert s in ss;
      assert forall t | t in init :: t in ss;
      BackoffStemRunExact(a, stem, p, init, xs, m);
      if StemFits(a, p, s) {
        SuffixesReadyFrom(a, p, s, xs);
        BackoffSuffixRunExact(a, stem, p, s, xs, m);
      }
      if exists t, x :: t in ss && x in xs && StemFits(a, p, t) && BackoffYields(a, stem, p, t, x, 1, m) {
        var t, x :| t in ss && x in xs && StemFits(a, p, t) && BackoffYields(a, stem, p, t, x, 1, m);
        if t != s {
          assert t in init;
        }
      }
    }
  }

  /** Every analysis of `_combined_backoff_analyses` is the merge of a
      prefix entry, a compatible placeholder stem entry as substituted in
      place, and a fitting suffix entry. */
  lemma {:induction false} BackoffCombinedFrom(a: Analyzer, stem: string, ps: seq<Entry>, ss: seq<Entry>, xs: seq<Entry>, m: Analysis)
    requires BackoffReadyFor(a, ps, ss, xs)
    requires m in BackoffCombined(a, stem, ps, ss, xs)
    ensures exists p, s, x, n :: p in ps && s in ss && x in xs && p.cat in a.db.prefixStemCompat && StemFits(a, p, s)
                                 && BackoffYields(a, stem, p, s, x, n, m)
    decreases |ps|
  {
    var init, p := ps[..|ps| - 1], ps[|ps| - 1];
    assert p in ps;
    assert forall q | q in init :: q in ps;
    if m in BackoffCombined(a, stem, init, ss, xs) {
      BackoffCombinedFrom(a, stem, init, ss, xs, m);
      var q, s, x, n :| q in init && s in ss && x in xs && q.cat in a.db.prefixStemCompat && StemFits(a, q, s)
                        && BackoffYields(a, stem, q, s, x, n, m);
      assert q in ps;
    } else {
      BackoffStemRunFrom(a, stem, p, ss, xs, m);
    }
  }

  /** With settled placeholder stems, `_combined_backoff_analyses` builds
      exactly the analyses of the compatible triples whose stem the
      'PROP' test lets through, each on the stem substituted once. */
  lemma {:induction false} BackoffCombinedExact(a: Analyzer, stem: string, ps: seq<Entry>, ss: seq<Entry>, xs: seq<Entry>, m: Analysis)
    requires BackoffReadyFor(a, ps, ss, xs)
    requires forall s | s in ss :: Settled(a.ver, s.feats, stem)
    ensures m in BackoffCombined(a, stem, ps, ss, xs)
        <==> exists p, s, x :: p in ps && s in ss && x in xs && p.cat in a.db.prefixStemCompat && StemFits(a, p, s)
                               && BackoffYields(a, stem, p, s, x, 1, m)
    decreases |ps|
  {
    if ps != [] {
      var init, p := ps[..|ps| - 1], ps[|ps| - 1];
      assert ps == init + [p];
      assert p in ps;
      assert forall q | q in init :: q in ps;
      BackoffCombinedExact(a, stem, init, ss, xs, m);
      BackoffStemRunExact(a, stem, p, ss, xs, m);
      if exists q, s, x :: q in ps && s in ss && x in xs && q.cat in a.db.prefixStemCompat && StemFits(a, q, s)
                           && BackoffYields(a, stem, q, s, x, 1, m) {
        var q, s, x :| q in ps && s in ss && x in xs && q.cat in a.db.prefixStemCompat && StemFits(a, q, s)
                       && BackoffYields(a, stem, q, s, x, 1, m);
        if q != p {
          assert q in init;
        }
      }
    }
  }

  // ---------------------------------------------------------------- analyze

  /** The word's normalised form used for segmentation. */
  function Normal(a: Analyzer, wd: string): string
  {
    MapAll(a.norm, a.normDefault, wd)
  }

  /** The entries of `es` whose category is listed in `cats`, in order:
      the list comprehension that picks the placeholder stems. */
  function Keep(es: seq<Entry>, cats: seq<string>): (r: seq<Entry>)
    ensures forall e :: e in r <==> e in es && e.cat in cats
  {
    if es == [] then []
    else Keep(es[..|es| - 1], cats) + (if es[|es| - 1].cat in cats then [es[|es| - 1]] else [])
  }

  /** The unguarded lookups and the merges of the primary search succeed
      for every combination of entries the hashes hold. */
  predicate DbReady(a: Analyzer)
  {
    && (forall k | k in a.db.prefixHash :: PrefixesKeyed(a, a.db.prefixHash[k]))
    && (forall pk, sk, xk | pk in a.db.prefixHash && sk in a.db.stemHash && xk in a.db.suffixHash ::
          AllMergeable(a, a.db.prefixHash[pk], a.db.stemHash[sk], a.db.suffixHash[xk]))
  }

  /** The same for the backoff search, which indexes `stem_backoffs` with
      the action and `stem_hash` with 'NOAN'. */
  predicate BackoffDbReady(a: Analyzer)
  {
    && a.backoff.Backoff?
    && "NOAN" in a.db.stemHash && a.backoff.action in a.db.stemBackoffs
    && (forall pk, xk | pk in a.db.prefixHash && xk in a.db.suffixHash ::
          BackoffReadyFor(a, a.db.prefixHash[pk], Keep(a.db.stemHash["NOAN"], a.db.stemBackoffs[a.backoff.action]),
                          a.db.suffixHash[xk]))
  }

  /** The placeholder stem entries the backoff action admits. */
  function NoanStems(a: Analyzer): seq<Entry>
    requires BackoffDbReady(a)
  {
    Keep(a.db.stemHash["NOAN"], a.db.stemBackoffs[a.backoff.action])
  }

  /** The analyses of one segmentation: none unless the prefix, suffix and
      stem all have entries. */
  function SegPrimary(a: Analyzer, wd: string, t: Seg): seq<Analysis>
    requires DbReady(a)
  {
    if t.prefix in a.db.prefixHash && t.suffix in a.db.suffixHash && t.stem in a.db.stemHash then
      Combined(a, wd, a.db.prefixHash[t.prefix], a.db.stemHash[t.stem], a.db.suffixHash[t.suffix])
    else []
  }

  function PrimaryOver(a: Analyzer, wd: string, segs: seq<Seg>): seq<Analysis>
    requires DbReady(a)
  {
    if segs == [] then [] else PrimaryOver(a, wd, segs[..|segs| - 1]) + SegPrimary(a, wd, segs[|segs| - 1])
  }

  /** The backoff analyses of one segmentation, whose stem text, read as
      a replacement template, replaces 'NOAN'. A malformed template raises
      as soon as some triple reaches the substitution. */
  function SegBackoff(a: Analyzer, t: Seg): Result<seq<Analysis>, AnalyzerError>
    requires BackoffDbReady(a)
  {
    if t.prefix in a.db.prefixHash && t.suffix in a.db.suffixHash then
      var ps, xs := a.db.prefixHash[t.prefix], a.db.suffixHash[t.suffix];
      if Template("NOAN", t.stem).None? && Reaches(a, ps, NoanStems(a), xs) then Failure(BadTemplate(t.stem))
      else Success(BackoffCombined(a, t.stem, ps, NoanStems(a), xs))
    else Success([])
  }

  /** A segmentation's backoff fails exactly when its stem is a malformed
      template and the loop would have built an analysis with it. */
  lemma SegBackoffFails(a: Analyzer, t: Seg)
    requires BackoffDbReady(a)
    ensures SegBackoff(a, t).Failure? <==>
      && t.prefix in a.db.prefixHash && t.suffix in a.db.suffixHash && Template("NOAN", t.stem).None?
      && BackoffCombined(a, t.stem, a.db.prefixHash[t.prefix], NoanStems(a), a.db.suffixHash[t.suffix]) != []
    ensures SegBackoff(a, t).Failure? ==> SegBackoff(a, t).error == BadTemplate(t.stem)
    ensures SegBackoff(a, t).Success? && t.prefix in a.db.prefixHash && t.suffix in a.db.suffixHash ==>
      SegBackoff(a, t).value == BackoffCombined(a, t.stem, a.db.prefixHash[t.prefix], NoanStems(a), a.db.suffixHash[t.suffix])
  {
    if t.prefix in a.db.prefixHash && t.suffix in a.db.suffixHash {
      BackoffCombinedEmpty(a, t.stem, a.db.prefixHash[t.prefix], NoanStems(a), a.db.suffixHash[t.suffix]);
    }
  }

  /** The backoff of each segmentation, in order. */
  function SegResults(a: Analyzer, segs: seq<Seg>): (rs: seq<Result<seq<Analysis>, AnalyzerError>>)
    requires BackoffDbReady(a)
    ensures |rs| == |segs| && forall k | 0 <= k < |segs| :: rs[k] == SegBackoff(a, segs[k])
  {
    seq(|segs|, k requires 0 <= k < |segs| => SegBackoff(a, segs[k]))
  }

  /** The backoff over the segmentations in order; the first that fails
      fails the search. */
  function BackoffOver(a: Analyzer, segs: seq<Seg>): Result<seq<Analysis>, AnalyzerError>
    requires BackoffDbReady(a)
  {
    ConcatAll(SegResults(a, segs))
  }

  /** The search fails exactly when some segmentation fails, and then with
      the error of the first that does. */
  lemma BackoffOverFails(a: Analyzer, segs: seq<Seg>)
    requires BackoffDbReady(a)
    ensures BackoffOver(a, segs).Failure? <==> exists k | 0 <= k < |segs| :: SegBackoff(a, segs[k]).Failure?
    ensures BackoffOver(a, segs).Failure? ==>
      exists k | 0 <= k < |segs| ::
        && SegBackoff(a, segs[k]).Failure? && BackoffOver(a, segs).error == SegBackoff(a, segs[k]).error
        && forall j | 0 <= j < k :: SegBackoff(a, segs[j]).Success?
  {
    var rs := SegResults(a, segs);
    ConcatFails(rs);
    ConcatFirstError(rs);
  }

  /** The backoff runs: 'NOAN' when nothing was found, 'ADD' always. */
  predicate Backs(b: Backoff, found: nat)
  {
    b.Backoff? && ((b.condition == "NOAN" && found == 0) || b.condition == "ADD")
  }

  function Segs(a: Analyzer, w: string): seq<Seg>
  {
    Segments(Normal(a, DediacAr(w)), a.db.maxPrefixSize, a.db.maxSuffixSize)
  }

  /** The analyses found in the database: only an Arabic word is looked
      up. */
  function PrimaryPart(a: Analyzer, w: string, arabic: bool): seq<Analysis>
    requires DbReady(a)
  {
    if arabic then PrimaryOver(a, DediacAr(w), Segs(a, w)) else []
  }

  /** What `analyze` reads for the stripped word `w` exists. */
  predicate Ready(a: Analyzer, punc: char -> bool, word: string)
  {
    var w := Strip(word);
    var k := Classify(a, punc, w);
    && DbReady(a)
    && (w != "" && (k == Digit || k == Punc || k == Foreign) ==> SpecialReady(a, TagsOf(a.ver, k)))
    && (w != "" && (k == Arabic || (k == HasPunc && a.ver == Morphology)) ==>
          Backs(a.backoff, |PrimaryPart(a, w, k == Arabic)|) ==> BackoffDbReady(a))
  }

  /** `analyze(word)` of either engine: the analyses, or the error the
      backoff raises. */
  function Analyze(a: Analyzer, punc: char -> bool, word: string): Result<seq<Analysis>, AnalyzerError>
    requires Ready(a, punc, word)
  {
    var w := Strip(word);
    var k := Classify(a, punc, w);
    if w == "" then Success([])
    else if k == Digit || k == Punc || k == Foreign then Success([Special(a, w, TagsOf(a.ver, k))])
    else if k == HasPunc && a.ver == CalimaStar then Success([])
    else
      var primary := PrimaryPart(a, w, k == Arabic);
      if Backs(a.backoff, |primary|) then
        var backoff :- BackoffOver(a, Segs(a, w));
        Success(primary + backoff)
      else Success(primary)
  }

  method PrimaryAnalyses(a: Analyzer, wd: string, segs: seq<Seg>) returns (analyses: seq<Analysis>)
    requires DbReady(a)
    ensures analyses == PrimaryOver(a, wd, segs)
  {
    analyses := [];
    var i := 0;
    while i < |segs|
      invariant 0 <= i <= |segs|
      invariant analyses == PrimaryOver(a, wd, segs[..i])
    {
      var t := segs[i];
      if t.prefix in a.db.prefixHash && t.suffix in a.db.suffixHash && t.stem in a.db.stemHash {
        var combined := CombinedAnalyses(a, wd, a.db.prefixHash[t.prefix], a.db.stemHash[t.stem],
                                         a.db.suffixHash[t.suffix]);
        analyses := analyses + combined;
      }
      assert segs[..i + 1][..i] == segs[..i];
      i := i + 1;
    }
    assert segs[..i] == segs;
  }

  /** The backoff loop over the segmentations. A malformed template is
      reported where the source raises: once the loop has built an
      analysis with it. */
  method BackoffSearch(a: Analyzer, segs: seq<Seg>) returns (r: Result<seq<Analysis>, AnalyzerError>)
    requires BackoffDbReady(a)
    ensures r == BackoffOver(a, segs)
  {
    var stems := Keep(a.db.stemHash["NOAN"], a.db.stemBackoffs[a.backoff.action]);
    ghost var rs := SegResults(a, segs);
    var analyses := [];
    var i := 0;
    while i < |segs|
      invariant 0 <= i <= |segs|
      invariant ConcatAll(rs[..i]) == Success(analyses)
    {
      var t := segs[i];
      ConcatStep(rs, i);
      SegBackoffFails(a, t);
      if t.prefix in a.db.prefixHash && t.suffix in a.db.suffixHash {
        var combined := BackoffAnalyses(a, t.stem, a.db.prefixHash[t.prefix], stems, a.db.suffixHash[t.suffix]);
        if Template("NOAN", t.stem).None? && combined != [] {
          ConcatFailed(rs, i + 1);
          return Failure(BadTemplate(t.stem));
        }
        analyses := analyses + combined;
      } else {
        assert analyses + [] == analyses;
      }
      i := i + 1;
    }
    assert rs[..i] == rs;
    return Success(analyses);
  }

  /** `analyze(word)`. */
  method AnalyzeWord(a: Analyzer, punc: char -> bool, word: string) returns (r: Result<seq<Analysis>, AnalyzerError>)
    requires Ready(a, punc, word)
    ensures r == Analyze(a, punc, word)
  {
    var w := Strip(word);
    if w == "" {
      return Success([]);
    }
    var kind := Classify(a, punc, w);
    if kind == Digit || kind == Punc || kind == Foreign {
      return Success([Special(a, w, TagsOf(a.ver, kind))]);
    }
    if kind == HasPunc && a.ver == CalimaStar {
      return Success([]);
    }
    var wordDediac := DediacAr(w);
    var wordNormal := MapAll(a.norm, a.normDefault, wordDediac);
    var segs := Segments(wordNormal, a.db.maxPrefixSize, a.db.maxSuffixSize);
    var analyses := [];
    if kind == Arabic {
      analyses := PrimaryAnalyses(a, wordDediac, segs);
    }
    if a.backoff.Backoff? && ((a.backoff.condition == "NOAN" && |analyses| == 0) || a.backoff.condition == "ADD") {
      var backoff :- BackoffSearch(a, segs);
      analyses := analyses + backoff;
    }
    return Success(analyses);
  }

  datatype AnalyzedWord = AnalyzedWord(word: string, analyses: seq<Analysis>)

  /** The word, as given, paired with its analyses. */
  function AnalyzeEntry(a: Analyzer, punc: char -> bool, word: string): Result<AnalyzedWord, AnalyzerError>
    requires Ready(a, punc, word)
  {
    var analyses :- Analyze(a, punc, word);
    Success(AnalyzedWord(word, analyses))
  }

  function AnalyzeEntries(a: Analyzer, punc: char -> bool, words: seq<string>): (rs: seq<Result<AnalyzedWord, AnalyzerError>>)
    requires forall i | 0 <= i < |words| :: Ready(a, punc, words[i])
    ensures |rs| == |words| && forall i | 0 <= i < |words| :: rs[i] == AnalyzeEntry(a, punc, words[i])
  {
    seq(|words|, i requires 0 <= i < |words| => AnalyzeEntry(a, punc, words[i]))
  }

  /** Each word paired with its analyses, in order; the first word whose
      analysis raises fails the whole list. */
  function AnalyzeAll(a: Analyzer, punc: char -> bool, words: seq<string>): Result<seq<AnalyzedWord>, AnalyzerError>
    requires forall i | 0 <= i < |words| :: Ready(a, punc, words[i])
  {
    Collect(AnalyzeEntries(a, punc, words))
  }

  /** `analyze_words` keeps the words and their order and gives each word
      the analyses `analyze` gives it alone; it fails exactly when some
      word fails, with the error of the first. */
  lemma AnalyzeAllEntries(a: Analyzer, punc: char -> bool, words: seq<string>)
    requires forall i | 0 <= i < |words| :: Ready(a, punc, words[i])
    ensures AnalyzeAll(a, punc, words).Success? <==> forall i | 0 <= i < |words| :: Analyze(a, punc, words[i]).Success?
    ensures var r := AnalyzeAll(a, punc, words);
      r.Success? ==>
        && |r.value| == |words|
        && forall i | 0 <= i < |words| :: r.value[i] == AnalyzedWord(words[i], Analyze(a, punc, words[i]).value)
    ensures var r := AnalyzeAll(a, punc, words);
      r.Failure? ==>
        exists i | 0 <= i < |words| ::
          && Analyze(a, punc, words[i]).Failure? && r.error == Analyze(a, punc, words[i]).error
          && forall j | 0 <= j < i :: Analyze(a, punc, words[j]).Success?
  {
    var rs := AnalyzeEntries(a, punc, words);
    CollectValues(rs);
    CollectFails(rs);
    CollectFirstError(rs);
  }

  /** `analyze_words(words)`: one entry per word, in order, each the word
      with its analyses, or the first error raised. */
  method AnalyzeWords(a: Analyzer, punc: char -> bool, words: seq<string>) returns (r: Result<seq<AnalyzedWord>, AnalyzerError>)
    requires forall i | 0 <= i < |words| :: Ready(a, punc, words[i])
    ensures r == AnalyzeAll(a, punc, words)
  {
    ghost var rs := AnalyzeEntries(a, punc, words);
    var out := [];
    for i := 0 to |words|
      invariant Collect(rs[..i]) == Success(out)
    {
      var next := AnalyzeNext(a, punc, words, i, out);
      if next.Failure? {
        CollectFailed(rs, i + 1);
        return next;
      }
      out := next.value;
    }
    assert rs[..|words|] == rs;
    return Success(out);
  }

  /** The body of the loop of `analyze_words`: the list extended by the
      next word's entry. */
  method AnalyzeNext(a: Analyzer, punc: char -> bool, words: seq<string>, i: nat, out: seq<AnalyzedWord>)
    returns (r: Result<seq<AnalyzedWord>, AnalyzerError>)
    requires forall i | 0 <= i < |words| :: Ready(a, punc, words[i])
    requires i < |words| && Collect(AnalyzeEntries(a, punc, words)[..i]) == Success(out)
    ensures r == Collect(AnalyzeEntries(a, punc, words)[..i + 1])
  {
    CollectStep(AnalyzeEntries(a, punc, words), i);
    var analyses :- AnalyzeWord(a, punc, words[i]);
    return Success(out + [AnalyzedWord(words[i], analyses)]);
  }

  // ------------------------------------------------------- analyze, proved

  /** A blank word has no analysis; a digit, punctuation or foreign word
      has exactly one, the special analysis of its class. */
  lemma AnalyzeSpecial(a: Analyzer, punc: char -> bool, word: string)
    requires Ready(a, punc, word)
    ensures Strip(word) == "" ==> Analyze(a, punc, word) == Success([])
    ensures var w := Strip(word); var k := Classify(a, punc, w); var r := Analyze(a, punc, word);
      w != "" && (k == Digit || k == Punc || k == Foreign) ==>
        && r.Success? && |r.value| == 1
        && r.value[0]["diac"] == Str(w)
        && r.value[0]["bw"] == Str(w + TagsOf(a.ver, k).bwTag)
        && r.value[0]["source"] == Str(TagsOf(a.ver, k).source)
  {
    var w := Strip(word);
    var k := Classify(a, punc, w);
    if w != "" && (k == Digit || k == Punc || k == Foreign) {
      SpecialShape(a, w, TagsOf(a.ver, k));
    }
  }

  /** A word that only contains punctuation somewhere: CALIMA-star gives
      up, the current engine skips the lookup and only the backoff may
      answer. */
  lemma AnalyzeHasPunc(a: Analyzer, punc: char -> bool, word: string)
    requires Ready(a, punc, word)
    requires Strip(word) != "" && Classify(a, punc, Strip(word)) == HasPunc
    ensures a.ver == CalimaStar ==> Analyze(a, punc, word) == Success([])
    ensures a.ver == Morphology && !Backs(a.backoff, 0) ==> Analyze(a, punc, word) == Success([])
    ensures a.ver == Morphology && Backs(a.backoff, 0) ==>
      BackoffDbReady(a) && Analyze(a, punc, word) == BackoffOver(a, Segs(a, Strip(word)))
  {
    if a.ver == Morphology && Backs(a.backoff, 0) {
      var b := BackoffOver(a, Segs(a, Strip(word)));
      if b.Success? {
        assert [] + b.value == b.value;
      }
    }
  }

  /** An Arabic word's analyses: the lookup's results first, then, when
      the backoff condition holds, the backoff's. Without a backoff, or
      with 'NOAN' once something was found, only the lookup counts. */
  lemma AnalyzeArabic(a: Analyzer, punc: char -> bool, word: string)
    requires Ready(a, punc, word)
    requires Strip(word) != "" && Classify(a, punc, Strip(word)) == Arabic
    ensures var w := Strip(word); var primary := PrimaryOver(a, DediacAr(w), Segs(a, w)); var r := Analyze(a, punc, word);
      && (r.Success? ==> primary <= r.value)
      && (Backs(a.backoff, |primary|) ==>
            && BackoffDbReady(a)
            && (BackoffOver(a, Segs(a, w)).Success? ==> r == Success(primary + BackoffOver(a, Segs(a, w)).value))
            && (BackoffOver(a, Segs(a, w)).Failure? ==> r == Failure(BackoffOver(a, Segs(a, w)).error)))
      && (!Backs(a.backoff, |primary|) ==> r == Success(primary))
      && (a.backoff.NoBackoff? ==> r == Success(primary))
      && (a.backoff.Backoff? && a.backoff.condition == "NOAN" && |primary| > 0 ==> r == Success(primary))
  {
  }

  /** The segmentations of a word cut its normalised form, so none of
      their stems holds a character the normalised word lacks. */
  lemma SegStemsWithin(a: Analyzer, w: string, c: char)
    requires c !in Normal(a, DediacAr(w))
    ensures forall t | t in Segs(a, w) :: c !in t.stem
  {
    forall t | t in Segs(a, w)
      ensures c !in t.stem
    {
      SegmentsExact(Normal(a, DediacAr(w)), a.db.maxPrefixSize, a.db.maxSuffixSize, t);
      assert Cuts(Normal(a, DediacAr(w)), t);
    }
  }

  /** A backoff over stems without a backslash never fails. */
  lemma BackoffOverPlain(a: Analyzer, segs: seq<Seg>)
    requires BackoffDbReady(a)
    requires forall t | t in segs :: '\\' !in t.stem
    ensures BackoffOver(a, segs).Success?
  {
    forall k | 0 <= k < |segs|
      ensures SegBackoff(a, segs[k]).Success?
    {
      assert segs[k] in segs;
      TemplatePlain("NOAN", segs[k].stem);
    }
    BackoffOverFails(a, segs);
  }

  /** `analyze` raises only for a word whose normalised form holds a
      backslash. */
  lemma AnalyzePlain(a: Analyzer, punc: char -> bool, word: string)
    requires Ready(a, punc, word)
    requires '\\' !in Normal(a, DediacAr(Strip(word)))
    ensures Analyze(a, punc, word).Success?
  {
    var w := Strip(word);
    var k := Classify(a, punc, w);
    if w != "" && !(k == Digit || k == Punc || k == Foreign) && !(k == HasPunc && a.ver == CalimaStar) {
      if Backs(a.backoff, |PrimaryPart(a, w, k == Arabic)|) {
        SegStemsWithin(a, w, '\\');
        BackoffOverPlain(a, Segs(a, w));
      }
    }
  }

  /** `m` is the analysis of compatible entries of the segmentation `t`. */
  predicate FromSeg(a: Analyzer, wd: string, t: Seg, m: Analysis)
  {
    && t.prefix in a.db.prefixHash && t.stem in a.db.stemHash && t.suffix in a.db.suffixHash
    && exists p, s, x ::
         && p in a.db.prefixHash[t.prefix] && s in a.db.stemHash[t.stem] && x in a.db.suffixHash[t.suffix]
         && p.cat in a.db.prefixStemCompat && StemFits(a, p, s) && Yields(a, wd, p, s, x, m)
  }

  lemma SegPrimaryMembers(a: Analyzer, wd: string, t: Seg, m: Analysis)
    requires DbReady(a)
    ensures m in SegPrimary(a, wd, t) <==> FromSeg(a, wd, t, m)
  {
    if t.prefix in a.db.prefixHash && t.suffix in a.db.suffixHash && t.stem in a.db.stemHash {
      CombinedMembers(a, wd, a.db.prefixHash[t.prefix], a.db.stemHash[t.stem], a.db.suffixHash[t.suffix], m);
    }
  }

  lemma {:induction false} PrimaryOverMembers(a: Analyzer, wd: string, segs: seq<Seg>, m: Analysis)
    requires DbReady(a)
    ensures m in PrimaryOver(a, wd, segs) <==> exists t :: t in segs && FromSeg(a, wd, t, m)
    decreases |segs|
  {
    if segs != [] {
      var init, t := segs[..|segs| - 1], segs[|segs| - 1];
      PrimaryOverMembers(a, wd, init, m);
      SegPrimaryMembers(a, wd, t, m);
      SomeSegSnoc(a, wd, segs, m);
    }
  }

  lemma SomeSegSnoc(a: Analyzer, wd: string, segs: seq<Seg>, m: Analysis)
    requires segs != []
    ensures (exists t :: t in segs && FromSeg(a, wd, t, m))
        <==> (exists t :: t in segs[..|segs| - 1] && FromSeg(a, wd, t, m)) || FromSeg(a, wd, segs[|segs| - 1], m)
  {
    var init, t := segs[..|segs| - 1], segs[|segs| - 1];
    assert segs == init + [t];
    assert forall u | u in segs :: u in init || u == t;
  }

  /** The lookup finds exactly the analyses of compatible entries of the
      allowed segmentations of the normalised word. */
  lemma PrimaryExact(a: Analyzer, w: string, m: Analysis)
    requires DbReady(a)
    ensures m in PrimaryOver(a, DediacAr(w), Segs(a, w))
        <==> exists t :: Allowed(Normal(a, DediacAr(w)), a.db.maxPrefixSize, a.db.maxSuffixSize, t)
                         && FromSeg(a, DediacAr(w), t, m)
  {
    var segs := Segs(a, w);
    PrimaryOverMembers(a, DediacAr(w), segs, m);
    forall t {
      SegmentsExact(Normal(a, DediacAr(w)), a.db.maxPrefixSize, a.db.maxSuffixSize, t);
    }
  }

  /** A backoff analysis carries the marks of its placeholder stem entry. */
  lemma BackoffYieldsMarked(a: Analyzer, stem: string, p: Entry, s: Entry, x: Entry, n: nat, m: Analysis)
    requires BackoffYields(a, stem, p, s, x, n, m)
    ensures BackoffMarked(a, m, s)
  {
    ResubstitutedDescends(a.ver, s.feats, stem, n);
    BackoffJoinedMarked(a, p, s, Resubstituted(a.ver, s.feats, stem, n), x);
  }

  /** `m` is a backoff analysis of the segmentation `t`: the merge of a
      prefix entry of its prefix, an admitted placeholder stem entry
      compatible with it and a fitting suffix entry of its suffix, on the
      placeholder stem substituted `n` times with the segmentation's stem
      text. */
  predicate BackoffFromSeg(a: Analyzer, t: Seg, n: nat, m: Analysis)
    requires BackoffDbReady(a)
  {
    && t.prefix in a.db.prefixHash && t.suffix in a.db.suffixHash
    && exists p, s, x ::
         && p in a.db.prefixHash[t.prefix] && s in a.db.stemHash["NOAN"] && x in a.db.suffixHash[t.suffix]
         && s.cat in a.db.stemBackoffs[a.backoff.action]
         && p.cat in a.db.prefixStemCompat && StemFits(a, p, s)
         && BackoffMarked(a, m, s) && BackoffYields(a, t.stem, p, s, x, n, m)
  }

  /** Every admitted placeholder stem is settled for the stem text of every
      segmentation. */
  predicate SettledOver(a: Analyzer, segs: seq<Seg>)
    requires BackoffDbReady(a)
  {
    forall t, s | t in segs && s in NoanStems(a) :: Settled(a.ver, s.feats, t.stem)
  }

  lemma BackoffSegFrom(a: Analyzer, t: Seg, m: Analysis)
    requires BackoffDbReady(a)
    requires SegBackoff(a, t).Success? && m in SegBackoff(a, t).value
    ensures exists n :: BackoffFromSeg(a, t, n, m)
  {
    SegBackoffFails(a, t);
    var ps, xs := a.db.prefixHash[t.prefix], a.db.suffixHash[t.suffix];
    BackoffCombinedFrom(a, t.stem, ps, NoanStems(a), xs, m);
    var p, s, x, n :| p in ps && s in NoanStems(a) && x in xs && p.cat in a.db.prefixStemCompat && StemFits(a, p, s)
                      && BackoffYields(a, t.stem, p, s, x, n, m);
    BackoffYieldsMarked(a, t.stem, p, s, x, n, m);
    assert BackoffFromSeg(a, t, n, m);
  }

  /** With settled placeholder stems, the backoff of one segmentation is
      exactly the analyses of its compatible triples, each on the stem
      substituted once. */
  lemma BackoffSegExact(a: Analyzer, t: Seg, m: Analysis)
    requires BackoffDbReady(a) && SegBackoff(a, t).Success?
    requires forall s | s in NoanStems(a) :: Settled(a.ver, s.feats, t.stem)
    ensures m in SegBackoff(a, t).value <==> BackoffFromSeg(a, t, 1, m)
  {
    SegBackoffFails(a, t);
    if t.prefix in a.db.prefixHash && t.suffix in a.db.suffixHash {
      var ps, xs := a.db.prefixHash[t.prefix], a.db.suffixHash[t.suffix];
      BackoffCombinedExact(a, t.stem, ps, NoanStems(a), xs, m);
      if m in SegBackoff(a, t).value {
        var p, s, x :| p in ps && s in NoanStems(a) && x in xs && p.cat in a.db.prefixStemCompat && StemFits(a, p, s)
                       && BackoffYields(a, t.stem, p, s, x, 1, m);
        BackoffYieldsMarked(a, t.stem, p, s, x, 1, m);
        assert BackoffFromSeg(a, t, 1, m);
      }
    }
  }

  /** Every backoff analysis is built on one of the segmentations. */
  lemma BackoffOverFrom(a: Analyzer, segs: seq<Seg>, m: Analysis)
    requires BackoffDbReady(a)
    requires BackoffOver(a, segs).Success? && m in BackoffOver(a, segs).value
    ensures exists t, n :: t in segs && BackoffFromSeg(a, t, n, m)
  {
    ConcatMembers(SegResults(a, segs), m);
    var k :| 0 <= k < |segs| && m in SegBackoff(a, segs[k]).value;
    BackoffSegFrom(a, segs[k], m);
  }

  /** With settled placeholder stems, a successful backoff holds exactly
      the analyses of the compatible triples of the segmentations. */
  lemma BackoffOverMembers(a: Analyzer, segs: seq<Seg>, m: Analysis)
    requires BackoffDbReady(a) && SettledOver(a, segs)
    requires BackoffOver(a, segs).Success?
    ensures m in BackoffOver(a, segs).value <==> exists t :: t in segs && BackoffFromSeg(a, t, 1, m)
  {
    var rs := SegResults(a, segs);
    ConcatMembers(rs, m);
    forall k | 0 <= k < |segs|
      ensures m in rs[k].value <==> BackoffFromSeg(a, segs[k], 1, m)
    {
      BackoffSegExact(a, segs[k], m);
    }
    if exists t :: t in segs && BackoffFromSeg(a, t, 1, m) {
      var t :| t in segs && BackoffFromSeg(a, t, 1, m);
      var k :| 0 <= k < |segs| && segs[k] == t;
      assert m in rs[k].value;
    }
  }

  /** Every backoff analysis of the word comes from an allowed segmentation
      of its normalised form. */
  lemma BackoffFrom(a: Analyzer, w: string, m: Analysis)
    requires BackoffDbReady(a)
    requires BackoffOver(a, Segs(a, w)).Success? && m in BackoffOver(a, Segs(a, w)).value
    ensures exists t, n :: Allowed(Normal(a, DediacAr(w)), a.db.maxPrefixSize, a.db.maxSuffixSize, t)
                           && BackoffFromSeg(a, t, n, m)
  {
    BackoffOverFrom(a, Segs(a, w), m);
    var t, n :| t in Segs(a, w) && BackoffFromSeg(a, t, n, m);
    SegmentsExact(Normal(a, DediacAr(w)), a.db.maxPrefixSize, a.db.maxSuffixSize, t);
  }

  /** With settled placeholder stems, the backoff finds exactly the
      analyses of the compatible triples of the allowed segmentations of
      the normalised word, each on the stem substituted once. */
  lemma BackoffExact(a: Analyzer, w: string, m: Analysis)
    requires BackoffDbReady(a) && SettledOver(a, Segs(a, w))
    requires BackoffOver(a, Segs(a, w)).Success?
    ensures m in BackoffOver(a, Segs(a, w)).value
        <==> exists t :: Allowed(Normal(a, DediacAr(w)), a.db.maxPrefixSize, a.db.maxSuffixSize, t)
                         && BackoffFromSeg(a, t, 1, m)
  {
    BackoffOverMembers(a, Segs(a, w), m);
    forall t {
      SegmentsExact(Normal(a, DediacAr(w)), a.db.maxPrefixSize, a.db.maxSuffixSize, t);
    }
  }
}
