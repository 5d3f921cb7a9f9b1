/** The legacy generator `CalimaStarGenerator`: from a lemma and a request
    of feature values it rebuilds every analysis the database can form
    around one of the lemma's stems and that agrees with the request. */
module CalimaGenerator {
  import opened Wrappers
  import opened Features
  import opened CalimaMerge
  import opened Database
  import opened SetOrder

  datatype GeneratorError =
    | GeneratorError(msg: string)
    | InvalidGeneratorFeature(feat: string)
    | InvalidGeneratorFeatureValue(feat: string, value: Val)

  /** The requested features; values the reinflector passes on may be
      `None` (`Null`). */
  type Request = map<string, Val>

  datatype Generator = Generator(db: Db)

  /** `CalimaStarGenerator(db)`: the database must be a legacy one opened
      for generation. */
  function NewGenerator(ver: Version, db: Db): (r: Result<Generator, GeneratorError>)
    ensures r.Success? <==> ver == CalimaStar && db.flags.generation
    ensures r.Success? ==> r.value.db == db
    ensures r.Failure? ==> r.error.GeneratorError?
  {
    if ver != CalimaStar then Failure(GeneratorError("DB is not an instance of CalimaStarDB"))
    else if !db.flags.generation then Failure(GeneratorError("DB does not support generation"))
    else Success(Generator(db))
  }

  // ------------------------------------------------------------- validation

  /** A value a defined feature accepts: anything for an open class, else
      one of its listed values. */
  predicate ValueAllowed(defines: Defines, f: string, v: Val)
    requires f in defines
  {
    defines[f].None? || (v.Str? && v.s in defines[f].value)
  }

  predicate Valid(defines: Defines, f: string, v: Val)
  {
    f in defines && ValueAllowed(defines, f, v)
  }

  /** The error for the first feature of `keys` that fails validation. */
  function FirstInvalid(defines: Defines, feats: Request, keys: seq<string>): (r: Option<GeneratorError>)
    requires forall k | k in keys :: k in feats
    ensures r.None? <==> forall k | k in keys :: Valid(defines, k, feats[k])
    ensures r.Some? ==> exists k :: (k in keys && !Valid(defines, k, feats[k])
      && r.value == (if k in defines then InvalidGeneratorFeatureValue(k, feats[k]) else InvalidGeneratorFeature(k)))
  {
    if keys == [] then None
    else
      var k := keys[0];
      assert k in keys;
      assert forall j | j in keys[1..] :: j in keys;
      if k !in defines then Some(InvalidGeneratorFeature(k))
      else if !ValueAllowed(defines, k, feats[k]) then Some(InvalidGeneratorFeatureValue(k, feats[k]))
      else
        var rest := FirstInvalid(defines, feats, keys[1..]);
        assert forall j | j in keys :: j == k || j in keys[1..];
        rest
  }

  /** The features of a request, in iteration order. */
  function Keys(feats: Request): seq<string>
  {
    Elems(feats.Keys)
  }

  /** `feats.get('pos', None)`. */
  function PosOf(feats: Request): Val
  {
    if "pos" in feats then feats["pos"] else Null
  }

  /** `feats['pos'] in defines['pos']`. */
  predicate PosAllowed(defines: Defines, feats: Request)
    requires "pos" in feats && "pos" in defines && defines["pos"].Some?
  {
    feats["pos"].Str? && feats["pos"].s in defines["pos"].value
  }

  // -------------------------------------------------------------- filtering

  predicate IsClitic(f: string)
  {
    f == "prc0" || f == "prc1" || f == "prc2" || f == "prc3" || f == "enc0"
  }

  /** The request with the missing clitic features taken from the
      part-of-speech default. */
  function Filled(default: Analysis, feats: Request): (r: Request)
    ensures forall k | k in feats :: k in r && r[k] == feats[k]
    ensures forall k | k in r && k !in feats :: IsClitic(k) && k in default && r[k] == default[k]
    ensures forall k | IsClitic(k) && k in default :: k in r
  {
    map k | k in feats.Keys + default.Keys && (k in feats || IsClitic(k)) :: if k in feats then feats[k] else default[k]
  }

  /** The stem lookups the request makes exist. */
  predicate StemReadable(feats: Request, stem: Feats)
  {
    ("vox" in feats ==> "vox" in stem) && ("rat" in feats ==> "rat" in stem) && ("pos" in feats ==> "pos" in stem)
  }

  /** A stem clitic other than '0' that differs from the requested one. */
  predicate StemClash(feats: Request, stem: Feats, f: string)
  {
    f in feats && f in stem && stem[f] != "0" && feats[f] != Str(stem[f])
  }

  /** The stem filter: same voice, rationality and part of speech as
      requested, and no clashing clitic. */
  predicate StemOk(feats: Request, stem: Feats)
    requires StemReadable(feats, stem)
  {
    && ("vox" in feats ==> Str(stem["vox"]) == feats["vox"])
    && ("rat" in feats ==> Str(stem["rat"]) == feats["rat"])
    && ("pos" in feats ==> Str(stem["pos"]) == feats["pos"])
    && !StemClash(feats, stem, "prc0") && !StemClash(feats, stem, "prc1") && !StemClash(feats, stem, "prc2")
    && !StemClash(feats, stem, "prc3") && !StemClash(feats, stem, "enc0")
  }

  /** A requested proclitic or enclitic the affix `af` cannot carry: a
      non-'0' request the affix leaves to a stem that lacks it, or an affix
      value that differs. */
  predicate AffixClash(feats: Request, stem: Feats, af: Feats, f: string)
  {
    f in feats
    && ((feats[f] != Str("0") && f !in af && Str(Get(stem, f, "0")) != feats[f])
        || (f in af && feats[f] != Str(af[f])))
  }

  predicate PrefixOk(feats: Request, stem: Feats, pf: Feats)
  {
    !AffixClash(feats, stem, pf, "prc0") && !AffixClash(feats, stem, pf, "prc1")
    && !AffixClash(feats, stem, pf, "prc2") && !AffixClash(feats, stem, pf, "prc3")
  }

  predicate SuffixOk(feats: Request, stem: Feats, xf: Feats)
  {
    !AffixClash(feats, stem, xf, "enc0")
  }

  /** `suffix_cat in prefix_suffix_compat[prefix_cat]`, guarded. */
  predicate AffixesFit(db: Db, pc: string, sc: string)
  {
    pc in db.prefixSuffixCompat && sc in db.prefixSuffixCompat[pc]
  }

  /** Every requested feature the analysis has carries the requested
      value. */
  predicate Agrees(m: Analysis, feats: Request)
  {
    forall f | f in feats && f in m :: m[f] == feats[f]
  }

  // ------------------------------------------------------------ combination

  /** `merge_features` can read everything for `stem` with any prefix and
      suffix entry. */
  predicate MergeReady(db: Db, stem: Feats)
  {
    forall pc, pf, sc, xf | pc in db.prefixCatHash && pf in db.prefixCatHash[pc]
                            && sc in db.suffixCatHash && xf in db.suffixCatHash[sc] ::
      CalimaReadable(db.computeFeats, pf, stem, xf)
  }

  predicate PairsReady(db: Db, pf: Feats, stem: Feats, xfs: seq<Feats>)
  {
    forall xf | xf in xfs :: CalimaReadable(db.computeFeats, pf, stem, xf)
  }

  /** The suffix entries of one suffix category. */
  function SuffixRun(db: Db, feats: Request, pf: Feats, stem: Feats, xfs: seq<Feats>): (r: seq<Analysis>)
    requires PairsReady(db, pf, stem, xfs)
  {
    if xfs == [] then []
    else
      var xf := xfs[|xfs| - 1];
      assert xf in xfs;
      var init := SuffixRun(db, feats, pf, stem, xfs[..|xfs| - 1]);
      if !SuffixOk(feats, stem, xf) then init
      else
        var merged := CalimaMerged(db.computeFeats, pf, stem, xf);
        if Agrees(merged, feats) then init + [merged] else init
  }

  /** The suffix categories the stem allows. */
  function SuffixCatRun(db: Db, feats: Request, pc: string, pf: Feats, stem: Feats, scs: seq<string>): (r: seq<Analysis>)
    requires pc in db.prefixCatHash && pf in db.prefixCatHash[pc] && MergeReady(db, stem)
  {
    if scs == [] then []
    else
      var sc := scs[|scs| - 1];
      var init := SuffixCatRun(db, feats, pc, pf, stem, scs[..|scs| - 1]);
      if sc in db.suffixCatHash && AffixesFit(db, pc, sc) then init + SuffixRun(db, feats, pf, stem, db.suffixCatHash[sc])
      else init
  }

  /** The prefix entries of one prefix category. */
  function PrefixRun(db: Db, feats: Request, pc: string, pfs: seq<Feats>, stem: Feats, scs: seq<string>): (r: seq<Analysis>)
    requires pc in db.prefixCatHash && (forall pf | pf in pfs :: pf in db.prefixCatHash[pc]) && MergeReady(db, stem)
  {
    if pfs == [] then []
    else
      var pf := pfs[|pfs| - 1];
      assert pf in pfs;
      var init := PrefixRun(db, feats, pc, pfs[..|pfs| - 1], stem, scs);
      if PrefixOk(feats, stem, pf) then init + SuffixCatRun(db, feats, pc, pf, stem, scs) else init
  }

  /** The prefix categories the stem allows. */
  function PrefixCatRun(db: Db, feats: Request, pcs: seq<string>, stem: Feats, scs: seq<string>): (r: seq<Analysis>)
    requires MergeReady(db, stem)
  {
    if pcs == [] then []
    else
      var pc := pcs[|pcs| - 1];
      var init := PrefixCatRun(db, feats, pcs[..|pcs| - 1], stem, scs);
      if pc in db.prefixCatHash then init + PrefixRun(db, feats, pc, db.prefixCatHash[pc], stem, scs) else init
  }

  /** What the loop reads for one stem of the lemma exists. */
  predicate StemReady(db: Db, feats: Request, stem: Feats)
  {
    && StemReadable(feats, stem)
    && (StemOk(feats, stem) ==>
          && "stemcat" in stem && stem["stemcat"] in db.stemPrefixCompat && stem["stemcat"] in db.stemSuffixCompat
          && MergeReady(db, stem))
  }

  /** The analyses built around one stem: none unless the stem fits. */
  function StemPart(db: Db, feats: Request, stem: Feats): (r: seq<Analysis>)
    requires StemReady(db, feats, stem)
  {
    if !StemOk(feats, stem) then []
    else
      var cat := stem["stemcat"];
      PrefixCatRun(db, feats, Elems(db.stemPrefixCompat[cat]), stem, Elems(db.stemSuffixCompat[cat]))
  }

  /** The analyses built around the lemma's stems, in stem order. */
  function StemRun(db: Db, feats: Request, stems: seq<Feats>): (r: seq<Analysis>)
    requires forall stem | stem in stems :: StemReady(db, feats, stem)
  {
    if stems == [] then []
    else
      var stem := stems[|stems| - 1];
      assert stem in stems && StemReady(db, feats, stem);
      StemRun(db, feats, stems[..|stems| - 1]) + StemPart(db, feats, stem)
  }

  // ------------------------------------------------------------ provenance

  /** `m` is the merge of `pf`, `stem` and `xf`; the suffix passes the
      enclitic filter and the merge agrees with the request. */
  predicate Leaf(db: Db, feats: Request, pf: Feats, stem: Feats, xf: Feats, m: Analysis)
  {
    && SuffixOk(feats, stem, xf) && CalimaReadable(db.computeFeats, pf, stem, xf)
    && m == CalimaMerged(db.computeFeats, pf, stem, xf) && Agrees(m, feats)
  }

  /** The prefix entry `pf` of category `pc` and the suffix entry `xf` of
      category `sc` are compatible, pass the clitic filters for `stem` and
      produce `m`. */
  predicate Chain(db: Db, feats: Request, stem: Feats, pc: string, pf: Feats, sc: string, xf: Feats, m: Analysis)
  {
    && pc in db.prefixCatHash && pf in db.prefixCatHash[pc] && PrefixOk(feats, stem, pf)
    && sc in db.suffixCatHash && AffixesFit(db, pc, sc) && xf in db.suffixCatHash[sc]
    && Leaf(db, feats, pf, stem, xf, m)
  }

  /** The stem passes the stem filter and its category is in both stem
      compatibility tables. */
  predicate StemUsed(db: Db, feats: Request, stem: Feats)
  {
    && StemReadable(feats, stem) && StemOk(feats, stem)
    && "stemcat" in stem && stem["stemcat"] in db.stemPrefixCompat && stem["stemcat"] in db.stemSuffixCompat
  }

  lemma {:induction false} SuffixRunMembers(db: Db, feats: Request, pf: Feats, stem: Feats, xfs: seq<Feats>, m: Analysis)
    requires PairsReady(db, pf, stem, xfs)
    ensures m in SuffixRun(db, feats, pf, stem, xfs) <==> exists xf :: xf in xfs && Leaf(db, feats, pf, stem, xf, m)
    decreases |xfs|
  {
    if xfs != [] {
      var init, xf := xfs[..|xfs| - 1], xfs[|xfs| - 1];
      assert xfs == init + [xf];
      assert forall y | y in init :: y in xfs;
      SuffixRunMembers(db, feats, pf, stem, init, m);
      assert xf in xfs;
      if exists y :: y in xfs && Leaf(db, feats, pf, stem, y, m) {
        var y :| y in xfs && Leaf(db, feats, pf, stem, y, m);
        if y != xf {
          assert y in init;
        }
      }
    }
  }

  lemma {:induction false} SuffixCatRunMembers(db: Db, feats: Request, pc: string, pf: Feats, stem: Feats, scs: seq<string>, m: Analysis)
    requires pc in db.prefixCatHash && pf in db.prefixCatHash[pc] && PrefixOk(feats, stem, pf) && MergeReady(db, stem)
    ensures m in SuffixCatRun(db, feats, pc, pf, stem, scs)
        <==> exists sc, xf :: sc in scs && Chain(db, feats, stem, pc, pf, sc, xf, m)
    decreases |scs|
  {
    if scs != [] {
      SuffixCatRunMembers(db, feats, pc, pf, stem, scs[..|scs| - 1], m);
      SuffixCatRunLast(db, feats, pc, pf, stem, scs, scs[|scs| - 1], m);
      SuffixCatsSplit(db, feats, stem, pc, pf, scs, scs[|scs| - 1], m);
    }
  }

  /** The last suffix category adds exactly the chains through it. */
  lemma SuffixCatRunLast(db: Db, feats: Request, pc: string, pf: Feats, stem: Feats, scs: seq<string>, sc: string, m: Analysis)
    requires pc in db.prefixCatHash && pf in db.prefixCatHash[pc] && PrefixOk(feats, stem, pf) && MergeReady(db, stem)
    requires scs != [] && sc == scs[|scs| - 1]
    ensures m in SuffixCatRun(db, feats, pc, pf, stem, scs)
        <==> m in SuffixCatRun(db, feats, pc, pf, stem, scs[..|scs| - 1]) || SomeChain(db, feats, stem, pc, pf, sc, m)
  {
    var fits := sc in db.suffixCatHash && AffixesFit(db, pc, sc);
    var run := if fits then SuffixRun(db, feats, pf, stem, db.suffixCatHash[sc]) else [];
    var init := SuffixCatRun(db, feats, pc, pf, stem, scs[..|scs| - 1]);
    assert SuffixCatRun(db, feats, pc, pf, stem, scs) == init + run;
    if fits {
      SuffixCatChain(db, feats, pc, pf, stem, sc, m);
    }
  }

  /** Some suffix entry of category `sc` completes the chain to `m`. */
  ghost predicate SomeChain(db: Db, feats: Request, stem: Feats, pc: string, pf: Feats, sc: string, m: Analysis)
  {
    exists xf :: Chain(db, feats, stem, pc, pf, sc, xf, m)
  }

  /** The suffix run of one compatible suffix category, read at `m`. */
  lemma SuffixCatChain(db: Db, feats: Request, pc: string, pf: Feats, stem: Feats, sc: string, m: Analysis)
    requires pc in db.prefixCatHash && pf in db.prefixCatHash[pc] && PrefixOk(feats, stem, pf) && MergeReady(db, stem)
    requires sc in db.suffixCatHash && AffixesFit(db, pc, sc)
    ensures m in SuffixRun(db, feats, pf, stem, db.suffixCatHash[sc]) <==> SomeChain(db, feats, stem, pc, pf, sc, m)
  {
    var xfs := db.suffixCatHash[sc];
    SuffixRunMembers(db, feats, pf, stem, xfs, m);
    if m in SuffixRun(db, feats, pf, stem, xfs) {
      var xf :| xf in xfs && Leaf(db, feats, pf, stem, xf, m);
      assert Chain(db, feats, stem, pc, pf, sc, xf, m);
    }
    if exists xf :: Chain(db, feats, stem, pc, pf, sc, xf, m) {
      var xf :| Chain(db, feats, stem, pc, pf, sc, xf, m);
      assert xf in xfs && Leaf(db, feats, pf, stem, xf, m);
    }
  }

  lemma SuffixCatsSplit(db: Db, feats: Request, stem: Feats, pc: string, pf: Feats, scs: seq<string>, sc: string, m: Analysis)
    requires scs != [] && sc == scs[|scs| - 1]
    ensures (exists t, xf :: t in scs && Chain(db, feats, stem, pc, pf, t, xf, m))
        <==> (exists t, xf :: t in scs[..|scs| - 1] && Chain(db, feats, stem, pc, pf, t, xf, m))
             || SomeChain(db, feats, stem, pc, pf, sc, m)
  {
    var init := scs[..|scs| - 1];
    assert scs == init + [sc];
    assert forall t | t in scs :: t in init || t == sc;
  }

  lemma {:induction false} PrefixRunMembers(db: Db, feats: Request, pc: string, pfs: seq<Feats>, stem: Feats, scs: seq<string>, m: Analysis)
    requires pc in db.prefixCatHash && (forall pf | pf in pfs :: pf in db.prefixCatHash[pc]) && MergeReady(db, stem)
    ensures m in PrefixRun(db, feats, pc, pfs, stem, scs)
        <==> exists pf, sc, xf :: pf in pfs && sc in scs && Chain(db, feats, stem, pc, pf, sc, xf, m)
    decreases |pfs|
  {
    if pfs != [] {
      PrefixRunLast(db, feats, pc, pfs, pfs[|pfs| - 1], stem, scs, m);
      PrefixRunMembers(db, feats, pc, pfs[..|pfs| - 1], stem, scs, m);
      PrefixesSplit(db, feats, stem, pc, pfs, pfs[|pfs| - 1], scs, m);
    }
  }

  /** The last prefix entry adds exactly the chains through it. */
  lemma PrefixRunLast(db: Db, feats: Request, pc: string, pfs: seq<Feats>, pf: Feats, stem: Feats, scs: seq<string>, m: Analysis)
    requires pc in db.prefixCatHash && (forall q | q in pfs :: q in db.prefixCatHash[pc]) && MergeReady(db, stem)
    requires pfs != [] && pf == pfs[|pfs| - 1]
    ensures forall q | q in pfs[..|pfs| - 1] :: q in db.prefixCatHash[pc]
    ensures m in PrefixRun(db, feats, pc, pfs, stem, scs)
        <==> m in PrefixRun(db, feats, pc, pfs[..|pfs| - 1], stem, scs)
             || exists sc, xf :: sc in scs && Chain(db, feats, stem, pc, pf, sc, xf, m)
  {
    var init := pfs[..|pfs| - 1];
    assert forall q | q in init :: q in pfs;
    assert pf in pfs;
    if PrefixOk(feats, stem, pf) {
      SuffixCatRunMembers(db, feats, pc, pf, stem, scs, m);
    }
  }

  lemma PrefixesSplit(db: Db, feats: Request, stem: Feats, pc: string, pfs: seq<Feats>, pf: Feats, scs: seq<string>, m: Analysis)
    requires pfs != [] && pf == pfs[|pfs| - 1]
    ensures (exists q, sc, xf :: q in pfs && sc in scs && Chain(db, feats, stem, pc, q, sc, xf, m))
        <==> (exists q, sc, xf :: q in pfs[..|pfs| - 1] && sc in scs && Chain(db, feats, stem, pc, q, sc, xf, m))
             || exists sc, xf :: sc in scs && Chain(db, feats, stem, pc, pf, sc, xf, m)
  {
    var init := pfs[..|pfs| - 1];
    assert pfs == init + [pf];
    assert forall q | q in pfs :: q in init || q == pf;
  }

  lemma {:induction false} PrefixCatRunMembers(db: Db, feats: Request, pcs: seq<string>, stem: Feats, scs: seq<string>, m: Analysis)
    requires MergeReady(db, stem)
    ensures m in PrefixCatRun(db, feats, pcs, stem, scs)
        <==> exists pc, pf, sc, xf :: pc in pcs && sc in scs && Chain(db, feats, stem, pc, pf, sc, xf, m)
    decreases |pcs|
  {
    if pcs != [] {
      PrefixCatRunMembers(db, feats, pcs[..|pcs| - 1], stem, scs, m);
      PrefixCatRunLast(db, feats, pcs, pcs[|pcs| - 1], stem, scs, m);
      PrefixCatsSplit(db, feats, stem, pcs, pcs[|pcs| - 1], scs, m);
    }
  }

  /** The last prefix category adds exactly the chains through it. */
  lemma PrefixCatRunLast(db: Db, feats: Request, pcs: seq<string>, pc: string, stem: Feats, scs: seq<string>, m: Analysis)
    requires MergeReady(db, stem) && pcs != [] && pc == pcs[|pcs| - 1]
    ensures m in PrefixCatRun(db, feats, pcs, stem, scs)
        <==> m in PrefixCatRun(db, feats, pcs[..|pcs| - 1], stem, scs)
             || exists pf, sc, xf :: sc in scs && Chain(db, feats, stem, pc, pf, sc, xf, m)
  {
    if pc in db.prefixCatHash {
      PrefixRunMembers(db, feats, pc, db.prefixCatHash[pc], stem, scs, m);
    }
  }

  lemma PrefixCatsSplit(db: Db, feats: Request, stem: Feats, pcs: seq<string>, pc: string, scs: seq<string>, m: Analysis)
    requires pcs != [] && pc == pcs[|pcs| - 1]
    ensures (exists q, pf, sc, xf :: q in pcs && sc in scs && Chain(db, feats, stem, q, pf, sc, xf, m))
        <==> (exists q, pf, sc, xf :: q in pcs[..|pcs| - 1] && sc in scs && Chain(db, feats, stem, q, pf, sc, xf, m))
             || exists pf, sc, xf :: sc in scs && Chain(db, feats, stem, pc, pf, sc, xf, m)
  {
    var init := pcs[..|pcs| - 1];
    assert pcs == init + [pc];
    assert forall q | q in pcs :: q in init || q == pc;
  }

  /** Every generated analysis comes from a used stem of the lemma, a
      prefix category allowed for the stem's category and a suffix
      category allowed for it, and every such chain contributes its
      analysis. */
  lemma {:induction false} StemRunMembers(db: Db, feats: Request, stems: seq<Feats>, m: Analysis)
    requires forall stem | stem in stems :: StemReady(db, feats, stem)
    ensures m in StemRun(db, feats, stems) <==> exists stem :: stem in stems && StemYields(db, feats, stem, m)
    decreases |stems|
  {
    if stems != [] {
      StemRunLast(db, feats, stems, m);
      StemRunMembers(db, feats, stems[..|stems| - 1], m);
      StemsSplit(db, feats, stems, stems[|stems| - 1], m);
    }
  }

  lemma StemsSplit(db: Db, feats: Request, stems: seq<Feats>, stem: Feats, m: Analysis)
    requires stems != [] && stem == stems[|stems| - 1]
    ensures (exists t :: t in stems && StemYields(db, feats, t, m))
        <==> (exists t :: t in stems[..|stems| - 1] && StemYields(db, feats, t, m)) || StemYields(db, feats, stem, m)
  {
    var init := stems[..|stems| - 1];
    assert stems == init + [stem];
    assert forall t | t in stems :: t in init || t == stem;
  }

  /** Every analysis built around the stems agrees with the request. */
  lemma StemRunAgrees(db: Db, feats: Request, stems: seq<Feats>)
    requires forall stem | stem in stems :: StemReady(db, feats, stem)
    ensures forall m | m in StemRun(db, feats, stems) :: Agrees(m, feats)
  {
    forall m | m in StemRun(db, feats, stems) ensures Agrees(m, feats) {
      StemRunMembers(db, feats, stems, m);
    }
  }

  /** One step of `StemRun`: the last stem adds exactly what it yields. */
  lemma StemRunLast(db: Db, feats: Request, stems: seq<Feats>, m: Analysis)
    requires stems != [] && forall stem | stem in stems :: StemReady(db, feats, stem)
    ensures forall stem | stem in stems[..|stems| - 1] :: StemReady(db, feats, stem)
    ensures m in StemRun(db, feats, stems)
        <==> m in StemRun(db, feats, stems[..|stems| - 1]) || StemYields(db, feats, stems[|stems| - 1], m)
  {
    var stem := stems[|stems| - 1];
    assert stem in stems && StemReady(db, feats, stem);
    assert forall t | t in stems[..|stems| - 1] :: t in stems;
    if StemOk(feats, stem) {
      StemYieldsAt(db, feats, stem, m);
    }
  }

  /** `m` comes from `stem` through a prefix category and a suffix
      category both allowed for the stem's category. */
  ghost predicate StemYields(db: Db, feats: Request, stem: Feats, m: Analysis)
  {
    StemUsed(db, feats, stem)
    && exists pc, pf, sc, xf :: pc in db.stemPrefixCompat[stem["stemcat"]] && sc in db.stemSuffixCompat[stem["stemcat"]]
                                && Chain(db, feats, stem, pc, pf, sc, xf, m)
  }

  lemma StemYieldsAt(db: Db, feats: Request, stem: Feats, m: Analysis)
    requires StemReady(db, feats, stem) && StemOk(feats, stem)
    ensures var cat := stem["stemcat"];
      m in PrefixCatRun(db, feats, Elems(db.stemPrefixCompat[cat]), stem, Elems(db.stemSuffixCompat[cat])) <==> StemYields(db, feats, stem, m)
  {
    var cat := stem["stemcat"];
    PrefixCatRunMembers(db, feats, Elems(db.stemPrefixCompat[cat]), stem, Elems(db.stemSuffixCompat[cat]), m);
  }

  // -------------------------------------------------------------- generate

  /** What `generate` reads exists: `defines['pos']` is a list of values,
      the default of the requested part of speech exists, and every stem
      of the lemma is ready. */
  predicate GenReady(g: Generator, lem: string, feats: Request)
  {
    lem in g.db.lemmaHash && FirstInvalid(g.db.defines, feats, Keys(feats)).None? && "pos" in feats ==>
      && "pos" in g.db.defines && g.db.defines["pos"].Some?
      && (PosAllowed(g.db.defines, feats) ==>
            && feats["pos"] in g.db.defaults
            && (feats.Keys <= g.db.defaults[feats["pos"]].Keys ==>
                  forall stem | stem in g.db.lemmaHash[lem] ::
                    StemReady(g.db, Filled(g.db.defaults[feats["pos"]], feats), stem)))
  }

  /** `generate(lemma, feats)`. An unknown lemma gives no analyses before
      any validation; otherwise an undefined feature, a value a closed
      feature does not list, or a missing 'pos' is an error; a request
      naming a feature the part of speech's default lacks gives no
      analyses; and every analysis agrees with the request. */
  function Generate(g: Generator, lem: string, feats: Request): (r: Result<seq<Analysis>, GeneratorError>)
    requires GenReady(g, lem, feats)
    ensures lem !in g.db.lemmaHash ==> r == Success([])
    ensures r.Failure?
        <==> lem in g.db.lemmaHash && ((exists k | k in feats :: !Valid(g.db.defines, k, feats[k])) || "pos" !in feats)
    ensures r.Failure? ==>
              || (exists k | k in feats :: !Valid(g.db.defines, k, feats[k])
                    && r.error == (if k in g.db.defines then InvalidGeneratorFeatureValue(k, feats[k]) else InvalidGeneratorFeature(k)))
              || r.error == InvalidGeneratorFeatureValue("pos", Null)
    ensures r.Success? && r.value != [] ==> "pos" in feats && feats["pos"] in g.db.defaults && feats.Keys <= g.db.defaults[feats["pos"]].Keys
    ensures (r.Success? && "pos" in feats && feats["pos"] in g.db.defaults
             && !(feats.Keys <= g.db.defaults[feats["pos"]].Keys)) ==> r == Success([])
    ensures r.Success? ==> forall m | m in r.value :: Agrees(m, feats)
  {
    if lem !in g.db.lemmaHash then Success([])
    else
      var invalid := FirstInvalid(g.db.defines, feats, Keys(feats));
      if invalid.Some? then Failure(invalid.value)
      else if "pos" !in feats || !PosAllowed(g.db.defines, feats) then Failure(InvalidGeneratorFeatureValue("pos", PosOf(feats)))
      else
        var default := g.db.defaults[feats["pos"]];
        if !(feats.Keys <= default.Keys) then Success([])
        else
          var filled := Filled(default, feats);
          var r := StemRun(g.db, filled, g.db.lemmaHash[lem]);
          StemRunAgrees(g.db, filled, g.db.lemmaHash[lem]);
          assert forall m | m in r :: Agrees(m, feats) by {
            forall m, f | m in r && f in feats && f in m ensures m[f] == feats[f] {
              assert Agrees(m, filled) && f in filled;
            }
          }
          Success(r)
  }

  /** For a known lemma, a valid request and a part of speech whose
      default has every requested feature, the analyses generated are
      exactly those built from the lemma's stems against the request
      completed with the default clitics. */
  lemma GenerateMembers(g: Generator, lem: string, feats: Request, m: Analysis)
    requires GenReady(g, lem, feats) && Generate(g, lem, feats).Success? && lem in g.db.lemmaHash
    requires "pos" in feats && feats["pos"] in g.db.defaults && feats.Keys <= g.db.defaults[feats["pos"]].Keys
    ensures m in Generate(g, lem, feats).value
        <==> exists stem :: stem in g.db.lemmaHash[lem] && StemYields(g.db, Filled(g.db.defaults[feats["pos"]], feats), stem, m)
  {
    StemRunMembers(g.db, Filled(g.db.defaults[feats["pos"]], feats), g.db.lemmaHash[lem], m);
  }

  // ---------------------------------------------------------------- methods

  /** The validation loop over the request's features. */
  method ValidateRequest(defines: Defines, feats: Request) returns (r: Option<GeneratorError>)
    ensures r == FirstInvalid(defines, feats, Keys(feats))
  {
    var keys := Keys(feats);
    var i := 0;
    while i < |keys|
      invariant 0 <= i <= |keys|
      invariant FirstInvalid(defines, feats, keys) == FirstInvalid(defines, feats, keys[i..])
    {
      var k := keys[i];
      if k !in defines {
        return Some(InvalidGeneratorFeature(k));
      }
      if defines[k].Some? && !(feats[k].Str? && feats[k].s in defines[k].value) {
        return Some(InvalidGeneratorFeatureValue(k, feats[k]));
      }
      assert keys[i..][1..] == keys[i + 1..];
      i := i + 1;
    }
    return None;
  }

  const Clitics: seq<string> := ["prc0", "prc1", "prc2", "prc3", "enc0"]

  /** Copies the request and sets each missing clitic feature to the
      default's value. */
  method FillClitics(default: Analysis, feats: Request) returns (r: Request)
    ensures r == Filled(default, feats)
  {
    r := feats;
    var i := 0;
    while i < |Clitics|
      invariant 0 <= i <= |Clitics|
      invariant forall k :: k in r <==> k in feats || (k in Clitics[..i] && k in default)
      invariant forall k | k in r :: r[k] == if k in feats then feats[k] else default[k]
    {
      var f := Clitics[i];
      if f !in r && f in default {
        r := r[f := default[f]];
      }
      assert Clitics[..i + 1] == Clitics[..i] + [f];
      i := i + 1;
    }
    assert forall k :: k in Clitics <==> IsClitic(k);
    assert Clitics[..i] == Clitics;
  }

  method SuffixEntries(db: Db, feats: Request, pf: Feats, stem: Feats, xfs: seq<Feats>) returns (out: seq<Analysis>)
    requires PairsReady(db, pf, stem, xfs)
    ensures out == SuffixRun(db, feats, pf, stem, xfs)
  {
    out := [];
    for k := 0 to |xfs|
      invariant out == SuffixRun(db, feats, pf, stem, xfs[..k])
    {
      SuffixRunSnoc(db, feats, pf, stem, xfs, k);
      out := SuffixStep(db, feats, pf, stem, xfs[k], out);
    }
    assert xfs[..|xfs|] == xfs;
  }

  /** One more suffix entry adds its merge when it passes both filters. */
  lemma SuffixRunSnoc(db: Db, feats: Request, pf: Feats, stem: Feats, xfs: seq<Feats>, k: nat)
    requires PairsReady(db, pf, stem, xfs) && k < |xfs|
    ensures CalimaReadable(db.computeFeats, pf, stem, xfs[k])
    ensures PairsReady(db, pf, stem, xfs[..k + 1])
    ensures SuffixRun(db, feats, pf, stem, xfs[..k + 1])
         == SuffixRun(db, feats, pf, stem, xfs[..k]) + Kept(db, feats, pf, stem, xfs[k])
  {
    assert xfs[k] in xfs;
    assert xfs[..k + 1][..k] == xfs[..k];
  }

  /** What one suffix entry contributes. */
  function Kept(db: Db, feats: Request, pf: Feats, stem: Feats, xf: Feats): seq<Analysis>
    requires CalimaReadable(db.computeFeats, pf, stem, xf)
  {
    if SuffixOk(feats, stem, xf) && Agrees(CalimaMerged(db.computeFeats, pf, stem, xf), feats)
    then [CalimaMerged(db.computeFeats, pf, stem, xf)] else []
  }

  /** The body of the loop over suffix entries. */
  method SuffixStep(db: Db, feats: Request, pf: Feats, stem: Feats, xf: Feats, out: seq<Analysis>)
    returns (out': seq<Analysis>)
    requires CalimaReadable(db.computeFeats, pf, stem, xf)
    ensures out' == out + Kept(db, feats, pf, stem, xf)
  {
    out' := out;
    if SuffixOk(feats, stem, xf) {
      var merged := CalimaMergeFeatures(db.computeFeats, pf, stem, xf, "AF");
      CalimaMergedIs(db.computeFeats, pf, stem, xf, merged);
      if Agrees(merged, feats) {
        out' := out' + [merged];
      }
    }
  }

  method SuffixCats(db: Db, feats: Request, pc: string, pf: Feats, stem: Feats, scs: seq<string>) returns (out: seq<Analysis>)
    requires pc in db.prefixCatHash && pf in db.prefixCatHash[pc] && MergeReady(db, stem)
    ensures out == SuffixCatRun(db, feats, pc, pf, stem, scs)
  {
    out := [];
    var k := 0;
    while k < |scs|
      invariant 0 <= k <= |scs|
      invariant out == SuffixCatRun(db, feats, pc, pf, stem, scs[..k])
    {
      var sc := scs[k];
      if sc in db.suffixCatHash && AffixesFit(db, pc, sc) {
        var run := SuffixEntries(db, feats, pf, stem, db.suffixCatHash[sc]);
        out := out + run;
      }
      assert scs[..k + 1][..k] == scs[..k];
      k := k + 1;
    }
    assert scs[..k] == scs;
  }

  method PrefixEntries(db: Db, feats: Request, pc: string, pfs: seq<Feats>, stem: Feats, scs: seq<string>) returns (out: seq<Analysis>)
    requires pc in db.prefixCatHash && (forall pf | pf in pfs :: pf in db.prefixCatHash[pc]) && MergeReady(db, stem)
    ensures out == PrefixRun(db, feats, pc, pfs, stem, scs)
  {
    out := [];
    var k := 0;
    while k < |pfs|
      invariant 0 <= k <= |pfs|
      invariant out == PrefixRun(db, feats, pc, pfs[..k], stem, scs)
    {
      var pf := pfs[k];
      assert pf in pfs;
      if PrefixOk(feats, stem, pf) {
        var run := SuffixCats(db, feats, pc, pf, stem, scs);
        out := out + run;
      }
      assert pfs[..k + 1][..k] == pfs[..k];
      k := k + 1;
    }
    assert pfs[..k] == pfs;
  }

  method PrefixCats(db: Db, feats: Request, pcs: seq<string>, stem: Feats, scs: seq<string>) returns (out: seq<Analysis>)
    requires MergeReady(db, stem)
    ensures out == PrefixCatRun(db, feats, pcs, stem, scs)
  {
    out := [];
    var k := 0;
    while k < |pcs|
      invariant 0 <= k <= |pcs|
      invariant out == PrefixCatRun(db, feats, pcs[..k], stem, scs)
    {
      var pc := pcs[k];
      if pc in db.prefixCatHash {
        var run := PrefixEntries(db, feats, pc, db.prefixCatHash[pc], stem, scs);
        out := out + run;
      }
      assert pcs[..k + 1][..k] == pcs[..k];
      k := k + 1;
    }
    assert pcs[..k] == pcs;
  }

  method StemAnalysesOf(db: Db, feats: Request, stem: Feats) returns (run: seq<Analysis>)
    requires StemReady(db, feats, stem)
    ensures run == StemPart(db, feats, stem)
  {
    run := [];
    if StemOk(feats, stem) {
      var cat := stem["stemcat"];
      run := PrefixCats(db, feats, Elems(db.stemPrefixCompat[cat]), stem, Elems(db.stemSuffixCompat[cat]));
    }
  }

  method StemAnalyses(db: Db, feats: Request, stems: seq<Feats>) returns (out: seq<Analysis>)
    requires forall stem | stem in stems :: StemReady(db, feats, stem)
    ensures out == StemRun(db, feats, stems)
  {
    out := [];
    var k := 0;
    while k < |stems|
      invariant 0 <= k <= |stems|
      invariant out == StemRun(db, feats, stems[..k])
    {
      var stem := stems[k];
      assert stem in stems && StemReady(db, feats, stem);
      var run := StemAnalysesOf(db, feats, stem);
      out := out + run;
      assert stems[..k + 1][..k] == stems[..k];
      k := k + 1;
    }
    assert stems[..k] == stems;
  }

  /** `CalimaStarGenerator.generate`. */
  method GenerateAnalyses(g: Generator, lem: string, feats: Request) returns (r: Result<seq<Analysis>, GeneratorError>)
    requires GenReady(g, lem, feats)
    ensures r == Generate(g, lem, feats)
  {
    if lem !in g.db.lemmaHash {
      return Success([]);
    }
    var invalid := ValidateRequest(g.db.defines, feats);
    if invalid.Some? {
      return Failure(invalid.value);
    }
    if "pos" !in feats || !PosAllowed(g.db.defines, feats) {
      return Failure(InvalidGeneratorFeatureValue("pos", PosOf(feats)));
    }
    var default := g.db.defaults[feats["pos"]];
    if !(feats.Keys <= default.Keys) {
      return Success([]);
    }
    var filled := FillClitics(default, feats);
    var analyses := StemAnalyses(g.db, filled, g.db.lemmaHash[lem]);
    return Success(analyses);
  }
}
