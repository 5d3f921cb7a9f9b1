/** Orthographic rewriting in the legacy CALIMA-Star engine. The
    definite-article rules are anchored at the start of the word and list
    the proclitics they allow; the CAPHI pipeline has four rules. The
    fatha, hamza-wasl, '+' and shadda rules and the tanwin normaliser are
    those of the current engine. */
module CalimaRewrite {
  import opened Wrappers
  import opened PyStr
  import opened Regex
  import opened Charsets
  import opened MorphRewrite

  const WAW_FATHA: string := [WAW, FATHA]
  const FEH_FATHA: string := [FEH, FATHA]
  const BEH_KASRA: string := [BEH, KASRA]
  const KAF_FATHA: string := [KAF, FATHA]

  /** Length of the optional group at `k`: the first alternative that
      occurs there, or nothing. */
  function OptLen(alts: seq<string>, s: string, k: nat): (n: nat)
    ensures k + n <= |s| || n == 0
  {
    match FirstAlt(alts, s, k)
    case Some(a) => |a|
    case None => 0
  }

  /** Rule 1, `^((وَ|فَ)?(بِ|كَ)?ال)\+?([sun letters])` replaced by the
      article with its proclitics, the sun letter and a shadda. */
  function CalimaArticleSun(s: string, i: nat): Option<Hit>
  {
    if i == 0 then
      var a := OptLen([WAW_FATHA, FEH_FATHA], s, 0);
      var k := a + OptLen([BEH_KASRA, KAF_FATHA], s, a);
      if LitAt(s, k, [ALEF, LAM]) then
        var p := if k + 2 < |s| && s[k + 2] == '+' then k + 3 else k + 2;
        if p < |s| && s[p] in SUN_LETTERS then Some(Hit(p + 1, s[..k + 2] + [s[p], SHADDA])) else None
      else None
    else None
  }

  /** Rule 2, `^((وَ|فَ)?لِل)\+?([sun letters])` replaced by the
      preposition and article, the sun letter and a shadda. */
  function CalimaLilSun(s: string, i: nat): Option<Hit>
  {
    if i == 0 then
      var k := OptLen([WAW_FATHA, FEH_FATHA], s, 0);
      if LitAt(s, k, [LAM, KASRA, LAM]) then
        var p := if k + 3 < |s| && s[k + 3] == '+' then k + 4 else k + 3;
        if p < |s| && s[p] in SUN_LETTERS then Some(Hit(p + 1, s[..k + 3] + [s[p], SHADDA])) else None
      else None
    else None
  }

  /** `rewrite_diac(word)` of the legacy engine. */
  function CalimaRewriteDiac(word: string): string
  {
    var w1 := Sub(CalimaArticleSun, word);
    var w2 := Sub(CalimaLilSun, w1);
    var w3 := Sub(DiacFathaAfterAlef, w2);
    var w4 := Sub(HamzaWasl, w3);
    var w5 := Sub(DropPlus, w4);
    Sub(ShaddaRun, w5)
  }

  /** The legacy `rewrite_diac` leaves no '+', no hamza-wasl alef and no
      two adjacent shaddas. */
  lemma CalimaRewriteDiacClean(word: string)
    ensures var r := CalimaRewriteDiac(word);
      '+' !in r && ALEF_WASLA !in r && NoDouble(r, SHADDA)
  {
    var w1 := Sub(CalimaArticleSun, word);
    var w2 := Sub(CalimaLilSun, w1);
    var w3 := Sub(DiacFathaAfterAlef, w2);
    var w4 := Sub(HamzaWasl, w3);
    var w5 := Sub(DropPlus, w4);
    SubRemoves(HamzaWasl, w3, 0, ALEF_WASLA);
    SubRemoves(DropPlus, w4, 0, ALEF_WASLA);
    SubRemoves(DropPlus, w4, 0, '+');
    SubRemoves(ShaddaRun, w5, 0, ALEF_WASLA);
    SubRemoves(ShaddaRun, w5, 0, '+');
    RunCollapse(w5, 0, SHADDA);
  }

  /** The article rule at the start of a word: the article (with its
      proclitics) is kept, the '+' dropped, and a shadda follows the sun
      letter; the rest of the word is untouched by this rule. */
  lemma ArticleSunStep(s: string, k: nat, p: nat)
    requires k == OptLen([WAW_FATHA, FEH_FATHA], s, 0) + OptLen([BEH_KASRA, KAF_FATHA], s, OptLen([WAW_FATHA, FEH_FATHA], s, 0))
    requires LitAt(s, k, [ALEF, LAM])
    requires p == (if k + 2 < |s| && s[k + 2] == '+' then k + 3 else k + 2)
    requires p < |s| && s[p] in SUN_LETTERS
    ensures Sub(CalimaArticleSun, s) == s[..k + 2] + [s[p], SHADDA] + s[p + 1..]
  {
    assert Fits(CalimaArticleSun, s, 0);
    SubIdentity(CalimaArticleSun, s, p + 1);
  }

  /** Rule 1 of the legacy CAPHI pipeline,
      `^((w_a_|f_a_|2_a_)?(b_i_|k_a_|l_i_)?l)\+(sun codes)` replaced by the
      proclitics and the sun code twice: the article's 'l' and the '+'
      disappear. */
  function CalimaCaphiSun(s: string, i: nat): Option<Hit>
  {
    if i == 0 then
      var a := OptLen(["w_a_", "f_a_", "2_a_"], s, 0);
      var k := a + OptLen(["b_i_", "k_a_", "l_i_"], s, a);
      if LitAt(s, k, "l+") then
        match FirstAlt(SUN_CAPHI, s, k + 2)
        case Some(c) => Some(Hit(k + 2 + |c|, s[..k] + c + c))
        case None => None
      else None
    else None
  }

  /** Rule 2, `(\S)\+~` replaced by `\1_\1`. */
  function CalimaCaphiShadda(s: string, i: nat): Option<Hit>
  {
    if i < |s| && !IsSpace(s[i]) && LitAt(s, i + 1, "+~") then Some(Hit(3, [s[i], '_', s[i]])) else None
  }

  const PlusToUnderscore: Matcher := OneOf({'+'}, "_")

  /** Rule 4, `(^\_|\_$)` deleted: one underscore at the start, and one
      just before the end. */
  function CalimaCaphiEdges(s: string, i: nat): Option<Hit>
  {
    if i < |s| && s[i] == '_' && (i == 0 || Dollar(s, i + 1)) then Some(Hit(1, "")) else None
  }

  /** `rewrite_caphi(word)` of the legacy engine. */
  function CalimaRewriteCaphi(word: string): string
  {
    var w1 := Sub(CalimaCaphiSun, word);
    var w2 := Sub(CalimaCaphiShadda, w1);
    var w3 := Sub(PlusToUnderscore, w2);
    Sub(CalimaCaphiEdges, w3)
  }

  /** The legacy `rewrite_caphi` leaves no '+'. */
  lemma CalimaRewriteCaphiNoPlus(word: string)
    ensures '+' !in CalimaRewriteCaphi(word)
  {
    var w2 := Sub(CalimaCaphiShadda, Sub(CalimaCaphiSun, word));
    var w3 := Sub(PlusToUnderscore, w2);
    SubRemoves(PlusToUnderscore, w2, 0, '+');
    SubRemoves(CalimaCaphiEdges, w3, 0, '+');
  }

  /** The legacy edge rule removes a single leading underscore only:
      '__a' keeps one. */
  lemma CalimaCaphiEdgesKeepsSecond(s: string)
    requires s == "__a"
    ensures Sub(CalimaCaphiEdges, s) == "_a"
  {
    var m := CalimaCaphiEdges;
    assert !Fits(m, s, 2);
    assert SubFrom(m, s, 2) == "a";
    assert !Fits(m, s, 1);
    assert SubFrom(m, s, 1) == "_a";
    assert Fits(m, s, 0);
  }
}
