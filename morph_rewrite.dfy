/** Orthographic rewriting in the current morphology engine: lemma
    stripping, a simple Arabic-to-CAPHI transcription, the tanwin
    normaliser, and the fixed substitution pipelines applied to the
    diacritised form, the tokenisation schemes, the pattern and the CAPHI
    transcription of a merged analysis. Each regular expression is written
    as a `Matcher` that gives what Python's backtracking engine finds at
    one position. */
module MorphRewrite {
  import opened Wrappers
  import opened PyStr
  import opened Regex
  import opened Charsets

  /** `s` holds `lit` at position `i`. */
  predicate LitAt(s: string, i: nat, lit: string)
  {
    i + |lit| <= |s| && s[i..i + |lit|] == lit
  }

  /** Index of the first position at or after `k` holding a character of
      `cs`, or `|s|`. */
  function SpanNot(s: string, k: nat, cs: set<char>): (e: nat)
    requires k <= |s|
    ensures k <= e <= |s|
    ensures forall j :: k <= j < e ==> s[j] !in cs
    ensures e < |s| ==> s[e] in cs
    decreases |s| - k
  {
    if k < |s| && s[k] !in cs then SpanNot(s, k + 1, cs) else k
  }

  // ---------------------------------------------------------------------
  // strip_lex

  /** Length of the part of a lemma before its first '_' or '-'. */
  function LexEnd(lex: string): (n: nat)
    ensures n <= |lex|
    ensures forall j :: 0 <= j < n ==> lex[j] != '_' && lex[j] != '-'
    ensures n < |lex| ==> lex[n] == '_' || lex[n] == '-'
  {
    if |lex| == 0 || lex[0] == '_' || lex[0] == '-' then 0
    else
      var k := LexEnd(lex[1..]);
      assert forall j :: 1 <= j < k + 1 ==> lex[j] == lex[1..][j - 1];
      1 + k
  }

  /** `strip_lex(lex)`: the first piece of `re.split('_|-', lex)`. It is a
      prefix of the lemma without '_' or '-', and it stops exactly at the
      first separator, which determines it. */
  function StripLex(lex: string): (r: string)
    ensures r <= lex
    ensures '_' !in r && '-' !in r
    ensures |r| < |lex| ==> lex[|r|] == '_' || lex[|r|] == '-'
  {
    lex[..LexEnd(lex)]
  }

  /** Stripping twice is stripping once. */
  lemma StripLexIdempotent(lex: string)
    ensures StripLex(StripLex(lex)) == StripLex(lex)
  {
    var r := StripLex(lex);
    StripLexNoSeparator(r);
  }

  /** A lemma without separators is its own stripped form. */
  lemma StripLexNoSeparator(lex: string)
    requires '_' !in lex && '-' !in lex
    ensures StripLex(lex) == lex
  {
  }

  // ---------------------------------------------------------------------
  // simple_ar_to_caphi

  /** The simple Arabic-letter-to-CAPHI table. */
  const AR2CAPHI: map<char, string> := map[
    '\U{621}' := "2", '\U{622}' := "2_aa", '\U{623}' := "2", '\U{624}' := "2",
    '\U{625}' := "2", '\U{626}' := "2", '\U{627}' := "aa", '\U{628}' := "b",
    '\U{62a}' := "t", '\U{62b}' := "th", '\U{62c}' := "j", '\U{62d}' := "7",
    '\U{62e}' := "kh", '\U{62f}' := "d", '\U{630}' := "dh", '\U{631}' := "r",
    '\U{632}' := "z", '\U{633}' := "s", '\U{634}' := "sh", '\U{635}' := "s.",
    '\U{636}' := "d.", '\U{637}' := "t.", '\U{638}' := "dh.", '\U{639}' := "3",
    '\U{63a}' := "gh", '\U{641}' := "f", '\U{642}' := "q", '\U{643}' := "k",
    '\U{644}' := "l", '\U{645}' := "m", '\U{646}' := "n", '\U{647}' := "h",
    '\U{648}' := "w", '\U{649}' := "aa", '\U{64a}' := "y"]

  /** The codes of the mapped characters, in order; others are dropped. */
  function Codes(s: string): (r: seq<string>)
    ensures |r| <= |s|
    ensures forall k :: 0 <= k < |r| ==> r[k] != ""
  {
    if s == [] then []
    else (if s[0] in AR2CAPHI then [AR2CAPHI[s[0]]] else []) + Codes(s[1..])
  }

  lemma {:induction false} CodesSnoc(s: string, c: char)
    ensures Codes(s + [c]) == Codes(s) + (if c in AR2CAPHI then [AR2CAPHI[c]] else [])
    decreases |s|
  {
    if s == [] {
      assert ([c])[1..] == [];
    } else {
      CodesSnoc(s[1..], c);
      assert (s + [c])[1..] == s[1..] + [c];
    }
  }

  /** A leading bare alef is read as an alef with hamza. */
  function HamzaStart(ar: string): string
  {
    if |ar| > 0 && ar[0] == ALEF then [HAMZA_ABOVE_ALEF] + ar[1..] else ar
  }

  /** `simple_ar_to_caphi(ar_str)`. */
  function SimpleArToCaphi(ar: string): string
  {
    Join("_", Codes(HamzaStart(ar)))
  }

  /** A word-initial alef transcribes like an alef with hamza ('2'). */
  lemma LeadingAlefAsHamza(t: string)
    ensures SimpleArToCaphi([ALEF] + t) == SimpleArToCaphi([HAMZA_ABOVE_ALEF] + t)
    ensures SimpleArToCaphi([ALEF]) == "2"
  {
    assert ([ALEF] + t)[1..] == t;
    assert HamzaStart([ALEF] + t) == [HAMZA_ABOVE_ALEF] + t;
    assert Codes([HAMZA_ABOVE_ALEF]) == ["2"];
  }

  /** Appending a character after the first one: an unmapped character
      changes nothing, a mapped one adds its code after a '_' (or alone
      when nothing was transcribed yet). */
  lemma SimpleArToCaphiSnoc(s: string, c: char)
    requires s != []
    ensures c !in AR2CAPHI ==> SimpleArToCaphi(s + [c]) == SimpleArToCaphi(s)
    ensures c in AR2CAPHI ==>
      SimpleArToCaphi(s + [c]) == (if SimpleArToCaphi(s) == "" then AR2CAPHI[c] else SimpleArToCaphi(s) + "_" + AR2CAPHI[c])
  {
    var h := HamzaStart(s);
    assert HamzaStart(s + [c]) == h + [c] by {
      if s[0] == ALEF {
        assert (s + [c])[1..] == s[1..] + [c];
      }
    }
    CodesSnoc(h, c);
    var cs := Codes(h);
    assert SimpleArToCaphi(s) == Join("_", cs);
    assert SimpleArToCaphi(s + [c]) == Join("_", Codes(h + [c]));
    if c in AR2CAPHI {
      JoinSnoc("_", cs, AR2CAPHI[c]);
      if cs != [] {
        JoinNonEmpty(cs);
      }
    } else {
      assert cs + [] == cs;
    }
  }

  lemma JoinNonEmpty(parts: seq<string>)
    requires parts != [] && parts[0] != ""
    ensures Join("_", parts) != ""
  {
  }

  /** Transcription of 'كتب' (k, t, b). */
  lemma SimpleArToCaphiExample(s: string)
    requires s == ['\U{643}', '\U{62a}', '\U{628}']
    ensures SimpleArToCaphi(s) == "k_t_b"
  {
    assert AR2CAPHI[s[0]] == "k" && AR2CAPHI[s[1]] == "t" && AR2CAPHI[s[2]] == "b";
    assert s[1..][1..][1..] == [];
    assert Codes(s[2..]) == ["b"];
    assert Codes(s[1..]) == ["t", "b"];
    assert Codes(s) == ["k", "t", "b"];
    assert HamzaStart(s) == s;
    var cs := ["k", "t", "b"];
    assert cs[1..][1..] == ["b"];
    assert Join("_", cs[1..]) == "t_b";
  }

  // ---------------------------------------------------------------------
  // normalize_tanwyn

  /** `normalize_tanwyn(word, mode)`: four substitutions, each of which
      replaces a two-letter sequence by that same sequence. */
  function NormalizeTanwyn(word: string, mode: string): (r: string)
    ensures r == word
  {
    var fa := [TANWIN_FATH, ALEF];
    var fy := [TANWIN_FATH, ALEF_MAKSURA];
    var af := [ALEF, TANWIN_FATH];
    var yf := [ALEF_MAKSURA, TANWIN_FATH];
    if mode == "FA" then
      var w := Sub(Lit(fa, fa), word);
      LitIdentity(fa, word);
      LitIdentity(fy, w);
      Sub(Lit(fy, fy), w)
    else
      var w := Sub(Lit(af, af), word);
      LitIdentity(af, word);
      LitIdentity(yf, w);
      Sub(Lit(yf, yf), w)
  }

  lemma LitIdentity(lit: string, s: string)
    ensures Sub(Lit(lit, lit), s) == s
  {
    SubIdentity(Lit(lit, lit), s, 0);
  }

  // ---------------------------------------------------------------------
  // rewrite_diac, rewrite_tok_1, rewrite_tok_2, rewrite_pattern

  /** `#\+*([sun letters])` replaced by the sun letter and a shadda. */
  function DiacSun(s: string, i: nat): Option<Hit>
  {
    if i < |s| && s[i] == '#' then
      var e := RunEnd(s, i + 1, '+');
      if e < |s| && s[e] in SUN_LETTERS then Some(Hit(e + 1 - i, [s[e], SHADDA])) else None
    else None
  }

  /** `#\+*` deleted. */
  function DiacMoon(s: string, i: nat): Option<Hit>
  {
    if i < |s| && s[i] == '#' then Some(Hit(RunEnd(s, i + 1, '+') - i, "")) else None
  }

  /** `ا\+?َ([ةت])` replaced by alef and the captured letter: the fatha
      after an alef before teh marbuta or teh is dropped. */
  function DiacFathaAfterAlef(s: string, i: nat): Option<Hit>
  {
    if i < |s| && s[i] == ALEF then
      var k := if i + 1 < |s| && s[i + 1] == '+' then i + 2 else i + 1;
      if k + 1 < |s| && s[k] == FATHA && (s[k + 1] == TEH_MARBUTA || s[k + 1] == TEH) then
        Some(Hit(k + 2 - i, [ALEF, s[k + 1]]))
      else None
    else None
  }

  const HamzaWasl: Matcher := OneOf({ALEF_WASLA}, [ALEF])
  const DropPlus: Matcher := OneOf({'+'}, "")
  const ShaddaRun: Matcher := RunOf(SHADDA, [SHADDA])

  /** `rewrite_diac(word)`: the six substitutions in order. */
  function RewriteDiac(word: string): string
  {
    var w1 := Sub(DiacSun, word);
    var w2 := Sub(DiacMoon, w1);
    var w3 := Sub(DiacFathaAfterAlef, w2);
    var w4 := Sub(HamzaWasl, w3);
    var w5 := Sub(DropPlus, w4);
    Sub(ShaddaRun, w5)
  }

  /** `rewrite_tok_1(word)`: the sun-letter, moon-letter and fatha rules. */
  function RewriteTok1(word: string): string
  {
    Sub(DiacFathaAfterAlef, Sub(DiacMoon, Sub(DiacSun, word)))
  }

  /** `rewrite_tok_2(word)`: the fatha rule only. */
  function RewriteTok2(word: string): string
  {
    Sub(DiacFathaAfterAlef, word)
  }

  /** `rewrite_pattern(word)`: the moon-letter rule only. */
  function RewritePattern(word: string): string
  {
    Sub(DiacMoon, word)
  }

  /** The sun-letter rule at a '#' followed by `k` '+'s and a sun
      letter: the letter comes out with a shadda after it. */
  lemma SunLetterStep(s: string, i: nat, k: nat)
    requires i + k + 2 <= |s| && s[i] == '#' && s[i + k + 1] in SUN_LETTERS
    requires forall j :: i < j <= i + k ==> s[j] == '+'
    ensures SubFrom(DiacSun, s, i) == [s[i + k + 1], SHADDA] + SubFrom(DiacSun, s, i + k + 2)
  {
    RunEndIs(s, i + 1, i + k + 1, '+');
    assert Fits(DiacSun, s, i);
  }

  /** The moon-letter rule at a '#' followed by `k` '+'s and something
      other than '+': all of it is deleted. */
  lemma MoonLetterStep(s: string, i: nat, k: nat)
    requires i + k + 1 <= |s| && s[i] == '#'
    requires forall j :: i < j <= i + k ==> s[j] == '+'
    requires i + k + 1 < |s| ==> s[i + k + 1] != '+'
    ensures SubFrom(DiacMoon, s, i) == SubFrom(DiacMoon, s, i + k + 1)
  {
    RunEndIs(s, i + 1, i + k + 1, '+');
    assert Fits(DiacMoon, s, i);
  }

  /** The moon-letter rule deletes every '#'. */
  lemma MoonRemovesHash(s: string)
    ensures '#' !in Sub(DiacMoon, s)
  {
    SubRemoves(DiacMoon, s, 0, '#');
  }

  /** The fatha rule never writes '#' nor a hamza-wasl alef. */
  lemma FathaRuleKeepsOut(s: string, c: char)
    requires c !in s && c != ALEF && c != TEH_MARBUTA && c != TEH
    ensures c !in Sub(DiacFathaAfterAlef, s)
  {
    SubRemoves(DiacFathaAfterAlef, s, 0, c);
  }

  /** The result of `rewrite_diac` holds no '+', no '#', no hamza-wasl
      alef, and no two adjacent shaddas. */
  lemma RewriteDiacClean(word: string)
    ensures var r := RewriteDiac(word);
      '+' !in r && '#' !in r && ALEF_WASLA !in r && NoDouble(r, SHADDA)
  {
    var w1 := Sub(DiacSun, word);
    var w2 := Sub(DiacMoon, w1);
    var w3 := Sub(DiacFathaAfterAlef, w2);
    var w4 := Sub(HamzaWasl, w3);
    var w5 := Sub(DropPlus, w4);
    MoonRemovesHash(w1);
    FathaRuleKeepsOut(w2, '#');
    SubRemoves(HamzaWasl, w3, 0, '#');
    SubRemoves(HamzaWasl, w3, 0, ALEF_WASLA);
    SubRemoves(DropPlus, w4, 0, '#');
    SubRemoves(DropPlus, w4, 0, ALEF_WASLA);
    SubRemoves(DropPlus, w4, 0, '+');
    SubRemoves(ShaddaRun, w5, 0, '#');
    SubRemoves(ShaddaRun, w5, 0, ALEF_WASLA);
    SubRemoves(ShaddaRun, w5, 0, '+');
    RunCollapse(w5, 0, SHADDA);
  }

  /** The result of `rewrite_tok_1` holds no '#'. */
  lemma RewriteTok1NoHash(word: string)
    ensures '#' !in RewriteTok1(word)
  {
    var w2 := Sub(DiacMoon, Sub(DiacSun, word));
    MoonRemovesHash(Sub(DiacSun, word));
    FathaRuleKeepsOut(w2, '#');
  }

  /** `rewrite_tok_2` only deletes fathas: it never lengthens a word and
      leaves a word without alef unchanged. */
  lemma RewriteTok2Shrinks(word: string)
    ensures |RewriteTok2(word)| <= |word|
    ensures ALEF !in word ==> RewriteTok2(word) == word
  {
    SubShrinks(DiacFathaAfterAlef, word, 0);
    if ALEF !in word {
      SubIdentity(DiacFathaAfterAlef, word, 0);
    }
  }

  /** `rewrite_pattern` removes every '#' (with the '+'s after it), and
      leaves a pattern without '#' unchanged. */
  lemma RewritePatternClean(word: string)
    ensures '#' !in RewritePattern(word)
    ensures |RewritePattern(word)| <= |word|
    ensures '#' !in word ==> RewritePattern(word) == word
  {
    MoonRemovesHash(word);
    SubShrinks(DiacMoon, word, 0);
    if '#' !in word {
      SubIdentity(DiacMoon, word, 0);
    }
  }

  // ---------------------------------------------------------------------
  // rewrite_caphi

  /** The CAPHI codes of the sun letters, each with its trailing '_', in
      the order of the alternation. */
  const SUN_CAPHI: seq<string> :=
    ["t_", "th_", "d_", "th._", "r_", "z_", "s_", "sh_", "s._", "d._", "t._", "dh._", "l_", "n_", "dh_"]

  /** The first alternative that occurs at `k`. */
  function FirstAlt(alts: seq<string>, s: string, k: nat): (r: Option<string>)
    ensures r.Some? ==> LitAt(s, k, r.value) && r.value in alts
  {
    if alts == [] then None
    else if LitAt(s, k, alts[0]) then Some(alts[0])
    else FirstAlt(alts[1..], s, k)
  }

  const VOWELS: set<char> := {'i', 'u', 'a'}

  /** Rule 1, `(l-)\+(sun codes)` replaced by the sun code twice. */
  function CaphiSun(s: string, i: nat): Option<Hit>
  {
    if LitAt(s, i, "l-+") then
      match FirstAlt(SUN_CAPHI, s, i + 3)
      case Some(a) => Some(Hit(3 + |a|, a + a))
      case None => None
    else None
  }

  /** Rule 2, `(\S)[-]*\+~` replaced by `\1_\1`: a shadda doubles the
      consonant before it. */
  function CaphiShadda(s: string, i: nat): Option<Hit>
  {
    if i < |s| && !IsSpace(s[i]) then
      var e := RunEnd(s, i + 1, '-');
      if e + 1 < |s| && s[e] == '+' && s[e + 1] == '~' then Some(Hit(e + 2 - i, [s[i], '_', s[i]])) else None
    else None
  }

  /** Rules 3 and 4, `<lit>([^iau]+|$)` replaced by `<long>\1`. */
  function CaphiGlide(s: string, i: nat, lit: string, long: string): Option<Hit>
  {
    if |lit| > 0 && LitAt(s, i, lit) then
      var k := i + |lit|;
      var e := SpanNot(s, k, VOWELS);
      if e > k then Some(Hit(e - i, long + s[k..e]))
      else if Dollar(s, k) then Some(Hit(|lit|, long))
      else None
    else None
  }

  function CaphiLongI(s: string, i: nat): Option<Hit> { CaphiGlide(s, i, "i_y-+", "ii_") }
  function CaphiLongU(s: string, i: nat): Option<Hit> { CaphiGlide(s, i, "u_w-+", "uu_") }

  /** Rule 5, `([iua])\+-2_[iua]` replaced by `\1`: a hamza wasl after a
      vowel disappears. */
  function CaphiWaslAfterVowel(s: string, i: nat): Option<Hit>
  {
    if i + 6 <= |s| && s[i] in VOWELS && s[i + 1..i + 5] == "+-2_" && s[i + 5] in VOWELS then
      Some(Hit(6, [s[i]]))
    else None
  }

  predicate WaslAt(s: string, k: nat)
  {
    k + 5 <= |s| && s[k..k + 4] == "+-2_" && s[k + 4] in VOWELS
  }

  /** The largest `k` with `i < k < e` where `\+-2_[iua]` occurs. */
  function LastWasl(s: string, i: nat, e: nat): (r: Option<nat>)
    ensures r.Some? ==> i < r.value < e && WaslAt(s, r.value)
    ensures r.None? ==> forall k :: i < k < e ==> !WaslAt(s, k)
    decreases e
  {
    if e <= i + 1 then None
    else if WaslAt(s, e - 1) then Some(e - 1)
    else LastWasl(s, i, e - 1)
  }

  /** Rule 6, `(.+)\+-2_([iua])` replaced by `\1_\2`. The greedy `.+`
      extends to the last occurrence on the same line. */
  function CaphiWaslAfterConsonant(s: string, i: nat): Option<Hit>
  {
    if i < |s| && s[i] != '\n' then
      match LastWasl(s, i, SpanNot(s, i, {'\n'}))
      case Some(k) => Some(Hit(k + 5 - i, s[i..k] + "_" + [s[k + 4]]))
      case None => None
    else None
  }

  /** Rule 7, `u\+w(_+[^ioua])` replaced by `uu\1`. When no non-vowel
      follows the underscores, the engine gives one underscore back to
      the class. */
  function CaphiUw(s: string, i: nat): Option<Hit>
  {
    if LitAt(s, i, "u+w") then
      var k := i + 3;
      var e := RunEnd(s, k, '_');
      if e > k && e < |s| && s[e] !in {'i', 'o', 'u', 'a'} then Some(Hit(e + 1 - i, "uu" + s[k..e + 1]))
      else if e > k + 1 then Some(Hit(e - i, "uu" + s[k..e]))
      else None
    else None
  }

  /** Rule 8, `p-\+([iua])` replaced by `t_\1`. */
  function CaphiTehMarbuta(s: string, i: nat): Option<Hit>
  {
    if LitAt(s, i, "p-+") && i + 3 < |s| && s[i + 3] in VOWELS then Some(Hit(4, "t_" + [s[i + 3]])) else None
  }

  /** Rule 9, `aa\+a[_]*` replaced by `aa_`. */
  function CaphiMadda(s: string, i: nat): Option<Hit>
  {
    if LitAt(s, i, "aa+a") then Some(Hit(RunEnd(s, i + 4, '_') - i, "aa_")) else None
  }

  const CaphiSeparators: Matcher := OneOf({'+', '-'}, "_")
  const UnderscoreRun: Matcher := RunOf('_', "_")

  /** Rule 12, `((^\_+)|(\_p?\_*$))` deleted: the underscores that open
      the text, and a final underscore (with an optional 'p' and more
      underscores) before the end. */
  function CaphiEdges(s: string, i: nat): Option<Hit>
  {
    if i < |s| && s[i] == '_' then
      if i == 0 then Some(Hit(RunEnd(s, 0, '_'), ""))
      else if i + 1 < |s| && s[i + 1] == 'p' && Dollar(s, RunEnd(s, i + 2, '_')) then
        Some(Hit(RunEnd(s, i + 2, '_') - i, ""))
      else if Dollar(s, RunEnd(s, i + 1, '_')) then Some(Hit(RunEnd(s, i + 1, '_') - i, ""))
      else None
    else None
  }

  /** `rewrite_caphi(word)`: the twelve substitutions in order. */
  function RewriteCaphi(word: string): string
  {
    var w1 := Sub(CaphiSun, word);
    var w2 := Sub(CaphiShadda, w1);
    var w3 := Sub(CaphiLongI, w2);
    var w4 := Sub(CaphiLongU, w3);
    var w5 := Sub(CaphiWaslAfterVowel, w4);
    var w6 := Sub(CaphiWaslAfterConsonant, w5);
    var w7 := Sub(CaphiUw, w6);
    var w8 := Sub(CaphiTehMarbuta, w7);
    var w9 := Sub(CaphiMadda, w8);
    CaphiTail(w9)
  }

  /** The last three rules: separators to '_', runs of '_' collapsed,
      edges trimmed. */
  function CaphiTail(w: string): string
  {
    Sub(CaphiEdges, Sub(UnderscoreRun, Sub(CaphiSeparators, w)))
  }

  lemma NoDoubleCons(c0: char, t: string, c: char)
    requires NoDouble(t, c)
    requires !(c0 == c && |t| > 0 && t[0] == c)
    ensures NoDouble([c0] + t, c)
  {
    var r := [c0] + t;
    forall j | 0 < j < |r| && r[j] == c
      ensures r[j - 1] != c
    {
      if j > 1 {
        assert r[j] == t[j - 1] && r[j - 1] == t[j - 2];
      }
    }
  }

  /** Past position 0, what the edge rule leaves: it starts with '_' only
      where the input does, keeps '_' single, and never ends with '_'. */
  lemma {:induction false} EdgesFrom(s: string, i: nat)
    requires 0 < i <= |s| && NoDouble(s, '_')
    ensures var r := SubFrom(CaphiEdges, s, i);
      (|r| > 0 && r[0] == '_' ==> i < |s| && s[i] == '_') &&
      NoDouble(r, '_') &&
      (|r| > 0 ==> r[|r| - 1] != '_')
    decreases |s| - i
  {
    var m := CaphiEdges;
    var r := SubFrom(m, s, i);
    if i < |s| {
      if Fits(m, s, i) {
        var n := At(m, s, i).value.len;
        EdgesFrom(s, i + n);
        assert Dollar(s, i + n);
      } else {
        EdgesFrom(s, i + 1);
        var t := SubFrom(m, s, i + 1);
        assert r == [s[i]] + t;
        NoDoubleCons(s[i], t, '_');
        if t != [] {
          assert r[|r| - 1] == t[|t| - 1];
        }
      }
    }
  }

  /** With no two adjacent underscores in the input, the edge rule leaves
      none, and none at either end. */
  lemma EdgesClean(s: string)
    requires NoDouble(s, '_')
    ensures var r := Sub(CaphiEdges, s);
      NoDouble(r, '_') && (|r| > 0 ==> r[0] != '_' && r[|r| - 1] != '_')
  {
    var m := CaphiEdges;
    if |s| > 0 {
      if s[0] == '_' {
        var e := RunEnd(s, 0, '_');
        assert Fits(m, s, 0);
        EdgesFrom(s, e);
      } else {
        assert !Fits(m, s, 0);
        EdgesFrom(s, 1);
        var t := SubFrom(m, s, 1);
        assert SubFrom(m, s, 0) == [s[0]] + t;
        NoDoubleCons(s[0], t, '_');
        if t != [] {
          assert ([s[0]] + t)[|t|] == t[|t| - 1];
        }
      }
    }
  }

  /** The last three rules leave no '+', no '-', no '__', and no '_' at
      either end, whatever the first nine produced. */
  lemma CaphiTailClean(w: string)
    ensures var r := CaphiTail(w);
      '+' !in r && '-' !in r && NoDouble(r, '_') && (|r| > 0 ==> r[0] != '_' && r[|r| - 1] != '_')
  {
    var w10 := Sub(CaphiSeparators, w);
    var w11 := Sub(UnderscoreRun, w10);
    SubRemoves(CaphiSeparators, w, 0, '+');
    SubRemoves(CaphiSeparators, w, 0, '-');
    SubRemoves(UnderscoreRun, w10, 0, '+');
    SubRemoves(UnderscoreRun, w10, 0, '-');
    RunCollapse(w10, 0, '_');
    SubRemoves(CaphiEdges, w11, 0, '+');
    SubRemoves(CaphiEdges, w11, 0, '-');
    EdgesClean(w11);
  }

  /** The result of `rewrite_caphi` holds no '+' or '-', no '__', and no
      '_' at either end. */
  lemma RewriteCaphiClean(word: string)
    ensures var r := RewriteCaphi(word);
      '+' !in r && '-' !in r && NoDouble(r, '_') && (|r| > 0 ==> r[0] != '_' && r[|r| - 1] != '_')
  {
    var w1 := Sub(CaphiSun, word);
    var w2 := Sub(CaphiShadda, w1);
    var w3 := Sub(CaphiLongI, w2);
    var w4 := Sub(CaphiLongU, w3);
    var w5 := Sub(CaphiWaslAfterVowel, w4);
    var w6 := Sub(CaphiWaslAfterConsonant, w5);
    var w7 := Sub(CaphiUw, w6);
    var w8 := Sub(CaphiTehMarbuta, w7);
    CaphiTailClean(Sub(CaphiMadda, w8));
  }
}
