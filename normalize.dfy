/** Orthographic normalisation: every character of a source class is
    replaced by one target character. */
module Normalize {

  /** `s.replace(x, t)` for each `x` in `src`, or `re.sub('[src]', t, s)`. */
  function ReplaceChars(src: set<char>, t: char, s: string): (r: string)
    ensures |r| == |s|
    ensures forall i :: 0 <= i < |s| ==> r[i] == (if s[i] in src then t else s[i])
  {
    if s == [] then [] else [if s[0] in src then t else s[0]] + ReplaceChars(src, t, s[1..])
  }

  /** When the target is not itself normalised, normalising twice is
      normalising once. */
  lemma NormalizeIdempotent(src: set<char>, t: char, s: string)
    requires t !in src
    ensures ReplaceChars(src, t, ReplaceChars(src, t, s)) == ReplaceChars(src, t, s)
  {
  }

  const ALEF_BW: set<char> := {'<', '>', '{', '|'}
  const ALEF_SAFEBW: set<char> := {'I', 'O', 'L', 'M'}
  const ALEF_XMLBW: set<char> := {'I', 'O', '{', '|'}
  /** A with breve, A with circumflex, A with diaeresis, A with macron. */
  const ALEF_HSB: set<char> := {'\U{102}', '\U{c2}', '\U{c4}', '\U{100}'}
  /** Alef with hamza below, alef with hamza above, alef wasla, alef with
      madda. */
  const ALEF_AR: set<char> := {'\U{625}', '\U{623}', '\U{671}', '\U{622}'}

  function NormalizeAlefMaksuraBw(s: string): string { ReplaceChars({'Y'}, 'y', s) }
  function NormalizeAlefMaksuraSafeBw(s: string): string { ReplaceChars({'Y'}, 'y', s) }
  function NormalizeAlefMaksuraXmlBw(s: string): string { ReplaceChars({'Y'}, 'y', s) }
  function NormalizeAlefMaksuraHsb(s: string): string { ReplaceChars({'\U{fd}'}, 'y', s) }
  function NormalizeAlefMaksuraAr(s: string): string { ReplaceChars({'\U{649}'}, '\U{64a}', s) }

  function NormalizeTehMarbutaBw(s: string): string { ReplaceChars({'p'}, 'h', s) }
  function NormalizeTehMarbutaSafeBw(s: string): string { ReplaceChars({'p'}, 'h', s) }
  function NormalizeTehMarbutaXmlBw(s: string): string { ReplaceChars({'p'}, 'h', s) }
  function NormalizeTehMarbutaHsb(s: string): string { ReplaceChars({'\U{127}'}, 'h', s) }
  function NormalizeTehMarbutaAr(s: string): string { ReplaceChars({'\U{629}'}, '\U{647}', s) }

  function NormalizeAlefBw(s: string): string { ReplaceChars(ALEF_BW, 'A', s) }
  function NormalizeAlefSafeBw(s: string): string { ReplaceChars(ALEF_SAFEBW, 'A', s) }
  function NormalizeAlefXmlBw(s: string): string { ReplaceChars(ALEF_XMLBW, 'A', s) }
  function NormalizeAlefHsb(s: string): string { ReplaceChars(ALEF_HSB, 'A', s) }
  function NormalizeAlefAr(s: string): string { ReplaceChars(ALEF_AR, '\U{627}', s) }

  /** Every normaliser keeps the length, leaves no character of its source
      class behind and is idempotent. */
  lemma AllNormalizersIdempotent(s: string)
    ensures NormalizeAlefMaksuraBw(NormalizeAlefMaksuraBw(s)) == NormalizeAlefMaksuraBw(s)
    ensures NormalizeAlefMaksuraSafeBw(NormalizeAlefMaksuraSafeBw(s)) == NormalizeAlefMaksuraSafeBw(s)
    ensures NormalizeAlefMaksuraXmlBw(NormalizeAlefMaksuraXmlBw(s)) == NormalizeAlefMaksuraXmlBw(s)
    ensures NormalizeAlefMaksuraHsb(NormalizeAlefMaksuraHsb(s)) == NormalizeAlefMaksuraHsb(s)
    ensures NormalizeAlefMaksuraAr(NormalizeAlefMaksuraAr(s)) == NormalizeAlefMaksuraAr(s)
    ensures NormalizeTehMarbutaBw(NormalizeTehMarbutaBw(s)) == NormalizeTehMarbutaBw(s)
    ensures NormalizeTehMarbutaSafeBw(NormalizeTehMarbutaSafeBw(s)) == NormalizeTehMarbutaSafeBw(s)
    ensures NormalizeTehMarbutaXmlBw(NormalizeTehMarbutaXmlBw(s)) == NormalizeTehMarbutaXmlBw(s)
    ensures NormalizeTehMarbutaHsb(NormalizeTehMarbutaHsb(s)) == NormalizeTehMarbutaHsb(s)
    ensures NormalizeTehMarbutaAr(NormalizeTehMarbutaAr(s)) == NormalizeTehMarbutaAr(s)
    ensures NormalizeAlefBw(NormalizeAlefBw(s)) == NormalizeAlefBw(s)
    ensures NormalizeAlefSafeBw(NormalizeAlefSafeBw(s)) == NormalizeAlefSafeBw(s)
    ensures NormalizeAlefXmlBw(NormalizeAlefXmlBw(s)) == NormalizeAlefXmlBw(s)
    ensures NormalizeAlefHsb(NormalizeAlefHsb(s)) == NormalizeAlefHsb(s)
    ensures NormalizeAlefAr(NormalizeAlefAr(s)) == NormalizeAlefAr(s)
  {
    NormalizeIdempotent({'Y'}, 'y', s);
    NormalizeIdempotent({'\U{fd}'}, 'y', s);
    NormalizeIdempotent({'\U{649}'}, '\U{64a}', s);
    NormalizeIdempotent({'p'}, 'h', s);
    NormalizeIdempotent({'\U{127}'}, 'h', s);
    NormalizeIdempotent({'\U{629}'}, '\U{647}', s);
    NormalizeIdempotent(ALEF_BW, 'A', s);
    NormalizeIdempotent(ALEF_SAFEBW, 'A', s);
    NormalizeIdempotent(ALEF_XMLBW, 'A', s);
    NormalizeIdempotent(ALEF_HSB, 'A', s);
    NormalizeIdempotent(ALEF_AR, '\U{627}', s);
  }

  /** The sentence "hal dhahabta ila al-maktaba?" normalised three ways. */
  lemma AlefArExample(s: string)
    requires s == "\U{647}\U{644} \U{630}\U{647}\U{628}\U{62a} \U{625}\U{644}\U{649} \U{627}\U{644}\U{645}\U{643}\U{62a}\U{628}\U{629}\U{61f}"
    ensures NormalizeAlefAr(s)
         == "\U{647}\U{644} \U{630}\U{647}\U{628}\U{62a} \U{627}\U{644}\U{649} \U{627}\U{644}\U{645}\U{643}\U{62a}\U{628}\U{629}\U{61f}"
  {
  }

  lemma AlefMaksuraArExample(s: string)
    requires s == "\U{647}\U{644} \U{630}\U{647}\U{628}\U{62a} \U{625}\U{644}\U{649} \U{627}\U{644}\U{645}\U{643}\U{62a}\U{628}\U{629}\U{61f}"
    ensures NormalizeAlefMaksuraAr(s)
         == "\U{647}\U{644} \U{630}\U{647}\U{628}\U{62a} \U{625}\U{644}\U{64a} \U{627}\U{644}\U{645}\U{643}\U{62a}\U{628}\U{629}\U{61f}"
  {
  }

  lemma TehMarbutaArExample(s: string)
    requires s == "\U{647}\U{644} \U{630}\U{647}\U{628}\U{62a} \U{625}\U{644}\U{649} \U{627}\U{644}\U{645}\U{643}\U{62a}\U{628}\U{629}\U{61f}"
    ensures NormalizeTehMarbutaAr(s)
         == "\U{647}\U{644} \U{630}\U{647}\U{628}\U{62a} \U{625}\U{644}\U{649} \U{627}\U{644}\U{645}\U{643}\U{62a}\U{628}\U{647}\U{61f}"
  {
  }
}
