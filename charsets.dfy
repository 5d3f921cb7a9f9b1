/** Character classes of the Arabic script and of the Buckwalter-family
    transliterations, given by code point. */
module Charsets {

  /** Arabic diacritics: fathatan .. sukun (U+064B-U+0652) and the dagger
      alef (U+0670). */
  const AR_DIAC: set<char> := {
    '\U{64b}', '\U{64c}', '\U{64d}', '\U{64e}', '\U{64f}', '\U{650}',
    '\U{651}', '\U{652}', '\U{670}'
  }

  const BW_DIAC: set<char> := {'F', 'K', 'N', '`', 'a', 'i', 'o', 'u', '~'}
  const SAFEBW_DIAC: set<char> := {'F', 'K', 'N', 'a', 'e', 'i', 'o', 'u', '~'}
  const XMLBW_DIAC: set<char> := {'F', 'K', 'N', '`', 'a', 'i', 'o', 'u', '~'}
  /** `.`, `a`, `i`, `u`, `~`, A with diaeresis, a with acute, a with
      tilde, i with tilde and u with tilde. */
  const HSB_DIAC: set<char> := {
    '.', 'a', 'i', 'u', '~', '\U{c4}', '\U{e1}', '\U{e3}', '\U{129}', '\U{169}'
  }

  /** Letters of the Arabic block used by the analyzers (hamza .. ghain,
      tatweel .. sukun, dagger alef, alef wasla, peh, tcheh, veh, gaf). */
  predicate IsArChar(c: char) {
    ('\U{621}' <= c <= '\U{63a}') || ('\U{640}' <= c <= '\U{652}')
    || c == '\U{670}' || c == '\U{671}' || c == '\U{67e}' || c == '\U{686}'
    || c == '\U{6a4}' || c == '\U{6af}'
  }

  /** ASCII and Arabic-Indic digits. */
  predicate IsDigitChar(c: char) {
    ('0' <= c <= '9') || ('\U{660}' <= c <= '\U{669}')
  }

  /** Letters that assimilate the `l` of the definite article. */
  const SUN_LETTERS: set<char> := {
    '\U{62a}', '\U{62b}', '\U{62f}', '\U{630}', '\U{631}', '\U{632}', '\U{633}',
    '\U{634}', '\U{635}', '\U{636}', '\U{637}', '\U{638}', '\U{644}', '\U{646}'
  }

  const ALEF: char := '\U{627}'
  const ALEF_WASLA: char := '\U{671}'
  const FATHA: char := '\U{64e}'
  const KASRA: char := '\U{650}'
  const SHADDA: char := '\U{651}'
  const TATWEEL: char := '\U{640}'
  const TEH: char := '\U{62a}'
  const TEH_MARBUTA: char := '\U{629}'
  const HEH: char := '\U{647}'
  const ALEF_MAKSURA: char := '\U{649}'
  const YEH: char := '\U{64a}'
  const TANWIN_FATH: char := '\U{64b}'
  const WAW: char := '\U{648}'
  const FEH: char := '\U{641}'
  const BEH: char := '\U{628}'
  const KAF: char := '\U{643}'
  const LAM: char := '\U{644}'
  const HAMZA_ABOVE_ALEF: char := '\U{623}'
  const HAMZA_BELOW_ALEF: char := '\U{625}'
  const MADDA_ALEF: char := '\U{622}'
}
