/** De-diacritisation: deleting every character of a diacritic set. */
module Dediac {
  import opened Charsets

  /** `re.sub('[' + D + ']', '', s)`: `s` with the characters of `d`
      deleted. */
  function Delete(d: set<char>, s: string): (r: string)
    ensures |r| <= |s|
    ensures forall i :: 0 <= i < |r| ==> r[i] !in d
  {
    if s == [] then [] else (if s[0] in d then [] else [s[0]]) + Delete(d, s[1..])
  }

  function DediacAr(s: string): (r: string)
    ensures forall i :: 0 <= i < |r| ==> r[i] !in AR_DIAC
  {
    Delete(AR_DIAC, s)
  }

  function DediacBw(s: string): (r: string)
    ensures forall i :: 0 <= i < |r| ==> r[i] !in BW_DIAC
  {
    Delete(BW_DIAC, s)
  }

  function DediacSafeBw(s: string): (r: string)
    ensures forall i :: 0 <= i < |r| ==> r[i] !in SAFEBW_DIAC
  {
    Delete(SAFEBW_DIAC, s)
  }

  function DediacXmlBw(s: string): (r: string)
    ensures forall i :: 0 <= i < |r| ==> r[i] !in XMLBW_DIAC
  {
    Delete(XMLBW_DIAC, s)
  }

  function DediacHsb(s: string): (r: string)
    ensures forall i :: 0 <= i < |r| ==> r[i] !in HSB_DIAC
  {
    Delete(HSB_DIAC, s)
  }

  /** Deletion works character by character: it distributes over
      concatenation ... */
  lemma {:induction false} DeleteAppend(d: set<char>, a: string, b: string)
    ensures Delete(d, a + b) == Delete(d, a) + Delete(d, b)
    decreases |a|
  {
    if a != [] {
      assert (a + b)[1..] == a[1..] + b;
      DeleteAppend(d, a[1..], b);
    } else {
      assert a + b == b;
    }
  }

  /** ... and deletes a single character exactly when it is in the set,
      which together fix the result for every input. */
  lemma DeleteOne(d: set<char>, c: char)
    ensures Delete(d, [c]) == if c in d then [] else [c]
  {
  }

  /** Strings without diacritics are left alone. */
  lemma {:induction false} DeleteNone(d: set<char>, s: string)
    requires forall i :: 0 <= i < |s| ==> s[i] !in d
    ensures Delete(d, s) == s
    decreases |s|
  {
    if s != [] {
      DeleteNone(d, s[1..]);
    }
  }

  /** De-diacritising twice is de-diacritising once. */
  lemma DeleteIdempotent(d: set<char>, s: string)
    ensures Delete(d, Delete(d, s)) == Delete(d, s)
  {
    DeleteNone(d, Delete(d, s));
  }

  /** The characters kept are exactly the non-diacritics of the input, in
      order: the result is the input's non-diacritic subsequence. */
  lemma {:induction false} DeleteKeepsOthers(d: set<char>, s: string, i: nat)
    requires i < |s| && s[i] !in d
    ensures Delete(d, s) == Delete(d, s[..i]) + [s[i]] + Delete(d, s[i + 1..])
  {
    assert s == s[..i] + ([s[i]] + s[i + 1..]);
    DeleteAppend(d, s[..i], [s[i]] + s[i + 1..]);
    DeleteAppend(d, [s[i]], s[i + 1..]);
  }

  lemma DediacArExample()
    ensures DediacAr("\U{643}\U{64e}\U{62a}\U{64e}\U{628}\U{64e}") == "\U{643}\U{62a}\U{628}"
  {
  }
}
