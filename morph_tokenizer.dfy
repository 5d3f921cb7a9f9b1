/** `MorphologicalTokenizer.tokenize`, given what the disambiguator
    returns for the words: for each word, the chosen tokenization of its
    best analysis, or the word itself. */
module MorphTokenizer {
  import opened Wrappers
  import opened Features
  import opened PyStr

  /** `MorphologicalTokenizer.scheme_set()`: the two tokenization schemes
      offered. */
  function SchemeSet(): (r: set<string>)
    ensures "atbtok" in r && "d3tok" in r && |r| == 2
  {
    {"atbtok", "d3tok"}
  }

  /** A scored analysis of the disambiguator; the score is not read. */
  datatype ScoredAnalysis = ScoredAnalysis(analysis: Analysis)

  /** A word with its scored analyses, best first. */
  datatype DisambiguatedWord = DisambiguatedWord(word: string, analyses: seq<ScoredAnalysis>)

  /** The scheme value of the best analysis, when there is one and it is
      not None. */
  function SchemeToken(scheme: string, dw: DisambiguatedWord): Option<string>
    requires TokenReadable(scheme, dw)
  {
    if |dw.analyses| == 0 then None
    else if scheme !in dw.analyses[0].analysis || dw.analyses[0].analysis[scheme] == Null then None
    else Some(dw.analyses[0].analysis[scheme].s)
  }

  /** The scheme value, when present, is a string or None. */
  predicate TokenReadable(scheme: string, dw: DisambiguatedWord)
  {
    |dw.analyses| > 0 && scheme in dw.analyses[0].analysis ==> !dw.analyses[0].analysis[scheme].Float?
  }

  /** What one word adds to the output: its scheme token, split at '_' when
      `split` is set, or the word itself. */
  function Contribution(scheme: string, split: bool, dw: DisambiguatedWord): (r: seq<string>)
    requires TokenReadable(scheme, dw)
    ensures |r| >= 1
    ensures !split ==> |r| == 1
    ensures SchemeToken(scheme, dw).None? ==> r == [dw.word]
    ensures SchemeToken(scheme, dw).Some? ==> Join("_", r) == SchemeToken(scheme, dw).value
    ensures split && SchemeToken(scheme, dw).Some? ==> forall k :: 0 <= k < |r| ==> '_' !in r[k]
  {
    match SchemeToken(scheme, dw)
    case None => [dw.word]
    case Some(tok) => if split then Split(tok, '_') else [tok]
  }

  predicate AllReadable(scheme: string, dws: seq<DisambiguatedWord>)
  {
    forall i :: 0 <= i < |dws| ==> TokenReadable(scheme, dws[i])
  }

  /** The tokens of the words, in order. */
  function Tokens(scheme: string, split: bool, dws: seq<DisambiguatedWord>): seq<string>
    requires AllReadable(scheme, dws)
  {
    if dws == [] then []
    else Tokens(scheme, split, dws[..|dws| - 1]) + Contribution(scheme, split, dws[|dws| - 1])
  }

  /** Without splitting there is one token per word, in word order. */
  lemma {:induction false} OneTokenPerWord(scheme: string, dws: seq<DisambiguatedWord>)
    requires AllReadable(scheme, dws)
    ensures |Tokens(scheme, false, dws)| == |dws|
    ensures forall i :: 0 <= i < |dws| ==> [Tokens(scheme, false, dws)[i]] == Contribution(scheme, false, dws[i])
    decreases |dws|
  {
    if dws != [] {
      var init := dws[..|dws| - 1];
      OneTokenPerWord(scheme, init);
      forall i | 0 <= i < |dws|
        ensures [Tokens(scheme, false, dws)[i]] == Contribution(scheme, false, dws[i])
      {
        if i < |dws| - 1 {
          assert dws[i] == init[i];
        }
      }
    }
  }

  /** Splitting only cuts tokens at '_': joined with '_', the split output
      reads the same as the unsplit one. */
  lemma {:induction false} SplitKeepsText(scheme: string, dws: seq<DisambiguatedWord>)
    requires AllReadable(scheme, dws)
    ensures Join("_", Tokens(scheme, true, dws)) == Join("_", Tokens(scheme, false, dws))
    decreases |dws|
  {
    if dws != [] {
      var init, dw := dws[..|dws| - 1], dws[|dws| - 1];
      SplitKeepsText(scheme, init);
      var a, b := Contribution(scheme, true, dw), Contribution(scheme, false, dw);
      assert Join("_", a) == Join("_", b);
      var ta, tb := Tokens(scheme, true, init), Tokens(scheme, false, init);
      if init == [] {
        assert Tokens(scheme, true, dws) == a;
        assert Tokens(scheme, false, dws) == b;
      } else {
        OneTokenPerWord(scheme, init);
        NonEmptyTokens(scheme, init);
        JoinAppend("_", ta, a);
        JoinAppend("_", tb, b);
      }
    }
  }

  lemma {:induction false} NonEmptyTokens(scheme: string, dws: seq<DisambiguatedWord>)
    requires AllReadable(scheme, dws) && dws != []
    ensures Tokens(scheme, true, dws) != []
  {
  }

  /** `sep.join` over a concatenation of two non-empty lists. */
  lemma {:induction false} JoinAppend(sep: string, a: seq<string>, b: seq<string>)
    requires a != [] && b != []
    ensures Join(sep, a + b) == Join(sep, a) + sep + Join(sep, b)
    decreases |a|
  {
    if |a| == 1 {
      assert (a + b)[1..] == b;
    } else {
      JoinAppend(sep, a[1..], b);
      assert (a + b)[1..] == a[1..] + b;
    }
  }

  /** The loop over the disambiguated words, extending a result list. */
  method Tokenize(scheme: string, split: bool, dws: seq<DisambiguatedWord>) returns (result: seq<string>)
    requires AllReadable(scheme, dws)
    ensures result == Tokens(scheme, split, dws)
  {
    result := [];
    var i := 0;
    while i < |dws|
      invariant 0 <= i <= |dws|
      invariant result == Tokens(scheme, split, dws[..i])
    {
      var dw := dws[i];
      assert dws[..i + 1][..i] == dws[..i];
      if |dw.analyses| > 0 {
        var analysis := dw.analyses[0].analysis;
        var tok := if scheme in analysis then analysis[scheme] else Null;
        if tok == Null {
          result := result + [dw.word];
        } else if split {
          result := result + Split(tok.s, '_');
        } else {
          result := result + [tok.s];
        }
      } else {
        result := result + [dw.word];
      }
      i := i + 1;
    }
    assert dws[..i] == dws;
  }
}
