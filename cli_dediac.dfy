/** The de-diacritisation command-line tool with markers: a line is cut
    into alternating runs of whitespace and of other characters, tokens
    that start with the marker are kept (or lose the marker), the others
    are de-diacritised, and the pieces are written back together. */
module CliDediac {
  import opened PyStr
  import opened Dediac
  import opened Charsets

  /** Length of the first run: whitespace or not, as its first character. */
  function FirstRun(s: string): (n: nat)
    requires s != []
    ensures 0 < n <= |s|
    ensures forall j :: 0 <= j < n ==> IsSpace(s[j]) == IsSpace(s[0])
    ensures n < |s| ==> IsSpace(s[n]) != IsSpace(s[0])
  {
    if IsSpace(s[0]) then LeadSpaces(s) else RunLen(s)
  }

  /** `_WHITESPACE_RE.findall(line)` with the pattern `\s+|\S+`: the
      maximal runs of whitespace and of non-whitespace, left to right. */
  function Runs(s: string): (r: seq<string>)
    ensures forall k :: 0 <= k < |r| ==> r[k] != ""
    decreases |s|
  {
    if s == [] then [] else [s[..FirstRun(s)]] + Runs(s[FirstRun(s)..])
  }

  /** A run is all whitespace or has none. */
  predicate Uniform(t: string)
  {
    forall j :: 0 <= j < |t| ==> IsSpace(t[j]) == IsSpace(t[0])
  }

  /** The runs, concatenated, are the line ... */
  lemma {:induction false} RunsConcat(s: string)
    ensures Concat(Runs(s)) == s
    decreases |s|
  {
    if s != [] {
      var n := FirstRun(s);
      RunsConcat(s[n..]);
      assert s == s[..n] + s[n..];
    }
  }

  /** ... each run is uniform ... */
  lemma {:induction false} RunsUniform(s: string)
    ensures forall k :: 0 <= k < |Runs(s)| ==> Uniform(Runs(s)[k])
    decreases |s|
  {
    if s != [] {
      var n := FirstRun(s);
      RunsUniform(s[n..]);
      var r := Runs(s);
      assert r[1..] == Runs(s[n..]);
      forall k | 0 <= k < |r| ensures Uniform(r[k]) {
        if k > 0 {
          assert r[k] == Runs(s[n..])[k - 1];
        }
      }
    }
  }

  /** ... and neighbouring runs are of opposite kinds. */
  lemma {:induction false} RunsAlternate(s: string)
    ensures forall k :: 0 <= k < |Runs(s)| - 1 ==> IsSpace(Runs(s)[k][0]) != IsSpace(Runs(s)[k + 1][0])
    decreases |s|
  {
    if s != [] {
      var n := FirstRun(s);
      RunsAlternate(s[n..]);
      var r := Runs(s);
      var rest := Runs(s[n..]);
      assert r[1..] == rest;
      forall k | 0 <= k < |r| - 1 ensures IsSpace(r[k][0]) != IsSpace(r[k + 1][0]) {
        if k == 0 {
          assert r[1] == rest[0] && rest[0][0] == s[n];
        } else {
          assert r[k] == rest[k - 1] && r[k + 1] == rest[k];
        }
      }
    }
  }

  /** What becomes of one token. */
  function MarkedToken(t: string, dediac: string -> string, marker: string, stripMarkers: bool): string
  {
    if StartsWith(t, marker) then (if stripMarkers then t[|marker|..] else t) else dediac(t)
  }

  /** `_dediac_marked_tokens`: one output token per input token, in order. */
  method DediacMarkedTokens(tokens: seq<string>, dediac: string -> string, marker: string, stripMarkers: bool)
    returns (result: seq<string>)
    ensures |result| == |tokens|
    ensures forall i :: 0 <= i < |tokens| ==> result[i] == MarkedToken(tokens[i], dediac, marker, stripMarkers)
  {
    result := [];
    var n := |marker|;
    if stripMarkers {
      for i := 0 to |tokens|
        invariant |result| == i
        invariant forall j :: 0 <= j < i ==> result[j] == MarkedToken(tokens[j], dediac, marker, stripMarkers)
      {
        if StartsWith(tokens[i], marker) {
          result := result + [tokens[i][n..]];
        } else {
          result := result + [dediac(tokens[i])];
        }
      }
    } else {
      for i := 0 to |tokens|
        invariant |result| == i
        invariant forall j :: 0 <= j < i ==> result[j] == MarkedToken(tokens[j], dediac, marker, stripMarkers)
      {
        if StartsWith(tokens[i], marker) {
          result := result + [tokens[i]];
        } else {
          result := result + [dediac(tokens[i])];
        }
      }
    }
  }

  /** The text the tool writes for a line when markers are honoured. */
  function MarkedLine(line: string, dediac: string -> string, marker: string, stripMarkers: bool): string
  {
    Concat(MarkedTokens(Runs(line), dediac, marker, stripMarkers))
  }

  function MarkedTokens(ts: seq<string>, dediac: string -> string, marker: string, stripMarkers: bool): (r: seq<string>)
    ensures |r| == |ts|
    ensures forall i :: 0 <= i < |ts| ==> r[i] == MarkedToken(ts[i], dediac, marker, stripMarkers)
  {
    seq(|ts|, i requires 0 <= i < |ts| => MarkedToken(ts[i], dediac, marker, stripMarkers))
  }

  /** With the Arabic scheme and no token carrying the marker, honouring
      markers changes nothing: the line comes out as the plain
      de-diacritisation of the whole line. */
  lemma UnmarkedLine(line: string, marker: string, stripMarkers: bool)
    requires forall k :: 0 <= k < |Runs(line)| ==> !StartsWith(Runs(line)[k], marker)
    ensures MarkedLine(line, DediacAr, marker, stripMarkers) == DediacAr(line)
  {
    var ts := Runs(line);
    RunsConcat(line);
    ConcatDelete(ts, marker, stripMarkers);
  }

  lemma {:induction false} ConcatDelete(ts: seq<string>, marker: string, stripMarkers: bool)
    requires forall k :: 0 <= k < |ts| ==> !StartsWith(ts[k], marker)
    ensures Concat(MarkedTokens(ts, DediacAr, marker, stripMarkers)) == DediacAr(Concat(ts))
    decreases |ts|
  {
    if ts != [] {
      ConcatDelete(ts[1..], marker, stripMarkers);
      var m := MarkedTokens(ts, DediacAr, marker, stripMarkers);
      assert m[1..] == MarkedTokens(ts[1..], DediacAr, marker, stripMarkers);
      DeleteAppend(AR_DIAC, ts[0], Concat(ts[1..]));
    }
  }

  /** A marked token passes through untouched unless markers are
      stripped, in which case exactly the marker is removed. */
  lemma MarkedTokenKept(t: string, dediac: string -> string, marker: string, stripMarkers: bool)
    requires StartsWith(t, marker)
    ensures marker + MarkedToken(t, dediac, marker, stripMarkers) == (if stripMarkers then t else marker + t)
  {
    assert t == t[..|marker|] + t[|marker|..];
  }
}
