/** `Transliterator`: runs a `CharMapper` over a text while leaving tokens
    that carry a marker prefix (the pattern `(marker\S+)`) untouched,
    stripped of the marker, or mapped after the marker, as asked. */
module Transliterate {
  import opened Wrappers
  import opened PyStr
  import opened CharMap

  datatype TranslitError = TypeError | ValueError

  /** The mapper argument: a `CharMapper` or some other object. */
  datatype MapperArg = IsMapper(mapper: CharMapper) | NotMapper

  /** End of the run of non-whitespace starting at position `j`. */
  function TokenEnd(s: string, j: nat): (e: nat)
    requires j <= |s|
    ensures j <= e <= |s|
    decreases |s| - j
  {
    if j == |s| || IsSpace(s[j]) then j else TokenEnd(s, j + 1)
  }

  /** The run is maximal: no whitespace inside, whitespace or the end after. */
  lemma {:induction false} TokenEndRun(s: string, j: nat)
    requires j <= |s|
    ensures forall k | j <= k < TokenEnd(s, j) :: !IsSpace(s[k])
    ensures TokenEnd(s, j) < |s| ==> IsSpace(s[TokenEnd(s, j)])
    decreases |s| - j
  {
    if j < |s| && !IsSpace(s[j]) {
      TokenEndRun(s, j + 1);
    }
  }

  /** The escaped marker matches literally at position `i`: its
      characters from index `k` on equal those of the text after `i + k`. */
  predicate MatchFrom(s: string, marker: string, i: nat, k: nat)
    requires i + |marker| <= |s| && k <= |marker|
    decreases |marker| - k
  {
    k == |marker| || (s[i + k] == marker[k] && MatchFrom(s, marker, i, k + 1))
  }

  /** The literal match is the equality of the text's slice with the
      marker. */
  lemma {:induction false} MatchFromSlice(s: string, marker: string, i: nat, k: nat)
    requires i + |marker| <= |s| && k <= |marker|
    ensures MatchFrom(s, marker, i, k) <==> s[i + k..i + |marker|] == marker[k..]
    decreases |marker| - k
  {
    if k < |marker| {
      MatchFromSlice(s, marker, i, k + 1);
      assert s[i + k..i + |marker|] == [s[i + k]] + s[i + k + 1..i + |marker|];
      assert marker[k..] == [marker[k]] + marker[k + 1..];
    }
  }

  /** Length of the match of `(marker\S+)` at position `i`, 0 if none:
      the marker, then a maximal non-empty run of non-whitespace. */
  function MarkedLen(s: string, marker: string, i: nat): (n: nat)
    requires i <= |s|
    ensures i + n <= |s|
    ensures n == 0 || n > |marker|
  {
    if 0 < |marker| && i + |marker| < |s| && MatchFrom(s, marker, i, 0) && !IsSpace(s[i + |marker|]) then
      TokenEnd(s, i + |marker|) - i
    else 0
  }

  /** A match is a marked token: the marker followed by non-whitespace only. */
  lemma MarkedLenShape(s: string, marker: string, i: nat)
    requires i <= |s| && MarkedLen(s, marker, i) > 0
    ensures IsMarkedToken(s[i..i + MarkedLen(s, marker, i)], marker)
  {
    var n := MarkedLen(s, marker, i);
    MatchFromSlice(s, marker, i, 0);
    TokenEndRun(s, i + |marker|);
    assert s[i..i + n][..|marker|] == s[i..i + |marker|];
    assert s[i..i + n][|marker|..] == s[i + |marker|..i + n];
  }

  /** Where the marker's first character does not occur, nothing matches. */
  lemma NoMarkerStart(s: string, marker: string)
    requires |marker| > 0 && marker[0] !in s
    ensures forall j :: 0 <= j <= |s| ==> MarkedLen(s, marker, j) == 0
  {
    forall j | 0 <= j <= |s|
      ensures MarkedLen(s, marker, j) == 0
    {
      if j + |marker| < |s| {
        assert s[j] in s;
      }
    }
  }

  /** `re.split('(marker\S+)', s)` from position `i`, the current
      unmatched piece starting at `start`: unmatched and matched pieces
      alternate, beginning and ending with an unmatched one. */
  function Pieces(s: string, marker: string, start: nat, i: nat): (r: seq<string>)
    requires start <= i <= |s|
    ensures |r| >= 1
    decreases |s| - i
  {
    if i == |s| then [s[start..]]
    else
      var n := MarkedLen(s, marker, i);
      if n > 0 then [s[start..i], s[i..i + n]] + Pieces(s, marker, i + n, i + n)
      else Pieces(s, marker, start, i + 1)
  }

  function MarkerSplit(s: string, marker: string): seq<string>
  {
    Pieces(s, marker, 0, 0)
  }

  /** Number of marked tokens from position `i` on. */
  function MarkedCount(s: string, marker: string, i: nat): nat
    requires i <= |s|
    decreases |s| - i
  {
    if i == |s| then 0
    else
      var n := MarkedLen(s, marker, i);
      if n > 0 then 1 + MarkedCount(s, marker, i + n) else MarkedCount(s, marker, i + 1)
  }

  /** One step of the split at position `i`: a match closes the current
      unmatched piece and adds the match; otherwise the piece grows. */
  lemma PiecesAtMatch(s: string, marker: string, start: nat, i: nat, n: nat)
    requires start <= i < |s| && n == MarkedLen(s, marker, i) && n > 0
    ensures Pieces(s, marker, start, i) == [s[start..i], s[i..i + n]] + Pieces(s, marker, i + n, i + n)
  {
  }

  lemma PiecesNoMatch(s: string, marker: string, start: nat, i: nat)
    requires start <= i < |s| && MarkedLen(s, marker, i) == 0
    ensures Pieces(s, marker, start, i) == Pieces(s, marker, start, i + 1)
  {
  }

  /** The same step for the count of marked tokens. */
  lemma MarkedCountStep(s: string, marker: string, i: nat, n: nat)
    requires i < |s| && n == MarkedLen(s, marker, i)
    ensures n > 0 ==> MarkedCount(s, marker, i) == 1 + MarkedCount(s, marker, i + n)
    ensures n == 0 ==> MarkedCount(s, marker, i) == MarkedCount(s, marker, i + 1)
  {
  }

  /** The split has an odd number of pieces, one more than twice the
      number of marked tokens: unmatched text first and last, unmatched
      and matched pieces alternating. */
  lemma {:induction false} PiecesCount(s: string, marker: string, start: nat, i: nat)
    requires start <= i <= |s|
    ensures |Pieces(s, marker, start, i)| == 2 * MarkedCount(s, marker, i) + 1
    decreases |s| - i
  {
    if i < |s| {
      var n := MarkedLen(s, marker, i);
      MarkedCountStep(s, marker, i, n);
      if n > 0 {
        PiecesAtMatch(s, marker, start, i, n);
        PiecesCount(s, marker, i + n, i + n);
      } else {
        PiecesNoMatch(s, marker, start, i);
        PiecesCount(s, marker, start, i + 1);
      }
    }
  }

  /** Splitting loses nothing: the pieces concatenate back to the text. */
  lemma {:induction false} PiecesPartition(s: string, marker: string, start: nat, i: nat)
    requires start <= i <= |s|
    ensures Concat(Pieces(s, marker, start, i)) == s[start..]
    decreases |s| - i
  {
    if i == |s| {
      ConcatOne(s[start..]);
    } else if MarkedLen(s, marker, i) > 0 {
      var n := MarkedLen(s, marker, i);
      PiecesPartition(s, marker, i + n, i + n);
      PartitionMarked(s, marker, start, i, n);
    } else {
      PiecesPartition(s, marker, start, i + 1);
      PiecesNoMatch(s, marker, start, i);
    }
  }

  /** A match at `i` keeps the split a partition of the text. */
  lemma PartitionMarked(s: string, marker: string, start: nat, i: nat, n: nat)
    requires start <= i < |s| && n == MarkedLen(s, marker, i) && n > 0
    requires Concat(Pieces(s, marker, i + n, i + n)) == s[i + n..]
    ensures Concat(Pieces(s, marker, start, i)) == s[start..]
  {
    PiecesAtMatch(s, marker, start, i, n);
    ConcatAround(s, start, i, i + n, Pieces(s, marker, i + n, i + n));
  }

  lemma ConcatOne(p: string)
    ensures Concat([p]) == p
  {
    assert [p][1..] == [];
  }

  /** An unmatched piece and a match in front of pieces that rebuild the
      rest of the text rebuild the text from the piece's start. */
  lemma ConcatAround(s: string, start: nat, i: nat, e: nat, rest: seq<string>)
    requires start <= i <= e <= |s| && Concat(rest) == s[e..]
    ensures Concat([s[start..i], s[i..e]] + rest) == s[start..]
  {
    var all := [s[start..i], s[i..e]] + rest;
    assert all[1..] == [s[i..e]] + rest;
    assert all[1..][1..] == rest;
    assert s[start..] == s[start..i] + (s[i..e] + s[e..]);
  }

  /** A marked token: the marker followed by at least one character and
      no whitespace. */
  predicate IsMarkedToken(p: string, marker: string)
  {
    |p| > |marker| && StartsWith(p, marker) && NoSpace(p[|marker|..])
  }

  /** Every piece at an odd index is a marked token. */
  predicate OddMarked(ps: seq<string>, marker: string)
  {
    forall k | 0 <= k < |ps| && k % 2 == 1 :: IsMarkedToken(ps[k], marker)
  }

  /** An unmatched piece and a marked token in front keep the odd pieces
      marked. */
  lemma OddMarkedCons(a: string, b: string, rest: seq<string>, marker: string)
    requires IsMarkedToken(b, marker) && OddMarked(rest, marker)
    ensures OddMarked([a, b] + rest, marker)
  {
    var all := [a, b] + rest;
    forall k | 0 <= k < |all| && k % 2 == 1
      ensures IsMarkedToken(all[k], marker)
    {
      if k >= 2 {
        assert all[k] == rest[k - 2];
      }
    }
  }

  /** The matched pieces of the split, at the odd indices, are all marked
      tokens. */
  lemma {:induction false} PiecesMarked(s: string, marker: string, start: nat, i: nat)
    requires start <= i <= |s|
    ensures OddMarked(Pieces(s, marker, start, i), marker)
    decreases |s| - i
  {
    if i == |s| {
      assert Pieces(s, marker, start, i) == [s[start..]];
    } else if MarkedLen(s, marker, i) > 0 {
      var n := MarkedLen(s, marker, i);
      PiecesAtMatch(s, marker, start, i, n);
      PiecesMarked(s, marker, i + n, i + n);
      MarkedLenShape(s, marker, i);
      OddMarkedCons(s[start..i], s[i..i + n], Pieces(s, marker, i + n, i + n), marker);
    } else {
      PiecesNoMatch(s, marker, start, i);
      PiecesMarked(s, marker, start, i + 1);
    }
  }

  /** Text in which the marker never starts a token is a single piece. */
  lemma {:induction false} PiecesUnmarked(s: string, marker: string, start: nat, i: nat)
    requires start <= i <= |s|
    requires forall j :: i <= j < |s| ==> MarkedLen(s, marker, j) == 0
    ensures Pieces(s, marker, start, i) == [s[start..]]
    decreases |s| - i
  {
    if i < |s| {
      PiecesUnmarked(s, marker, start, i + 1);
    }
  }

  /** The first piece of the split from `start` is the text from `start`
      up to some point at or after `i`. */
  lemma {:induction false} FirstPiece(s: string, marker: string, start: nat, i: nat)
    requires start <= i <= |s|
    ensures exists e :: i <= e <= |s| && Pieces(s, marker, start, i)[0] == s[start..e]
    decreases |s| - i
  {
    if i == |s| {
      assert Pieces(s, marker, start, i)[0] == s[start..|s|];
    } else if MarkedLen(s, marker, i) > 0 {
      PiecesAtMatch(s, marker, start, i, MarkedLen(s, marker, i));
      assert Pieces(s, marker, start, i)[0] == s[start..i];
    } else {
      PiecesNoMatch(s, marker, start, i);
      FirstPiece(s, marker, start, i + 1);
    }
  }

  /** No piece at an even index after the first starts with the marker:
      each follows a match, and a match ends at whitespace or at the end of
      the text, where a marker without whitespace cannot begin. */
  lemma {:induction false} LaterEvenUnmarked(s: string, marker: string, start: nat, i: nat)
    requires start <= i <= |s| && |marker| > 0 && !IsSpace(marker[0])
    ensures var ps := Pieces(s, marker, start, i);
      forall k | 0 < k < |ps| && k % 2 == 0 :: !StartsWith(ps[k], marker)
    decreases |s| - i
  {
    if i < |s| {
      var n := MarkedLen(s, marker, i);
      if n > 0 {
        var rest := Pieces(s, marker, i + n, i + n);
        PiecesAtMatch(s, marker, start, i, n);
        LaterEvenUnmarked(s, marker, i + n, i + n);
        FirstPiece(s, marker, i + n, i + n);
        TokenEndRun(s, i + |marker|);
        var e :| i + n <= e <= |s| && rest[0] == s[i + n..e];
        assert !StartsWith(rest[0], marker) by {
          if e > i + n {
            assert rest[0][0] == s[i + n];
          }
        }
        var ps := [s[start..i], s[i..i + n]] + rest;
        forall k | 0 < k < |ps| && k % 2 == 0
          ensures !StartsWith(ps[k], marker)
        {
          assert ps[k] == rest[k - 2];
        }
      } else {
        PiecesNoMatch(s, marker, start, i);
        LaterEvenUnmarked(s, marker, start, i + 1);
      }
    }
  }

  /** A marked token inside a stretch of the text is a marked token of
      the text at the same place. */
  lemma SliceMatch(s: string, marker: string, a: nat, e: nat, j: nat)
    requires a <= e <= |s| && j <= e - a && MarkedLen(s[a..e], marker, j) > 0
    ensures MarkedLen(s, marker, a + j) > 0
  {
    var p := s[a..e];
    MatchFromSlice(p, marker, j, 0);
    MatchFromSlice(s, marker, a + j, 0);
    assert p[j..j + |marker|] == s[a + j..a + j + |marker|];
    assert p[j + |marker|] == s[a + j + |marker|];
  }

  /** A stretch of the text at whose positions no marked token starts
      holds no marked token of its own. */
  lemma StretchUnmatched(s: string, marker: string, a: nat, e: nat)
    requires a <= e <= |s|
    requires forall j | a <= j < e :: MarkedLen(s, marker, j) == 0
    ensures forall j | 0 <= j <= e - a :: MarkedLen(s[a..e], marker, j) == 0
  {
    forall j | 0 <= j <= e - a
      ensures MarkedLen(s[a..e], marker, j) == 0
    {
      if MarkedLen(s[a..e], marker, j) > 0 {
        SliceMatch(s, marker, a, e, j);
      }
    }
  }

  /** No piece at an even index holds a marked token. */
  predicate EvenUnmatched(ps: seq<string>, marker: string)
  {
    forall k, j | 0 <= k < |ps| && k % 2 == 0 && 0 <= j <= |ps[k]| :: MarkedLen(ps[k], marker, j) == 0
  }

  /** The split is maximal: no piece at an even index holds a marked
      token, since the scan tried every position of it. */
  lemma {:induction false} EvenPiecesUnmatched(s: string, marker: string, start: nat, i: nat)
    requires start <= i <= |s|
    requires forall j | start <= j < i :: MarkedLen(s, marker, j) == 0
    ensures EvenUnmatched(Pieces(s, marker, start, i), marker)
    decreases |s| - i
  {
    if i == |s| {
      EvenPiecesEnd(s, marker, start);
    } else {
      var n := MarkedLen(s, marker, i);
      if n > 0 {
        EvenPiecesUnmatched(s, marker, i + n, i + n);
        EvenPiecesAtMatch(s, marker, start, i, n);
      } else {
        PiecesNoMatch(s, marker, start, i);
        EvenPiecesUnmatched(s, marker, start, i + 1);
      }
    }
  }

  /** The last piece, where the scan found nothing. */
  lemma EvenPiecesEnd(s: string, marker: string, start: nat)
    requires start <= |s|
    requires forall j | start <= j < |s| :: MarkedLen(s, marker, j) == 0
    ensures EvenUnmatched(Pieces(s, marker, start, |s|), marker)
  {
    StretchUnmatched(s, marker, start, |s|);
    assert s[start..|s|] == s[start..];
    assert Pieces(s, marker, start, |s|) == [s[start..]];
  }

  /** A match closes an unmatched piece in front of the rest of the split. */
  lemma EvenPiecesAtMatch(s: string, marker: string, start: nat, i: nat, n: nat)
    requires start <= i < |s| && n == MarkedLen(s, marker, i) && n > 0
    requires forall j | start <= j < i :: MarkedLen(s, marker, j) == 0
    requires EvenUnmatched(Pieces(s, marker, i + n, i + n), marker)
    ensures EvenUnmatched(Pieces(s, marker, start, i), marker)
  {
    PiecesAtMatch(s, marker, start, i, n);
    StretchUnmatched(s, marker, start, i);
    EvenPiecesCons(s[start..i], s[i..i + n], Pieces(s, marker, i + n, i + n), marker);
  }

  /** An unmatched piece and a match in front of pieces whose even ones
      hold no marked token keep that so. */
  lemma EvenPiecesCons(a: string, b: string, rest: seq<string>, marker: string)
    requires forall j | 0 <= j <= |a| :: MarkedLen(a, marker, j) == 0
    requires EvenUnmatched(rest, marker)
    ensures EvenUnmatched([a, b] + rest, marker)
  {
    var ps := [a, b] + rest;
    forall k, j | 0 <= k < |ps| && k % 2 == 0 && 0 <= j <= |ps[k]|
      ensures MarkedLen(ps[k], marker, j) == 0
    {
      if k > 0 {
        assert ps[k] == rest[k - 2];
      }
    }
  }

  class Transliterator {
    const mapper: CharMapper
    const marker: string

    constructor (m: CharMapper, mk: string)
      ensures mapper == m && marker == mk
    {
      mapper := m;
      marker := mk;
    }

    /** What one split piece becomes. A piece that merely starts with the
        marker counts as marked even when the marker is followed by
        whitespace and the pattern did not match it. */
    function Process(p: string, stripMarkers: bool, ignoreMarkers: bool): string
    {
      if StartsWith(p, marker) then
        if ignoreMarkers then
          (if stripMarkers then "" else marker) + MapAll(mapper.charmap, mapper.default, p[|marker|..])
        else if stripMarkers then p[|marker|..]
        else p
      else MapAll(mapper.charmap, mapper.default, p)
    }

    /** The processed pieces, concatenated in order. */
    function ProcessAll(ps: seq<string>, stripMarkers: bool, ignoreMarkers: bool): string
    {
      if ps == [] then ""
      else ProcessAll(ps[..|ps| - 1], stripMarkers, ignoreMarkers) + Process(ps[|ps| - 1], stripMarkers, ignoreMarkers)
    }

    /** Processing one more piece appends what that piece becomes. */
    lemma ProcessAllSnoc(ps: seq<string>, stripMarkers: bool, ignoreMarkers: bool, i: nat)
      requires i < |ps|
      ensures ProcessAll(ps[..i + 1], stripMarkers, ignoreMarkers)
           == ProcessAll(ps[..i], stripMarkers, ignoreMarkers) + Process(ps[i], stripMarkers, ignoreMarkers)
    {
      assert ps[..i + 1][..i] == ps[..i];
    }

    /** The loop body: what one piece becomes. */
    method ProcessPiece(spl: string, stripMarkers: bool, ignoreMarkers: bool) returns (piece: string)
      ensures piece == Process(spl, stripMarkers, ignoreMarkers)
    {
      if StartsWith(spl, marker) {
        if ignoreMarkers {
          var body := mapper.MapString(spl[|marker|..]);
          piece := (if stripMarkers then "" else marker) + body;
        } else if stripMarkers {
          piece := spl[|marker|..];
        } else {
          piece := spl;
        }
      } else {
        piece := mapper.MapString(spl);
      }
    }

    /** The loop over the pieces, appending what each becomes. */
    method ProcessPieces(splits: seq<string>, stripMarkers: bool, ignoreMarkers: bool) returns (out: string)
      ensures out == ProcessAll(splits, stripMarkers, ignoreMarkers)
    {
      var buff := "";
      for i := 0 to |splits|
        invariant buff == ProcessAll(splits[..i], stripMarkers, ignoreMarkers)
      {
        ProcessAllSnoc(splits, stripMarkers, ignoreMarkers, i);
        var piece := ProcessPiece(splits[i], stripMarkers, ignoreMarkers);
        buff := buff + piece;
      }
      assert splits[..|splits|] == splits;
      out := buff;
    }

    /** `transliterate(s, strip_markers, ignore_markers)`: the processed
        pieces of the marker split, concatenated in order. */
    method Transliterate(s: string, stripMarkers: bool, ignoreMarkers: bool) returns (out: string)
      ensures out == ProcessAll(MarkerSplit(s, marker), stripMarkers, ignoreMarkers)
    {
      var splits := MarkerSplit(s, marker);
      out := ProcessPieces(splits, stripMarkers, ignoreMarkers);
    }
  }

  /** `Transliterator(mapper, marker)`: a non-mapper or a non-string marker
      raises TypeError; an empty marker or one containing whitespace
      raises ValueError. */
  method NewTransliterator(mapper: MapperArg, marker: PyVal) returns (r: Result<Transliterator, TranslitError>)
    ensures r.Success? <==> mapper.IsMapper? && marker.PyStr? && |marker.s| > 0 && NoSpace(marker.s)
    ensures (mapper.NotMapper? || !marker.PyStr?) ==> r == Failure(TranslitError.TypeError)
    ensures mapper.IsMapper? && marker.PyStr? && (|marker.s| == 0 || !NoSpace(marker.s)) ==> r == Failure(TranslitError.ValueError)
    ensures r.Success? ==> r.value.mapper == mapper.mapper && r.value.marker == marker.s
  {
    if mapper.NotMapper? || !marker.PyStr? {
      return Failure(TranslitError.TypeError);
    }
    if |marker.s| == 0 || !NoSpace(marker.s) {
      return Failure(TranslitError.ValueError);
    }
    var t := new Transliterator(mapper.mapper, marker.s);
    r := Success(t);
  }

  /** Processing distributes over concatenation of the piece list. */
  lemma {:induction false} ProcessAllAppend(t: Transliterator, ps: seq<string>, qs: seq<string>, f: bool, g: bool)
    ensures t.ProcessAll(ps + qs, f, g) == t.ProcessAll(ps, f, g) + t.ProcessAll(qs, f, g)
    decreases |qs|
  {
    if qs != [] {
      var init, last := qs[..|qs| - 1], qs[|qs| - 1];
      ProcessAllAppend(t, ps, init, f, g);
      assert (ps + qs)[..|ps + qs| - 1] == ps + init;
      assert (ps + qs)[|ps + qs| - 1] == last;
      assert t.ProcessAll(qs, f, g) == t.ProcessAll(init, f, g) + t.Process(last, f, g);
    } else {
      assert ps + qs == ps;
    }
  }

  /** Text in which the marker starts no marked token, and which does not
      itself begin with the marker, is mapped as a whole. */
  lemma TransliterateUnmarked(t: Transliterator, s: string, f: bool, g: bool)
    requires forall j | 0 <= j <= |s| :: MarkedLen(s, t.marker, j) == 0
    requires !StartsWith(s, t.marker)
    ensures t.ProcessAll(MarkerSplit(s, t.marker), f, g) == MapAll(t.mapper.charmap, t.mapper.default, s)
  {
    PiecesUnmarked(s, t.marker, 0, 0);
    assert s[0..] == s;
    ProcessAllSingle(t, s, f, g);
  }

  /** The output of `transliterate` read at one piece of the split: it is
      the output of the pieces before, then what this piece becomes, then
      the output of the pieces after. A marked token (odd index) comes out
      unchanged when neither flag is set, without its marker when only
      `strip_markers` is set, and with its body mapped (after the marker
      unless stripping) when `ignore_markers` is set. Every other piece
      but the first is mapped character by character. */
  lemma TransliteratePiece(t: Transliterator, s: string, f: bool, g: bool, k: nat)
    requires |t.marker| > 0 && NoSpace(t.marker)
    requires k < |MarkerSplit(s, t.marker)|
    ensures var ps := MarkerSplit(s, t.marker); var m := t.marker;
      && t.ProcessAll(ps, f, g) == t.ProcessAll(ps[..k], f, g) + t.Process(ps[k], f, g) + t.ProcessAll(ps[k + 1..], f, g)
      && (k % 2 == 1 ==>
            && StartsWith(ps[k], m)
            && t.Process(ps[k], f, g)
               == (if g then (if f then "" else m) + MapAll(t.mapper.charmap, t.mapper.default, ps[k][|m|..])
                   else if f then ps[k][|m|..] else ps[k]))
      && (k % 2 == 0 && k > 0 ==> t.Process(ps[k], f, g) == MapAll(t.mapper.charmap, t.mapper.default, ps[k]))
  {
    var ps := MarkerSplit(s, t.marker);
    ProcessAllAt(t, ps, f, g, k);
    if k % 2 == 1 {
      PiecesMarked(s, t.marker, 0, 0);
      assert IsMarkedToken(ps[k], t.marker);
    } else if k > 0 {
      LaterEvenUnmarked(s, t.marker, 0, 0);
      assert var qs := Pieces(s, t.marker, 0, 0);
        forall k | 0 < k < |qs| && k % 2 == 0 :: !StartsWith(qs[k], t.marker);
    }
  }

  /** The output of a piece list read at one piece. */
  lemma ProcessAllAt(t: Transliterator, ps: seq<string>, f: bool, g: bool, k: nat)
    requires k < |ps|
    ensures t.ProcessAll(ps, f, g) == t.ProcessAll(ps[..k], f, g) + t.Process(ps[k], f, g) + t.ProcessAll(ps[k + 1..], f, g)
  {
    assert ps == ps[..k] + [ps[k]] + ps[k + 1..];
    ProcessAllAppend(t, ps[..k] + [ps[k]], ps[k + 1..], f, g);
    ProcessAllAppend(t, ps[..k], [ps[k]], f, g);
    ProcessAllSingle(t, ps[k], f, g);
  }

  /** With both flags off, a marked token of the text appears in the
      output exactly as written, between the outputs of the pieces on
      either side of it. */
  lemma MarkedTokensKept(t: Transliterator, s: string, k: nat)
    requires |t.marker| > 0 && NoSpace(t.marker)
    requires k < |MarkerSplit(s, t.marker)| && k % 2 == 1
    ensures var ps := MarkerSplit(s, t.marker);
      t.ProcessAll(ps, false, false) == t.ProcessAll(ps[..k], false, false) + ps[k] + t.ProcessAll(ps[k + 1..], false, false)
  {
    TransliteratePiece(t, s, false, false, k);
  }

  /** The split is maximal: no piece between marked tokens holds one. */
  lemma SplitMaximal(s: string, marker: string, k: nat, j: nat)
    requires k < |MarkerSplit(s, marker)| && k % 2 == 0 && j <= |MarkerSplit(s, marker)[k]|
    ensures MarkedLen(MarkerSplit(s, marker)[k], marker, j) == 0
  {
    EvenPiecesUnmatched(s, marker, 0, 0);
    assert EvenUnmatched(MarkerSplit(s, marker), marker);
  }

  /** The test mapper: upper-case letters to 'X', lower-case to 'x'. */
  const TEST_MAP: seq<(PyVal, PyVal)> := [(PyStr("A-Z"), PyStr("X")), (PyStr("a-z"), PyStr("x"))]

  lemma TestMapImages(m: Expanded, c: char)
    requires Represents(m, TEST_MAP)
    ensures Image(m, None, c) == if 'A' <= c <= 'Z' then "X" else if 'a' <= c <= 'z' then "x" else [c]
  {
    if 'a' <= c <= 'z' {
      LookupLastCover(TEST_MAP, c, 1);
    } else if 'A' <= c <= 'Z' {
      LookupLastCover(TEST_MAP, c, 0);
    } else {
      LookupNoCover(TEST_MAP, c);
    }
    ImageFromLookup(m, TEST_MAP, c);
  }

  lemma HelloMapped(m: Expanded)
    requires Represents(m, TEST_MAP)
    ensures MapAll(m, None, "Hello") == "Xxxxx"
  {
    TestMapImages(m, 'H');
    TestMapImages(m, 'e');
    TestMapImages(m, 'l');
    TestMapImages(m, 'o');
    assert MapAll(m, None, "o") == "x";
    assert MapAll(m, None, "lo") == "xx";
    assert MapAll(m, None, "llo") == "xxx";
    assert MapAll(m, None, "ello") == "xxxx";
  }

  /** '@@Hello' splits into an empty piece, the marked token and an empty
      piece; 'Hello' is one unmarked piece. */
  lemma SplitExamples(s: string)
    requires s == "@@Hello"
    ensures MarkerSplit(s, "@@") == ["", "@@Hello", ""]
    ensures MarkerSplit("Hello", "@@") == ["Hello"]
    ensures MarkerSplit("", "@@") == [""]
  {
    NoMarkerStart("Hello", "@@");
    PiecesUnmarked("Hello", "@@", 0, 0);
    assert TokenEnd(s, 7) == 7;
    assert TokenEnd(s, 6) == 7 && TokenEnd(s, 5) == 7 && TokenEnd(s, 4) == 7;
    assert TokenEnd(s, 3) == 7 && TokenEnd(s, 2) == 7;
    assert MarkedLen(s, "@@", 0) == 7;
    assert |s| == 7 && s[7..] == "";
    assert Pieces(s, "@@", 7, 7) == [""];
    assert s[0..0] == "" && s[0..7] == "@@Hello";
    assert Pieces(s, "@@", 0, 0) == [s[0..0], s[0..7]] + Pieces(s, "@@", 7, 7);
  }

  lemma ProcessAllSingle(t: Transliterator, p: string, f: bool, g: bool)
    ensures t.ProcessAll([p], f, g) == t.Process(p, f, g)
  {
    assert [p][..0] == [];
  }

  lemma ProcessAllSurrounded(t: Transliterator, p: string, f: bool, g: bool)
    requires t.marker != ""
    ensures t.ProcessAll(["", p, ""], f, g) == t.Process(p, f, g)
  {
    assert !StartsWith("", t.marker);
    assert t.Process("", f, g) == "";
    ProcessAllSingle(t, "", f, g);
    assert ["", p, ""][..2] == ["", p];
    assert ["", p][..1] == [""];
  }

  lemma MarkedWordProcessed(t: Transliterator, s: string)
    requires t.mapper.default == None && t.marker == "@@"
    requires MapAll(t.mapper.charmap, None, "Hello") == "Xxxxx"
    requires s == "@@Hello"
    ensures t.Process(s, false, false) == "@@Hello"
    ensures t.Process(s, true, false) == "Hello"
    ensures t.Process(s, false, true) == "@@Xxxxx"
    ensures t.Process(s, true, true) == "Xxxxx"
  {
    assert s[..2] == "@@";
    assert s[2..] == "Hello";
  }

  lemma WordOutputs(t: Transliterator, s: string)
    requires t.mapper.default == None && t.marker == "@@"
    requires MapAll(t.mapper.charmap, None, "Hello") == "Xxxxx"
    requires s == "@@Hello"
    ensures t.ProcessAll(MarkerSplit("", "@@"), false, false) == ""
    ensures t.ProcessAll(MarkerSplit("Hello", "@@"), false, false) == "Xxxxx"
    ensures t.ProcessAll(MarkerSplit(s, "@@"), false, false) == "@@Hello"
    ensures t.ProcessAll(MarkerSplit(s, "@@"), true, false) == "Hello"
    ensures t.ProcessAll(MarkerSplit(s, "@@"), false, true) == "@@Xxxxx"
    ensures t.ProcessAll(MarkerSplit(s, "@@"), true, true) == "Xxxxx"
  {
    SplitExamples(s);
    MarkedWordProcessed(t, s);
    assert !StartsWith("Hello", "@@") by { assert "Hello"[..2] != "@@"; }
    assert !StartsWith("", "@@");
    ProcessAllSingle(t, "", false, false);
    ProcessAllSingle(t, "Hello", false, false);
    ProcessAllSurrounded(t, s, false, false);
    ProcessAllSurrounded(t, s, true, false);
    ProcessAllSurrounded(t, s, false, true);
    ProcessAllSurrounded(t, s, true, true);
  }

  /** With the test mapper and the marker '@@', the word '@@Hello' comes
      out as '@@Hello', 'Hello', '@@Xxxxx' or 'Xxxxx' under the four
      settings of the two flags; 'Hello' comes out as 'Xxxxx' and the
      empty text as the empty text. */
  lemma WordExamples(t: Transliterator, s: string)
    requires Represents(t.mapper.charmap, TEST_MAP) && t.mapper.default == None && t.marker == "@@"
    requires s == "@@Hello"
    ensures t.ProcessAll(MarkerSplit("", "@@"), false, false) == ""
    ensures t.ProcessAll(MarkerSplit("Hello", "@@"), false, false) == "Xxxxx"
    ensures t.ProcessAll(MarkerSplit(s, "@@"), false, false) == "@@Hello"
    ensures t.ProcessAll(MarkerSplit(s, "@@"), true, false) == "Hello"
    ensures t.ProcessAll(MarkerSplit(s, "@@"), false, true) == "@@Xxxxx"
    ensures t.ProcessAll(MarkerSplit(s, "@@"), true, true) == "Xxxxx"
  {
    HelloMapped(t.mapper.charmap);
    WordOutputs(t, s);
  }
}
