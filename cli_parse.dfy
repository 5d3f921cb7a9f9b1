/** The command-line line parsers of the morphology tools: a generator or
    reinflector request line is a lemma (or word) followed by `feat:value`
    tokens. Both command-line tools and both request kinds use the same
    parser. Also `_to_int`, which reads a count option. */
module CliParse {
  import opened Wrappers
  import opened PyStr
  import opened BertDataset

  /** The feature name of a `feat:value` token: the text before its first ':'. */
  function Key(t: string): string
  {
    t[..IndexOf(t, ':')]
  }

  /** The value: everything after the first ':', further colons included. */
  function Value(t: string): string
    requires ':' in t
  {
    t[IndexOf(t, ':') + 1..]
  }

  /** `token.split(':')`, rejected when it yields fewer than two parts,
      and otherwise the first part with the other parts joined by ':'. */
  function ParseToken(t: string): (r: Option<(string, string)>)
    ensures r.Some? <==> ':' in t
    ensures r.Some? ==> r.value == (Key(t), Value(t))
  {
    var subtokens := Split(t, ':');
    if |subtokens| < 2 then None else Some((subtokens[0], Join([':'], subtokens[1..])))
  }

  /** A token read back: the name holds no ':' and the two rebuild the token. */
  lemma TokenParts(t: string)
    requires ':' in t
    ensures ':' !in Key(t) && Key(t) + ":" + Value(t) == t
  {
    var i := IndexOf(t, ':');
    assert t == t[..i] + [t[i]] + t[i + 1..];
  }

  /** Rendering a feature as `name:value` and parsing it gives the pair
      back, whenever the name holds no ':'. */
  lemma TokenRoundTrip(k: string, v: string)
    requires ':' !in k
    ensures ParseToken(k + ":" + v) == Some((k, v))
  {
    var t := k + ":" + v;
    assert t[|k|] == ':';
    assert forall j :: 0 <= j < |k| ==> t[j] == k[j];
    var i := IndexOf(t, ':');
    assert i == |k|;
    assert t[..i] == k && t[i + 1..] == v;
  }

  /** The features of the tokens after the first: None as soon as a token
      has no ':', otherwise each token stores its value under its name,
      later tokens overwriting earlier ones. */
  function FeatureMap(tokens: seq<string>): Option<map<string, string>>
  {
    if tokens == [] then Some(map[])
    else
      match FeatureMap(tokens[..|tokens| - 1])
      case None => None
      case Some(m) =>
        var t := tokens[|tokens| - 1];
        if ':' in t then Some(m[Key(t) := Value(t)]) else None
  }

  /** The map exists exactly when every token holds a ':'. */
  lemma {:induction false} FeatureMapDefined(tokens: seq<string>)
    ensures FeatureMap(tokens).Some? <==> forall i :: 0 <= i < |tokens| ==> ':' in tokens[i]
    decreases |tokens|
  {
    if tokens != [] {
      var init := tokens[..|tokens| - 1];
      FeatureMapDefined(init);
      assert forall i :: 0 <= i < |init| ==> init[i] == tokens[i];
    }
  }

  function KeysOf(tokens: seq<string>): set<string>
  {
    set i | 0 <= i < |tokens| :: Key(tokens[i])
  }

  /** Its names are the names of the tokens ... */
  lemma {:induction false} FeatureMapKeys(tokens: seq<string>)
    requires FeatureMap(tokens).Some?
    ensures FeatureMap(tokens).value.Keys == KeysOf(tokens)
    decreases |tokens|
  {
    if tokens != [] {
      var init := tokens[..|tokens| - 1];
      FeatureMapKeys(init);
      var t := tokens[|tokens| - 1];
      assert KeysOf(tokens) == KeysOf(init) + {Key(t)} by {
        forall k | k in KeysOf(tokens) ensures k in KeysOf(init) + {Key(t)} {
          var i :| 0 <= i < |tokens| && Key(tokens[i]) == k;
          if i < |init| {
            assert Key(init[i]) == k;
          }
        }
        forall k | k in KeysOf(init) ensures k in KeysOf(tokens) {
          var i :| 0 <= i < |init| && Key(init[i]) == k;
          assert Key(tokens[i]) == k;
        }
      }
    }
  }

  /** ... and each name holds the value of the last token carrying it. */
  lemma {:induction false} FeatureMapLast(tokens: seq<string>, i: nat)
    requires FeatureMap(tokens).Some? && i < |tokens|
    requires forall j :: i < j < |tokens| ==> Key(tokens[j]) != Key(tokens[i])
    ensures ':' in tokens[i]
    ensures Key(tokens[i]) in FeatureMap(tokens).value
    ensures FeatureMap(tokens).value[Key(tokens[i])] == Value(tokens[i])
    decreases |tokens|
  {
    var init := tokens[..|tokens| - 1];
    if i < |init| {
      assert forall j :: i < j < |init| ==> init[j] == tokens[j];
      FeatureMapLast(init, i);
      assert init[i] == tokens[i];
    }
  }

  /** What either parser returns for a line: None for a blank line or a
      malformed feature token, otherwise the first token and the features. */
  function ParsedLine(line: string): (r: Option<(string, map<string, string>)>)
    ensures r.Some? <==>
      (SplitWs(Strip(line)) != [] && forall i :: 1 <= i < |SplitWs(Strip(line))| ==> ':' in SplitWs(Strip(line))[i])
    ensures r.Some? ==> r.value.0 == SplitWs(Strip(line))[0] && NoSpace(r.value.0) && r.value.0 != ""
  {
    var tokens := SplitWs(Strip(line));
    if tokens == [] then None
    else
      FeatureMapDefined(tokens[1..]);
      assert forall i :: 1 <= i < |tokens| ==> tokens[1..][i - 1] == tokens[i];
      match FeatureMap(tokens[1..])
      case None => None
      case Some(feats) => Some((tokens[0], feats))
  }

  /** `_parse_generator_line` and `_parse_reinflector_line`: the loop over
      the feature tokens filling a dictionary. */
  method ParseFeatureLine(line: string) returns (r: Option<(string, map<string, string>)>)
    ensures r == ParsedLine(line)
  {
    var tokens := SplitWs(Strip(line));
    if |tokens| < 1 {
      return None;
    }
    var lemma_ := tokens[0];
    var rest := tokens[1..];
    var feats: map<string, string> := map[];
    for i := 0 to |rest|
      invariant FeatureMap(rest[..i]) == Some(feats)
    {
      var token := rest[i];
      FeatureMapStep(rest, i, feats);
      var subtokens := Split(token, ':');
      if |subtokens| < 2 {
        assert ParseToken(token).None?;
        return None;
      }
      assert ParseToken(token) == Some((subtokens[0], Join([':'], subtokens[1..])));
      feats := feats[subtokens[0] := Join([':'], subtokens[1..])];
    }
    assert rest[..|rest|] == rest;
    return Some((lemma_, feats));
  }

  /** One more token of a line: it extends the map when it holds a ':',
      and otherwise the whole line has no map. */
  lemma FeatureMapStep(tokens: seq<string>, i: nat, feats: map<string, string>)
    requires i < |tokens| && FeatureMap(tokens[..i]) == Some(feats)
    ensures ':' in tokens[i] ==> FeatureMap(tokens[..i + 1]) == Some(feats[Key(tokens[i]) := Value(tokens[i])])
    ensures ':' !in tokens[i] ==> FeatureMap(tokens).None?
  {
    assert tokens[..i + 1][..i] == tokens[..i];
    if ':' !in tokens[i] {
      FeatureMapDefined(tokens);
    }
  }

  /** A further `name:value` token stores its value under its name, over
      any earlier value. */
  lemma ParseFeatureTokens(tokens: seq<string>, k: string, v: string)
    requires ':' !in k
    requires FeatureMap(tokens).Some?
    ensures FeatureMap(tokens + [k + ":" + v]) == Some(FeatureMap(tokens).value[k := v])
  {
    TokenRoundTrip(k, v);
    var ts := tokens + [k + ":" + v];
    assert ts[..|ts| - 1] == tokens;
  }

  // --------------------------------------------------------------- counts

  predicate AllDigits(s: string)
  {
    forall i :: 0 <= i < |s| ==> '0' <= s[i] <= '9'
  }

  /** `_to_int`: the number an all-digit string denotes, or None (the
      empty string included). */
  function ToInt(s: string): (r: Option<nat>)
    ensures r.Some? <==> s != [] && AllDigits(s)
  {
    if s != [] && AllDigits(s) then Some(DecimalValue(s)) else None
  }

  /** Reading a rendered count gives the count back. */
  lemma ToIntRoundTrip(n: nat)
    ensures ToInt(Decimal(n)) == Some(n)
  {
    DecimalRoundTrip(n);
  }

  /** A sign or a blank makes the option unreadable. */
  lemma ToIntRejects(s: string)
    requires exists i :: 0 <= i < |s| && (s[i] == '-' || s[i] == '+' || IsSpace(s[i]))
    ensures ToInt(s) == None
  {
  }
}
