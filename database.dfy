/** The morphology database loader (`MorphologyDB` and its legacy copy
    `CalimaStarDB`): flag handling, the two key:value token parsers and the
    line-oriented section grammar DEFINES, DEFAULTS, ORDER, TOKENIZATIONS
    (current loader only), STEMBACKOFF, PREFIXES, SUFFIXES, STEMS and the
    three compatibility tables. The file is the sequence of lines its
    iterator yields; each section consumes lines from a shared cursor up to
    and including its closing marker line. */
module Database {
  import opened Wrappers
  import opened PyStr
  import opened Features
  import opened MorphRewrite

  /** Which copy of the loader: `camel_tools.morphology` or the legacy
      `camel_tools.calima_star`. */
  datatype Version = Morphology | CalimaStar

  datatype DbError =
    | InvalidDatabaseFlag(flag: char)
    | DatabaseParse(text: string)
      /** A Python KeyError, IndexError or TypeError the loader lets escape. */
    | Uncaught(exception: string)

  /** `flags.analysis`, `flags.generation`, `flags.reinflection`. */
  datatype DbFlags = DbFlags(analysis: bool, generation: bool, reinflection: bool)

  /** One (category, features) line of PREFIXES, SUFFIXES or STEMS. */
  datatype Entry = Entry(cat: string, feats: Feats)

  /** A defined feature: `None` for an open class, else its values. */
  type Defines = map<string, Option<set<string>>>

  /** DEFAULT lines keyed by their 'pos' value, which may be `None`. */
  type Defaults = map<Val, Analysis>

  datatype Db = Db(
    flags: DbFlags,
    defines: Defines,
    defaults: Defaults,
    order: Option<seq<string>>,
    tokenizations: set<string>,
    computeFeats: set<string>,
    stemBackoffs: map<string, seq<string>>,
    prefixHash: map<string, seq<Entry>>,
    suffixHash: map<string, seq<Entry>>,
    stemHash: map<string, seq<Entry>>,
    prefixCatHash: map<string, seq<Feats>>,
    suffixCatHash: map<string, seq<Feats>>,
    lemmaHash: map<string, seq<Feats>>,
    prefixStemCompat: map<string, set<string>>,
    stemSuffixCompat: map<string, set<string>>,
    prefixSuffixCompat: map<string, set<string>>,
    stemPrefixCompat: map<string, set<string>>,
    maxPrefixSize: nat,
    maxSuffixSize: nat)

  /** `all_feats()`: every defined feature. */
  function AllFeats(db: Db): set<string>
  {
    db.defines.Keys
  }

  /** `tok_feats()`: the features named on TOKENIZATION lines. */
  function TokFeats(db: Db): set<string>
  {
    db.tokenizations
  }

  // ---------------------------------------------------------------- flags

  predicate FlagChar(c: char)
  {
    c == 'a' || c == 'g' || c == 'r'
  }

  /** The modes a valid flag string selects: 'r' selects all three, and
      reinflection is exactly generation. */
  function FlagsOf(flags: string): DbFlags
  {
    var g := 'g' in flags || 'r' in flags;
    DbFlags('a' in flags || 'r' in flags, g, g)
  }

  /** The flag loop of the constructor: the first character other than
      'a', 'g' or 'r' is reported; otherwise the selected modes. */
  method ParseFlags(flags: string) returns (r: Result<DbFlags, DbError>)
    ensures r.Failure? <==> exists j :: 0 <= j < |flags| && !FlagChar(flags[j])
    ensures r.Failure? ==> exists j :: 0 <= j < |flags| && !FlagChar(flags[j])
                              && r.error == InvalidDatabaseFlag(flags[j])
                              && forall i :: 0 <= i < j ==> FlagChar(flags[i])
    ensures r.Success? ==> r.value == FlagsOf(flags)
  {
    var analysis, generation := false, false;
    var i := 0;
    while i < |flags|
      invariant 0 <= i <= |flags|
      invariant forall j :: 0 <= j < i ==> FlagChar(flags[j])
      invariant analysis == ('a' in flags[..i] || 'r' in flags[..i])
      invariant generation == ('g' in flags[..i] || 'r' in flags[..i])
    {
      var c := flags[i];
      assert flags[..i + 1] == flags[..i] + [c];
      if c == 'a' {
        analysis := true;
      } else if c == 'g' {
        generation := true;
      } else if c == 'r' {
        analysis, generation := true, true;
      } else {
        return Failure(InvalidDatabaseFlag(c));
      }
      i := i + 1;
    }
    assert flags[..i] == flags;
    r := Success(DbFlags(analysis, generation, generation));
  }

  // ------------------------------------------------------ key:value tokens

  /** `tok.split(':')` read as a key and a value: `subtoks[0]` and
      `':'.join(subtoks[1:])`; `None` when there is no ':'. */
  function KvPair(tok: string): Option<(string, string)>
  {
    var sub := Split(tok, ':');
    if |sub| < 2 then None else Some((sub[0], Join(":", sub[1..])))
  }

  /** The key is the text before the first ':' and the value everything
      after it, further colons included. */
  lemma KvPairFirstColon(tok: string)
    ensures KvPair(tok).Some? <==> ':' in tok
    ensures KvPair(tok).Some? ==>
              KvPair(tok).value == (tok[..IndexOf(tok, ':')], tok[IndexOf(tok, ':') + 1..])
  {
    var i := IndexOf(tok, ':');
    if i < |tok| {
      var rest := tok[i + 1..];
      assert Split(tok, ':') == [tok[..i]] + Split(rest, ':');
      assert Split(tok, ':')[1..] == Split(rest, ':');
    }
  }

  /** `_parse_analysis_line_toks`: tokens left to right, a later key
      overwriting an earlier one. The current loader skips empty tokens;
      the legacy one rejects them like any token without ':'. */
  function AnalysisToks(toks: seq<string>, skipEmpty: bool): Result<Feats, DbError>
    decreases |toks|
  {
    if toks == [] then Success(map[])
    else
      var m :- AnalysisToks(toks[..|toks| - 1], skipEmpty);
      var tok := toks[|toks| - 1];
      if skipEmpty && tok == "" then Success(m)
      else match KvPair(tok)
        case None => Failure(DatabaseParse(tok))
        case Some(kv) => Success(m[kv.0 := kv.1])
  }

  /** A token that the parser reads (not a skipped empty one). */
  predicate Counted(tok: string, skipEmpty: bool)
  {
    !(skipEmpty && tok == "")
  }

  function KeyOf(tok: string): string
  {
    tok[..IndexOf(tok, ':')]
  }

  function ValueOf(tok: string): string
    requires ':' in tok
  {
    tok[IndexOf(tok, ':') + 1..]
  }

  /** Once a prefix of the tokens fails, the whole line fails the same way. */
  lemma {:induction false} AnalysisToksStuck(toks: seq<string>, n: nat, skipEmpty: bool)
    requires n <= |toks|
    requires AnalysisToks(toks[..n], skipEmpty).Failure?
    ensures AnalysisToks(toks, skipEmpty) == AnalysisToks(toks[..n], skipEmpty)
    decreases |toks| - n
  {
    if n < |toks| {
      assert toks[..n + 1][..n] == toks[..n];
      AnalysisToksStuck(toks, n + 1, skipEmpty);
    } else {
      assert toks[..n] == toks;
    }
  }

  /** The parse succeeds exactly when every token read holds a ':'. */
  lemma {:induction false} AnalysisToksOk(toks: seq<string>, skipEmpty: bool)
    ensures AnalysisToks(toks, skipEmpty).Success? <==>
              forall j :: 0 <= j < |toks| && Counted(toks[j], skipEmpty) ==> ':' in toks[j]
    decreases |toks|
  {
    if toks != [] {
      var init := toks[..|toks| - 1];
      AnalysisToksOk(init, skipEmpty);
      KvPairFirstColon(toks[|toks| - 1]);
      assert forall j :: 0 <= j < |init| ==> init[j] == toks[j];
    }
  }

  /** The keys of a parsed line are exactly the keys of its tokens. */
  lemma {:induction false} AnalysisToksKeys(toks: seq<string>, skipEmpty: bool, k: string)
    requires AnalysisToks(toks, skipEmpty).Success?
    ensures k in AnalysisToks(toks, skipEmpty).value <==>
              exists j :: 0 <= j < |toks| && Counted(toks[j], skipEmpty) && KeyOf(toks[j]) == k
    decreases |toks|
  {
    if toks != [] {
      var init := toks[..|toks| - 1];
      var tok := toks[|toks| - 1];
      AnalysisToksLast(toks, skipEmpty, init, tok);
      AnalysisToksKeys(init, skipEmpty, k);
      KeyTokSplit(toks, skipEmpty, init, tok, k);
    }
  }

  /** The parse of a non-empty line is the parse of all but its last
      token, updated by the last token when that one is read. */
  lemma AnalysisToksLast(toks: seq<string>, skipEmpty: bool, init: seq<string>, tok: string)
    requires toks != [] && init == toks[..|toks| - 1] && tok == toks[|toks| - 1]
    requires AnalysisToks(toks, skipEmpty).Success?
    ensures AnalysisToks(init, skipEmpty).Success?
    ensures Counted(tok, skipEmpty) ==> ':' in tok
    ensures Counted(tok, skipEmpty) ==>
              AnalysisToks(toks, skipEmpty).value == AnalysisToks(init, skipEmpty).value[KeyOf(tok) := ValueOf(tok)]
    ensures !Counted(tok, skipEmpty) ==> AnalysisToks(toks, skipEmpty).value == AnalysisToks(init, skipEmpty).value
  {
    KvPairFirstColon(tok);
  }

  /** Some token read has key `k` exactly when one of all but the last
      does, or the last does. */
  lemma KeyTokSplit(toks: seq<string>, skipEmpty: bool, init: seq<string>, tok: string, k: string)
    requires toks != [] && init == toks[..|toks| - 1] && tok == toks[|toks| - 1]
    ensures (exists j :: 0 <= j < |toks| && Counted(toks[j], skipEmpty) && KeyOf(toks[j]) == k) <==>
              (exists j :: 0 <= j < |init| && Counted(init[j], skipEmpty) && KeyOf(init[j]) == k)
              || (Counted(tok, skipEmpty) && KeyOf(tok) == k)
  {
    if exists j :: 0 <= j < |init| && Counted(init[j], skipEmpty) && KeyOf(init[j]) == k {
      var j :| 0 <= j < |init| && Counted(init[j], skipEmpty) && KeyOf(init[j]) == k;
      assert toks[j] == init[j];
    }
    if exists j :: 0 <= j < |toks| && Counted(toks[j], skipEmpty) && KeyOf(toks[j]) == k {
      var j :| 0 <= j < |toks| && Counted(toks[j], skipEmpty) && KeyOf(toks[j]) == k;
      if j < |init| {
        assert init[j] == toks[j];
      }
    }
  }

  /** Each key holds the value of the last token with that key. */
  lemma {:induction false} AnalysisToksLastWins(toks: seq<string>, skipEmpty: bool, j: nat)
    requires AnalysisToks(toks, skipEmpty).Success?
    requires j < |toks| && Counted(toks[j], skipEmpty)
    requires forall j' :: j < j' < |toks| && Counted(toks[j'], skipEmpty) ==> KeyOf(toks[j']) != KeyOf(toks[j])
    ensures ':' in toks[j]
    ensures KeyOf(toks[j]) in AnalysisToks(toks, skipEmpty).value
    ensures AnalysisToks(toks, skipEmpty).value[KeyOf(toks[j])] == ValueOf(toks[j])
    decreases |toks|
  {
    var init := toks[..|toks| - 1];
    var tok := toks[|toks| - 1];
    KvPairFirstColon(tok);
    if j < |init| {
      assert init[j] == toks[j];
      forall j' | j < j' < |init| && Counted(init[j'], skipEmpty)
        ensures KeyOf(init[j']) != KeyOf(init[j])
      {
        assert init[j'] == toks[j'];
      }
      AnalysisToksLastWins(init, skipEmpty, j);
    }
  }

  /** `_parse_analysis_line_toks` as the loop it is. */
  method ParseAnalysisToks(ver: Version, toks: seq<string>) returns (r: Result<Feats, DbError>)
    ensures r == AnalysisToks(toks, ver == Morphology)
  {
    var skip := ver == Morphology;
    var res: Feats := map[];
    var i := 0;
    while i < |toks|
      invariant 0 <= i <= |toks|
      invariant AnalysisToks(toks[..i], skip) == Success(res)
    {
      var tok := toks[i];
      assert toks[..i + 1][..i] == toks[..i];
      if skip && |tok| == 0 {
        i := i + 1;
        continue;
      }
      var subtoks := Split(tok, ':');
      if |subtoks| < 2 {
        AnalysisToksStuck(toks, i + 1, skip);
        return Failure(DatabaseParse(tok));
      }
      res := res[subtoks[0] := Join(":", subtoks[1..])];
      i := i + 1;
    }
    assert toks[..i] == toks;
    return Success(res);
  }

  /** `_parse_defaults_line_toks`: like the analysis tokens without the
      empty-token skip; '*' becomes `None`, and the legacy loader leaves
      out every 'na' value. */
  function DefaultsToks(toks: seq<string>, dropNa: bool): Result<Analysis, DbError>
    decreases |toks|
  {
    if toks == [] then Success(map[])
    else
      var m :- DefaultsToks(toks[..|toks| - 1], dropNa);
      var tok := toks[|toks| - 1];
      match KvPair(tok)
      case None => Failure(DatabaseParse(tok))
      case Some(kv) =>
        if dropNa && kv.1 == "na" then Success(m)
        else if kv.1 == "*" then Success(m[kv.0 := Null])
        else Success(m[kv.0 := Str(kv.1)])
  }

  lemma {:induction false} DefaultsToksStuck(toks: seq<string>, n: nat, dropNa: bool)
    requires n <= |toks|
    requires DefaultsToks(toks[..n], dropNa).Failure?
    ensures DefaultsToks(toks, dropNa) == DefaultsToks(toks[..n], dropNa)
    decreases |toks| - n
  {
    if n < |toks| {
      assert toks[..n + 1][..n] == toks[..n];
      DefaultsToksStuck(toks, n + 1, dropNa);
    } else {
      assert toks[..n] == toks;
    }
  }

  /** Defaults succeed exactly when every token holds a ':'; no stored
      value is the text '*', every value is a string or `None`, and the
      legacy loader stores no 'na'. */
  lemma {:induction false} DefaultsToksMeaning(toks: seq<string>, dropNa: bool)
    ensures DefaultsToks(toks, dropNa).Success? <==> forall j :: 0 <= j < |toks| ==> ':' in toks[j]
    ensures DefaultsToks(toks, dropNa).Success? ==>
              var m := DefaultsToks(toks, dropNa).value;
              forall k :: k in m ==> m[k] != Str("*") && !m[k].Float? && (dropNa ==> m[k] != Str("na"))
    decreases |toks|
  {
    if toks != [] {
      var init := toks[..|toks| - 1];
      var tok := toks[|toks| - 1];
      DefaultsToksMeaning(init, dropNa);
      DefaultsToksLast(toks, dropNa, init, tok);
      ColonSplit(toks, init, tok);
    }
  }

  /** A non-empty line of defaults parses when all but its last token do
      and the last holds a ':'; each value is then either kept from the
      earlier tokens or set from the last one, which is never the text
      '*', never a number, and never 'na' for the legacy loader. */
  lemma DefaultsToksLast(toks: seq<string>, dropNa: bool, init: seq<string>, tok: string)
    requires toks != [] && init == toks[..|toks| - 1] && tok == toks[|toks| - 1]
    ensures DefaultsToks(toks, dropNa).Success? <==> DefaultsToks(init, dropNa).Success? && ':' in tok
    ensures DefaultsToks(toks, dropNa).Success? ==>
              var m, m0 := DefaultsToks(toks, dropNa).value, DefaultsToks(init, dropNa).value;
              forall k | k in m :: (k in m0 && m[k] == m0[k]) || (m[k] != Str("*") && !m[k].Float? && (dropNa ==> m[k] != Str("na")))
  {
    KvPairFirstColon(tok);
  }

  /** Every token holds a ':' exactly when all but the last do and the
      last does. */
  lemma ColonSplit(toks: seq<string>, init: seq<string>, tok: string)
    requires toks != [] && init == toks[..|toks| - 1] && tok == toks[|toks| - 1]
    ensures (forall j :: 0 <= j < |toks| ==> ':' in toks[j]) <==>
              (forall j :: 0 <= j < |init| ==> ':' in init[j]) && ':' in tok
  {
    assert forall j :: 0 <= j < |init| ==> init[j] == toks[j];
  }

  /** `_parse_defaults_line_toks` as the loop it is. */
  method ParseDefaultsToks(ver: Version, toks: seq<string>) returns (r: Result<Analysis, DbError>)
    ensures r == DefaultsToks(toks, ver == CalimaStar)
  {
    var dropNa := ver == CalimaStar;
    var res: Analysis := map[];
    var i := 0;
    while i < |toks|
      invariant 0 <= i <= |toks|
      invariant DefaultsToks(toks[..i], dropNa) == Success(res)
    {
      var tok := toks[i];
      assert toks[..i + 1][..i] == toks[..i];
      var subtoks := Split(tok, ':');
      if |subtoks| < 2 {
        DefaultsToksStuck(toks, i + 1, dropNa);
        return Failure(DatabaseParse(tok));
      }
      var feat := subtoks[0];
      var val := Join(":", subtoks[1..]);
      if dropNa && val == "na" {
        i := i + 1;
        continue;
      } else if val == "*" {
        res := res[feat := Null];
      } else {
        res := res[feat := Str(val)];
      }
      i := i + 1;
    }
    assert toks[..i] == toks;
    return Success(res);
  }

  // ---------------------------------------------------------- DEFINE lines

  /** The values of `DEFINE name v1 v2 ...`: each token must split into
      two pieces on ':' unless its first piece is the name itself; a line
      with a single '…:*open*' token defines an open class (`None`);
      otherwise the set of the second pieces. */
  function DefineValues(name: string, vals: seq<string>, single: bool): Result<Option<set<string>>, DbError>
    decreases |vals|
  {
    if vals == [] then Success(Some({}))
    else
      var sub := Split(vals[0], ':');
      if |sub| != 2 && sub[0] != name then Failure(DatabaseParse(vals[0]))
      else if |sub| < 2 then Failure(Uncaught("IndexError"))
      else if single && sub[1] == "*open*" then Success(None)
      else
        var rest :- DefineValues(name, vals[1..], single);
        Success(if rest.None? then None else Some({sub[1]} + rest.value))
  }

  /** The second piece of a value token. */
  function Second(tok: string): string
  {
    var sub := Split(tok, ':');
    if |sub| < 2 then "" else sub[1]
  }

  /** A closed class holds exactly the second pieces of its tokens; only a
      single value can make the class open. */
  lemma {:induction false} DefineValuesMeaning(name: string, vals: seq<string>, single: bool, x: string)
    ensures DefineValues(name, vals, single) == Success(None) ==> single && vals != []
    ensures DefineValues(name, vals, single).Success? && DefineValues(name, vals, single).value.Some? ==>
              (x in DefineValues(name, vals, single).value.value <==> exists j :: 0 <= j < |vals| && Second(vals[j]) == x)
    decreases |vals|
  {
    if vals != [] {
      var rest := vals[1..];
      DefineValuesMeaning(name, rest, single, x);
      DefineValuesHead(name, vals, single, rest);
      SecondSplit(vals, rest, x);
    }
  }

  /** A non-empty value list is open only if the line is single-valued
      or its tail is open; when closed, it holds the second piece of its
      first token and the values of its tail. */
  lemma DefineValuesHead(name: string, vals: seq<string>, single: bool, rest: seq<string>)
    requires vals != [] && rest == vals[1..]
    ensures DefineValues(name, vals, single) == Success(None) ==>
              single || DefineValues(name, rest, single) == Success(None)
    ensures DefineValues(name, vals, single).Success? && DefineValues(name, vals, single).value.Some? ==>
              && DefineValues(name, rest, single).Success? && DefineValues(name, rest, single).value.Some?
              && DefineValues(name, vals, single).value.value == {Second(vals[0])} + DefineValues(name, rest, single).value.value
  {
  }

  /** Some token has second piece `x` exactly when the first does or one
      of the rest does. */
  lemma SecondSplit(vals: seq<string>, rest: seq<string>, x: string)
    requires vals != [] && rest == vals[1..]
    ensures (exists j :: 0 <= j < |vals| && Second(vals[j]) == x) <==>
              Second(vals[0]) == x || exists j :: 0 <= j < |rest| && Second(rest[j]) == x
  {
    if exists j :: 0 <= j < |rest| && Second(rest[j]) == x {
      var j :| 0 <= j < |rest| && Second(rest[j]) == x;
      assert vals[j + 1] == rest[j];
    }
    if exists j :: 0 <= j < |vals| && Second(vals[j]) == x {
      var j :| 0 <= j < |vals| && Second(vals[j]) == x;
      if j > 0 {
        assert rest[j - 1] == vals[j];
      }
    }
  }

  /** The value loop of a DEFINE line. */
  method ParseDefineValues(toks: seq<string>) returns (r: Result<Option<set<string>>, DbError>)
    requires |toks| >= 3
    ensures r == DefineValues(toks[1], toks[2..], |toks| == 3)
  {
    var name := toks[1];
    var single := |toks| == 3;
    var vals := toks[2..];
    var valSet: set<string> := {};
    var i := 0;
    assert vals[0..] == vals;
    match DefineValues(name, vals, single) {
      case Success(Some(s0)) => assert {} + s0 == s0;
      case _ =>
    }
    while i < |vals|
      invariant 0 <= i <= |vals|
      invariant DefineValues(name, vals, single) == Grow(valSet, DefineValues(name, vals[i..], single))
    {
      var sub := Split(vals[i], ':');
      assert vals[i..][0] == vals[i];
      assert vals[i..][1..] == vals[i + 1..];
      if |sub| != 2 && sub[0] != name {
        return Failure(DatabaseParse(vals[i]));
      }
      if |sub| < 2 {
        return Failure(Uncaught("IndexError"));
      }
      if single && sub[1] == "*open*" {
        return Success(None);
      }
      ghost var tail := DefineValues(name, vals[i + 1..], single);
      assert DefineValues(name, vals[i..], single)
          == if tail.Failure? then Failure(tail.error)
             else Success(if tail.value.None? then None else Some({sub[1]} + tail.value.value));
      if tail.Success? && tail.value.Some? {
        assert valSet + ({sub[1]} + tail.value.value) == (valSet + {sub[1]}) + tail.value.value;
      }
      valSet := valSet + {sub[1]};
      i := i + 1;
    }
    assert vals[i..] == [];
    return Success(Some(valSet));
  }

  /** Values already collected joined to the outcome of the rest. */
  function Grow(acc: set<string>, r: Result<Option<set<string>>, DbError>): Result<Option<set<string>>, DbError>
  {
    match r
    case Success(Some(s)) => Success(Some(acc + s))
    case _ => r
  }

  // -------------------------------------------------------------- sections

  /** What a section step sees besides its own accumulator. */
  datatype Ctx = Ctx(ver: Version, flags: DbFlags, defines: Defines, ordered: bool)

  /** One line of a section: go on, close the section, or raise. */
  datatype Step<S> = Next(acc: S) | Stop(acc: S) | Fail(err: DbError)

  /** A section read from line `i` on: its accumulator and the index of the
      first line after it. A section that meets the end of the file ends
      there, and every later section then reads nothing. */
  function SectionFrom<S>(ctx: Ctx, lines: seq<string>, i: nat, acc: S, step: (Ctx, string, S) -> Step<S>): (r: Result<(S, nat), DbError>)
    requires i <= |lines|
    ensures r.Success? ==> i <= r.value.1 <= |lines|
    decreases |lines| - i
  {
    if i == |lines| then Success((acc, i))
    else match step(ctx, lines[i], acc)
      case Next(a) => SectionFrom(ctx, lines, i + 1, a, step)
      case Stop(a) => Success((a, i + 1))
      case Fail(e) => Failure(e)
  }

  /** One `for line in dbfile` loop of `_parse_dbfile`. */
  method RunSection<S>(ctx: Ctx, lines: seq<string>, start: nat, init: S, step: (Ctx, string, S) -> Step<S>)
    returns (r: Result<(S, nat), DbError>)
    requires start <= |lines|
    ensures r == SectionFrom(ctx, lines, start, init, step)
  {
    var i := start;
    var acc := init;
    while i < |lines|
      invariant start <= i <= |lines|
      invariant SectionFrom(ctx, lines, start, init, step) == SectionFrom(ctx, lines, i, acc, step)
    {
      match step(ctx, lines[i], acc)
      case Next(a) =>
        acc := a;
        i := i + 1;
      case Stop(a) =>
        return Success((a, i + 1));
      case Fail(e) =>
        return Failure(e);
    }
    return Success((acc, i));
  }

  /** A property of the accumulator that every continuing step keeps, and
      that the closing step and the end of the file turn into `post`,
      holds as `post` of the section's result. */
  lemma {:induction false} SectionKeeps<S>(ctx: Ctx, lines: seq<string>, i: nat, acc: S,
                                          step: (Ctx, string, S) -> Step<S>,
                                          inv: (Ctx, S) -> bool, post: (Ctx, S) -> bool)
    requires i <= |lines|
    requires inv(ctx, acc)
    requires forall a :: inv(ctx, a) ==> post(ctx, a)
    requires forall line, a :: inv(ctx, a) && step(ctx, line, a).Next? ==> inv(ctx, step(ctx, line, a).acc)
    requires forall line, a :: inv(ctx, a) && step(ctx, line, a).Stop? ==> post(ctx, step(ctx, line, a).acc)
    ensures SectionFrom(ctx, lines, i, acc, step).Success? ==> post(ctx, SectionFrom(ctx, lines, i, acc, step).value.0)
    decreases |lines| - i
  {
    if i < |lines| {
      var s := step(ctx, lines[i], acc);
      if s.Next? {
        SectionKeeps(ctx, lines, i + 1, s.acc, step, inv, post);
      }
    }
  }

  /** `h[k].append(x)`, creating the list first. */
  function Push<T>(h: map<string, seq<T>>, k: string, x: T): (r: map<string, seq<T>>)
    ensures r.Keys == h.Keys + {k}
    ensures r[k] == (if k in h then h[k] else []) + [x]
    ensures forall k' :: k' in h && k' != k ==> r[k'] == h[k']
  {
    h[k := (if k in h then h[k] else []) + [x]]
  }

  /** `h[k].add(x)`, creating the set first. */
  function AddTo(h: map<string, set<string>>, k: string, x: string): (r: map<string, set<string>>)
    ensures r.Keys == h.Keys + {k}
    ensures r[k] == (if k in h then h[k] else {}) + {x}
    ensures forall k' :: k' in h && k' != k ==> r[k'] == h[k']
  {
    h[k := (if k in h then h[k] else {}) + {x}]
  }

  function ToSet(s: seq<string>): set<string>
  {
    set x | x in s
  }

  /** DEFINES: '###DEFINES###' is skipped, '###DEFAULTS###' closes. */
  function DefineStep(ctx: Ctx, line: string, acc: Defines): Step<Defines>
  {
    var l := Strip(line);
    if l == "###DEFINES###" then Next(acc)
    else if l == "###DEFAULTS###" then Stop(acc)
    else
      var toks := Split(l, ' ');
      if |toks| < 3 || toks[0] != "DEFINE" then Fail(DatabaseParse(l))
      else match DefineValues(toks[1], toks[2..], |toks| == 3)
        case Failure(e) => Fail(e)
        case Success(vals) => Next(acc[toks[1] := vals])
  }

  /** DEFAULTS: '###ORDER###' closes; each line is 'DEFAULT' and tokens
      that must include 'pos', whose value keys the entry. */
  function DefaultStep(ctx: Ctx, line: string, acc: Defaults): Step<Defaults>
  {
    var l := Strip(line);
    if l == "###ORDER###" then Stop(acc)
    else
      var toks := Split(l, ' ');
      if |toks| < 2 || toks[0] != "DEFAULT" then Fail(DatabaseParse(l))
      else match DefaultsToks(toks[1..], ctx.ver == CalimaStar)
        case Failure(e) => Fail(e)
        case Success(d) =>
          if "pos" !in d then Fail(DatabaseParse(l))
          else Next(acc[d["pos"] := d])
  }

  datatype OrderAcc = OrderAcc(order: Option<seq<string>>, computeFeats: set<string>)

  /** The marker that closes ORDER: the current loader continues with
      TOKENIZATIONS, the legacy one has none. */
  function OrderEnd(ver: Version): string
  {
    if ver == Morphology then "###TOKENIZATIONS###" else "###STEMBACKOFF###"
  }

  /** ORDER: the last line wins; its first feature must be defined. At the
      closing marker the computed features become the order's features
      (a missing order is a TypeError). The test that guards the line
      shape only fires once an order exists, for a line of one token
      other than 'ORDER'; a one-token line otherwise fails on `toks[1]`. */
  function OrderStep(ctx: Ctx, line: string, acc: OrderAcc): Step<OrderAcc>
  {
    var l := Strip(line);
    if l == OrderEnd(ctx.ver) then
      if acc.order.None? then Fail(Uncaught("TypeError"))
      else if ctx.ver == Morphology then Stop(acc.(computeFeats := ToSet(acc.order.value)))
      else Stop(acc.(computeFeats := acc.computeFeats + ToSet(acc.order.value)))
    else
      var toks := Split(l, ' ');
      if acc.order.Some? && |toks| < 2 && toks[0] != "ORDER" then Fail(DatabaseParse(l))
      else if |toks| < 2 then Fail(Uncaught("IndexError"))
      else if toks[1] !in ctx.defines then Fail(DatabaseParse(toks[1]))
      else Next(acc.(order := Some(toks[1..])))
  }

  /** TOKENIZATIONS (current loader): '###STEMBACKOFF###' closes; the
      features of every line are collected. */
  function TokStep(ctx: Ctx, line: string, acc: set<string>): Step<set<string>>
  {
    var l := Strip(line);
    if l == "###STEMBACKOFF###" then Stop(acc)
    else
      var toks := Split(l, ' ');
      if ctx.ordered && |toks| < 2 && toks[0] != "TOKENIZATION" then Fail(DatabaseParse(l))
      else if |toks| < 2 then Fail(Uncaught("IndexError"))
      else if toks[1] !in ctx.defines then Fail(DatabaseParse(toks[1]))
      else Next(acc + ToSet(toks[1..]))
  }

  /** STEMBACKOFF: '###PREFIXES###' closes; `STEMBACKOFF action cat...`. */
  function BackoffStep(ctx: Ctx, line: string, acc: map<string, seq<string>>): Step<map<string, seq<string>>>
  {
    var l := Strip(line);
    if l == "###PREFIXES###" then Stop(acc)
    else
      var toks := Split(l, ' ');
      if |toks| < 3 || toks[0] != "STEMBACKOFF" then Fail(DatabaseParse(l))
      else Next(acc[toks[1] := toks[2..]])
  }

  datatype AffixAcc = AffixAcc(hash: map<string, seq<Entry>>, catHash: map<string, seq<Feats>>)

  /** A PREFIXES or SUFFIXES line, which is not stripped before it is cut
      at tabs: three fields (surface form, category, features), else the
      closing marker, else an error. */
  function AffixLine(ctx: Ctx, marker: string, line: string, acc: AffixAcc): Step<AffixAcc>
  {
    var parts := Split(line, '\t');
    if |parts| != 3 then
      if Strip(line) == marker then Stop(acc) else Fail(DatabaseParse(line))
    else
      var key := Strip(parts[0]);
      var cat := parts[1];
      match AnalysisToks(Split(Strip(parts[2]), ' '), ctx.ver == Morphology)
      case Failure(e) => Fail(e)
      case Success(f) =>
        Next(AffixAcc(if ctx.flags.analysis then Push(acc.hash, key, Entry(cat, f)) else acc.hash,
                      if ctx.flags.generation then Push(acc.catHash, cat, f) else acc.catHash))
  }

  function PrefixStep(ctx: Ctx, line: string, acc: AffixAcc): Step<AffixAcc>
  {
    AffixLine(ctx, "###SUFFIXES###", line, acc)
  }

  function SuffixStep(ctx: Ctx, line: string, acc: AffixAcc): Step<AffixAcc>
  {
    AffixLine(ctx, "###STEMS###", line, acc)
  }

  datatype StemAcc = StemAcc(hash: map<string, seq<Entry>>, lemmaHash: map<string, seq<Feats>>)

  /** STEMS: '###TABLE AB###' closes; the stripped line has three tab
      fields. The current loader replaces 'lex' by `strip_lex(lex)` (a
      KeyError without 'lex'); in generation mode the entry gains
      'stemcat', and since the stem table holds the same dictionary, its
      entry shows 'stemcat' too. The lemma table is keyed by the lemma
      without its '_'/'-' suffix. */
  function StemStep(ctx: Ctx, line: string, acc: StemAcc): Step<StemAcc>
  {
    var l := Strip(line);
    if l == "###TABLE AB###" then Stop(acc)
    else
      var parts := Split(l, '\t');
      if |parts| != 3 then Fail(DatabaseParse(l))
      else
        var stem := parts[0];
        var cat := parts[1];
        match AnalysisToks(Split(parts[2], ' '), ctx.ver == Morphology)
        case Failure(e) => Fail(e)
        case Success(f0) =>
          if ctx.ver == Morphology && "lex" !in f0 then Fail(Uncaught("KeyError"))
          else
            var f := if ctx.ver == Morphology then f0["lex" := StripLex(f0["lex"])] else f0;
            if ctx.flags.generation && "lex" !in f then Fail(Uncaught("KeyError"))
            else
              var g := if ctx.flags.generation then f["stemcat" := cat] else f;
              Next(StemAcc(if ctx.flags.analysis then Push(acc.hash, stem, Entry(cat, g)) else acc.hash,
                           if ctx.flags.generation
                           then Push(acc.lemmaHash, if ctx.ver == Morphology then g["lex"] else StripLex(g["lex"]), g)
                           else acc.lemmaHash))
  }

  datatype CompatAcc = CompatAcc(fwd: map<string, set<string>>, inv: map<string, set<string>>)

  /** A table line: exactly two whitespace-separated tokens. */
  function TablePair(l: string): Option<(string, string)>
  {
    var toks := SplitWs(l);
    if |toks| != 2 then None else Some((toks[0], toks[1]))
  }

  /** TABLE AB: '###TABLE BC###' closes; prefix-stem pairs, and their
      inverse in generation mode. */
  function TableAbStep(ctx: Ctx, line: string, acc: CompatAcc): Step<CompatAcc>
  {
    var l := Strip(line);
    if l == "###TABLE BC###" then Stop(acc)
    else match TablePair(l)
      case None => Fail(DatabaseParse(l))
      case Some(pq) =>
        Next(CompatAcc(if ctx.flags.analysis then AddTo(acc.fwd, pq.0, pq.1) else acc.fwd,
                       if ctx.flags.generation then AddTo(acc.inv, pq.1, pq.0) else acc.inv))
  }

  /** TABLE BC: '###TABLE AC###' closes; stem-suffix pairs in every mode. */
  function TableBcStep(ctx: Ctx, line: string, acc: map<string, set<string>>): Step<map<string, set<string>>>
  {
    var l := Strip(line);
    if l == "###TABLE AC###" then Stop(acc)
    else match TablePair(l)
      case None => Fail(DatabaseParse(l))
      case Some(pq) => Next(AddTo(acc, pq.0, pq.1))
  }

  /** TABLE AC: prefix-suffix pairs up to the end of the file. */
  function TableAcStep(ctx: Ctx, line: string, acc: map<string, set<string>>): Step<map<string, set<string>>>
  {
    match TablePair(Strip(line))
    case None => Fail(DatabaseParse(Strip(line)))
    case Some(pq) => Next(AddTo(acc, pq.0, pq.1))
  }

  /** The sections before the lexicon and the context the later ones read. */
  datatype Header = Header(ctx: Ctx, defaults: Defaults, order: OrderAcc, tokenizations: set<string>,
                           stemBackoffs: map<string, seq<string>>, next: nat)

  function LoadHeader(ver: Version, flags: DbFlags, lines: seq<string>): (r: Result<Header, DbError>)
    ensures r.Success? ==> r.value.next <= |lines|
  {
    var c0 := Ctx(ver, flags, map[], false);
    var d :- SectionFrom(c0, lines, 0, map[], DefineStep);
    var c := c0.(defines := d.0);
    var df :- SectionFrom(c, lines, d.1, map[], DefaultStep);
    var o :- SectionFrom(c, lines, df.1, OrderAcc(None, {}), OrderStep);
    var c2 := c.(ordered := o.0.order.Some?);
    var t :- if ver == Morphology then SectionFrom(c2, lines, o.1, {}, TokStep) else Success(({}, o.1));
    var b :- SectionFrom(c2, lines, t.1, map[], BackoffStep);
    Success(Header(c2, df.0, o.0, t.0, b.0, b.1))
  }

  /** PREFIXES, SUFFIXES and STEMS. */
  datatype Lexicon = Lexicon(prefixes: AffixAcc, suffixes: AffixAcc, stems: StemAcc, next: nat)

  function LoadLexicon(c: Ctx, lines: seq<string>, i: nat): (r: Result<Lexicon, DbError>)
    requires i <= |lines|
    ensures r.Success? ==> r.value.next <= |lines|
  {
    var p :- SectionFrom(c, lines, i, AffixAcc(map[], map[]), PrefixStep);
    var s :- SectionFrom(c, lines, p.1, AffixAcc(map[], map[]), SuffixStep);
    var st :- SectionFrom(c, lines, s.1, StemAcc(map[], map[]), StemStep);
    Success(Lexicon(p.0, s.0, st.0, st.1))
  }

  /** The three compatibility tables; TABLE AC runs to the end. */
  datatype Tables = Tables(ab: CompatAcc, bc: map<string, set<string>>, ac: map<string, set<string>>)

  function LoadTables(c: Ctx, lines: seq<string>, i: nat): Result<Tables, DbError>
    requires i <= |lines|
  {
    var ab :- SectionFrom(c, lines, i, CompatAcc(map[], map[]), TableAbStep);
    var bc :- SectionFrom(c, lines, ab.1, map[], TableBcStep);
    var ac :- SectionFrom(c, lines, bc.1, map[], TableAcStep);
    Success(Tables(ab.0, bc.0, ac.0))
  }

  /** `_parse_dbfile` up to, not including, the maximum affix lengths,
      which are left at 0 here. */
  function LoadLines(ver: Version, flags: DbFlags, lines: seq<string>): Result<Db, DbError>
  {
    var h :- LoadHeader(ver, flags, lines);
    var x :- LoadLexicon(h.ctx, lines, h.next);
    var t :- LoadTables(h.ctx, lines, x.next);
    Success(Db(flags, h.ctx.defines, h.defaults, h.order.order, h.tokenizations, h.order.computeFeats, h.stemBackoffs,
               x.prefixes.hash, x.suffixes.hash, x.stems.hash, x.prefixes.catHash, x.suffixes.catHash, x.stems.lemmaHash,
               t.ab.fwd, t.bc, t.ac, t.ab.inv, 0, 0))
  }

  /** `n` is the greatest length among `keys`, or 0 for none. */
  predicate IsMaxLen(keys: set<string>, n: nat)
  {
    (forall k :: k in keys ==> |k| <= n) && (n == 0 || exists k :: k in keys && |k| == n)
  }

  /** The loop computing `max_prefix_size` / `max_suffix_size`. */
  method MaxKeyLen(h: map<string, seq<Entry>>) returns (n: nat)
    ensures IsMaxLen(h.Keys, n)
  {
    n := 0;
    var todo := h.Keys;
    while todo != {}
      invariant todo <= h.Keys
      invariant forall k :: k in h.Keys - todo ==> |k| <= n
      invariant n == 0 || exists k :: k in h.Keys - todo && |k| == n
      decreases |todo|
    {
      var k :| k in todo;
      if |k| > n {
        n := |k|;
      }
      todo := todo - {k};
    }
  }

  /** `r` is the loaded database `spec` with its maximum affix lengths
      filled in (only in analysis mode), or the same error. */
  predicate Finished(r: Result<Db, DbError>, spec: Result<Db, DbError>)
  {
    match spec
    case Failure(e) => r == Failure(e)
    case Success(db) =>
      r.Success? && r.value == db.(maxPrefixSize := r.value.maxPrefixSize, maxSuffixSize := r.value.maxSuffixSize)
      && if db.flags.analysis
         then IsMaxLen(db.prefixHash.Keys, r.value.maxPrefixSize) && IsMaxLen(db.suffixHash.Keys, r.value.maxSuffixSize)
         else r.value.maxPrefixSize == 0 && r.value.maxSuffixSize == 0
  }

  method ParseHeader(ver: Version, flags: DbFlags, lines: seq<string>) returns (r: Result<Header, DbError>)
    ensures r == LoadHeader(ver, flags, lines)
  {
    var c0 := Ctx(ver, flags, map[], false);
    var d :- RunSection(c0, lines, 0, map[], DefineStep);
    var c := c0.(defines := d.0);
    var df :- RunSection(c, lines, d.1, map[], DefaultStep);
    var o :- RunSection(c, lines, df.1, OrderAcc(None, {}), OrderStep);
    var c2 := c.(ordered := o.0.order.Some?);
    var t: (set<string>, nat) := ({}, o.1);
    if ver == Morphology {
      t :- RunSection(c2, lines, o.1, {}, TokStep);
    }
    var b :- RunSection(c2, lines, t.1, map[], BackoffStep);
    r := Success(Header(c2, df.0, o.0, t.0, b.0, b.1));
  }

  method ParseLexicon(c: Ctx, lines: seq<string>, i: nat) returns (r: Result<Lexicon, DbError>)
    requires i <= |lines|
    ensures r == LoadLexicon(c, lines, i)
  {
    var p :- RunSection(c, lines, i, AffixAcc(map[], map[]), PrefixStep);
    var s :- RunSection(c, lines, p.1, AffixAcc(map[], map[]), SuffixStep);
    var st :- RunSection(c, lines, s.1, StemAcc(map[], map[]), StemStep);
    r := Success(Lexicon(p.0, s.0, st.0, st.1));
  }

  method ParseTables(c: Ctx, lines: seq<string>, i: nat) returns (r: Result<Tables, DbError>)
    requires i <= |lines|
    ensures r == LoadTables(c, lines, i)
  {
    var ab :- RunSection(c, lines, i, CompatAcc(map[], map[]), TableAbStep);
    var bc :- RunSection(c, lines, ab.1, map[], TableBcStep);
    var ac :- RunSection(c, lines, bc.1, map[], TableAcStep);
    r := Success(Tables(ab.0, bc.0, ac.0));
  }

  /** `_parse_dbfile` over the lines of the file. */
  method ParseDbFile(ver: Version, flags: DbFlags, lines: seq<string>) returns (r: Result<Db, DbError>)
    ensures Finished(r, LoadLines(ver, flags, lines))
  {
    var h :- ParseHeader(ver, flags, lines);
    var x :- ParseLexicon(h.ctx, lines, h.next);
    var t :- ParseTables(h.ctx, lines, x.next);
    var maxPrefix, maxSuffix := 0, 0;
    if flags.analysis {
      maxPrefix := MaxKeyLen(x.prefixes.hash);
      maxSuffix := MaxKeyLen(x.suffixes.hash);
    }
    r := Success(Db(flags, h.ctx.defines, h.defaults, h.order.order, h.tokenizations, h.order.computeFeats, h.stemBackoffs,
                    x.prefixes.hash, x.suffixes.hash, x.stems.hash, x.prefixes.catHash, x.suffixes.catHash, x.stems.lemmaHash,
                    t.ab.fwd, t.bc, t.ac, t.ab.inv, maxPrefix, maxSuffix));
  }

  /** The constructor: flags first (the first bad flag character is
      reported before the file is read), then the file. */
  method OpenDb(ver: Version, flagText: string, lines: seq<string>) returns (r: Result<Db, DbError>)
    ensures (exists j :: 0 <= j < |flagText| && !FlagChar(flagText[j])) ==> r.Failure? && r.error.InvalidDatabaseFlag?
    ensures (forall j :: 0 <= j < |flagText| ==> FlagChar(flagText[j])) ==>
              Finished(r, LoadLines(ver, FlagsOf(flagText), lines))
  {
    var flags :- ParseFlags(flagText);
    r := ParseDbFile(ver, flags, lines);
  }

  // ------------------------------------------------ facts about the loader

  /** `p` holds of every entry of every list in `h`, with its key. */
  predicate EveryEntry<T>(h: map<string, seq<T>>, p: (string, T) -> bool)
  {
    forall k, j :: k in h && 0 <= j < |h[k]| ==> p(k, h[k][j])
  }

  lemma PushKeeps<T>(h: map<string, seq<T>>, k: string, x: T, p: (string, T) -> bool)
    requires EveryEntry(h, p) && p(k, x)
    ensures EveryEntry(Push(h, k, x), p)
  {
    var h' := Push(h, k, x);
    forall k', j | k' in h' && 0 <= j < |h'[k']|
      ensures p(k', h'[k'][j])
    {
      if k' == k && k in h && j < |h[k]| {
        assert h'[k'][j] == h[k][j];
      }
    }
  }

  /** Every DEFAULT entry is stored under its own 'pos' value, and the
      legacy loader stores no 'na' value. */
  predicate DefaultsOk(ctx: Ctx, d: Defaults)
  {
    forall k :: k in d ==> "pos" in d[k] && d[k]["pos"] == k
                           && (ctx.ver == CalimaStar ==> forall f :: f in d[k] ==> d[k][f] != Str("na"))
  }

  lemma DefaultStepKeeps(ctx: Ctx, line: string, a: Defaults)
    requires DefaultsOk(ctx, a)
    ensures !DefaultStep(ctx, line, a).Fail? ==> DefaultsOk(ctx, DefaultStep(ctx, line, a).acc)
  {
    var l := Strip(line);
    var toks := Split(l, ' ');
    if l != "###ORDER###" && |toks| >= 2 && toks[0] == "DEFAULT" {
      DefaultsToksMeaning(toks[1..], ctx.ver == CalimaStar);
    }
  }

  /** While ORDER is read: the order, once read, starts with a defined
      feature, and no feature is computed yet. */
  predicate OrderReading(ctx: Ctx, o: OrderAcc)
  {
    (o.order.Some? ==> |o.order.value| >= 1 && o.order.value[0] in ctx.defines)
    && o.computeFeats == {}
  }

  /** After ORDER: the computed features are still empty (no closing
      marker) or exactly the order's features. */
  predicate OrderOk(ctx: Ctx, o: OrderAcc)
  {
    (o.order.Some? ==> |o.order.value| >= 1 && o.order.value[0] in ctx.defines)
    && (o.computeFeats == {} || (o.order.Some? && o.computeFeats == ToSet(o.order.value)))
  }

  lemma OrderSectionOk(c: Ctx, lines: seq<string>, i: nat)
    requires i <= |lines|
    ensures SectionFrom(c, lines, i, OrderAcc(None, {}), OrderStep).Success? ==>
              OrderOk(c, SectionFrom(c, lines, i, OrderAcc(None, {}), OrderStep).value.0)
  {
    SectionKeeps(c, lines, i, OrderAcc(None, {}), OrderStep, OrderReading, OrderOk);
  }

  /** Per-mode tables stay empty when their mode is off, and in analysis
      and generation mode every surface entry is also listed under its
      category. */
  predicate AffixOk(ctx: Ctx, a: AffixAcc)
  {
    (!ctx.flags.analysis ==> a.hash == map[])
    && (!ctx.flags.generation ==> a.catHash == map[])
    && (ctx.flags.analysis && ctx.flags.generation ==>
          forall k, j :: k in a.hash && 0 <= j < |a.hash[k]| ==>
            a.hash[k][j].cat in a.catHash && a.hash[k][j].feats in a.catHash[a.hash[k][j].cat])
  }

  lemma AffixLineKeeps(ctx: Ctx, marker: string, line: string, a: AffixAcc)
    requires AffixOk(ctx, a)
    ensures !AffixLine(ctx, marker, line, a).Fail? ==> AffixOk(ctx, AffixLine(ctx, marker, line, a).acc)
  {
    var st := AffixLine(ctx, marker, line, a);
    if st.Next? && ctx.flags.analysis && ctx.flags.generation {
      var b := st.acc;
      forall k, j | k in b.hash && 0 <= j < |b.hash[k]|
        ensures b.hash[k][j].cat in b.catHash && b.hash[k][j].feats in b.catHash[b.hash[k][j].cat]
      {
        var e := b.hash[k][j];
        if k in a.hash && j < |a.hash[k]| {
          assert e == a.hash[k][j];
          assert a.catHash[e.cat] <= b.catHash[e.cat];
        }
      }
    }
  }

  lemma PrefixStepKeeps(ctx: Ctx, line: string, a: AffixAcc)
    requires AffixOk(ctx, a)
    ensures !PrefixStep(ctx, line, a).Fail? ==> AffixOk(ctx, PrefixStep(ctx, line, a).acc)
  {
    AffixLineKeeps(ctx, "###SUFFIXES###", line, a);
  }

  lemma SuffixStepKeeps(ctx: Ctx, line: string, a: AffixAcc)
    requires AffixOk(ctx, a)
    ensures !SuffixStep(ctx, line, a).Fail? ==> AffixOk(ctx, SuffixStep(ctx, line, a).acc)
  {
    AffixLineKeeps(ctx, "###STEMS###", line, a);
  }

  /** A lemma-table entry: it has a lemma and a category, and it is filed
      under its lemma with the '_'/'-' suffix cut off. */
  predicate LemmaFiled(k: string, f: Feats)
  {
    "lex" in f && "stemcat" in f && StripLex(f["lex"]) == k
  }

  /** A stem entry of the current loader: its lemma is already stripped. */
  predicate LexStripped(k: string, e: Entry)
  {
    "lex" in e.feats && StripLex(e.feats["lex"]) == e.feats["lex"]
  }

  /** A stem entry in generation mode carries its own category as
      'stemcat' (the stem table shares the lemma table's dictionaries). */
  predicate CatTagged(k: string, e: Entry)
  {
    "stemcat" in e.feats && e.feats["stemcat"] == e.cat
  }

  predicate StemOk(ctx: Ctx, a: StemAcc)
  {
    (!ctx.flags.analysis ==> a.hash == map[])
    && (!ctx.flags.generation ==> a.lemmaHash == map[])
    && (ctx.flags.generation ==> EveryEntry(a.lemmaHash, LemmaFiled) && EveryEntry(a.hash, CatTagged))
    && (ctx.ver == Morphology ==> EveryEntry(a.hash, LexStripped))
  }

  lemma StemStepKeeps(ctx: Ctx, line: string, a: StemAcc)
    requires StemOk(ctx, a)
    ensures !StemStep(ctx, line, a).Fail? ==> StemOk(ctx, StemStep(ctx, line, a).acc)
  {
    var l := Strip(line);
    var parts := Split(l, '\t');
    if l != "###TABLE AB###" && |parts| == 3 && AnalysisToks(Split(parts[2], ' '), ctx.ver == Morphology).Success? {
      var f0 := AnalysisToks(Split(parts[2], ' '), ctx.ver == Morphology).value;
      if !(ctx.ver == Morphology && "lex" !in f0) {
        var f := if ctx.ver == Morphology then f0["lex" := StripLex(f0["lex"])] else f0;
        if !(ctx.flags.generation && "lex" !in f) {
          var g := if ctx.flags.generation then f["stemcat" := parts[1]] else f;
          if ctx.ver == Morphology {
            StripLexIdempotent(f0["lex"]);
            assert LexStripped(parts[0], Entry(parts[1], g));
            if ctx.flags.analysis {
              PushKeeps(a.hash, parts[0], Entry(parts[1], g), LexStripped);
            }
          }
          if ctx.flags.generation {
            var key := if ctx.ver == Morphology then g["lex"] else StripLex(g["lex"]);
            assert LemmaFiled(key, g);
            PushKeeps(a.lemmaHash, key, g, LemmaFiled);
            assert CatTagged(parts[0], Entry(parts[1], g));
            if ctx.flags.analysis {
              PushKeeps(a.hash, parts[0], Entry(parts[1], g), CatTagged);
            }
          }
        }
      }
    }
  }

  /** Per-mode tables stay empty when their mode is off, and with both
      modes on the stem-prefix table is exactly the inverse of the
      prefix-stem table. */
  predicate CompatOk(ctx: Ctx, c: CompatAcc)
  {
    (!ctx.flags.analysis ==> c.fwd == map[])
    && (!ctx.flags.generation ==> c.inv == map[])
    && (ctx.flags.analysis && ctx.flags.generation ==> Inverse(c.fwd, c.inv))
  }

  /** `inv` relates q to p exactly when `fwd` relates p to q. */
  predicate Inverse(fwd: map<string, set<string>>, inv: map<string, set<string>>)
  {
    (forall p, q :: p in fwd && q in fwd[p] ==> q in inv && p in inv[q])
    && (forall q, p :: q in inv && p in inv[q] ==> p in fwd && q in fwd[p])
  }

  lemma TableAbStepKeeps(ctx: Ctx, line: string, a: CompatAcc)
    requires CompatOk(ctx, a)
    ensures !TableAbStep(ctx, line, a).Fail? ==> CompatOk(ctx, TableAbStep(ctx, line, a).acc)
  {
  }

  lemma DefaultsSectionOk(c: Ctx, lines: seq<string>, i: nat)
    requires i <= |lines|
    ensures SectionFrom(c, lines, i, map[], DefaultStep).Success? ==>
              DefaultsOk(c, SectionFrom(c, lines, i, map[], DefaultStep).value.0)
  {
    forall line, a | DefaultsOk(c, a) && !DefaultStep(c, line, a).Fail?
      ensures DefaultsOk(c, DefaultStep(c, line, a).acc)
    {
      DefaultStepKeeps(c, line, a);
    }
    SectionKeeps(c, lines, i, map[], DefaultStep, DefaultsOk, DefaultsOk);
  }

  lemma PrefixSectionOk(c: Ctx, lines: seq<string>, i: nat)
    requires i <= |lines|
    ensures SectionFrom(c, lines, i, AffixAcc(map[], map[]), PrefixStep).Success? ==>
              AffixOk(c, SectionFrom(c, lines, i, AffixAcc(map[], map[]), PrefixStep).value.0)
  {
    forall line, a | AffixOk(c, a) && !PrefixStep(c, line, a).Fail?
      ensures AffixOk(c, PrefixStep(c, line, a).acc)
    {
      PrefixStepKeeps(c, line, a);
    }
    SectionKeeps(c, lines, i, AffixAcc(map[], map[]), PrefixStep, AffixOk, AffixOk);
  }

  lemma SuffixSectionOk(c: Ctx, lines: seq<string>, i: nat)
    requires i <= |lines|
    ensures SectionFrom(c, lines, i, AffixAcc(map[], map[]), SuffixStep).Success? ==>
              AffixOk(c, SectionFrom(c, lines, i, AffixAcc(map[], map[]), SuffixStep).value.0)
  {
    forall line, a | AffixOk(c, a) && !SuffixStep(c, line, a).Fail?
      ensures AffixOk(c, SuffixStep(c, line, a).acc)
    {
      SuffixStepKeeps(c, line, a);
    }
    SectionKeeps(c, lines, i, AffixAcc(map[], map[]), SuffixStep, AffixOk, AffixOk);
  }

  lemma StemSectionOk(c: Ctx, lines: seq<string>, i: nat)
    requires i <= |lines|
    ensures SectionFrom(c, lines, i, StemAcc(map[], map[]), StemStep).Success? ==>
              StemOk(c, SectionFrom(c, lines, i, StemAcc(map[], map[]), StemStep).value.0)
  {
    forall line, a | StemOk(c, a) && !StemStep(c, line, a).Fail?
      ensures StemOk(c, StemStep(c, line, a).acc)
    {
      StemStepKeeps(c, line, a);
    }
    SectionKeeps(c, lines, i, StemAcc(map[], map[]), StemStep, StemOk, StemOk);
  }

  lemma TableAbSectionOk(c: Ctx, lines: seq<string>, i: nat)
    requires i <= |lines|
    ensures SectionFrom(c, lines, i, CompatAcc(map[], map[]), TableAbStep).Success? ==>
              CompatOk(c, SectionFrom(c, lines, i, CompatAcc(map[], map[]), TableAbStep).value.0)
  {
    forall line, a | CompatOk(c, a) && !TableAbStep(c, line, a).Fail?
      ensures CompatOk(c, TableAbStep(c, line, a).acc)
    {
      TableAbStepKeeps(c, line, a);
    }
    SectionKeeps(c, lines, i, CompatAcc(map[], map[]), TableAbStep, CompatOk, CompatOk);
  }

  /** The header sections: defaults keyed by 'pos', the order headed by
      a defined feature, computed features equal to the order's, no
      tokenizations in the legacy loader, and the context the later
      sections read carries the loader's version and flags. */
  lemma HeaderFacts(ver: Version, flags: DbFlags, lines: seq<string>)
    requires LoadHeader(ver, flags, lines).Success?
    ensures var h := LoadHeader(ver, flags, lines).value;
      && h.ctx.ver == ver && h.ctx.flags == flags
      && DefaultsOk(h.ctx, h.defaults)
      && OrderOk(h.ctx, h.order)
      && (ver == CalimaStar ==> h.tokenizations == {})
  {
    var c0 := Ctx(ver, flags, map[], false);
    var d := SectionFrom(c0, lines, 0, map[], DefineStep).value;
    var c := c0.(defines := d.0);
    var df := SectionFrom(c, lines, d.1, map[], DefaultStep).value;
    DefaultsSectionOk(c, lines, d.1);
    OrderSectionOk(c, lines, df.1);
  }

  /** The lexicon sections keep the per-mode emptiness, the category
      listing and the stem facts. */
  lemma LexiconFacts(c: Ctx, lines: seq<string>, i: nat)
    requires i <= |lines|
    requires LoadLexicon(c, lines, i).Success?
    ensures var x := LoadLexicon(c, lines, i).value;
      AffixOk(c, x.prefixes) && AffixOk(c, x.suffixes) && StemOk(c, x.stems)
  {
    var p := SectionFrom(c, lines, i, AffixAcc(map[], map[]), PrefixStep).value;
    PrefixSectionOk(c, lines, i);
    var s := SectionFrom(c, lines, p.1, AffixAcc(map[], map[]), SuffixStep).value;
    SuffixSectionOk(c, lines, p.1);
    StemSectionOk(c, lines, s.1);
  }

  lemma TablesFacts(c: Ctx, lines: seq<string>, i: nat)
    requires i <= |lines|
    requires LoadTables(c, lines, i).Success?
    ensures CompatOk(c, LoadTables(c, lines, i).value.ab)
  {
    TableAbSectionOk(c, lines, i);
  }

  /** Facts about every database the loader accepts. */
  lemma LoadedFacts(ver: Version, flags: DbFlags, lines: seq<string>)
    requires LoadLines(ver, flags, lines).Success?
    ensures var db := LoadLines(ver, flags, lines).value;
      && (forall k :: k in db.defaults ==> "pos" in db.defaults[k] && db.defaults[k]["pos"] == k)
      && (ver == CalimaStar ==> forall k, f :: k in db.defaults && f in db.defaults[k] ==> db.defaults[k][f] != Str("na"))
      && (db.order.Some? ==> |db.order.value| >= 1 && db.order.value[0] in AllFeats(db))
      && (db.computeFeats == {} || (db.order.Some? && db.computeFeats == ToSet(db.order.value)))
      && (ver == CalimaStar ==> TokFeats(db) == {})
      && (!flags.analysis ==> db.prefixHash == map[] && db.suffixHash == map[] && db.stemHash == map[]
                              && db.prefixStemCompat == map[])
      && (!flags.generation ==> db.prefixCatHash == map[] && db.suffixCatHash == map[] && db.lemmaHash == map[]
                                && db.stemPrefixCompat == map[])
      && (flags.generation ==> EveryEntry(db.lemmaHash, LemmaFiled) && EveryEntry(db.stemHash, CatTagged))
      && (ver == Morphology ==> EveryEntry(db.stemHash, LexStripped))
      && (flags.analysis && flags.generation ==> Inverse(db.prefixStemCompat, db.stemPrefixCompat))
  {
    var h := LoadHeader(ver, flags, lines).value;
    HeaderFacts(ver, flags, lines);
    var x := LoadLexicon(h.ctx, lines, h.next).value;
    LexiconFacts(h.ctx, lines, h.next);
    TablesFacts(h.ctx, lines, x.next);
  }
}
