/** `CharMapper`: a character map whose keys are single characters or
    inclusive ranges `a-b`, applied character by character to a string. */
module CharMap {
  import opened Wrappers

  /** The Python values a caller can pass as a key, a value or a default:
      a `str`, `None`, or anything else (bytes, a list, ...). */
  datatype PyVal = PyStr(s: string) | PyNone | PyOther

  /** The mapping argument of the constructor: a `Mapping` with its keys in
      iteration order, or some other object. */
  datatype MapArg = Mapping(entries: seq<(PyVal, PyVal)>) | NotMapping

  datatype CharMapError =
    | TypeError
    | InvalidCharMapKeyError(key: string)

  /** An expanded map: `None` maps a character to itself. */
  type Expanded = map<char, Option<string>>

  predicate IsStrOrNone(v: PyVal) { v.PyStr? || v.PyNone? }

  function ValueOf(v: PyVal): Option<string>
  {
    if v.PyStr? then Some(v.s) else None
  }

  predicate IsRangeKey(k: string) { |k| == 3 && k[1] == '-' }

  /** The error, if any, that one entry raises, in the order of the
      checks: key type, then (single character) value type, or (range)
      bounds before value type, else an invalid key. */
  function EntryError(key: PyVal, val: PyVal): Option<CharMapError>
  {
    if !key.PyStr? then Some(TypeError)
    else if |key.s| == 1 then (if IsStrOrNone(val) then None else Some(TypeError))
    else if IsRangeKey(key.s) then
      if key.s[0] as int >= key.s[2] as int then Some(InvalidCharMapKeyError(key.s))
      else if IsStrOrNone(val) then None
      else Some(TypeError)
    else Some(InvalidCharMapKeyError(key.s))
  }

  /** The first error raised while walking the entries in order. */
  function FirstError(entries: seq<(PyVal, PyVal)>): Option<CharMapError>
  {
    if |entries| == 0 then None
    else
      var before := FirstError(entries[..|entries| - 1]);
      if before.Some? then before
      else EntryError(entries[|entries| - 1].0, entries[|entries| - 1].1)
  }

  /** Whether a (valid) key names the character `c`. */
  predicate Covers(key: string, c: char)
  {
    (|key| == 1 && key[0] == c)
    || (IsRangeKey(key) && key[0] as int <= c as int <= key[2] as int)
  }

  /** The reference meaning of a key list: the value of the LAST entry
      whose key covers `c`, or nothing when no key does. */
  function Lookup(entries: seq<(PyVal, PyVal)>, c: char): Option<Option<string>>
  {
    if |entries| == 0 then None
    else
      var e := entries[|entries| - 1];
      if e.0.PyStr? && Covers(e.0.s, c) then Some(ValueOf(e.1))
      else Lookup(entries[..|entries| - 1], c)
  }

  predicate CoversAt(entries: seq<(PyVal, PyVal)>, j: nat, c: char)
    requires j < |entries|
  {
    entries[j].0.PyStr? && Covers(entries[j].0.s, c)
  }

  /** `Lookup` read declaratively: the last covering entry wins ... */
  lemma {:induction false} LookupLastCover(entries: seq<(PyVal, PyVal)>, c: char, j: nat)
    requires j < |entries| && CoversAt(entries, j, c)
    requires forall k :: j < k < |entries| ==> !CoversAt(entries, k, c)
    ensures Lookup(entries, c) == Some(ValueOf(entries[j].1))
    decreases |entries|
  {
    var n := |entries| - 1;
    if j < n {
      assert !CoversAt(entries, n, c);
      var init := entries[..n];
      assert forall k :: j <= k < |init| ==> CoversAt(init, k, c) == CoversAt(entries, k, c);
      LookupLastCover(init, c, j);
    }
  }

  /** ... and a character no key covers is not in the map. */
  lemma {:induction false} LookupNoCover(entries: seq<(PyVal, PyVal)>, c: char)
    requires forall k :: 0 <= k < |entries| ==> !CoversAt(entries, k, c)
    ensures Lookup(entries, c).None?
    decreases |entries|
  {
    if |entries| > 0 {
      assert !CoversAt(entries, |entries| - 1, c);
      var init := entries[..|entries| - 1];
      assert forall k :: 0 <= k < |init| ==> CoversAt(init, k, c) == CoversAt(entries, k, c);
      LookupNoCover(init, c);
    }
  }

  predicate Represents(m: Expanded, entries: seq<(PyVal, PyVal)>)
  {
    forall c: char {:trigger Lookup(entries, c)} {:trigger c in m} ::
      (c in m <==> Lookup(entries, c).Some?) && (c in m ==> m[c] == Lookup(entries, c).value)
  }

  /** An error in a prefix of the entries is the error of the whole list. */
  lemma {:induction false} FirstErrorPrefix(entries: seq<(PyVal, PyVal)>, j: nat)
    requires j <= |entries|
    requires FirstError(entries[..j]).Some?
    ensures FirstError(entries) == FirstError(entries[..j])
    decreases |entries| - j
  {
    if j < |entries| {
      assert entries[..j + 1][..j] == entries[..j];
      FirstErrorPrefix(entries, j + 1);
    } else {
      assert entries[..j] == entries;
    }
  }

  /** `CharMapper._expand_char_map`: fills a new map entry by entry,
      expanding ranges, and stops at the first bad entry. Characters in
      the surrogate block cannot be represented and are skipped. */
  method ExpandCharMap(entries: seq<(PyVal, PyVal)>) returns (r: Result<Expanded, CharMapError>)
    ensures FirstError(entries).Some? ==> r == Failure(FirstError(entries).value)
    ensures FirstError(entries).None? ==> r.Success? && Represents(r.value, entries)
  {
    var m: Expanded := map[];
    var i := 0;
    while i < |entries|
      invariant 0 <= i <= |entries|
      invariant FirstError(entries[..i]).None?
      invariant Represents(m, entries[..i])
    {
      var (key, val) := entries[i];
      assert entries[..i + 1][..i] == entries[..i];
      var err := EntryError(key, val);
      if err.Some? {
        assert FirstError(entries[..i + 1]) == err;
        FirstErrorPrefix(entries, i + 1);
        return Failure(err.value);
      }
      var v := ValueOf(val);
      if |key.s| == 1 {
        m := m[key.s[0] := v];
      } else {
        var lo := key.s[0] as int;
        var hi := key.s[2] as int;
        var m0 := m;
        var k := lo;
        while k <= hi
          invariant lo <= k <= hi + 1
          invariant forall c: char {:trigger c in m} :: c in m <==> (c in m0 || lo <= c as int < k)
          invariant forall c: char {:trigger c in m} :: c in m ==> m[c] == (if lo <= c as int < k then v else m0[c])
        {
          if k < 0xD800 || 0xE000 <= k {
            m := m[k as char := v];
          }
          k := k + 1;
        }
      }
      i := i + 1;
    }
    assert entries[..i] == entries;
    r := Success(m);
  }

  /** The character `c` run through an expanded map with a default. */
  function Image(m: Expanded, default: Option<string>, c: char): string
  {
    var t := if c in m then m[c] else default;
    if t.None? then [c] else t.value
  }

  /** The whole string run through the map, character by character. */
  function MapAll(m: Expanded, default: Option<string>, s: string): string
  {
    if s == [] then "" else Image(m, default, s[0]) + MapAll(m, default, s[1..])
  }

  /** Mapping distributes over concatenation. */
  lemma {:induction false} MapAllAppend(m: Expanded, d: Option<string>, a: string, b: string)
    ensures MapAll(m, d, a + b) == MapAll(m, d, a) + MapAll(m, d, b)
    decreases |a|
  {
    if a == [] {
      assert a + b == b;
    } else {
      assert (a + b)[1..] == a[1..] + b;
      MapAllAppend(m, d, a[1..], b);
    }
  }

  /** An empty map with no default is the identity. */
  lemma {:induction false} MapAllIdentity(s: string)
    ensures MapAll(map[], None, s) == s
    decreases |s|
  {
    if s != [] {
      MapAllIdentity(s[1..]);
    }
  }

  class CharMapper {
    const charmap: Expanded
    const default: Option<string>

    constructor (m: Expanded, d: Option<string>)
      ensures charmap == m && default == d
    {
      charmap := m;
      default := d;
    }

    /** `map_string`: each character is replaced by its map entry or the
        default; `None` keeps the character and `''` deletes it. */
    method MapString(s: string) returns (out: string)
      ensures |s| == 0 ==> out == ""
      ensures out == MapAll(charmap, default, s)
    {
      var buff := "";
      var i := 0;
      while i < |s|
        invariant 0 <= i <= |s|
        invariant buff + MapAll(charmap, default, s[i..]) == MapAll(charmap, default, s)
      {
        assert s[i..][1..] == s[i + 1..];
        buff := buff + Image(charmap, default, s[i]);
        i := i + 1;
      }
      out := buff;
    }
  }

  /** `CharMapper(charmap, default)`: a non-mapping raises TypeError, then
      the keys are expanded (raising their own errors), then a default
      that is neither a string nor None raises TypeError. */
  method NewCharMapper(charmap: MapArg, default: PyVal) returns (r: Result<CharMapper, CharMapError>)
    ensures charmap.NotMapping? ==> r == Failure(TypeError)
    ensures charmap.Mapping? && FirstError(charmap.entries).Some? ==> r == Failure(FirstError(charmap.entries).value)
    ensures charmap.Mapping? && FirstError(charmap.entries).None? && !IsStrOrNone(default) ==> r == Failure(TypeError)
    ensures r.Success? <==> charmap.Mapping? && FirstError(charmap.entries).None? && IsStrOrNone(default)
    ensures r.Success? ==> Represents(r.value.charmap, charmap.entries) && r.value.default == ValueOf(default)
  {
    if charmap.NotMapping? {
      return Failure(TypeError);
    }
    var expanded := ExpandCharMap(charmap.entries);
    if expanded.Failure? {
      return Failure(expanded.error);
    }
    if !IsStrOrNone(default) {
      return Failure(TypeError);
    }
    var mapper := new CharMapper(expanded.value, ValueOf(default));
    r := Success(mapper);
  }

  /** Keys that are neither one character nor a well-ordered range are
      rejected: 'a-', 'a--', 'cdsn', 'c-a'; '--a' is a valid range, so a
      bytes value with it is a TypeError while 'c-a' with a bytes value
      fails on the key first. */
  lemma KeyShapeExamples()
    ensures FirstError([(PyStr("a-"), PyStr("Hello"))]) == Some(InvalidCharMapKeyError("a-"))
    ensures FirstError([(PyStr("a--"), PyStr("Hello"))]) == Some(InvalidCharMapKeyError("a--"))
    ensures FirstError([(PyStr("cdsn"), PyOther)]) == Some(InvalidCharMapKeyError("cdsn"))
    ensures FirstError([(PyStr("c-a"), PyOther)]) == Some(InvalidCharMapKeyError("c-a"))
    ensures FirstError([(PyStr("--a"), PyStr(""))]) == None
    ensures FirstError([(PyStr("--a"), PyOther)]) == Some(TypeError)
    ensures FirstError([(PyOther, PyStr("Hello"))]) == Some(TypeError)
    ensures FirstError([(PyStr("a"), PyOther)]) == Some(TypeError)
    ensures FirstError([(PyStr("a-f"), PyStr("")), (PyStr("b"), PyNone)]) == None
  {
  }

  /** The map of the test suite: e, h-m, a-d, the Arabic-Indic digits. */
  const VALID_MAP: seq<(PyVal, PyVal)> := [
    (PyStr("e"), PyStr("u")),
    (PyStr("h-m"), PyStr("*")),
    (PyStr("a-d"), PyStr("m")),
    (PyStr("\U{660}"), PyStr("0")),
    (PyStr("\U{661}"), PyStr("1")),
    (PyStr("\U{662}"), PyStr("2")),
    (PyStr("\U{663}-\U{665}"), PyStr("-")),
    (PyStr("\U{666}-\U{669}"), PyStr("+"))
  ]

  /** The image of one character under an expanded map, read off the
      entries it was expanded from. */
  lemma ImageFromLookup(m: Expanded, entries: seq<(PyVal, PyVal)>, c: char)
    requires Represents(m, entries)
    ensures Image(m, None, c) == (if Lookup(entries, c).Some? && Lookup(entries, c).value.Some? then Lookup(entries, c).value.value else [c])
  {
    assert (c in m <==> Lookup(entries, c).Some?) && (c in m ==> m[c] == Lookup(entries, c).value);
  }

  lemma EnglishImages(m: Expanded)
    requires Represents(m, VALID_MAP)
    ensures Image(m, None, 'H') == "H"
    ensures Image(m, None, 'e') == "u"
    ensures Image(m, None, 'l') == "*"
    ensures Image(m, None, 'o') == "o"
    ensures Image(m, None, ',') == ","
    ensures Image(m, None, ' ') == " "
    ensures Image(m, None, 'w') == "w"
    ensures Image(m, None, 'r') == "r"
    ensures Image(m, None, 'd') == "m"
    ensures Image(m, None, '!') == "!"
  {
    LookupNoCover(VALID_MAP, 'H');
    LookupLastCover(VALID_MAP, 'e', 0);
    LookupLastCover(VALID_MAP, 'l', 1);
    LookupNoCover(VALID_MAP, 'o');
    LookupNoCover(VALID_MAP, ',');
    LookupNoCover(VALID_MAP, ' ');
    LookupNoCover(VALID_MAP, 'w');
    LookupNoCover(VALID_MAP, 'r');
    LookupLastCover(VALID_MAP, 'd', 2);
    LookupNoCover(VALID_MAP, '!');
    ImageFromLookup(m, VALID_MAP, 'H');
    ImageFromLookup(m, VALID_MAP, 'e');
    ImageFromLookup(m, VALID_MAP, 'l');
    ImageFromLookup(m, VALID_MAP, 'o');
    ImageFromLookup(m, VALID_MAP, ',');
    ImageFromLookup(m, VALID_MAP, ' ');
    ImageFromLookup(m, VALID_MAP, 'w');
    ImageFromLookup(m, VALID_MAP, 'r');
    ImageFromLookup(m, VALID_MAP, 'd');
    ImageFromLookup(m, VALID_MAP, '!');
  }

  lemma ArabicDigitImages(m: Expanded)
    requires Represents(m, VALID_MAP)
    ensures Image(m, None, '\U{660}') == "0"
    ensures Image(m, None, '\U{661}') == "1"
    ensures Image(m, None, '\U{662}') == "2"
    ensures Image(m, None, '\U{663}') == "-"
    ensures Image(m, None, '\U{664}') == "-"
    ensures Image(m, None, '\U{665}') == "-"
    ensures Image(m, None, '\U{666}') == "+"
    ensures Image(m, None, '\U{667}') == "+"
    ensures Image(m, None, '\U{668}') == "+"
    ensures Image(m, None, '\U{669}') == "+"
  {
    LookupLastCover(VALID_MAP, '\U{660}', 3);
    LookupLastCover(VALID_MAP, '\U{661}', 4);
    LookupLastCover(VALID_MAP, '\U{662}', 5);
    LookupLastCover(VALID_MAP, '\U{663}', 6);
    LookupLastCover(VALID_MAP, '\U{664}', 6);
    LookupLastCover(VALID_MAP, '\U{665}', 6);
    LookupLastCover(VALID_MAP, '\U{666}', 7);
    LookupLastCover(VALID_MAP, '\U{667}', 7);
    LookupLastCover(VALID_MAP, '\U{668}', 7);
    LookupLastCover(VALID_MAP, '\U{669}', 7);
    ImageFromLookup(m, VALID_MAP, '\U{660}');
    ImageFromLookup(m, VALID_MAP, '\U{661}');
    ImageFromLookup(m, VALID_MAP, '\U{662}');
    ImageFromLookup(m, VALID_MAP, '\U{663}');
    ImageFromLookup(m, VALID_MAP, '\U{664}');
    ImageFromLookup(m, VALID_MAP, '\U{665}');
    ImageFromLookup(m, VALID_MAP, '\U{666}');
    ImageFromLookup(m, VALID_MAP, '\U{667}');
    ImageFromLookup(m, VALID_MAP, '\U{668}');
    ImageFromLookup(m, VALID_MAP, '\U{669}');
  }

  /** A string whose every character has a one-character image maps to
      the string of those images. */
  lemma {:induction false} MapAllPerChar(m: Expanded, s: string, t: string)
    requires |s| == |t|
    requires forall i | 0 <= i < |s| :: Image(m, None, s[i]) == [t[i]]
    ensures MapAll(m, None, s) == t
    decreases |s|
  {
    if s != [] {
      MapAllPerChar(m, s[1..], t[1..]);
    }
  }

  /** 'Hello, world!' becomes 'Hu**o, wor*m!' under the test map. */
  lemma EnglishExample(m: Expanded, s: string)
    requires Represents(m, VALID_MAP)
    requires s == "Hello, world!"
    ensures MapAll(m, None, s) == "Hu**o, wor*m!"
  {
    EnglishImages(m);
    MapAllPerChar(m, s, "Hu**o, wor*m!");
  }

  /** The ten Arabic-Indic digits become '012---++++'. */
  lemma ArabicDigitsExample(m: Expanded, s: string)
    requires Represents(m, VALID_MAP)
    requires s == "\U{660}\U{661}\U{662}\U{663}\U{664}\U{665}\U{666}\U{667}\U{668}\U{669}"
    ensures MapAll(m, None, s) == "012---++++"
  {
    ArabicDigitImages(m);
    MapAllPerChar(m, s, "012---++++");
  }
}
