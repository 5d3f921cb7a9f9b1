/** Feature dictionaries. Database entries map feature names to strings;
    an analysis maps feature names to strings, to Python's `None`, or to a
    float, which is kept as the text it was read from. */
module Features {
  import opened Wrappers
  import opened PyStr

  datatype Val = Str(s: string) | Null | Float(text: string)

  /** The features of one prefix, stem or suffix entry. */
  type Feats = map<string, string>

  /** One analysis, as returned by the analyzers and generators. */
  type Analysis = map<string, Val>

  /** `m.get(k, d)` on an entry. */
  function Get(m: Feats, k: string, d: string): string
  {
    if k in m then m[k] else d
  }

  /** `m.get(k, d)` on an analysis whose values are strings. */
  function TextOr(m: Analysis, k: string, d: string): string
  {
    if k in m && m[k].Str? then m[k].s else d
  }

  /** An entry's features as analysis values. */
  function Lift(m: Feats): (r: Analysis)
    ensures r.Keys == m.Keys
    ensures forall k :: k in m ==> r[k] == Str(m[k])
  {
    map k | k in m :: Str(m[k])
  }

  /** A value that counts as given: neither empty nor '-'. */
  predicate Given(v: string)
  {
    v != "" && v != "-"
  }

  /** `'+'.join(v for v in [a, b, c] if v)`: the non-empty values in
      order, separated by '+'. */
  function PlusJoin(a: string, b: string, c: string): string
  {
    Join("+", NonEmpty([a, b, c]))
  }

  function NonEmpty(vs: seq<string>): (r: seq<string>)
    ensures forall k :: 0 <= k < |r| ==> r[k] != "" && r[k] in vs
    ensures |r| <= |vs|
    ensures r == [] <==> forall k :: 0 <= k < |vs| ==> vs[k] == ""
  {
    if vs == [] then []
    else
      assert forall k :: 1 <= k < |vs| ==> vs[k] == vs[1..][k - 1];
      (if vs[0] == "" then [] else [vs[0]]) + NonEmpty(vs[1..])
  }

  /** With no '+' inside the values, splitting the joined text on '+'
      gives back exactly the non-empty values, in prefix, stem, suffix
      order. */
  lemma PlusJoinSplits(a: string, b: string, c: string)
    requires '+' !in a && '+' !in b && '+' !in c
    requires a != "" || b != "" || c != ""
    ensures Split(PlusJoin(a, b, c), '+') == NonEmpty([a, b, c])
  {
    var parts := NonEmpty([a, b, c]);
    var vs := [a, b, c];
    assert vs[0] == a && vs[1] == b && vs[2] == c;
    assert parts != [];
    forall k | 0 <= k < |parts|
      ensures '+' !in parts[k]
    {
      assert parts[k] in [a, b, c];
    }
    SplitJoin(parts, '+');
  }
}
