/** The few pieces of Python's `str` API that the modelled code relies on:
    `isspace`, `strip`, `split(sep)`, `split()`, `sep.join`, `startswith`. */
module PyStr {

  /** `str.isspace()` for one character; also the class `\s` of `re` on
      `str` patterns. */
  predicate IsSpace(c: char) {
    c == ' ' || ('\t' <= c <= '\r') || ('\U{1c}' <= c <= '\U{1f}')
    || c == '\U{85}' || c == '\U{a0}' || c == '\U{1680}'
    || ('\U{2000}' <= c <= '\U{200a}') || c == '\U{2028}' || c == '\U{2029}'
    || c == '\U{202f}' || c == '\U{205f}' || c == '\U{3000}'
  }

  predicate NoSpace(s: string) {
    forall i :: 0 <= i < |s| ==> !IsSpace(s[i])
  }

  predicate StartsWith(s: string, p: string) {
    |p| <= |s| && s[..|p|] == p
  }

  /** Number of leading whitespace characters. */
  function LeadSpaces(s: string): (n: nat)
    ensures n <= |s|
    ensures forall i :: 0 <= i < n ==> IsSpace(s[i])
    ensures n < |s| ==> !IsSpace(s[n])
  {
    if |s| > 0 && IsSpace(s[0]) then 1 + LeadSpaces(s[1..]) else 0
  }

  /** Length of `s` once its trailing whitespace is dropped. */
  function TrimEnd(s: string): (n: nat)
    ensures n <= |s|
    ensures forall i :: n <= i < |s| ==> IsSpace(s[i])
    ensures n > 0 ==> !IsSpace(s[n - 1])
  {
    if |s| > 0 && IsSpace(s[|s| - 1]) then TrimEnd(s[..|s| - 1]) else |s|
  }

  /** `s.lstrip()` */
  function LStrip(s: string): string
  {
    s[LeadSpaces(s)..]
  }

  /** `s.strip()`: the infix left once leading and trailing whitespace is
      dropped; it neither starts nor ends with whitespace. */
  function Strip(s: string): (r: string)
    ensures r == [] || (!IsSpace(r[0]) && !IsSpace(r[|r| - 1]))
    ensures |r| <= |s|
  {
    var t := LStrip(s);
    t[..TrimEnd(t)]
  }

  /** `sep.join(parts)` */
  function Join(sep: string, parts: seq<string>): string
  {
    if |parts| == 0 then ""
    else if |parts| == 1 then parts[0]
    else parts[0] + sep + Join(sep, parts[1..])
  }

  /** Joining one more part appends the separator and the part. */
  lemma {:induction false} JoinSnoc(sep: string, parts: seq<string>, p: string)
    ensures Join(sep, parts + [p]) == if parts == [] then p else Join(sep, parts) + sep + p
    decreases |parts|
  {
    if |parts| == 1 {
      assert parts + [p] == [parts[0], p];
    } else if |parts| > 1 {
      JoinSnoc(sep, parts[1..], p);
      assert (parts + [p])[1..] == parts[1..] + [p];
    }
  }

  /** Concatenation of a list of strings, `''.join(parts)`. */
  function Concat(parts: seq<string>): string
  {
    if |parts| == 0 then "" else parts[0] + Concat(parts[1..])
  }

  /** Index of the first occurrence of `c` in `s`, or `|s|` when absent. */
  function IndexOf(s: string, c: char): (i: nat)
    ensures i <= |s|
    ensures forall j :: 0 <= j < i ==> s[j] != c
    ensures i < |s| ==> s[i] == c
  {
    if |s| == 0 then 0 else if s[0] == c then 0 else 1 + IndexOf(s[1..], c)
  }

  /** `s.split(sep)` for a one-character separator: the pieces never
      contain the separator and re-joining them gives back `s`, which
      determines the pieces uniquely. */
  function Split(s: string, sep: char): (r: seq<string>)
    ensures |r| >= 1
    ensures forall k :: 0 <= k < |r| ==> sep !in r[k]
    ensures Join([sep], r) == s
    decreases |s|
  {
    var i := IndexOf(s, sep);
    if i == |s| then [s]
    else
      var rest := Split(s[i + 1..], sep);
      assert s == s[..i] + [sep] + s[i + 1..];
      [s[..i]] + rest
  }

  /** Splitting undoes joining when no part holds the separator. */
  lemma {:induction false} SplitJoin(parts: seq<string>, sep: char)
    requires |parts| >= 1
    requires forall k :: 0 <= k < |parts| ==> sep !in parts[k]
    ensures Split(Join([sep], parts), sep) == parts
    decreases |parts|
  {
    var s := Join([sep], parts);
    var p0 := parts[0];
    if |parts| == 1 {
      assert IndexOf(s, sep) == |s|;
    } else {
      SplitJoin(parts[1..], sep);
      assert s == p0 + [sep] + Join([sep], parts[1..]);
      assert s[|p0|] == sep;
      assert IndexOf(s, sep) == |p0|;
      assert s[..|p0|] == p0;
      assert s[|p0| + 1..] == Join([sep], parts[1..]);
    }
  }

  /** `s.split()`: the maximal runs of non-whitespace characters, in order. */
  function SplitWs(s: string): (r: seq<string>)
    ensures forall k :: 0 <= k < |r| ==> |r[k]| > 0 && NoSpace(r[k])
    decreases |s|
  {
    var t := LStrip(s);
    if t == [] then []
    else
      var n := RunLen(t);
      assert n > 0;
      var head := t[..n];
      assert |head| > 0 && NoSpace(head);
      [head] + SplitWs(t[n..])
  }

  /** Length of the leading run of non-whitespace characters. */
  function RunLen(s: string): (n: nat)
    ensures n <= |s|
    ensures forall j :: 0 <= j < n ==> !IsSpace(s[j])
    ensures n < |s| ==> IsSpace(s[n])
  {
    if |s| == 0 || IsSpace(s[0]) then 0 else 1 + RunLen(s[1..])
  }

  /** Every character outside whitespace survives `split()`, in order. */
  function DropSpaces(s: string): string
  {
    if |s| == 0 then "" else (if IsSpace(s[0]) then "" else [s[0]]) + DropSpaces(s[1..])
  }

  lemma {:induction false} DropSpacesAppend(a: string, b: string)
    ensures DropSpaces(a + b) == DropSpaces(a) + DropSpaces(b)
    decreases |a|
  {
    if |a| == 0 {
      assert a + b == b;
    } else {
      assert (a + b)[1..] == a[1..] + b;
      DropSpacesAppend(a[1..], b);
    }
  }

  lemma {:induction false} DropSpacesOfNoSpace(s: string)
    requires NoSpace(s)
    ensures DropSpaces(s) == s
    decreases |s|
  {
    if |s| > 0 {
      DropSpacesOfNoSpace(s[1..]);
    }
  }

  lemma {:induction false} DropSpacesOfSpaces(s: string, n: nat)
    requires n <= |s|
    requires forall i :: 0 <= i < n ==> IsSpace(s[i])
    ensures DropSpaces(s) == DropSpaces(s[n..])
    decreases n
  {
    if n > 0 {
      DropSpacesOfSpaces(s[1..], n - 1);
      assert s[1..][n - 1..] == s[n..];
    }
  }

  /** `split()` loses exactly the whitespace: the tokens concatenated are
      the input with its whitespace characters removed. */
  lemma {:induction false} SplitWsKeepsNonSpace(s: string)
    ensures Concat(SplitWs(s)) == DropSpaces(s)
    decreases |s|
  {
    var t := LStrip(s);
    DropSpacesOfSpaces(s, LeadSpaces(s));
    if t != [] {
      var n := RunLen(t);
      SplitWsKeepsNonSpace(t[n..]);
      assert t == t[..n] + t[n..];
      DropSpacesAppend(t[..n], t[n..]);
      DropSpacesOfNoSpace(t[..n]);
    }
  }
}
