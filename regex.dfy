/** The substitution step of Python's `re.sub`, for patterns that never
    match the empty string. A pattern is represented by what Python's
    backtracking matcher finds when it tries the pattern at one position:
    nothing, or the length of the match and the text that replaces it. */
module Regex {
  import opened Wrappers

  datatype Hit = Hit(len: nat, repl: string)

  /** A pattern together with its replacement template. */
  type Matcher = (string, nat) -> Option<Hit>

  /** The pattern tried at position `i` of `s`. */
  function At(m: Matcher, s: string, i: nat): Option<Hit>
  {
    m(s, i)
  }

  /** A usable, non-empty match at `i`. */
  predicate Fits(m: Matcher, s: string, i: nat)
  {
    var h := At(m, s, i);
    h.Some? && 0 < h.value.len && i + h.value.len <= |s|
  }

  /** `re.sub` from position `i` on: the leftmost match is replaced, the
      scan resumes after it; characters where no match starts are kept. */
  function SubFrom(m: Matcher, s: string, i: nat): string
    requires i <= |s|
    decreases |s| - i
  {
    if i == |s| then ""
    else if Fits(m, s, i) then At(m, s, i).value.repl + SubFrom(m, s, i + At(m, s, i).value.len)
    else [s[i]] + SubFrom(m, s, i + 1)
  }

  function Sub(m: Matcher, s: string): string
  {
    SubFrom(m, s, 0)
  }

  /** A replacement that writes back exactly the matched text leaves the
      string unchanged. */
  lemma {:induction false} SubIdentity(m: Matcher, s: string, i: nat)
    requires i <= |s|
    requires forall j :: i <= j < |s| && Fits(m, s, j) ==> At(m, s, j).value.repl == s[j..j + At(m, s, j).value.len]
    ensures SubFrom(m, s, i) == s[i..]
    decreases |s| - i
  {
    if i < |s| {
      if Fits(m, s, i) {
        SubIdentity(m, s, i + At(m, s, i).value.len);
        IdentityAtMatch(m, s, i);
      } else {
        SubIdentity(m, s, i + 1);
        IdentityNoMatch(m, s, i);
      }
    }
  }

  /** A match that writes back its own text, followed by an unchanged
      rest, leaves the text from `i` unchanged. */
  lemma IdentityAtMatch(m: Matcher, s: string, i: nat)
    requires i < |s| && Fits(m, s, i)
    requires At(m, s, i).value.repl == s[i..i + At(m, s, i).value.len]
    requires SubFrom(m, s, i + At(m, s, i).value.len) == s[i + At(m, s, i).value.len..]
    ensures SubFrom(m, s, i) == s[i..]
  {
    var n := At(m, s, i).value.len;
    assert s[i..] == s[i..i + n] + s[i + n..];
  }

  /** A kept character followed by an unchanged rest leaves the text from
      `i` unchanged. */
  lemma IdentityNoMatch(m: Matcher, s: string, i: nat)
    requires i < |s| && !Fits(m, s, i)
    requires SubFrom(m, s, i + 1) == s[i + 1..]
    ensures SubFrom(m, s, i) == s[i..]
  {
    assert s[i..] == [s[i]] + s[i + 1..];
  }

  /** If every occurrence of `c` starts a match and no replacement writes
      `c`, then `c` does not occur in the result. With no `c` in the input
      the first condition holds trivially, so this also says that a
      substitution never introduces a character its replacements do not
      write. */
  lemma {:induction false} SubRemoves(m: Matcher, s: string, i: nat, c: char)
    requires i <= |s|
    requires forall j :: i <= j < |s| && s[j] == c ==> Fits(m, s, j)
    requires forall j :: i <= j < |s| && Fits(m, s, j) ==> c !in At(m, s, j).value.repl
    ensures c !in SubFrom(m, s, i)
    decreases |s| - i
  {
    if i < |s| {
      if Fits(m, s, i) {
        SubRemoves(m, s, i + At(m, s, i).value.len, c);
      } else {
        SubRemoves(m, s, i + 1, c);
      }
    }
  }

  /** Index of the first position at or after `i` that does not hold `c`. */
  function RunEnd(s: string, i: nat, c: char): (e: nat)
    requires i <= |s|
    ensures i <= e <= |s|
    ensures forall j :: i <= j < e ==> s[j] == c
    ensures e < |s| ==> s[e] != c
    decreases |s| - i
  {
    if i < |s| && s[i] == c then RunEnd(s, i + 1, c) else i
  }

  /** A run of `c` that starts at `i` and stops at `e` ends at `e`. */
  lemma {:induction false} RunEndIs(s: string, i: nat, e: nat, c: char)
    requires i <= e <= |s|
    requires forall j :: i <= j < e ==> s[j] == c
    requires e < |s| ==> s[e] != c
    ensures RunEnd(s, i, c) == e
    decreases e - i
  {
    if i < e {
      RunEndIs(s, i + 1, e, c);
    }
  }

  /** The literal pattern `lit`, replaced by `repl`. */
  function Lit(lit: string, repl: string): Matcher
  {
    (s: string, i: nat) =>
      if 0 < |lit| && i + |lit| <= |s| && s[i..i + |lit|] == lit then Some(Hit(|lit|, repl)) else None
  }

  /** The pattern `c+` (a maximal run of `c`), replaced by `repl`. */
  function RunOf(c: char, repl: string): Matcher
  {
    (s: string, i: nat) =>
      if i < |s| && s[i] == c then Some(Hit(RunEnd(s, i, c) - i, repl)) else None
  }

  /** A one-character class, replaced by `repl`. */
  function OneOf(cs: set<char>, repl: string): Matcher
  {
    (s: string, i: nat) => if i < |s| && s[i] in cs then Some(Hit(1, repl)) else None
  }

  predicate NoDouble(s: string, c: char)
  {
    forall j :: 0 < j < |s| && s[j] == c ==> s[j - 1] != c
  }

  /** Replacing every run of `c` by a single `c` leaves no two adjacent
      `c`s; the result starts with `c` only where the input did. */
  lemma {:induction false} RunCollapse(s: string, i: nat, c: char)
    requires i <= |s|
    ensures NoDouble(SubFrom(RunOf(c, [c]), s, i), c)
    ensures |SubFrom(RunOf(c, [c]), s, i)| > 0 && SubFrom(RunOf(c, [c]), s, i)[0] == c ==> i < |s| && s[i] == c
    decreases |s| - i
  {
    var m := RunOf(c, [c]);
    if i < |s| {
      if Fits(m, s, i) {
        var e := RunEnd(s, i, c);
        RunCollapse(s, e, c);
        var rest := SubFrom(m, s, e);
        assert SubFrom(m, s, i) == [c] + rest;
      } else {
        RunCollapse(s, i + 1, c);
        var rest := SubFrom(m, s, i + 1);
        assert SubFrom(m, s, i) == [s[i]] + rest;
        assert s[i] != c;
      }
    }
  }

  /** Python's `$` without MULTILINE: the end of the text, or just before
      a newline that ends it. */
  predicate Dollar(s: string, k: nat)
  {
    k == |s| || (k + 1 == |s| && s[k] == '\n')
  }

  /** A substitution whose replacements are never longer than their
      matches does not lengthen the text. */
  lemma {:induction false} SubShrinks(m: Matcher, s: string, i: nat)
    requires i <= |s|
    requires forall j :: i <= j < |s| && Fits(m, s, j) ==> |At(m, s, j).value.repl| <= At(m, s, j).value.len
    ensures |SubFrom(m, s, i)| <= |s| - i
    decreases |s| - i
  {
    if i < |s| {
      if Fits(m, s, i) {
        SubShrinks(m, s, i + At(m, s, i).value.len);
      } else {
        SubShrinks(m, s, i + 1);
      }
    }
  }

  // -------------------------------------------------------------- templates

  /** The escapes a replacement template converts: `\a \b \f \n \r \t \v`
      and `\\`. */
  function Escaped(c: char): Option<char>
  {
    if c == 'a' then Some(7 as char)
    else if c == 'b' then Some(8 as char)
    else if c == 'f' then Some(12 as char)
    else if c == 'n' then Some('\n')
    else if c == 'r' then Some('\r')
    else if c == 't' then Some('\t')
    else if c == 'v' then Some(11 as char)
    else if c == '\\' then Some('\\')
    else None
  }

  predicate IsOctDigit(c: char)
  {
    '0' <= c <= '7'
  }

  function Oct(c: char): (d: nat)
    requires IsOctDigit(c)
    ensures d < 8
  {
    c as int - '0' as int
  }

  predicate IsAsciiLetter(c: char)
  {
    'a' <= c <= 'z' || 'A' <= c <= 'Z'
  }

  /** A group name that denotes group 0: ASCII digits, all zero. */
  predicate Zeros(name: string)
  {
    name != [] && forall k | 0 <= k < |name| :: name[k] == '0'
  }

  /** The first '>' at or after `j`, or the end of the text. */
  function NameEnd(t: string, j: nat): (e: nat)
    requires j <= |t|
    ensures j <= e <= |t| && (e < |t| ==> t[e] == '>')
    ensures forall k | j <= k < e :: t[k] != '>'
    decreases |t| - j
  {
    if j == |t| || t[j] == '>' then j else NameEnd(t, j + 1)
  }

  function Prepend(p: string, r: Option<string>): Option<string>
  {
    if r.Some? then Some(p + r.value) else None
  }

  /** The expansion, from position `i` on, of the replacement template `t`
      of a pattern without groups whose match is `whole`, as Python's
      template parser reads it: `None` wherever the parser raises. A
      trailing backslash, a letter escape it does not know, a reference to
      a group other than 0 and an octal escape above 0o377 are errors;
      `\g<0>` is the match; `\0` with up to two more octal digits, and
      three octal digits after the backslash, are the character with that
      code; a backslash before any other character is kept. */
  function TemplateFrom(whole: string, t: string, i: nat): Option<string>
    requires i <= |t|
    decreases |t| - i
  {
    if i == |t| then Some("")
    else if t[i] != '\\' then Prepend([t[i]], TemplateFrom(whole, t, i + 1))
    else if i + 1 == |t| then None
    else
      var c := t[i + 1];
      if c == 'g' then
        if i + 2 < |t| && t[i + 2] == '<' then
          var e := NameEnd(t, i + 3);
          if e < |t| && Zeros(t[i + 3..e]) then Prepend(whole, TemplateFrom(whole, t, e + 1)) else None
        else None
      else if c == '0' then
        if i + 2 < |t| && IsOctDigit(t[i + 2]) then
          if i + 3 < |t| && IsOctDigit(t[i + 3]) then
            Prepend([(Oct(t[i + 2]) * 8 + Oct(t[i + 3])) as char], TemplateFrom(whole, t, i + 4))
          else Prepend([Oct(t[i + 2]) as char], TemplateFrom(whole, t, i + 3))
        else Prepend([0 as char], TemplateFrom(whole, t, i + 2))
      else if '1' <= c <= '9' then
        if IsOctDigit(c) && i + 3 < |t| && IsOctDigit(t[i + 2]) && IsOctDigit(t[i + 3])
           && Oct(c) * 64 + Oct(t[i + 2]) * 8 + Oct(t[i + 3]) <= 255
        then Prepend([(Oct(c) * 64 + Oct(t[i + 2]) * 8 + Oct(t[i + 3])) as char], TemplateFrom(whole, t, i + 4))
        else None
      else if Escaped(c).Some? then Prepend([Escaped(c).value], TemplateFrom(whole, t, i + 2))
      else if IsAsciiLetter(c) then None
      else Prepend([t[i], c], TemplateFrom(whole, t, i + 2))
  }

  /** The replacement `re.sub` writes for a match `whole` of a pattern
      without groups, given the template `t`. */
  function Template(whole: string, t: string): Option<string>
  {
    TemplateFrom(whole, t, 0)
  }

  /** A template without a backslash is written as it stands. */
  lemma {:induction false} TemplatePlainFrom(whole: string, t: string, i: nat)
    requires i <= |t| && '\\' !in t
    ensures TemplateFrom(whole, t, i) == Some(t[i..])
    decreases |t| - i
  {
    if i < |t| {
      assert t[i] in t;
      TemplatePlainFrom(whole, t, i + 1);
      assert t[i..] == [t[i]] + t[i + 1..];
      assert TemplateFrom(whole, t, i).value == t[i..];
    } else {
      assert t[i..] == [];
    }
  }

  lemma TemplatePlain(whole: string, t: string)
    requires '\\' !in t
    ensures Template(whole, t) == Some(t)
  {
    TemplatePlainFrom(whole, t, 0);
  }

  /** A template that ends in a single backslash is an error, whatever
      precedes it. */
  lemma {:induction false} TemplateTrailingFrom(whole: string, t: string, i: nat)
    requires i <= |t| && '\\' !in t
    ensures TemplateFrom(whole, t + "\\", i) == None
    decreases |t| - i
  {
    var u := t + "\\";
    if i < |t| {
      assert u[i] == t[i];
      TemplateTrailingFrom(whole, t, i + 1);
    }
  }

  lemma TemplateTrailing(whole: string, t: string)
    requires '\\' !in t
    ensures Template(whole, t + "\\") == None
  {
    TemplateTrailingFrom(whole, t, 0);
  }

  /** Worked cases: `\g<0>` is the match, `\t` a tab, `\101` is 'A', a
      backslash before a character that is not a letter or digit is kept,
      and a group reference, an unknown letter escape or a trailing
      backslash is an error. */
  lemma TemplateExamples()
    ensures Template("NOAN", "a\\g<0>b") == Some("aNOANb")
    ensures Template("NOAN", "a\\tb") == Some("a\tb")
    ensures Template("NOAN", "\\101") == Some("A")
    ensures Template("NOAN", "\\-") == Some("\\-")
    ensures Template("NOAN", "\\1") == None
    ensures Template("NOAN", "\\q") == None
    ensures Template("NOAN", "\\g<1>") == None
    ensures Template("NOAN", "ab\\") == None
  {
    var g := "a\\g<0>b";
    assert TemplateFrom("NOAN", g, 6).value == "b";
    assert NameEnd(g, 4) == 5 && g[4..5] == "0";
    assert TemplateFrom("NOAN", g, 1).value == "NOANb";
    assert TemplateFrom("NOAN", g, 0).value == "aNOANb";
    var t := "a\\tb";
    assert TemplateFrom("NOAN", t, 3).value == "b";
    assert TemplateFrom("NOAN", t, 1).value == "\tb";
    assert TemplateFrom("NOAN", t, 0).value == "a\tb";
    assert TemplateFrom("NOAN", "\\101", 4) == Some("");
    assert TemplateFrom("NOAN", "\\101", 0).value == "A";
    assert TemplateFrom("NOAN", "\\-", 2) == Some("");
    assert TemplateFrom("NOAN", "\\-", 0).value == "\\-";
    var h := "\\g<1>";
    assert NameEnd(h, 3) == 4 && h[3..4] == "1";
    TemplateTrailing("NOAN", "ab");
    assert "ab" + "\\" == "ab\\";
  }
}
