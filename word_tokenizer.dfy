/** `simple_word_tokenize`: `re.findall` with the pattern
    `[<punctuation and symbols>]|\w+`. The two character classes are
    parameters: `isPunc` for the Unicode punctuation and symbol categories
    and `isWord` for `\w`. At each position the regex tries one punctuation
    character first, then the longest run of word characters, and otherwise
    moves on by one character. */
module WordTokenizer {
  import opened PyStr

  /** Length of the leading run of word characters (`\w+` is greedy). */
  function WordRun(isWord: char -> bool, s: string): (n: nat)
    ensures n <= |s|
    ensures forall j :: 0 <= j < n ==> isWord(s[j])
    ensures n < |s| ==> !isWord(s[n])
  {
    if s == [] || !isWord(s[0]) then 0 else 1 + WordRun(isWord, s[1..])
  }

  /** A token the pattern can produce. */
  predicate IsToken(isPunc: char -> bool, isWord: char -> bool, t: string)
  {
    (|t| == 1 && isPunc(t[0])) || (|t| > 0 && forall j :: 0 <= j < |t| ==> isWord(t[j]))
  }

  /** The tokens of `s`, left to right. */
  function Tokenize(isPunc: char -> bool, isWord: char -> bool, s: string): seq<string>
    decreases |s|
  {
    if s == [] then []
    else if isPunc(s[0]) then [s[..1]] + Tokenize(isPunc, isWord, s[1..])
    else if isWord(s[0]) then
      var n := WordRun(isWord, s);
      [s[..n]] + Tokenize(isPunc, isWord, s[n..])
    else Tokenize(isPunc, isWord, s[1..])
  }

  /** Each token is a single punctuation or symbol character or a
      non-empty run of word characters. */
  lemma {:induction false} TokensWellFormed(isPunc: char -> bool, isWord: char -> bool, s: string)
    ensures forall k :: 0 <= k < |Tokenize(isPunc, isWord, s)| ==> IsToken(isPunc, isWord, Tokenize(isPunc, isWord, s)[k])
    decreases |s|
  {
    if s == [] {
    } else if isPunc(s[0]) {
      TokensWellFormed(isPunc, isWord, s[1..]);
    } else if isWord(s[0]) {
      TokensWellFormed(isPunc, isWord, s[WordRun(isWord, s)..]);
    } else {
      TokensWellFormed(isPunc, isWord, s[1..]);
    }
  }

  /** The characters of `s` the pattern can match, in order. */
  function Kept(isPunc: char -> bool, isWord: char -> bool, s: string): (r: string)
    ensures |r| <= |s|
  {
    if s == [] then []
    else (if isPunc(s[0]) || isWord(s[0]) then [s[0]] else []) + Kept(isPunc, isWord, s[1..])
  }

  lemma {:induction false} KeptOfWords(isPunc: char -> bool, isWord: char -> bool, s: string, n: nat)
    requires n <= |s| && forall j :: 0 <= j < n ==> isWord(s[j])
    ensures Kept(isPunc, isWord, s) == s[..n] + Kept(isPunc, isWord, s[n..])
    decreases n
  {
    if n > 0 {
      KeptOfWords(isPunc, isWord, s[1..], n - 1);
      assert s[1..][n - 1..] == s[n..];
      assert s[..n] == [s[0]] + s[1..][..n - 1];
    }
  }

  /** Nothing is reordered and only unmatched characters are lost: the
      tokens concatenated are the input with every character that is
      neither punctuation nor a word character removed. */
  lemma {:induction false} TokenizeKeeps(isPunc: char -> bool, isWord: char -> bool, s: string)
    ensures Concat(Tokenize(isPunc, isWord, s)) == Kept(isPunc, isWord, s)
    decreases |s|
  {
    if s == [] {
    } else if isPunc(s[0]) {
      TokenizeKeeps(isPunc, isWord, s[1..]);
      assert s[..1] == [s[0]];
    } else if isWord(s[0]) {
      var n := WordRun(isWord, s);
      TokenizeKeeps(isPunc, isWord, s[n..]);
      KeptOfWords(isPunc, isWord, s, n);
    } else {
      TokenizeKeeps(isPunc, isWord, s[1..]);
    }
  }

  /** Whitespace is neither punctuation nor a word character, so no token
      holds any. */
  lemma TokensHaveNoSpace(isPunc: char -> bool, isWord: char -> bool, s: string)
    requires forall c :: IsSpace(c) ==> !isPunc(c) && !isWord(c)
    ensures forall k :: 0 <= k < |Tokenize(isPunc, isWord, s)| ==> NoSpace(Tokenize(isPunc, isWord, s)[k])
  {
    TokensWellFormed(isPunc, isWord, s);
  }

  /** The documented example: 'Hello, world!!!' gives 'Hello', ',',
      'world' and three '!', for any classes that put the letters among
      the word characters and the comma and the exclamation mark among the
      punctuation. */
  lemma {:induction false} HelloWorld(isPunc: char -> bool, isWord: char -> bool)
    requires isWord('H') && isWord('e') && isWord('l') && isWord('o') && isWord('w') && isWord('r') && isWord('d')
    requires !isPunc('H') && !isPunc('w')
    requires isPunc(',') && isPunc('!') && !isWord(',') && !isWord('!')
    requires !isPunc(' ') && !isWord(' ')
    ensures Tokenize(isPunc, isWord, "Hello, world!!!") == ["Hello", ",", "world", "!", "!", "!"]
  {
    Bangs(isPunc, isWord);
    WorldStep(isPunc, isWord);
    CommaStep(isPunc, isWord);
    HelloStep(isPunc, isWord);
    Chain(Tokenize(isPunc, isWord, "Hello, world!!!"), Tokenize(isPunc, isWord, ", world!!!"),
          Tokenize(isPunc, isWord, "world!!!"), Tokenize(isPunc, isWord, "!!!"));
  }

  lemma Chain(t0: seq<string>, t1: seq<string>, t2: seq<string>, t3: seq<string>)
    requires t3 == ["!", "!", "!"] && t2 == ["world"] + t3 && t1 == [","] + t2 && t0 == ["Hello"] + t1
    ensures t0 == ["Hello", ",", "world", "!", "!", "!"]
  {
  }

  lemma Bangs(isPunc: char -> bool, isWord: char -> bool)
    requires isPunc('!')
    ensures Tokenize(isPunc, isWord, "!!!") == ["!", "!", "!"]
  {
    PuncStep(isPunc, isWord, "!");
    PuncStep(isPunc, isWord, "!!");
    assert "!!"[1..] == "!";
    PuncStep(isPunc, isWord, "!!!");
    assert "!!!"[1..] == "!!";
  }

  lemma WorldStep(isPunc: char -> bool, isWord: char -> bool)
    requires isWord('o') && isWord('w') && isWord('r') && isWord('l') && isWord('d')
    requires !isPunc('w') && !isWord('!')
    ensures Tokenize(isPunc, isWord, "world!!!") == ["world"] + Tokenize(isPunc, isWord, "!!!")
  {
    assert "world" == ['w', 'o', 'r', 'l', 'd'];
    assert "world!!!" == "world" + "!!!";
    WordThen(isPunc, isWord, "world", "!!!");
  }

  lemma CommaStep(isPunc: char -> bool, isWord: char -> bool)
    requires isPunc(',') && !isPunc(' ') && !isWord(' ')
    ensures Tokenize(isPunc, isWord, ", world!!!") == [","] + Tokenize(isPunc, isWord, "world!!!")
  {
    var c := ", world!!!";
    assert c[0] == ',' && c[1] == ' ';
    PuncStep(isPunc, isWord, c);
    SkipStep(isPunc, isWord, c[1..]);
    assert c[2..] == "world!!!";
  }

  lemma HelloStep(isPunc: char -> bool, isWord: char -> bool)
    requires isWord('H') && isWord('e') && isWord('l') && isWord('o') && !isPunc('H') && !isWord(',')
    ensures Tokenize(isPunc, isWord, "Hello, world!!!") == ["Hello"] + Tokenize(isPunc, isWord, ", world!!!")
  {
    assert "Hello" == ['H', 'e', 'l', 'l', 'o'];
    assert ", world!!!"[0] == ',';
    assert "Hello, world!!!" == "Hello" + ", world!!!";
    WordThen(isPunc, isWord, "Hello", ", world!!!");
  }

  /** A word followed by text that does not continue it is one token. */
  lemma WordThen(isPunc: char -> bool, isWord: char -> bool, w: string, rest: string)
    requires w != [] && !isPunc(w[0]) && (forall j :: 0 <= j < |w| ==> isWord(w[j]))
    requires rest != [] ==> !isWord(rest[0])
    ensures Tokenize(isPunc, isWord, w + rest) == [w] + Tokenize(isPunc, isWord, rest)
  {
    var s := w + rest;
    assert s[..|w|] == w && s[|w|..] == rest;
    WordRunStep(isPunc, isWord, s, |w|);
  }

  lemma PuncStep(isPunc: char -> bool, isWord: char -> bool, s: string)
    requires s != [] && isPunc(s[0])
    ensures Tokenize(isPunc, isWord, s) == [[s[0]]] + Tokenize(isPunc, isWord, s[1..])
  {
    assert s[..1] == [s[0]];
  }

  lemma WordRunStep(isPunc: char -> bool, isWord: char -> bool, s: string, n: nat)
    requires 0 < n <= |s| && !isPunc(s[0]) && (forall j :: 0 <= j < n ==> isWord(s[j])) && (n < |s| ==> !isWord(s[n]))
    ensures Tokenize(isPunc, isWord, s) == [s[..n]] + Tokenize(isPunc, isWord, s[n..])
  {
    WordRunIs(isWord, s, n);
  }

  lemma SkipStep(isPunc: char -> bool, isWord: char -> bool, s: string)
    requires s != [] && !isPunc(s[0]) && !isWord(s[0])
    ensures Tokenize(isPunc, isWord, s) == Tokenize(isPunc, isWord, s[1..])
  {
  }

  /** A run of exactly `n` word characters. */
  lemma {:induction false} WordRunIs(isWord: char -> bool, s: string, n: nat)
    requires n <= |s| && (forall j :: 0 <= j < n ==> isWord(s[j])) && (n < |s| ==> !isWord(s[n]))
    ensures WordRun(isWord, s) == n
    decreases n
  {
    if n > 0 {
      WordRunIs(isWord, s[1..], n - 1);
    }
  }
}
