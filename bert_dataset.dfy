/** The input side of the BERT disambiguator's dataset: sentences are
    wrapped with numeric ids, their words are cut into word pieces, the
    pieces are chunked into segments that fit the model's input length,
    and each segment is framed with the [CLS] and [SEP] tokens and padded.
    The word-piece tokenizer and its token-to-id table are functions the
    dataset is given. */
module BertDataset {
  import opened Wrappers

  // ------------------------------------------------------------ sentences

  function Digit(d: nat): (c: char)
    requires d < 10
    ensures '0' <= c <= '9'
  {
    (48 + d) as char
  }

  /** `f"{n}"` for a natural number. */
  function Decimal(n: nat): (r: string)
    ensures |r| >= 1 && forall i :: 0 <= i < |r| ==> '0' <= r[i] <= '9'
  {
    if n < 10 then [Digit(n)] else Decimal(n / 10) + [Digit(n % 10)]
  }

  /** The number a string of decimal digits denotes. */
  function DecimalValue(s: string): nat
    requires forall i :: 0 <= i < |s| ==> '0' <= s[i] <= '9'
  {
    if s == [] then 0 else 10 * DecimalValue(s[..|s| - 1]) + (s[|s| - 1] as int - 48)
  }

  /** Reading back a rendered number gives the number, so distinct
      sentences get distinct ids. */
  lemma {:induction false} DecimalRoundTrip(n: nat)
    ensures DecimalValue(Decimal(n)) == n
    decreases n
  {
    if n >= 10 {
      DecimalRoundTrip(n / 10);
      var r := Decimal(n);
      assert r[..|r| - 1] == Decimal(n / 10);
    }
  }

  lemma DecimalInjective(m: nat, n: nat)
    requires Decimal(m) == Decimal(n)
    ensures m == n
  {
    DecimalRoundTrip(m);
    DecimalRoundTrip(n);
  }

  /** `_PrepSentence`: an id, the words and one label per word. */
  datatype PrepSentence = PrepSentence(guid: string, words: seq<string>, labels: seq<string>)

  /** What `_prepare_sentences` builds: sentence `i` gets the id `i + 1`
      and the placeholder as the label of every word. */
  function Prepared(sentences: seq<seq<string>>, placeholder: string): (r: seq<PrepSentence>)
    ensures |r| == |sentences|
  {
    seq(|sentences|, i requires 0 <= i < |sentences| =>
      PrepSentence(Decimal(i + 1), sentences[i], seq(|sentences[i]|, _ => placeholder)))
  }

  /** The ids are pairwise distinct and read back as 1, 2, ... */
  lemma PreparedIds(sentences: seq<seq<string>>, placeholder: string)
    ensures forall i :: 0 <= i < |sentences| ==> DecimalValue(Prepared(sentences, placeholder)[i].guid) == i + 1
    ensures forall i, j :: 0 <= i < j < |sentences| ==>
      Prepared(sentences, placeholder)[i].guid != Prepared(sentences, placeholder)[j].guid
  {
    var r := Prepared(sentences, placeholder);
    forall i | 0 <= i < |sentences|
      ensures DecimalValue(r[i].guid) == i + 1
    {
      DecimalRoundTrip(i + 1);
    }
  }

  /** The loop of `_prepare_sentences`. */
  method PrepareSentences(sentences: seq<seq<string>>, placeholder: string) returns (prepared: seq<PrepSentence>)
    ensures prepared == Prepared(sentences, placeholder)
  {
    prepared := [];
    var guidIndex := 1;
    for i := 0 to |sentences|
      invariant guidIndex == i + 1
      invariant prepared == Prepared(sentences[..i], placeholder)
    {
      var words := sentences[i];
      var labels := seq(|words|, _ => placeholder);
      prepared := prepared + [PrepSentence(Decimal(guidIndex), words, labels)];
      guidIndex := guidIndex + 1;
    }
    assert sentences[..|sentences|] == sentences;
  }

  // ---------------------------------------------------------- word pieces

  /** The tokenizer as the dataset uses it. */
  datatype Tokenizer = Tokenizer(tokenize: string -> seq<string>, toId: string -> int,
                                 cls: string, sep: string, padId: int, padTypeId: int)

  /** `nn.CrossEntropyLoss().ignore_index`, the label id of every position
      that is not a word's first piece. */
  const PadLabelId: int := -100

  /** `label_map[l]` for `label_map = {label: i for i, label in
      enumerate(label_list)}`: the last position of `l`. */
  function LabelIndex(labelList: seq<string>, l: string): (i: nat)
    requires l in labelList
    ensures i < |labelList| && labelList[i] == l
    ensures forall j :: i < j < |labelList| ==> labelList[j] != l
  {
    if labelList[|labelList| - 1] == l then |labelList| - 1 else LabelIndex(labelList[..|labelList| - 1], l)
  }

  /** A word's pieces and their label ids. */
  datatype Word = Word(pieces: seq<string>, labelIds: seq<int>)

  /** Every label of a word with pieces is one the model knows. */
  predicate LabelsKnown(tk: Tokenizer, labelList: seq<string>, sent: PrepSentence)
  {
    forall i :: 0 <= i < |sent.words| && i < |sent.labels| && |tk.tokenize(sent.words[i])| > 0 ==>
      sent.labels[i] in labelList
  }

  /** The pieces of the first `n` (word, label) pairs of `zip(words,
      labels)`; words without pieces are skipped. */
  function WordsOf(tk: Tokenizer, labelList: seq<string>, padLabel: int, sent: PrepSentence, n: nat): (r: seq<Word>)
    requires n <= |sent.words| && n <= |sent.labels| && LabelsKnown(tk, labelList, sent)
    ensures forall k :: 0 <= k < |r| ==> |r[k].pieces| > 0 && |r[k].labelIds| == |r[k].pieces|
    ensures |r| <= n
  {
    if n == 0 then []
    else
      var pieces := tk.tokenize(sent.words[n - 1]);
      WordsOf(tk, labelList, padLabel, sent, n - 1)
        + if |pieces| > 0 then [Word(pieces, [LabelIndex(labelList, sent.labels[n - 1])] + seq(|pieces| - 1, _ => padLabel))]
          else []
  }

  function ZipLen(sent: PrepSentence): nat
  {
    if |sent.words| <= |sent.labels| then |sent.words| else |sent.labels|
  }

  /** Each kept word has its real label id on its first piece and the
      padding id on the others. */
  lemma {:induction false} WordLabels(tk: Tokenizer, labelList: seq<string>, padLabel: int, sent: PrepSentence, n: nat)
    requires n <= |sent.words| && n <= |sent.labels| && LabelsKnown(tk, labelList, sent)
    ensures forall w | w in WordsOf(tk, labelList, padLabel, sent, n) ::
      exists i :: 0 <= i < n && w.pieces == tk.tokenize(sent.words[i])
        && w.labelIds[0] == LabelIndex(labelList, sent.labels[i])
        && forall j :: 1 <= j < |w.labelIds| ==> w.labelIds[j] == padLabel
    decreases n
  {
    if n > 0 {
      WordLabels(tk, labelList, padLabel, sent, n - 1);
    }
  }

  // ------------------------------------------------------------- chunking

  /** All pieces of some words, in order. */
  function AllPieces(ws: seq<Word>): seq<string>
  {
    if ws == [] then [] else AllPieces(ws[..|ws| - 1]) + ws[|ws| - 1].pieces
  }

  function AllLabels(ws: seq<Word>): seq<int>
  {
    if ws == [] then [] else AllLabels(ws[..|ws| - 1]) + ws[|ws| - 1].labelIds
  }

  lemma AllPiecesAppend(a: seq<Word>, b: seq<Word>)
    ensures AllPieces(a + b) == AllPieces(a) + AllPieces(b)
    ensures AllLabels(a + b) == AllLabels(a) + AllLabels(b)
  {
    PiecesAppend(a, b);
    LabelsAppend(a, b);
  }

  lemma {:induction false} PiecesAppend(a: seq<Word>, b: seq<Word>)
    ensures AllPieces(a + b) == AllPieces(a) + AllPieces(b)
    decreases |b|
  {
    if b == [] {
      assert a + b == a;
    } else {
      var init := b[..|b| - 1];
      PiecesAppend(a, init);
      LastSplit(a, b);
      calc {
        AllPieces(a + b);
        AllPieces(a + init) + b[|b| - 1].pieces;
        AllPieces(a) + AllPieces(init) + b[|b| - 1].pieces;
        AllPieces(a) + AllPieces(b);
      }
    }
  }

  lemma {:induction false} LabelsAppend(a: seq<Word>, b: seq<Word>)
    ensures AllLabels(a + b) == AllLabels(a) + AllLabels(b)
    decreases |b|
  {
    if b == [] {
      assert a + b == a;
    } else {
      var init := b[..|b| - 1];
      LabelsAppend(a, init);
      LastSplit(a, b);
      calc {
        AllLabels(a + b);
        AllLabels(a + init) + b[|b| - 1].labelIds;
        AllLabels(a) + AllLabels(init) + b[|b| - 1].labelIds;
        AllLabels(a) + AllLabels(b);
      }
    }
  }

  lemma LastSplit(a: seq<Word>, b: seq<Word>)
    requires b != []
    ensures (a + b)[..|a + b| - 1] == a + b[..|b| - 1] && (a + b)[|a + b| - 1] == b[|b| - 1]
  {
  }

  /** The segments emitted so far and the segment being filled. */
  datatype Chunking = Chunking(done: seq<seq<Word>>, cur: seq<Word>)

  /** The chunking loop after the words `ws`: a word that would push the
      current segment past `bound` pieces closes it and starts the next
      one. */
  function Chunks(ws: seq<Word>, bound: int): Chunking
  {
    if ws == [] then Chunking([], [])
    else
      var c := Chunks(ws[..|ws| - 1], bound);
      var w := ws[|ws| - 1];
      if |AllPieces(c.cur)| + |w.pieces| > bound then Chunking(c.done + [c.cur], [w])
      else Chunking(c.done, c.cur + [w])
  }

  /** The segments of one sentence: a sentence without pieces gives one
      empty segment; otherwise the closed segments and the last one, if it
      holds pieces. */
  function Segments(ws: seq<Word>, bound: int): seq<seq<Word>>
  {
    if ws == [] then [[]]
    else
      var c := Chunks(ws, bound);
      c.done + if AllPieces(c.cur) != [] then [c.cur] else []
  }

  function Flatten(segs: seq<seq<Word>>): seq<Word>
  {
    if segs == [] then [] else Flatten(segs[..|segs| - 1]) + segs[|segs| - 1]
  }

  lemma {:induction false} FlattenAppend(a: seq<seq<Word>>, b: seq<Word>)
    ensures Flatten(a + [b]) == Flatten(a) + b
  {
    assert (a + [b])[..|a|] == a;
  }

  /** Chunking loses nothing and reorders nothing. */
  lemma {:induction false} ChunksCover(ws: seq<Word>, bound: int)
    ensures Flatten(Chunks(ws, bound).done) + Chunks(ws, bound).cur == ws
    decreases |ws|
  {
    if ws != [] {
      var init := ws[..|ws| - 1];
      var c := Chunks(init, bound);
      var w := ws[|ws| - 1];
      ChunksCover(init, bound);
      CoverStep(c.done, c.cur, ws, |AllPieces(c.cur)| + |w.pieces| > bound, Chunks(ws, bound));
    }
  }

  lemma CoverStep(done: seq<seq<Word>>, cur: seq<Word>, ws: seq<Word>, closed: bool, next: Chunking)
    requires ws != [] && Flatten(done) + cur == ws[..|ws| - 1]
    requires next == if closed then Chunking(done + [cur], [ws[|ws| - 1]]) else Chunking(done, cur + [ws[|ws| - 1]])
    ensures Flatten(next.done) + next.cur == ws
  {
    var w := ws[|ws| - 1];
    assert ws == ws[..|ws| - 1] + [w];
    if closed {
      FlattenAppend(done, cur);
    } else {
      assert Flatten(done) + (cur + [w]) == (Flatten(done) + cur) + [w];
    }
  }

  /** Once a word is in, the current segment has pieces. */
  lemma {:induction false} CurHasPieces(ws: seq<Word>, bound: int)
    requires ws != [] && forall k :: 0 <= k < |ws| ==> |ws[k].pieces| > 0
    ensures Chunks(ws, bound).cur != [] && AllPieces(Chunks(ws, bound).cur) != []
  {
    var c := Chunks(ws, bound);
    ChunksCover(ws[..|ws| - 1], bound);
    var pre := Chunks(ws[..|ws| - 1], bound);
    var w := ws[|ws| - 1];
    assert c.cur == [w] || c.cur == pre.cur + [w];
    assert AllPieces(c.cur) == AllPieces(c.cur[..|c.cur| - 1]) + w.pieces;
  }

  /** The segments hold exactly the sentence's words, in order; so the
      segments' pieces and label ids, concatenated, are those of the whole
      sentence. */
  lemma SegmentsCover(ws: seq<Word>, bound: int)
    requires forall k :: 0 <= k < |ws| ==> |ws[k].pieces| > 0
    ensures Flatten(Segments(ws, bound)) == ws
    ensures AllPieces(Flatten(Segments(ws, bound))) == AllPieces(ws)
  {
    if ws == [] {
      assert Flatten([[]]) == Flatten([]) + [];
    } else {
      ChunksCover(ws, bound);
      CurHasPieces(ws, bound);
      FlattenAppend(Chunks(ws, bound).done, Chunks(ws, bound).cur);
    }
  }

  /** The chunking invariant: a segment of two or more words fits the
      bound; only the first segment can be empty, and it is exactly when
      the first word alone is over-long. */
  ghost predicate ChunkShape(ws: seq<Word>, bound: int, c: Chunking)
  {
    && (forall k :: 0 <= k < |c.done| && |c.done[k]| >= 2 ==> |AllPieces(c.done[k])| <= bound)
    && (|c.cur| >= 2 ==> |AllPieces(c.cur)| <= bound)
    && (forall k :: 1 <= k < |c.done| ==> c.done[k] != [])
    && (ws != [] ==> c.cur != [] && (|ws[0].pieces| > bound <==> c.done != [] && c.done[0] == []))
  }

  lemma {:induction false} ChunksShape(ws: seq<Word>, bound: int)
    requires forall k :: 0 <= k < |ws| ==> |ws[k].pieces| > 0
    ensures ChunkShape(ws, bound, Chunks(ws, bound))
    decreases |ws|
  {
    if ws != [] {
      var init := ws[..|ws| - 1];
      var c := Chunks(init, bound);
      var w := ws[|ws| - 1];
      ChunksShape(init, bound);
      if |AllPieces(c.cur)| + |w.pieces| <= bound {
        AllPiecesAppend(c.cur, [w]);
        assert AllPieces([w]) == [] + w.pieces;
      }
      if init != [] {
        assert init[0] == ws[0];
      } else {
        assert c.cur == [] && c.done == [];
      }
    }
  }

  /** The bound on the emitted segments. */
  lemma SegmentsShape(ws: seq<Word>, bound: int)
    requires forall k :: 0 <= k < |ws| ==> |ws[k].pieces| > 0
    ensures forall k :: 0 <= k < |Segments(ws, bound)| && |Segments(ws, bound)[k]| >= 2 ==>
      |AllPieces(Segments(ws, bound)[k])| <= bound
    ensures forall k :: 1 <= k < |Segments(ws, bound)| ==> Segments(ws, bound)[k] != []
    ensures ws != [] ==> (Segments(ws, bound)[0] == [] <==> |ws[0].pieces| > bound)
  {
    if ws != [] {
      ChunksShape(ws, bound);
      CurHasPieces(ws, bound);
    }
  }

  // -------------------------------------------------------- special tokens

  /** `[x] * n`, which is empty for a negative `n`. */
  function Repeat<T>(x: T, n: int): (r: seq<T>)
    ensures |r| == if n <= 0 then 0 else n
    ensures forall i :: 0 <= i < |r| ==> r[i] == x
  {
    if n <= 0 then [] else seq(n, _ => x)
  }

  /** The four model inputs of one segment. */
  datatype Encoding = Encoding(inputIds: seq<int>, attentionMask: seq<int>, tokenTypeIds: seq<int>, labelIds: seq<int>)

  /** The settings `_add_special_tokens` is called with. */
  datatype Framing = Framing(maxSeqLength: int, clsSegmentId: int, padSegmentId: int, padLabelId: int,
                             sequenceASegmentId: int, maskPaddingWithZero: bool)

  /** `_add_special_tokens`: [CLS], the tokens, [SEP], then padding up to
      the maximum length. */
  function AddSpecialTokens(tk: Tokenizer, fr: Framing, tokens: seq<string>, labelIds: seq<int>): (r: Encoding)
    ensures |tokens| == |labelIds| ==>
      |r.inputIds| == |r.attentionMask| == |r.tokenTypeIds| == |r.labelIds|
    ensures |tokens| <= fr.maxSeqLength - 2 ==> |r.inputIds| == fr.maxSeqLength
    ensures |r.inputIds| >= |tokens| + 2
    ensures r.inputIds[0] == tk.toId(tk.cls) && r.inputIds[|tokens| + 1] == tk.toId(tk.sep)
    ensures forall i :: 0 <= i < |tokens| ==> r.inputIds[i + 1] == tk.toId(tokens[i])
    ensures forall i :: |tokens| + 2 <= i < |r.inputIds| ==> r.inputIds[i] == tk.padId
    ensures |r.labelIds| >= |labelIds| + 2 && r.labelIds[0] == fr.padLabelId && r.labelIds[|labelIds| + 1] == fr.padLabelId
    ensures r.labelIds[1..|labelIds| + 1] == labelIds
    ensures forall i :: |labelIds| + 2 <= i < |r.labelIds| ==> r.labelIds[i] == fr.padLabelId
    ensures fr.maskPaddingWithZero ==> forall i :: 0 <= i < |r.attentionMask| ==>
      r.attentionMask[i] == if i < |tokens| + 2 then 1 else 0
  {
    var framed := [tk.cls] + tokens + [tk.sep];
    var labels := [fr.padLabelId] + labelIds + [fr.padLabelId];
    var segmentIds := [fr.clsSegmentId] + Repeat(fr.sequenceASegmentId, |tokens| + 1);
    var inputIds := seq(|framed|, i requires 0 <= i < |framed| => tk.toId(framed[i]));
    var mask := Repeat(if fr.maskPaddingWithZero then 1 else 0, |inputIds|);
    var padding := fr.maxSeqLength - |inputIds|;
    Encoding(inputIds + Repeat(tk.padId, padding),
             mask + Repeat(if fr.maskPaddingWithZero then 0 else 1, padding),
             segmentIds + Repeat(fr.padSegmentId, padding),
             labels + Repeat(fr.padLabelId, padding))
  }

  /** One entry of the dataset: a segment's inputs and its sentence's
      index. */
  datatype Feature = Feature(encoding: Encoding, sentId: nat)

  /** The features of one sentence. */
  function SentenceFeatures(tk: Tokenizer, labelList: seq<string>, fr: Framing, sent: PrepSentence, sentId: nat)
    : (r: seq<Feature>)
    requires LabelsKnown(tk, labelList, sent)
    ensures forall k :: 0 <= k < |r| ==> r[k].sentId == sentId
    ensures WordsOf(tk, labelList, fr.padLabelId, sent, ZipLen(sent)) == [] ==> |r| == 1
  {
    var ws := WordsOf(tk, labelList, fr.padLabelId, sent, ZipLen(sent));
    var segs := Segments(ws, fr.maxSeqLength - 2);
    seq(|segs|, k requires 0 <= k < |segs| =>
      Feature(AddSpecialTokens(tk, fr, AllPieces(segs[k]), AllLabels(segs[k])), sentId))
  }

  predicate AllLabelsKnown(tk: Tokenizer, labelList: seq<string>, sents: seq<PrepSentence>)
  {
    forall i :: 0 <= i < |sents| ==> LabelsKnown(tk, labelList, sents[i])
  }

  /** `_featurize_input`: the features of every sentence, sentence by
      sentence. */
  function Featurize(tk: Tokenizer, labelList: seq<string>, fr: Framing, sents: seq<PrepSentence>): seq<Feature>
    requires AllLabelsKnown(tk, labelList, sents)
  {
    if sents == [] then []
    else
      var init := Featurize(tk, labelList, fr, sents[..|sents| - 1]);
      init + SentenceFeatures(tk, labelList, fr, sents[|sents| - 1], |sents| - 1)
  }

  /** Every sentence contributes at least one feature, and every feature
      names a sentence that exists. */
  lemma {:induction false} FeaturizeCovers(tk: Tokenizer, labelList: seq<string>, fr: Framing, sents: seq<PrepSentence>)
    requires AllLabelsKnown(tk, labelList, sents)
    ensures |Featurize(tk, labelList, fr, sents)| >= |sents|
    ensures forall k :: 0 <= k < |Featurize(tk, labelList, fr, sents)| ==>
      Featurize(tk, labelList, fr, sents)[k].sentId < |sents|
    decreases |sents|
  {
    if sents != [] {
      var init := sents[..|sents| - 1];
      assert AllLabelsKnown(tk, labelList, init);
      FeaturizeCovers(tk, labelList, fr, init);
      var sent := sents[|sents| - 1];
      var ws := WordsOf(tk, labelList, fr.padLabelId, sent, ZipLen(sent));
      if ws != [] {
        CurHasPieces(ws, fr.maxSeqLength - 2);
      }
    }
  }

  // --------------------------------------------------------------- methods

  /** The word-piece loop over `zip(words, labels)`. */
  method SentenceWords(tk: Tokenizer, labelList: seq<string>, padLabel: int, sent: PrepSentence)
    returns (ws: seq<Word>)
    requires LabelsKnown(tk, labelList, sent)
    ensures ws == WordsOf(tk, labelList, padLabel, sent, ZipLen(sent))
  {
    ws := [];
    for i := 0 to ZipLen(sent)
      invariant ws == WordsOf(tk, labelList, padLabel, sent, i)
    {
      var pieces := tk.tokenize(sent.words[i]);
      if |pieces| > 0 {
        ws := ws + [Word(pieces, [LabelIndex(labelList, sent.labels[i])] + Repeat(padLabel, |pieces| - 1))];
      }
    }
  }

  /** One step of the chunking loop, on the text the loop keeps. */
  lemma ChunkStep(ws: seq<Word>, bound: int, i: nat)
    requires i < |ws|
    ensures var c := Chunks(ws[..i], bound);
      var w := ws[i];
      if |AllPieces(c.cur)| + |w.pieces| > bound then
        Chunks(ws[..i + 1], bound) == Chunking(c.done + [c.cur], [w])
        && AllPieces([w]) == w.pieces && AllLabels([w]) == w.labelIds
      else
        Chunks(ws[..i + 1], bound) == Chunking(c.done, c.cur + [w])
        && AllPieces(c.cur + [w]) == AllPieces(c.cur) + w.pieces
        && AllLabels(c.cur + [w]) == AllLabels(c.cur) + w.labelIds
  {
    assert ws[..i + 1][..i] == ws[..i];
    var c := Chunks(ws[..i], bound);
    var w := ws[i];
    assert AllPieces([w]) == AllPieces([]) + w.pieces;
    assert AllLabels([w]) == AllLabels([]) + w.labelIds;
    assert (c.cur + [w])[..|c.cur|] == c.cur;
  }

  /** The chunking loop over the words of a sentence: the features of the
      closed segments and the pieces and label ids of the open one. */
  method ChunkWords(tk: Tokenizer, fr: Framing, ws: seq<Word>, sentId: nat)
    returns (features: seq<Feature>, tokenSegment: seq<string>, labelSegment: seq<int>)
    ensures features == Encoded(tk, fr, Chunks(ws, fr.maxSeqLength - 2).done, sentId)
    ensures tokenSegment == AllPieces(Chunks(ws, fr.maxSeqLength - 2).cur)
    ensures labelSegment == AllLabels(Chunks(ws, fr.maxSeqLength - 2).cur)
  {
    var bound := fr.maxSeqLength - 2;
    features := [];
    tokenSegment := [];
    labelSegment := [];
    var numWordPieces := 0;
    for i := 0 to |ws|
      invariant numWordPieces == |tokenSegment|
      invariant tokenSegment == AllPieces(Chunks(ws[..i], bound).cur)
      invariant labelSegment == AllLabels(Chunks(ws[..i], bound).cur)
      invariant features == Encoded(tk, fr, Chunks(ws[..i], bound).done, sentId)
    {
      var w := ws[i];
      ChunkStep(ws, bound, i);
      if numWordPieces + |w.pieces| > bound {
        EncodedSnoc(tk, fr, Chunks(ws[..i], bound).done, Chunks(ws[..i], bound).cur, sentId);
        features := features + [Feature(AddSpecialTokens(tk, fr, tokenSegment, labelSegment), sentId)];
        tokenSegment := w.pieces;
        labelSegment := w.labelIds;
        numWordPieces := |w.pieces|;
      } else {
        tokenSegment := tokenSegment + w.pieces;
        labelSegment := labelSegment + w.labelIds;
        numWordPieces := numWordPieces + |w.pieces|;
      }
    }
    assert ws[..|ws|] == ws;
  }

  /** The features of one sentence, from its words. */
  method ChunkSentence(tk: Tokenizer, labelList: seq<string>, fr: Framing, sent: PrepSentence, sentId: nat)
    returns (features: seq<Feature>)
    requires LabelsKnown(tk, labelList, sent)
    ensures features == SentenceFeatures(tk, labelList, fr, sent, sentId)
  {
    var ws := SentenceWords(tk, labelList, fr.padLabelId, sent);
    SentenceFeaturesEncoded(tk, labelList, fr, sent, sentId);
    if |ws| == 0 {
      EncodedEmptySegment(tk, fr, sentId);
      return [Feature(AddSpecialTokens(tk, fr, [], []), sentId)];
    }
    var tokenSegment, labelSegment;
    features, tokenSegment, labelSegment := ChunkWords(tk, fr, ws, sentId);
    var c := Chunks(ws, fr.maxSeqLength - 2);
    if |tokenSegment| > 0 {
      EncodedSnoc(tk, fr, c.done, c.cur, sentId);
      features := features + [Feature(AddSpecialTokens(tk, fr, tokenSegment, labelSegment), sentId)];
    } else {
      assert c.done + [] == c.done;
    }
  }

  /** A sentence's features are the features of its segments. */
  lemma SentenceFeaturesEncoded(tk: Tokenizer, labelList: seq<string>, fr: Framing, sent: PrepSentence, sentId: nat)
    requires LabelsKnown(tk, labelList, sent)
    ensures SentenceFeatures(tk, labelList, fr, sent, sentId)
         == Encoded(tk, fr, Segments(WordsOf(tk, labelList, fr.padLabelId, sent, ZipLen(sent)), fr.maxSeqLength - 2), sentId)
  {
  }

  /** The single empty segment gives the feature of no tokens. */
  lemma EncodedEmptySegment(tk: Tokenizer, fr: Framing, sentId: nat)
    ensures Encoded(tk, fr, [[]], sentId) == [Feature(AddSpecialTokens(tk, fr, [], []), sentId)]
  {
    assert AllPieces([]) == [] && AllLabels([]) == [];
  }

  /** The features of a list of segments. */
  function Encoded(tk: Tokenizer, fr: Framing, segs: seq<seq<Word>>, sentId: nat): (r: seq<Feature>)
    ensures |r| == |segs|
    ensures forall k :: 0 <= k < |segs| ==> r[k] == Feature(AddSpecialTokens(tk, fr, AllPieces(segs[k]), AllLabels(segs[k])), sentId)
  {
    seq(|segs|, k requires 0 <= k < |segs| => Feature(AddSpecialTokens(tk, fr, AllPieces(segs[k]), AllLabels(segs[k])), sentId))
  }

  lemma EncodedSnoc(tk: Tokenizer, fr: Framing, segs: seq<seq<Word>>, seg: seq<Word>, sentId: nat)
    ensures Encoded(tk, fr, segs + [seg], sentId) ==
      Encoded(tk, fr, segs, sentId) + [Feature(AddSpecialTokens(tk, fr, AllPieces(seg), AllLabels(seg)), sentId)]
  {
  }

  /** The loop over the sentences. */
  method FeaturizeInput(tk: Tokenizer, labelList: seq<string>, fr: Framing, sents: seq<PrepSentence>)
    returns (features: seq<Feature>)
    requires AllLabelsKnown(tk, labelList, sents)
    ensures features == Featurize(tk, labelList, fr, sents)
  {
    features := [];
    for sentId := 0 to |sents|
      invariant AllLabelsKnown(tk, labelList, sents[..sentId])
      invariant features == Featurize(tk, labelList, fr, sents[..sentId])
    {
      assert sents[..sentId + 1][..sentId] == sents[..sentId];
      var more := ChunkSentence(tk, labelList, fr, sents[sentId], sentId);
      features := features + more;
    }
    assert sents[..|sents|] == sents;
  }

  // --------------------------------------------------------------- dataset

  /** `MorphDataset`: the features of the sentences, with every word
      labelled by the first label, and list-style access to them. */
  class MorphDataset {
    var features: seq<Feature>

    constructor (sentences: seq<seq<string>>, tk: Tokenizer, labels: seq<string>, maxSeqLength: int)
      requires |labels| > 0
      ensures features == Featurize(tk, labels, Framing(maxSeqLength, 0, tk.padTypeId, PadLabelId, 0, true),
                                    Prepared(sentences, labels[0]))
    {
      var prepared := PrepareSentences(sentences, labels[0]);
      PlaceholderKnown(tk, labels, sentences);
      var fs := FeaturizeInput(tk, labels, Framing(maxSeqLength, 0, tk.padTypeId, PadLabelId, 0, true), prepared);
      features := fs;
    }

    /** `len(dataset)` */
    function Len(): (n: nat)
      reads this
      ensures n == |features|
    {
      |features|
    }

    /** `dataset[i]`, with Python's negative indices counting from the
      end; `None` stands for the `IndexError` of an index out of range. */
    function GetItem(i: int): (f: Option<Feature>)
      reads this
      ensures f.None? <==> i < -|features| || |features| <= i
      ensures f.Some? ==> f.value in features
      ensures 0 <= i < |features| ==> f == Some(features[i])
      ensures -|features| <= i < 0 ==> f == Some(features[|features| + i])
    {
      if 0 <= i < |features| then Some(features[i])
      else if -|features| <= i < 0 then Some(features[|features| + i])
      else None
    }
  }

  /** Every word of a prepared sentence carries the first label, which the
      label list holds. */
  lemma PlaceholderKnown(tk: Tokenizer, labels: seq<string>, sentences: seq<seq<string>>)
    requires |labels| > 0
    ensures AllLabelsKnown(tk, labels, Prepared(sentences, labels[0]))
  {
    var p := Prepared(sentences, labels[0]);
    forall i | 0 <= i < |p|
      ensures LabelsKnown(tk, labels, p[i])
    {
      assert forall j :: 0 <= j < |p[i].labels| ==> p[i].labels[j] == labels[0];
    }
  }
}
