# CAMeL Tools core, modelled in Dafny

This project models the core of CAMeL Tools, a toolkit for Arabic natural language processing.
Its centre is the morphological analysis engine. The engine exists in two generations that share
one architecture: the current `camel_tools/morphology` and the legacy `camel_tools/calima_star`.
The model covers both, on shared datatypes, and marks each place where they differ.

- **Database loader** (`database.dfy`, module `Database`). The `.db` text format is read section
  by section: DEFINES, DEFAULTS, ORDER, TOKENIZATIONS or STEMBACKOFF, PREFIXES, SUFFIXES, STEMS,
  and TABLE AB/BC/AC. The loader fills the prefix, suffix, stem, category and lemma tables and the
  three compatibility tables, and records the longest prefix and suffix. Every parse error of the
  source is a `Failure` value. The file is given as a sequence of lines.
- **Segmentation and analysis** (`segments.dfy`, `analyzer.dfy`). A stripped word is classified
  as digit, punctuation, has-punctuation, foreign or Arabic. An Arabic word is split into every
  bounded prefix/stem/suffix triple, and each piece is looked up. Compatible triples are merged and
  spelling variants are marked 'spvar'. The NOAN backoff pass puts the stem text into placeholder
  stem entries. The nested loops of `_combined_analyses` and `_combined_backoff_analyses` are
  methods proved against recursive specification functions. Membership lemmas state both
  directions of "an analysis is returned exactly when a compatible triple yields it"; for the
  backoff this holds for placeholder stems whose first substitution leaves no 'NOAN' behind (see
  "Left out"). The stem text is read as an `re.sub` replacement template, and a malformed one
  makes `analyze` raise.
- **Feature merging and orthographic rewriting** (`morph_merge.dfy`, `calima_merge.dfy`,
  `morph_rewrite.dfy`, `calima_rewrite.dfy`). Override precedence is prefix, then suffix, then stem.
  The model builds the join, concat and tokenization features and runs the fixed regular-expression
  pipelines `rewrite_diac`, `rewrite_caphi`, `rewrite_tok_1/2`, `rewrite_pattern` and
  `normalize_tanwyn`. `normalize_tanwyn` writes back exactly what each of its patterns matched, so
  in both engines it is the identity; the model proves this.
- **Reinflection and generation** (`reinflection.dfy`, `reinflector.dfy`, `calima_reinflector.dfy`,
  `calima_generator.dfy`). These validate requested features, rebuild the generation features
  from each analysis, and merge compatible prefix/stem/suffix entries in the legacy generator.
- **String utilities**:
  - `CharMapper` range expansion and per-character mapping (`charmap.dfy`);
  - the marker-aware `Transliterator` in its two copies (`transliterate.dfy`);
  - the Arabic, Buckwalter and HSB normalisers (`normalize.dfy`);
  - the de-diacritisers (`dediac.dfy`).
- **Helpers around the engine**:
  - the word tokenizer and the morphological tokenizer;
  - the feature-match score;
  - BERT input chunking and padding;
  - catalogue dependency closure and lookups;
  - the command-line line parsers, the analysis serialiser and marked-token de-diacritisation.

Shared modules supply the rest:
- `Regex`: left-to-right, non-overlapping `re.sub`;
- `PyStr`: `str.split`, `str.strip` and whitespace splitting;
- `SetOrder`: a fixed order in which a Python set is iterated;
- `Features` and `Charsets`: feature values and the character sets, taken from their code points.

Python exceptions the source raises on purpose become `Result` failures. A `KeyError` or
`IndexError` that the source leaves uncaught becomes a precondition of the member that would raise
it, as listed below.

## Model

| member | source | states |
|---|---|---|
| Dediac.Delete | camel_tools/utils/dediac.py:39-53 | deleting a character class never lengthens the string and leaves no character of the class |
| Dediac.DediacAr | camel_tools/utils/dediac.py:108-118 | the result holds no Arabic diacritic (U+064B-U+0652, U+0670); the command-line tool's `_dediac` (camel_tools/cli/camel_morphology.py:97-105) is the same deletion |
| Dediac.DediacBw | camel_tools/utils/dediac.py:56-66 | the result holds none of `FKN\`aiou~` |
| Dediac.DediacSafeBw | camel_tools/utils/dediac.py:69-79 | the result holds none of `FKNaeiou~` |
| Dediac.DediacXmlBw | camel_tools/utils/dediac.py:82-92 | the result holds none of the XML Buckwalter diacritics |
| Dediac.DediacHsb | camel_tools/utils/dediac.py:95-105 | the result holds none of the HSB diacritics |
| Dediac.DeleteAppend | camel_tools/utils/dediac.py:51-53 | deletion distributes over concatenation |
| Dediac.DeleteOne | camel_tools/utils/dediac.py:51-53 | one character is deleted exactly when it is in the class, kept otherwise |
| Dediac.DeleteNone | camel_tools/utils/dediac.py:56-118 | a string without diacritics is returned unchanged |
| Dediac.DeleteIdempotent | camel_tools/utils/dediac.py:56-118 | de-diacritising twice equals de-diacritising once |
| Dediac.DeleteKeepsOthers | camel_tools/utils/dediac.py:108-118 | every non-diacritic character is kept, in place between the results of its two sides |
| Dediac.DediacArExample | camel_tools/utils/dediac.py:108-118 | kataba with fathas loses exactly its three fathas |
| Normalize.ReplaceChars | camel_tools/utils/normalize.py:63-270 | the result has the input's length; each character of the source class becomes the target, every other character is kept |
| Normalize.NormalizeIdempotent | camel_tools/utils/normalize.py:63-270 | when the target is outside the source class, normalising twice equals normalising once |
| Normalize.AllNormalizersIdempotent | camel_tools/utils/normalize.py:34-38 | each of the fifteen alef / alef-maksura / teh-marbuta normalisers, with its own class and target, is idempotent |
| Normalize.AlefArExample | tests/utils/test_normalize.py:17-22 | alef with hamza below becomes bare alef in the test sentence, nothing else changes |
| Normalize.AlefMaksuraArExample | tests/utils/test_normalize.py:24-29 | alef maksura becomes yeh in the test sentence |
| Normalize.TehMarbutaArExample | tests/utils/test_normalize.py:31-36 | teh marbuta becomes heh in the test sentence |
| CharMap.ExpandCharMap | camel_tools/utils/charmap.py:91-132 | the first bad entry (non-string key, bad key shape, descending range, non-string value) decides the error; otherwise the expanded map sends each character to the value of the LAST entry covering it, and covers nothing else |
| CharMap.LookupLastCover | camel_tools/utils/charmap.py:93-125 | a later key overrides an earlier one for the same character |
| CharMap.LookupNoCover | camel_tools/utils/charmap.py:93-125 | a character no key covers has no entry |
| CharMap.FirstErrorPrefix | camel_tools/utils/charmap.py:93-130 | an error raised on a prefix of the keys is the error of the whole map |
| CharMap.KeyShapeExamples | tests/test_charmap.py:132-193 | 'a-', 'a--', 'cdsn', 'c-a' are invalid keys; '--a' is valid; the range check precedes the value-type check; non-string keys and values raise TypeError |
| CharMap.NewCharMapper | camel_tools/utils/charmap.py:164-176 | a non-mapping raises TypeError, then a key error, then a bad default raises TypeError; success exactly when none applies, holding the expanded map and the default |
| CharMap.CharMapper.MapString | camel_tools/utils/charmap.py:315-329 | the output is the per-character image of the input ('' for ''), with None entry or default meaning identity |
| CharMap.MapAllAppend | camel_tools/utils/charmap.py:320-329 | mapping distributes over concatenation |
| CharMap.MapAllIdentity | camel_tools/utils/charmap.py:320-329 | an empty map with no default is the identity |
| CharMap.ImageFromLookup | camel_tools/utils/charmap.py:323-327 | a character's image is the value of its last covering key, or the character itself when the value is None or no key covers it |
| CharMap.EnglishImages | tests/test_charmap.py:19-28 | the test map sends e to u, l to *, d to m, and leaves H, o, w, r and punctuation alone |
| CharMap.ArabicDigitImages | tests/test_charmap.py:19-28 | the test map sends Arabic-Indic digits 0-2 to 0-2, 3-5 to '-', 6-9 to '+' |
| CharMap.EnglishExample | tests/test_charmap.py:226-231 | 'Hello, world!' maps to 'Hu**o, wor*m!' |
| CharMap.ArabicDigitsExample | tests/test_charmap.py:233-237 | the ten Arabic-Indic digits map to '012---++++' |
| CharMap.CharMapper.constructor | camel_tools/utils/charmap.py:164-172 | a mapper holds the expanded map and the default it was built with |
| Transliterate.NewTransliterator | camel_tools/utils/transliterate.py:62-81 | a non-mapper or non-string marker raises TypeError, an empty marker or one with whitespace raises ValueError; success exactly otherwise, keeping mapper and marker; likewise camel_tools/transliterate/transliterator.py:64-82: the legacy copy has the same four outcomes |
| Transliterate.Transliterator.Transliterate | camel_tools/utils/transliterate.py:102-121 | the output is the concatenation, in order, of what each piece of the marker split becomes; the legacy copy (camel_tools/transliterate/transliterator.py:102-121): same piece loop over the same split |
| Transliterate.Transliterator.ProcessPieces | camel_tools/utils/transliterate.py:105-121 | the loop appends each processed piece to the buffer in order |
| Transliterate.Transliterator.ProcessPiece | camel_tools/utils/transliterate.py:106-119 | a piece starting with the marker is copied, stripped of the marker, or body-mapped with the marker kept or dropped per the two flags; any other piece is mapped whole; likewise camel_tools/transliterate/transliterator.py:106-119: the legacy copy's piece rule is the same |
| Transliterate.TokenEnd | camel_tools/utils/transliterate.py:78-81 | the end of a non-whitespace run lies between its start and the end of the text |
| Transliterate.TokenEndRun | camel_tools/utils/transliterate.py:78-81 | `\S+` is greedy: no whitespace inside the run, whitespace or the end after it |
| Transliterate.MarkedLen | camel_tools/utils/transliterate.py:78-81 | a match of `marker\S+` is either absent or longer than the marker |
| Transliterate.MarkedLenShape | camel_tools/utils/transliterate.py:78-81 | every match is the marker followed by at least one non-whitespace character |
| Transliterate.NoMarkerStart | camel_tools/utils/transliterate.py:78-81 | where the marker's first character never occurs nothing matches |
| Transliterate.PiecesCount | camel_tools/utils/transliterate.py:104 | the capturing split has twice as many pieces as matches, plus one |
| Transliterate.PiecesPartition | camel_tools/utils/transliterate.py:104 | the pieces of the split concatenate back to the text |
| Transliterate.PiecesMarked | camel_tools/utils/transliterate.py:104 | every piece at an odd index is a marked token |
| Transliterate.PiecesUnmarked | camel_tools/utils/transliterate.py:104 | text in which no marked token starts is one piece |
| Transliterate.SplitExamples | tests/test_transliterate.py:114-158 | '@@Hello' splits into '', '@@Hello', ''; 'Hello' and '' are single pieces |
| Transliterate.TestMapImages | tests/test_transliterate.py:18-22 | the test map sends A-Z to X, a-z to x, everything else to itself |
| Transliterate.WordExamples | tests/test_transliterate.py:114-158 | '' gives '', 'Hello' gives 'Xxxxx', and '@@Hello' gives '@@Hello', 'Hello', '@@Xxxxx', 'Xxxxx' under the four flag settings |
| Transliterate.Transliterator.constructor | camel_tools/utils/transliterate.py:62-74 | a transliterator holds its mapper and marker |
| Transliterate.TransliterateUnmarked | camel_tools/utils/transliterate.py:102-121 | text with no marked token, not itself starting with the marker, comes out as the character mapping of the whole text under every flag setting |
| Transliterate.TransliteratePiece | camel_tools/utils/transliterate.py:104-121 | the output splits at any piece into the outputs before it, that piece's output and the outputs after it; an odd piece starts with the marker and is copied, stripped, or body-mapped with or without the marker per the flags; a later even piece never starts with the marker and is mapped whole |
| Transliterate.MarkedTokensKept | camel_tools/utils/transliterate.py:113-117 | with both flags off every marked token of the text reappears verbatim in the output, between the outputs of its neighbours |
| Transliterate.SplitMaximal | camel_tools/utils/transliterate.py:78-81 | no even piece of the split contains a match of the marker pattern anywhere: the split takes every marked token |
| Transliterate.ProcessAllAppend | camel_tools/utils/transliterate.py:105-121 | the output of a piece list is the output of its first part followed by the output of the rest |
| WordTokenizer.WordRun | camel_tools/tokenizers/word.py:36 | `\w+` is greedy: the run holds only word characters and stops before a non-word character or at the end |
| WordTokenizer.TokensWellFormed | camel_tools/tokenizers/word.py:35-36 | every token is a single punctuation/symbol character or a non-empty run of word characters |
| WordTokenizer.TokenizeKeeps | camel_tools/tokenizers/word.py:53 | the tokens concatenate to exactly the matchable characters of the sentence, in order (so nothing is reordered and only unmatched characters are lost) |
| WordTokenizer.Kept | camel_tools/tokenizers/word.py:53 | the characters the pattern can match are a subsequence no longer than the sentence |
| WordTokenizer.TokensHaveNoSpace | camel_tools/tokenizers/word.py:39-53 | no token contains whitespace |
| WordTokenizer.HelloWorld | camel_tools/tokenizers/word.py:43-44 | 'Hello, world!!!' gives ['Hello', ',', 'world', '!', '!', '!'] |
| WordTokenizer.WordThen | camel_tools/tokenizers/word.py:53 | a word followed by text that does not continue it is one token, then the tokens of the rest |
| MorphTokenizer.SchemeSet | camel_tools/tokenizers/morphological.py:55-63 | the supported schemes are exactly 'atbtok' and 'd3tok' |
| MorphTokenizer.Contribution | camel_tools/tokenizers/morphological.py:79-93 | a word without analyses, or whose best analysis has no scheme value, contributes itself; otherwise its scheme token, as one string or as its '_'-free pieces that join back to it |
| MorphTokenizer.OneTokenPerWord | camel_tools/tokenizers/morphological.py:78-95 | without split, one token per word, in word order |
| MorphTokenizer.SplitKeepsText | camel_tools/tokenizers/morphological.py:87-88 | with split, the tokens joined by '_' equal the unsplit tokens joined by '_' |
| MorphTokenizer.NonEmptyTokens | camel_tools/tokenizers/morphological.py:78-95 | a non-empty word list gives a non-empty token list |
| MorphTokenizer.Tokenize | camel_tools/tokenizers/morphological.py:75-95 | the loop's result list is the in-order concatenation of the words' contributions |
| Score.FeatureSets | camel_tools/disambig/score_function.py:41-60 | FEATURE_SET_MAP has the three names; the lists have 10, 14 and 16 entries and FEATS_14 is the first fourteen of FEATS_16 |
| Score.Filled | camel_tools/disambig/score_function.py:70-73 | form_num and form_gen are added from num and gen when missing; every other entry is unchanged |
| Score.Matches | camel_tools/disambig/score_function.py:75-77 | the score is at most the number of listed features |
| Score.MatchesAppend | camel_tools/disambig/score_function.py:75-77 | the score of a concatenated feature list is the sum of the scores |
| Score.PrefixScoresLess | camel_tools/disambig/score_function.py:75-77 | adding features never lowers the score |
| Score.Feats14Below16 | camel_tools/disambig/score_function.py:46-54 | the feats_14 score never exceeds the feats_16 score |
| Score.FullScore | camel_tools/disambig/score_function.py:75-77 | the score equals the number of features exactly when the two analyses agree (missing = '') on every listed feature |
| Score.ScoreUniform | camel_tools/disambig/score_function.py:63-82 | the caller's dict gains form_num/form_gen in place and the returned score is the match count on the filled dict |
| Score.AnalysisDict.constructor | camel_tools/disambig/score_function.py:62-63 | the caller's analysis dictionary, which the scorer changes in place |
| CliParse.ParseToken | camel_tools/cli/camel_morphology.py:184-190 | a token splits into a pair exactly when it holds a ':'; the pair is the text before the first ':' and the rest, colons kept |
| CliParse.TokenParts | camel_tools/cli/camel_morphology.py:184-190 | the name holds no ':' and name + ':' + value rebuilds the token |
| CliParse.TokenRoundTrip | camel_tools/cli/camel_morphology.py:184-190 | parsing `name:value` with a colon-free name gives back (name, value) |
| CliParse.FeatureMapDefined | camel_tools/cli/camel_morphology.py:183-190 | the feature map exists exactly when every token after the first holds a ':' |
| CliParse.FeatureMapKeys | camel_tools/cli/camel_morphology.py:183-190 | its keys are exactly the tokens' names |
| CliParse.FeatureMapLast | camel_tools/cli/camel_morphology.py:183-190 | each name holds the value of the last token carrying it |
| CliParse.ParseFeatureTokens | camel_tools/cli/camel_morphology.py:190 | a further `name:value` token overwrites any earlier value of that name |
| CliParse.ParsedLine | camel_tools/cli/camel_morphology.py:172-192 | None exactly for a blank line or when a later token lacks ':'; otherwise the first token (non-empty, no whitespace) with the features |
| CliParse.ParseFeatureLine | camel_tools/cli/camel_morphology.py:172-192 | `_parse_generator_line`: the token loop returns the parse of the line; likewise camel_tools/cli/camel_morphology.py:195-215: `_parse_reinflector_line` is the same loop with the first token as the word; likewise camel_tools/cli/camel_calima_star.py:154-174: the legacy generator-line parser is the same loop; likewise camel_tools/cli/camel_calima_star.py:177-197: the legacy reinflector-line parser is the same loop |
| CliParse.ToInt | camel_tools/cli/camel_morphology.py:108-115 | a number exactly for a non-empty all-digit string; None otherwise, '' included |
| CliParse.ToIntRoundTrip | camel_tools/cli/camel_morphology.py:108-115 | reading the decimal rendering of n gives n |
| CliParse.ToIntRejects | camel_tools/cli/camel_morphology.py:108-115 | a sign or a blank anywhere gives None |
| CliSerialize.Fields | camel_tools/cli/camel_morphology.py:162-164 | at most one field per feature of the order |
| CliSerialize.FieldsMembers | camel_tools/cli/camel_morphology.py:162-164 | a line has a field for a feature exactly when the feature is in the order and in the analysis |
| CliSerialize.Lines | camel_tools/cli/camel_morphology.py:161-164 | one line per analysis, in order |
| CliSerialize.DedupMembers | camel_tools/cli/camel_morphology.py:160-167 | de-duplication keeps every line, adds none, and repeats none |
| CliSerialize.DedupPrefix | camel_tools/cli/camel_morphology.py:160-167 | lines keep their first-occurrence order: more input only extends the output |
| CliSerialize.DedupOfDistinct | camel_tools/cli/camel_morphology.py:160-167 | lines already distinct come out unchanged |
| CliSerialize.SerializedShape | camel_tools/cli/camel_morphology.py:152-158 | the text starts with '#WORD: w' or '#LEMMA: w'; with no analyses it is that header then 'NO_ANALYSIS' |
| CliSerialize.UniqueLines | camel_tools/cli/camel_morphology.py:160-167 | the OrderedDict loop yields the distinct lines in first-occurrence order |
| CliSerialize.SerializeAnalyses | camel_tools/cli/camel_morphology.py:152-169 | the header, then 'NO_ANALYSIS' or the distinct lines, joined by newlines |
| CliSerialize.LineSetOf | camel_tools/cli/camel_calima_star.py:144-148 | the set loop collects exactly the analysis lines |
| CliSerialize.SameLines | camel_tools/cli/camel_calima_star.py:144-149 | the set-backed tool lists each distinct line exactly once, the same lines as the ordered tool |
| CliSerialize.SerializeAnalysesSet | camel_tools/cli/camel_calima_star.py:136-151 | the header, then 'NO_ANALYSIS' or the line set in one fixed order, joined by newlines |
| CliDediac.FirstRun | camel_tools/cli/camel_dediac.py:80 | the first match of `\s+|\S+` is a non-empty maximal run of one kind |
| CliDediac.Runs | camel_tools/cli/camel_dediac.py:80-137 | every run is non-empty |
| CliDediac.RunsConcat | camel_tools/cli/camel_dediac.py:137-140 | the runs concatenate to the line |
| CliDediac.RunsUniform | camel_tools/cli/camel_dediac.py:80 | each run is all whitespace or has none |
| CliDediac.RunsAlternate | camel_tools/cli/camel_dediac.py:80 | neighbouring runs are of opposite kinds |
| CliDediac.DediacMarkedTokens | camel_tools/cli/camel_dediac.py:83-100 | one output per input token, in order: a marked token kept (or without its marker when stripping), any other de-diacritised |
| CliDediac.MarkedTokens | camel_tools/cli/camel_dediac.py:83-100 | the same map as a function, one result per token |
| CliDediac.UnmarkedLine | camel_tools/cli/camel_dediac.py:134-143 | with no marked token, the marker-aware path writes exactly what plain de-diacritisation of the line writes |
| CliDediac.MarkedTokenKept | camel_tools/cli/camel_dediac.py:87-97 | a marked token is passed through, minus the marker when stripping |
| Catalogue.GetPackage | camel_tools/data/catalogue.py:334-337 | the entry stored under the name, or CatalogueError exactly when the name is unknown |
| Catalogue.GetComponent | camel_tools/data/catalogue.py:354-357 | the component entry, or CatalogueError exactly when the name is unknown |
| Catalogue.GetDataset | camel_tools/data/catalogue.py:373-382 | an unknown component is an error; no dataset name means the component's default; the named dataset's entry, or an error when the component has none by that name |
| Catalogue.ReachesSelf | camel_tools/data/catalogue.py:386 | the start package is reached |
| Catalogue.ReachesStep | camel_tools/data/catalogue.py:401-403 | a dependency of a reached package is reached |
| Catalogue.ClosedHoldsReach | camel_tools/data/catalogue.py:388-403 | a set closed under dependencies holds the end of every dependency path that starts in it |
| Catalogue.PushUnseen | camel_tools/data/catalogue.py:401-403 | the pushing loop appends, in order, the dependencies not collected yet |
| Catalogue.WorklistStep | camel_tools/data/catalogue.py:388-403 | popping a known package (collected when not META) keeps the worklist invariant: stack and collected set hold reached names, and everything reachable is either collected, visited or still on the stack |
| Catalogue.WorklistDone | camel_tools/data/catalogue.py:405 | with an empty stack, the collected set is exactly the reachable non-META packages |
| Catalogue.PopStep | camel_tools/data/catalogue.py:389-403 | one pass of the loop on a known name equals `Pop`: the name is popped, collected when not META, and its dependencies not collected yet are pushed in iteration order |
| Catalogue.GetDependencies | camel_tools/data/catalogue.py:384-405 | the result is `Closure`, the loop run for at most `fuel` pops (None exactly when the stack is still non-empty after them); on success, exactly the non-META packages reachable from the start, itself included; an error names an unknown package that is reachable |
| Catalogue.ShallowReached | camel_tools/data/catalogue.py:395-403 | with no META-only cycle reachable, every walk along META dependencies from a reached package is shorter than the number of packages plus one (pigeonhole) |
| Catalogue.PopWeighs | camel_tools/data/catalogue.py:389-403 | popping a META or already collected package leaves the collected set unchanged and lowers the stack's weight (the bounded count of META walks its entries still cause) |
| Catalogue.PopCollects | camel_tools/data/catalogue.py:395-396 | popping a reachable non-META package not collected yet shrinks the set of pending packages |
| Catalogue.ExploreSettles | camel_tools/data/catalogue.py:388 | once the loop has ended, more fuel gives the same result |
| Catalogue.GetDependenciesEnds | camel_tools/data/catalogue.py:384-405 | when no cycle made only of META packages is reachable, the loop ends: some bound gives a result, and every larger fuel gives the same one |
| Catalogue.MetaSelfLoop | camel_tools/data/catalogue.py:395-403 | a META package that depends on itself keeps the loop running: no fuel gives a result |
| Catalogue.PublicPackages | camel_tools/data/catalogue.py:416-419 | exactly the entries with private == False |
| Catalogue.PublicPackagesSorted | camel_tools/data/catalogue.py:417 | the list is sorted by name, strictly |
| Catalogue.NewDeps | camel_tools/data/catalogue.py:455-461 | with force, every dependency is kept |
| Catalogue.NewDepsMembers | camel_tools/data/catalogue.py:455-461 | without force, exactly the dependencies absent from the versions map or at another version are kept |
| Catalogue.FetchedMembers | camel_tools/data/catalogue.py:472-476 | exactly the non-META packages of the list are fetched |
| Catalogue.SingleDownload | camel_tools/data/catalogue.py:444-447 | without recursion the package alone is considered: fetched when not META and (force or outdated) |
| Catalogue.FilterNew | camel_tools/data/catalogue.py:455-461 | the version filter loop computes the kept list |
| Catalogue.FetchList | camel_tools/data/catalogue.py:472-476 | the install loop skips META packages |
| Catalogue.Install | camel_tools/data/catalogue.py:455-476 | the version filter then the install loop: exactly the listed non-META packages that are forced or outdated, in order |
| Catalogue.DownloadPackage | camel_tools/data/catalogue.py:441-476 | an unknown package is an error; None exactly when recursive and the closure search (`Closure`) runs out of fuel, which `GetDependenciesEnds` rules out for enough fuel when no META-only cycle is reachable; every fetched package is non-META, reached and (forced or outdated); recursively, every reached non-META outdated package is fetched |
| BertDataset.Decimal | camel_tools/disambig/bert/_bert_morph_dataset.py:48 | `f"{n}"` is a non-empty string of decimal digits |
| BertDataset.DecimalRoundTrip | camel_tools/disambig/bert/_bert_morph_dataset.py:48 | reading the rendered id gives the number back |
| BertDataset.Prepared | camel_tools/disambig/bert/_bert_morph_dataset.py:43-53 | one prepared sentence per input sentence |
| BertDataset.PreparedIds | camel_tools/disambig/bert/_bert_morph_dataset.py:43-53 | sentence i gets the id i + 1; the ids are pairwise distinct |
| BertDataset.PrepareSentences | camel_tools/disambig/bert/_bert_morph_dataset.py:30-53 | the loop builds, in order, each sentence with its id and one placeholder label per word |
| BertDataset.LabelIndex | camel_tools/disambig/bert/_bert_morph_dataset.py:135 | the label map sends a label to its LAST position in the label list |
| BertDataset.WordsOf | camel_tools/disambig/bert/_bert_morph_dataset.py:142-152 | only words with pieces are kept, each with one label id per piece |
| BertDataset.WordLabels | camel_tools/disambig/bert/_bert_morph_dataset.py:150-152 | a kept word's label ids are its real label id followed by pad ids for its other pieces |
| BertDataset.SentenceWords | camel_tools/disambig/bert/_bert_morph_dataset.py:142-152 | the word-piece loop over zip(words, labels) builds exactly those words |
| BertDataset.ChunksCover | camel_tools/disambig/bert/_bert_morph_dataset.py:180-205 | the segments closed so far followed by the open segment are the words, in order |
| BertDataset.SegmentsCover | camel_tools/disambig/bert/_bert_morph_dataset.py:178-225 | the emitted segments concatenate to the words, so their pieces (and label ids) concatenate to all the pieces |
| BertDataset.ChunksShape | camel_tools/disambig/bert/_bert_morph_dataset.py:180-205 | a segment of two or more words fits within max_seq_length - 2 pieces |
| BertDataset.SegmentsShape | camel_tools/disambig/bert/_bert_morph_dataset.py:159-205 | only a single over-long word exceeds the bound; no segment after the first is empty; the first is empty exactly when the first word is over-long |
| BertDataset.CurHasPieces | camel_tools/disambig/bert/_bert_morph_dataset.py:207-208 | after at least one word the open segment has pieces, so the last segment is always emitted |
| BertDataset.Repeat | camel_tools/disambig/bert/_bert_morph_dataset.py:260-264 | `[x] * n` has length max(n, 0) and holds only x |
| BertDataset.AddSpecialTokens | camel_tools/disambig/bert/_bert_morph_dataset.py:242-269 | [CLS] + tokens + [SEP] then pad ids; the four lists have equal length, max_seq_length when the tokens fit; labels are the pad label at CLS, SEP and padding and the given ids between; the mask is 1 on real positions and 0 on padding |
| BertDataset.SentenceFeatures | camel_tools/disambig/bert/_bert_morph_dataset.py:161-225 | every feature carries the sentence's index; a sentence with no pieces yields exactly one feature |
| BertDataset.FeaturizeCovers | camel_tools/disambig/bert/_bert_morph_dataset.py:138-234 | every sentence yields at least one feature and every feature names an existing sentence |
| BertDataset.Encoded | camel_tools/disambig/bert/_bert_morph_dataset.py:182-222 | one feature per segment: the framed pieces and label ids of the segment, with the sentence id |
| BertDataset.ChunkWords | camel_tools/disambig/bert/_bert_morph_dataset.py:180-205 | the chunking loop's features are the encoded closed segments, and its running token and label segments are the open segment's pieces and label ids |
| BertDataset.ChunkSentence | camel_tools/disambig/bert/_bert_morph_dataset.py:139-225 | one sentence's features, including the empty-sentence and last-segment cases |
| BertDataset.FeaturizeInput | camel_tools/disambig/bert/_bert_morph_dataset.py:102-234 | the loop over the sentences concatenates their features in sentence order |
| BertDataset.MorphDataset.constructor | camel_tools/disambig/bert/_bert_morph_dataset.py:84-100 | the features are those of the prepared sentences with the first label as placeholder and -100 as pad label |
| BertDataset.MorphDataset.Len | camel_tools/disambig/bert/_bert_morph_dataset.py:271-272 | the number of features |
| BertDataset.MorphDataset.GetItem | camel_tools/disambig/bert/_bert_morph_dataset.py:274-275 | the feature at that index, negative indices counting from the end; `None` exactly for an index outside the list, where Python raises `IndexError` |
| BertDataset.PlaceholderKnown | camel_tools/disambig/bert/_bert_morph_dataset.py:85-86 | every placeholder label is a label the model knows, so the label map lookups succeed |
| MorphRewrite.StripLex | camel_tools/morphology/utils.py:140-141 | the stripped lemma is a prefix of the lemma, holds no '_' or '-', and stops exactly at the first separator |
| MorphRewrite.StripLexIdempotent | camel_tools/morphology/utils.py:140-141 | stripping a stripped lemma changes nothing |
| MorphRewrite.StripLexNoSeparator | camel_tools/morphology/utils.py:140-141 | a lemma without '_' or '-' is returned unchanged |
| MorphRewrite.Codes | camel_tools/morphology/utils.py:101-155 | only characters in the Arabic-to-CAPHI table contribute a code, each code non-empty, at most one per character |
| MorphRewrite.CodesSnoc | camel_tools/morphology/utils.py:155 | appending a character appends its table code, or nothing when it is not in the table |
| MorphRewrite.LeadingAlefAsHamza | camel_tools/morphology/utils.py:151-153 | a word-initial bare alef transcribes exactly like an alef with hamza, giving '2' |
| MorphRewrite.SimpleArToCaphiSnoc | camel_tools/morphology/utils.py:144-155 | the transcription grows by '_' and the new character's code, or stays the same for an unmapped character |
| MorphRewrite.SimpleArToCaphiExample | camel_tools/morphology/utils.py:144-155 | the letters kaf, teh, beh transcribe to "k_t_b" |
| MorphRewrite.NormalizeTanwyn | camel_tools/morphology/utils.py:158-165 | in both modes each substitution writes back the text it matched, so the word is returned unchanged |
| MorphRewrite.SunLetterStep | camel_tools/morphology/utils.py:169 | a '#' followed by '+'s and a sun letter becomes that letter and a shadda, and the scan resumes after the letter |
| MorphRewrite.MoonLetterStep | camel_tools/morphology/utils.py:170 | a '#' and the '+'s after it are deleted |
| MorphRewrite.MoonRemovesHash | camel_tools/morphology/utils.py:170 | no '#' survives the moon-letter rule |
| MorphRewrite.FathaRuleKeepsOut | camel_tools/morphology/utils.py:171 | the fatha-after-alef rule introduces no character other than alef, teh and teh marbuta |
| MorphRewrite.RewriteDiacClean | camel_tools/morphology/utils.py:168-176 | the rewritten diacritised form holds no '+', no '#', no hamza-wasl alef and no two adjacent shaddas |
| MorphRewrite.RewriteTok1NoHash | camel_tools/morphology/utils.py:196-201 | a rewritten tokenisation holds no '#' |
| MorphRewrite.RewriteTok2Shrinks | camel_tools/morphology/utils.py:204-207 | the fatha rule never lengthens a word and leaves a word without alef unchanged |
| MorphRewrite.RewritePatternClean | camel_tools/morphology/utils.py:210-213 | the rewritten pattern holds no '#', is never longer, and equals the input when it had no '#' |
| MorphRewrite.FirstAlt | camel_tools/morphology/utils.py:68-70 | an alternation succeeds only with one of its alternatives present at the position |
| MorphRewrite.LastWasl | camel_tools/morphology/utils.py:185 | the greedy `.+` before `\+-2_[iua]` ends at the last such occurrence, and none lies beyond it |
| MorphRewrite.EdgesClean | camel_tools/morphology/utils.py:191 | on a string without '__', the edge rule leaves no '_' at either end and no '__' |
| MorphRewrite.CaphiTailClean | camel_tools/morphology/utils.py:189-191 | the last three CAPHI rules leave no '+' or '-', no '__' and no '_' at either end, whatever precedes them |
| MorphRewrite.RewriteCaphiClean | camel_tools/morphology/utils.py:179-193 | a rewritten CAPHI string holds no '+' or '-', no '__', and no '_' at either end |
| CalimaRewrite.OptLen | camel_tools/calima_star/utils.py:37-38 | an optional group never reaches past the end of the word |
| CalimaRewrite.CalimaRewriteDiacClean | camel_tools/calima_star/utils.py:88-96 | the legacy rewritten diacritised form holds no '+', no hamza-wasl alef and no two adjacent shaddas |
| CalimaRewrite.ArticleSunStep | camel_tools/calima_star/utils.py:37-42 | at the start of a word, the article (after optional conjunction and preposition) and an optional '+' before a sun letter become the article, the letter and a shadda |
| CalimaRewrite.CalimaRewriteCaphiNoPlus | camel_tools/calima_star/utils.py:99-104 | a legacy rewritten CAPHI string holds no '+' |
| CalimaRewrite.CalimaCaphiEdgesKeepsSecond | camel_tools/calima_star/utils.py:68-69 | the legacy edge rule removes one leading underscore only: "__a" becomes "_a" |
| MorphMerge.OverrideAll | camel_tools/morphology/utils.py:217-226 | every stem feature is kept, each taking the prefix's value when given, else the suffix's, else the stem's |
| MorphMerge.OverridePrecedence | camel_tools/morphology/utils.py:219-226 | a value of '-' or '' never overrides; the prefix wins over the suffix, the suffix over the stem |
| MorphMerge.JoinEach | camel_tools/morphology/utils.py:228-243 | every defined feature of the family becomes the '+'-join of the non-empty prefix, stem and suffix values; other keys are untouched |
| MorphMerge.ConcatEach | camel_tools/morphology/utils.py:245-250 | every defined tokenisation feature becomes prefix + stem (or the stem's diac) + suffix; other keys are untouched |
| MorphMerge.JoinStage | camel_tools/morphology/utils.py:217-250 | after the override and three joining loops, the keys are the stem's plus the defined family features, each with its joined value |
| MorphMerge.RewriteEach | camel_tools/morphology/utils.py:258-264 | every defined scheme of the family is rewritten from its current value (or ''); other keys are untouched |
| MorphMerge.RewriteStage | camel_tools/morphology/utils.py:252-264 | `stem` and `stemgloss` are added, `diac` is rewritten and normalised, the defined tokenisation schemes are rewritten |
| MorphMerge.AgreeStage | camel_tools/morphology/utils.py:266-273 | the CAPHI rewrite applies when defined; `gen`/`num` take their `form_` value exactly when that is defined and the value is '-' |
| MorphMerge.FloatEach | camel_tools/morphology/utils.py:282-284 | every defined log-probability feature becomes a float of its current text, or of -99.0 when absent |
| MorphMerge.FinalStage | camel_tools/morphology/utils.py:275-284 | the pattern is recomputed from the diacritised forms when it is a computed feature, and the log-probability features become floats |
| MorphMerge.GenNumOutside | camel_tools/morphology/utils.py:33-46 | the agreement features and their fallbacks belong to no concatenation or rewriting family |
| MorphMerge.MergedAt | camel_tools/morphology/utils.py:216-286 | the four stages compose, key by key, to the single definition of the merged analysis |
| MorphMerge.MergeFeatures | camel_tools/morphology/utils.py:216-286 | the merged analysis has exactly the expected keys and, at each, the value defined key by key for the whole procedure |
| MorphMerge.MergedNoNull | camel_tools/morphology/utils.py:216-286 | every merged key holds a value, and it is a float exactly for the defined log-probability features |
| MorphMerge.MergedPlain | camel_tools/morphology/utils.py:219-226 | a feature no family claims keeps its override value |
| MorphMerge.MergedDiacClean | camel_tools/morphology/utils.py:255-256 | the merged `diac` has no '+', no '#', no hamza-wasl alef and no two adjacent shaddas |
| MorphMerge.MergedCaphiClean | camel_tools/morphology/utils.py:266-267 | the merged CAPHI has no '+' or '-', no '__', and no '_' at either end |
| MorphMerge.MergedPatternClean | camel_tools/morphology/utils.py:275-280 | a recomputed pattern carries no '#' |
| MorphMerge.MergedTokNoHash | camel_tools/morphology/utils.py:258-260 | the schemes with the sun-letter rule carry no '#' |
| MorphMerge.MergedJoinSplits | camel_tools/morphology/utils.py:228-236 | a joined feature splits on '+' back into the non-empty prefix, stem and suffix values, in order |
| CalimaMerge.ThreeJoinEach | camel_tools/calima_star/utils.py:119-123 | every concatenated feature becomes prefix '+' stem '+' suffix, empty parts included; other keys are untouched |
| CalimaMerge.PlainConcatEach | camel_tools/calima_star/utils.py:125-129 | every tokenisation feature becomes prefix + stem + suffix; other keys are untouched |
| CalimaMerge.CalimaJoinStage | camel_tools/calima_star/utils.py:108-129 | after the override and both concatenation loops, the keys are the stem's plus both families, each with its joined value |
| CalimaMerge.CalimaRewriteStage | camel_tools/calima_star/utils.py:131-135 | `stem`, `stemgloss` are added, `diac` and `caphi` are rewritten |
| CalimaMerge.CalimaTailStage | camel_tools/calima_star/utils.py:137-146 | `gen`/`num` take their `form_` value when '-', and the pattern is rebuilt when it is a computed feature |
| CalimaMerge.CalimaComposed | camel_tools/calima_star/utils.py:107-148 | the three stages compose, key by key, to the single definition of the legacy merged analysis |
| CalimaMerge.CalimaMergeFeatures | camel_tools/calima_star/utils.py:107-148 | the merged analysis has exactly the expected keys and, at each, the value defined key by key for the whole procedure |
| CalimaMerge.CalimaMergedIs | camel_tools/calima_star/utils.py:107-148 | the merged analysis is determined by its keys and values |
| CalimaMerge.ThreeJoinSplits | camel_tools/calima_star/utils.py:119-123 | a concatenated feature splits on '+' into exactly the three parts |
| CalimaMerge.CalimaEmptyJoin | camel_tools/calima_star/utils.py:119-123 | a concatenated feature none of the entries gives is "++" |
| CalimaMerge.CalimaMergedDiac | camel_tools/calima_star/utils.py:133-134 | the merged `diac` is the legacy rewrite of the three-part join |
| CalimaMerge.CalimaMergedDiacClean | camel_tools/calima_star/utils.py:133-134 | the merged `diac` has no '+', no hamza-wasl alef and no two adjacent shaddas |
| CalimaMerge.CalimaMergedCaphiNoPlus | camel_tools/calima_star/utils.py:135 | the merged CAPHI has no '+' |
| CalimaMerge.CalimaMergedStrings | camel_tools/calima_star/utils.py:107-148 | every merged key holds a string value |
| Database.ParseFlags | camel_tools/morphology/database.py:106-123 | the flags fail exactly when some character is not 'a', 'g' or 'r', reporting the first such character; otherwise 'r' selects every mode and reinflection equals generation; likewise camel_tools/calima_star/database.py:41-58: the legacy loader reads its flags the same way and reports the first invalid flag character |
| Database.KvPairFirstColon | camel_tools/morphology/database.py:155-160 | a token is a key-value pair exactly when it holds a ':'; the key is the text before the first ':' and the value the rest, later colons included |
| Database.AnalysisToksStuck | camel_tools/morphology/database.py:148-162 | the first malformed token raises, and nothing after it changes the outcome |
| Database.AnalysisToksOk | camel_tools/morphology/database.py:148-162 | a feature line parses exactly when every token read holds a ':' (the current loader skips empty tokens) |
| Database.AnalysisToksKeys | camel_tools/morphology/database.py:148-162 | the parsed keys are exactly the keys of the tokens read |
| Database.AnalysisToksLastWins | camel_tools/morphology/database.py:148-162 | each key holds the value of the last token with that key |
| Database.ParseAnalysisToks | camel_tools/morphology/database.py:148-162 | the token loop computes the parse defined token by token, with empty tokens skipped in the current loader only; likewise camel_tools/calima_star/database.py:82-93: the legacy token loop reads empty tokens too, so an empty token raises |
| Database.DefaultsToksStuck | camel_tools/morphology/database.py:164-182 | the first malformed DEFAULT token raises, and nothing after it changes the outcome |
| Database.DefaultsToksMeaning | camel_tools/morphology/database.py:164-182 | defaults parse exactly when every token holds a ':'; a '*' value is stored as None, never as the text '*'; likewise camel_tools/calima_star/database.py:95-116: the legacy loader additionally stores no 'na' value |
| Database.ParseDefaultsToks | camel_tools/morphology/database.py:164-182 | the DEFAULT token loop computes the parse defined token by token |
| Database.DefineValuesMeaning | camel_tools/morphology/database.py:201-222 | a closed class holds exactly the second pieces of its value tokens; only a line with a single value can declare an open class |
| Database.ParseDefineValues | camel_tools/morphology/database.py:201-222 | the DEFINE value loop computes the values defined token by token, raising on a malformed token |
| Database.SectionFrom | camel_tools/morphology/database.py:187-193 | reading a section stops at a position inside the file |
| Database.RunSection | camel_tools/morphology/database.py:187-193 | a `for line in dbfile` loop computes the section defined line by line, and the next section starts where it stopped |
| Database.SectionKeeps | camel_tools/morphology/database.py:184-455 | a property every line of a section keeps holds of what the section returns |
| Database.Push | camel_tools/morphology/database.py:322-325 | appending to a list-valued table adds the key, appends to its list and changes no other key |
| Database.AddTo | camel_tools/morphology/database.py:434-436 | adding to a set-valued table adds the key, the value, and changes no other key |
| Database.PushKeeps | camel_tools/morphology/database.py:322-325 | a property of every entry survives an append of an entry that has it |
| Database.DefaultStepKeeps | camel_tools/morphology/database.py:226-247 | every DEFAULT line is stored under its own 'pos' value |
| Database.DefaultsSectionOk | camel_tools/morphology/database.py:226-247 | the whole DEFAULTS section keys every entry by its own 'pos' value |
| Database.OrderSectionOk | camel_tools/morphology/database.py:249-269 | the ORDER read starts with a defined feature, and the computed features are empty or exactly the order's |
| Database.AffixLineKeeps | camel_tools/morphology/database.py:308-333 | a PREFIXES/SUFFIXES line fills the surface table only in analysis mode, the category table only in generation mode, and with both every surface entry is also listed under its category |
| Database.PrefixStepKeeps | camel_tools/morphology/database.py:308-333 | each PREFIXES line keeps the per-mode tables consistent |
| Database.SuffixStepKeeps | camel_tools/morphology/database.py:335-360 | each SUFFIXES line keeps the per-mode tables consistent |
| Database.PrefixSectionOk | camel_tools/morphology/database.py:308-333 | the whole PREFIXES section leaves the per-mode tables consistent |
| Database.SuffixSectionOk | camel_tools/morphology/database.py:335-360 | the whole SUFFIXES section leaves the per-mode tables consistent |
| Database.StemStepKeeps | camel_tools/morphology/database.py:362-391 | each STEMS line files its lemma entry under the stripped lemma with its category as 'stemcat', and stores stems with stripped lemmas |
| Database.StemSectionOk | camel_tools/morphology/database.py:362-391 | the whole STEMS section keeps those facts |
| Database.TableAbStepKeeps | camel_tools/morphology/database.py:393-417 | each TABLE AB line keeps the stem-prefix table the exact inverse of the prefix-stem table when both modes are on |
| Database.TableAbSectionOk | camel_tools/morphology/database.py:393-417 | the whole TABLE AB section keeps the two tables inverse to each other |
| Database.LoadHeader | camel_tools/morphology/database.py:184-306 | the sections before the lexicon end inside the file |
| Database.HeaderFacts | camel_tools/morphology/database.py:184-306 | defaults are keyed by 'pos', the order starts with a defined feature, the computed features are the order's; likewise camel_tools/calima_star/database.py:118-218: the legacy loader has no TOKENIZATIONS section and so no tokenisation features |
| Database.LoadLexicon | camel_tools/morphology/database.py:308-391 | the lexicon sections end inside the file |
| Database.LexiconFacts | camel_tools/morphology/database.py:308-391 | the lexicon tables are per-mode consistent and the stem facts hold |
| Database.TablesFacts | camel_tools/morphology/database.py:393-455 | the compatibility tables keep the prefix-stem inverse |
| Database.MaxKeyLen | camel_tools/morphology/database.py:457-462 | the maximum affix size is the greatest key length, or 0 for an empty table |
| Database.ParseHeader | camel_tools/morphology/database.py:184-306 | the header loops compute the header defined section by section |
| Database.ParseLexicon | camel_tools/morphology/database.py:308-391 | the lexicon loops compute the lexicon defined section by section |
| Database.ParseTables | camel_tools/morphology/database.py:393-455 | the table loops compute the tables defined section by section |
| Database.ParseDbFile | camel_tools/morphology/database.py:184-462 | the file parser returns the database defined by the lines, with its maximum affix sizes; likewise camel_tools/calima_star/database.py:118-375: the legacy file parser returns the legacy database defined by the lines |
| Database.OpenDb | camel_tools/morphology/database.py:97-146 | an invalid flag character raises before the file is read; otherwise the database is the one the lines define |
| Database.LoadedFacts | camel_tools/morphology/database.py:97-462 | every loaded database: defaults keyed by 'pos', order and computed features consistent, tables empty for modes not selected, lemma entries filed by stripped lemma, stems carry stripped lemmas, and prefix-stem and stem-prefix tables inverse |
| Segmenter.CutAt | camel_tools/morphology/analyzer.py:127-134 | a split is determined by the word and the lengths of its prefix and stem |
| Segmenter.RowMembers | camel_tools/morphology/analyzer.py:131-134 | the inner loop yields exactly the splits with the given prefix length and a stem at least as long as its start |
| Segmenter.SegmentsExact | camel_tools/morphology/analyzer.py:127-134 | the generator yields exactly the splits of the word with a prefix of at most min(max_prefix, len - 1) characters, a non-empty stem, and a suffix of at most max_suffix characters; likewise camel_tools/calima_star/analyzer.py:73-80: the legacy generator is the same |
| Segmenter.SegmentsOrdered | camel_tools/morphology/analyzer.py:127-134 | splits come shortest prefix first, then shortest stem, so none repeats |
| Segmenter.SegmentsSmall | camel_tools/morphology/analyzer.py:127-134 | the empty word has no split, and a one-character word only the split with that character as stem |
| Reinflection.AnyClitic | camel_tools/morphology/reinflector.py:123-127 | the flag is set exactly when some clitic feature (enc0, prc0-prc3) is requested |
| Reinflection.GenFeats | camel_tools/morphology/reinflector.py:143-163 | the request is dropped exactly when a requested feature the analysis marks 'na' is read; otherwise it holds only read, non-ignored, non-'na' features, the requested value where requested (never 'ANY') and the analysis's value otherwise, and every such feature; likewise camel_tools/calima_star/reinflector.py:76-94: the legacy loop is the same without the 'ANY' wildcard |
| Reinflection.BuildGenFeats | camel_tools/morphology/reinflector.py:143-163 | the feature loop with its validity flag computes the generator request defined feature by feature |
| Reinflection.GenFeatsBlocked | camel_tools/morphology/reinflector.py:157-161 | a requested feature that the analysis marks 'na' rules the analysis out |
| Reinflection.GenFeatsPassed | camel_tools/morphology/reinflector.py:146-163 | without a blocking feature, the request is exactly the passed features with their values |
| Reinflection.LemmaOf | camel_tools/morphology/reinflector.py:138 | the lemma is a prefix of the analysis's lex with no '_' or '-' |
| MorphReinflector.NewReinflector | camel_tools/morphology/reinflector.py:74-83 | construction succeeds exactly for a current-engine database opened for generation and analysis, reporting the non-matching database, the missing generation mode, or the analyzer's error |
| MorphReinflector.FirstInvalid | camel_tools/morphology/reinflector.py:114-121 | no error exactly when every requested feature is defined and, when closed, has an allowed value or is an 'ANY' feature set to 'ANY'; otherwise the error names a failing feature |
| MorphReinflector.ValidateRequest | camel_tools/morphology/reinflector.py:114-121 | the validation loop reports no error exactly when every requested feature is valid, and otherwise the error of an invalid feature: the first in ascending key order (insertion order admitted under Left out) |
| MorphReinflector.Collect | camel_tools/morphology/reinflector.py:129-168 | every collected analysis is one the generator returned for some analysis of the word |
| MorphReinflector.CollectComplete | camel_tools/morphology/reinflector.py:131-168 | every analysis the generator returns for a considered analysis is collected |
| MorphReinflector.Distinct | camel_tools/morphology/reinflector.py:171 | the de-duplicated list holds exactly the same analyses, each once |
| MorphReinflector.Dedup | camel_tools/morphology/reinflector.py:171 | the de-duplication loop keeps the first occurrence of each analysis |
| MorphReinflector.Reinflect | camel_tools/morphology/reinflector.py:109-173 | an error `analyze` raises (a malformed backoff template) propagates. With no analyses, the result is empty before validation. Otherwise the call fails exactly when some feature is invalid, with the error for that feature. The result holds no repeats |
| MorphReinflector.ReinflectMembers | camel_tools/morphology/reinflector.py:109-173 | an analysis is in the result exactly when the generator returned it for some analysis of the word |
| MorphReinflector.DistinctCollectMembers | camel_tools/morphology/reinflector.py:129-171 | de-duplicating the collected analyses loses none |
| MorphReinflector.GenerateFor | camel_tools/morphology/reinflector.py:131-168 | one pass of the analysis loop returns the generator's analyses for that analysis, or none when it is filtered out |
| MorphReinflector.CollectAll | camel_tools/morphology/reinflector.py:129-168 | the analysis loop collects the generated analyses in analysis order |
| MorphReinflector.ReinflectWord | camel_tools/morphology/reinflector.py:85-173 | `reinflect` returns the result defined by `Reinflect` |
| CalimaReinflector.NewReinflector | camel_tools/calima_star/reinflector.py:34-37 | construction succeeds exactly for a legacy database opened for analysis and generation, else reports the analyzer's or the generator's error |
| CalimaReinflector.CheckRequest | camel_tools/calima_star/reinflector.py:45-54 | the request passes exactly when every feature is defined and, when closed, has an allowed value |
| CalimaReinflector.CollectSucceeds | camel_tools/calima_star/reinflector.py:64-99 | collecting succeeds exactly when every generator call made succeeds |
| CalimaReinflector.CollectMembers | camel_tools/calima_star/reinflector.py:64-99 | a successful collection holds exactly the analyses the generator calls returned |
| CalimaReinflector.CollectAborts | camel_tools/calima_star/reinflector.py:64-99 | the first generator error ends the whole collection with that error |
| CalimaReinflector.CollectFrom | camel_tools/calima_star/reinflector.py:64-99 | every collected analysis comes from an analysis that matches the word's undiacritised form, the requested pos and the requested lemma |
| CalimaReinflector.Reinflect | camel_tools/calima_star/reinflector.py:39-101 | an error `analyze` raises propagates. No analyses give an empty list before validation. An invalid request gives None exactly when there are analyses. Otherwise the result is the generated analyses in order, or the generator's error, and any other failure is the generator's |
| CalimaReinflector.ReinflectFrom | camel_tools/calima_star/reinflector.py:39-101 | every reinflected analysis comes from a considered analysis of the word |
| CalimaReinflector.GenerateFor | camel_tools/calima_star/reinflector.py:64-99 | one pass of the loop returns the generator's answer for that analysis |
| CalimaReinflector.CollectAll | camel_tools/calima_star/reinflector.py:62-99 | the analysis loop concatenates the generator results in order, stopping at the first error |
| CalimaReinflector.ReinflectWord | camel_tools/calima_star/reinflector.py:39-101 | `reinflect` returns the result defined by `Reinflect` |
| CalimaGenerator.NewGenerator | camel_tools/calima_star/generator.py:55-61 | construction succeeds exactly for a legacy database opened for generation, else raises a generator error |
| CalimaGenerator.FirstInvalid | camel_tools/calima_star/generator.py:89-94 | no error exactly when every requested feature is defined with an allowed value; otherwise the error names an offending feature, as an unknown feature or a bad value |
| CalimaGenerator.ValidateRequest | camel_tools/calima_star/generator.py:89-94 | the validation loop reports no error exactly when every requested feature is valid, and otherwise the error of an invalid feature: the first in ascending key order (insertion order admitted under Left out) |
| CalimaGenerator.Filled | camel_tools/calima_star/generator.py:108-111 | the request keeps every requested value and gains exactly the clitic features the default has and the request lacks, with the default's values |
| CalimaGenerator.FillClitics | camel_tools/calima_star/generator.py:99-111 | the copy loop computes the completed request |
| CalimaGenerator.SuffixRunMembers | camel_tools/calima_star/generator.py:168-202 | the suffix-entry loop yields exactly the merges whose categories are compatible, whose suffix passes the enclitic filter, and which agree with the request |
| CalimaGenerator.SuffixCatRunMembers | camel_tools/calima_star/generator.py:163-202 | the suffix-category loop yields exactly the chains through a known, compatible suffix category |
| CalimaGenerator.PrefixRunMembers | camel_tools/calima_star/generator.py:145-202 | the prefix-entry loop yields exactly the chains through a prefix passing the proclitic filter |
| CalimaGenerator.PrefixCatRunMembers | camel_tools/calima_star/generator.py:141-202 | the prefix-category loop yields exactly the chains through a known prefix category |
| CalimaGenerator.StemRunMembers | camel_tools/calima_star/generator.py:116-202 | an analysis is generated exactly when some stem of the lemma passes the stem filters and yields it through a prefix and a suffix category |
| CalimaGenerator.StemYieldsAt | camel_tools/calima_star/generator.py:138-202 | the analyses of one accepted stem are those reached through the prefix and suffix categories its stem category allows |
| CalimaGenerator.StemRunAgrees | camel_tools/calima_star/generator.py:194-202 | every generated analysis carries the requested value of each requested feature it has |
| CalimaGenerator.Generate | camel_tools/calima_star/generator.py:63-204 | an unknown lemma gives no analyses before validation; otherwise failure exactly for an undefined feature, a disallowed value or a missing 'pos', with the matching error; a successful request naming a feature the part of speech's default lacks gives no analyses, and analyses arise only when every requested feature is in that default; every analysis agrees with the request |
| CalimaGenerator.GenerateMembers | camel_tools/calima_star/generator.py:99-204 | for a known lemma, a valid request and a part of speech whose default holds every requested feature, an analysis is generated exactly when some stem of the lemma yields it against the request completed with the default clitics, including the case where none does |
| CalimaGenerator.SuffixEntries | camel_tools/calima_star/generator.py:168-202 | the suffix-entry loop computes the suffix run |
| CalimaGenerator.SuffixStep | camel_tools/calima_star/generator.py:169-202 | one suffix entry adds its merge exactly when it passes the compatibility, enclitic and agreement checks |
| CalimaGenerator.SuffixCats | camel_tools/calima_star/generator.py:163-202 | the suffix-category loop computes the category run |
| CalimaGenerator.PrefixEntries | camel_tools/calima_star/generator.py:145-202 | the prefix-entry loop computes the prefix run |
| CalimaGenerator.PrefixCats | camel_tools/calima_star/generator.py:141-202 | the prefix-category loop computes the category run |
| CalimaGenerator.StemAnalysesOf | camel_tools/calima_star/generator.py:118-202 | one stem contributes nothing unless it passes the voice, rationality, part-of-speech and clitic filters |
| CalimaGenerator.StemAnalyses | camel_tools/calima_star/generator.py:116-202 | the stem loop computes the analyses in stem order |
| CalimaGenerator.GenerateAnalyses | camel_tools/calima_star/generator.py:63-204 | `generate` returns the result defined by `Generate` |
| MorphAnalyzer.BackoffReadingsAgree | camel_tools/morphology/analyzer.py:184-193 | the current engine's split at '_' and the legacy engine's chain of comparisons (calima_star/analyzer.py:99-116) accept the same five modes and read each the same way; only 'NONE' means no backoff |
| MorphAnalyzer.NewAnalyzer | camel_tools/morphology/analyzer.py:166-203 | construction fails with the first applicable error: a database of the other engine, a database without analysis, a backoff outside the five modes, then a cache size that is not an int. On success it keeps the database and strict_digit, and the given normalisation map or the default one |
| MorphAnalyzer.NewCalimaAnalyzer | camel_tools/calima_star/analyzer.py:87-118 | the legacy constructor fails on a database of the other engine, a database without analysis, or an unknown backoff mode. On success it always uses the legacy default normalisation map and strict digit matching |
| MorphAnalyzer.StrictIsLoose | camel_tools/morphology/analyzer.py:53-54 | every word the strict digit pattern accepts is also accepted by the loose one |
| MorphAnalyzer.BodyOfStripped | camel_tools/morphology/analyzer.py:304 | after strip() no final newline is left for an anchored match to skip |
| MorphAnalyzer.ClassifyMeaning | camel_tools/morphology/analyzer.py:107-124 | the classes of a stripped word, tested in order. A strict digit word is all digits; a loose digit word contains one. Punctuation is all punctuation. has-punctuation contains some; in the legacy engine it starts with some (calima_star/analyzer.py:57-70). An Arabic word is all Arabic letters; a foreign word has a non-Arabic character |
| MorphAnalyzer.SpecialShape | camel_tools/morphology/analyzer.py:313-424 | a digit, punctuation or foreign analysis keeps every key of its default entry and records the word as 'diac' with the class's bw tag and source. The current engine also sets lex, stem and stemgloss to the word, stemcat to None and the log-probabilities to -99.0. The legacy engine sets lex to word + '_0' and gloss to the word (calima_star/analyzer.py:218-243) |
| MorphAnalyzer.MorphSpecialShape | camel_tools/morphology/analyzer.py:313-347 | the current engine's special analysis copies the default entry and overwrites diac, lex, stem, stemgloss, stemcat, bw, source, the forced pos and the -99.0 scores |
| MorphAnalyzer.MergeWith | camel_tools/morphology/analyzer.py:233-234 | the analyzer calls the merge_features of its own engine |
| MorphAnalyzer.MergeDiac | camel_tools/morphology/analyzer.py:238 | the merged analysis always has a string 'diac', so dediac_ar can be applied to it |
| MorphAnalyzer.JoinTriple | camel_tools/morphology/analyzer.py:233-242 | one compatible triple becomes the merged features with 'stem', 'stemcat' and, for a spelling variant, 'source' = 'spvar' |
| MorphAnalyzer.JoinedShape | camel_tools/morphology/analyzer.py:233-242 | the analysis of a triple has 'stem' = the stem's diac and 'stemcat' = its category. It keeps the merged diac and every other merged feature. It is marked 'spvar' exactly when the dediacritised word (without tatweel in the current engine, calima_star/analyzer.py:153-155 without) differs from the dediacritised merged diac |
| MorphAnalyzer.MarkedShape | camel_tools/morphology/analyzer.py:235-240 | the three overrides change only 'stem', 'stemcat' and, for a spelling variant, 'source' |
| MorphAnalyzer.SuffixAnalyses | camel_tools/morphology/analyzer.py:224-242 | the suffix loop appends, in order, the analysis of every suffix entry that passes all four compatibility tests |
| MorphAnalyzer.StemStep | camel_tools/morphology/analyzer.py:223-242 | a stem entry compatible with the prefix contributes its suffix run; any other contributes nothing |
| MorphAnalyzer.StemRunSnoc | camel_tools/morphology/analyzer.py:217-242 | one more stem entry extends the run by exactly its own contribution |
| MorphAnalyzer.StemAnalyses | camel_tools/morphology/analyzer.py:217-242 | the stem entries paired with one prefix entry, in the product's order |
| MorphAnalyzer.CombinedAnalyses | camel_tools/morphology/analyzer.py:210-244 | _combined_analyses visits the prefix-stem product in order and concatenates the suffix runs of compatible pairs |
| MorphAnalyzer.SuffixRunMembers | camel_tools/morphology/analyzer.py:224-242 | an analysis is in a suffix run exactly when some suffix entry passes the tests and yields it |
| MorphAnalyzer.StemRunMembers | camel_tools/morphology/analyzer.py:217-242 | an analysis is in a stem run exactly when some stem entry compatible with the prefix and some fitting suffix yield it |
| MorphAnalyzer.CombinedMembers | camel_tools/morphology/analyzer.py:210-244 | both directions: every analysis of _combined_analyses comes from a pairwise compatible prefix, stem and suffix entry, and every such triple contributes its analysis |
| MorphAnalyzer.SubstitutedDescends | camel_tools/morphology/analyzer.py:273-276 | rewriting 'NOAN' in bw, diac and lex (and setting caphi) keeps every other stem feature and every key |
| MorphAnalyzer.MergeOkKept | camel_tools/morphology/analyzer.py:273-279 | the rewritten placeholder stem can still be merged wherever the original could |
| MorphAnalyzer.BackoffStep | camel_tools/morphology/analyzer.py:261-287 | the copied stem features stay descended from the placeholder entry after every suffix, even though they are rewritten in place |
| MorphAnalyzer.BackoffSuffixRun | camel_tools/morphology/analyzer.py:258-287 | the rewriting carries over from one suffix to the next, because the stem features are copied once per stem and then changed in place |
| MorphAnalyzer.BackoffJoin | camel_tools/morphology/analyzer.py:278-285 | the backoff analysis is the merge with 'stem', 'stemcat', source 'backoff', gloss and, in the current engine only, pattern 'backoff' (calima_star/analyzer.py:191-197) |
| MorphAnalyzer.BackoffSuffixStep | camel_tools/morphology/analyzer.py:262-287 | one pass: skip an incompatible suffix and, under 'PROP', a non-proper-noun stem. Otherwise rewrite the stem features in place, with 'NOAN' replaced by the stem read as an `re.sub` template, and append their analysis. A malformed template fails the whole segmentation (`SegBackoffFails`) |
| MorphAnalyzer.BackoffSuffixAnalyses | camel_tools/morphology/analyzer.py:261-287 | the suffix loop of the backoff for one prefix and placeholder stem |
| MorphAnalyzer.BackoffStemAnalyses | camel_tools/morphology/analyzer.py:254-287 | the placeholder stems paired with one prefix entry, in order |
| MorphAnalyzer.BackoffAnalyses | camel_tools/morphology/analyzer.py:246-289 | _combined_backoff_analyses over the prefix-stem product in order |
| MorphAnalyzer.BackoffJoinedMarked | camel_tools/morphology/analyzer.py:281-285 | a backoff analysis has source 'backoff' (and pattern 'backoff' in the current engine), the placeholder stem's category, and its gloss, which the rewriting does not touch |
| MorphAnalyzer.BackoffStepMarked | camel_tools/morphology/analyzer.py:262-287 | each pass keeps every analysis marked. Unless the action is 'PROP', it adds exactly one analysis per compatible suffix |
| MorphAnalyzer.BackoffSuffixRunMarked | camel_tools/morphology/analyzer.py:261-287 | every analysis of the suffix loop is marked as a backoff of its placeholder stem. Unless the action is 'PROP', there is one per compatible suffix |
| MorphAnalyzer.BackoffStemRunMarked | camel_tools/morphology/analyzer.py:254-287 | every analysis for one prefix comes from a placeholder stem compatible with that prefix |
| MorphAnalyzer.BackoffCombinedMarked | camel_tools/morphology/analyzer.py:246-289 | every analysis of _combined_backoff_analyses is marked as the backoff of a placeholder stem compatible with one of the prefix entries |
| MorphAnalyzer.Keep | camel_tools/morphology/analyzer.py:457-460 | the placeholder stems kept are exactly the 'NOAN' entries whose category the backoff action lists |
| MorphAnalyzer.PrimaryAnalyses | camel_tools/morphology/analyzer.py:426-448 | the lookup loops over the segmentations in order and skips any whose prefix, suffix or stem has no entry |
| MorphAnalyzer.BackoffSearch | camel_tools/morphology/analyzer.py:450-478 | the backoff loops over the segmentations and skips any whose prefix or suffix has no entry. It puts the segment's stem text in place of 'NOAN' and stops with the error of the first segmentation whose malformed template is reached |
| MorphAnalyzer.AnalyzeWord | camel_tools/morphology/analyzer.py:292-482 | analyze(word) in both engines (legacy: calima_star/analyzer.py:203-303) |
| MorphAnalyzer.AnalyzeSpecial | camel_tools/morphology/analyzer.py:304-424 | a blank word has no analysis. A digit, punctuation or foreign word has exactly one: the word as diac, with the class's bw tag and source |
| MorphAnalyzer.AnalyzeHasPunc | camel_tools/morphology/analyzer.py:384-385 | a word that holds some punctuation gets no analysis in the legacy engine (calima_star/analyzer.py:234-235). In the current engine the lookup is skipped; only the backoff can answer, and its error propagates |
| MorphAnalyzer.AnalyzeArabic | camel_tools/morphology/analyzer.py:426-478 | an Arabic word's lookup results come first. The backoff results follow when the condition holds ('ADD' always, 'NOAN' only when nothing was found), and an error of the backoff is the answer; otherwise the lookup alone is the answer |
| MorphAnalyzer.AnalyzeAllEntries | camel_tools/morphology/analyzer.py:484-495 | analyze_words succeeds exactly when analyze succeeds on every word. It then keeps the words and their order and gives each word the analyses analyze gives it alone; otherwise it raises the first word's error |
| MorphAnalyzer.AnalyzeWords | camel_tools/morphology/analyzer.py:484-495 | the loop builds one AnalyzedWord per word, in order, and stops at the first error |
| MorphAnalyzer.AnalyzeNext | camel_tools/morphology/analyzer.py:495 | each step appends the next word with its analyses |
| MorphAnalyzer.SegPrimaryMembers | camel_tools/morphology/analyzer.py:432-448 | both directions: an analysis belongs to one segmentation exactly when compatible entries of its prefix, stem and suffix yield it |
| MorphAnalyzer.PrimaryOverMembers | camel_tools/morphology/analyzer.py:426-448 | the lookup over a list of segmentations holds exactly the analyses of some segmentation in the list |
| MorphAnalyzer.PrimaryExact | camel_tools/morphology/analyzer.py:426-448 | the lookup finds exactly the analyses of compatible entries for the allowed splits of the dediacritised, normalised word |
| MorphAnalyzer.ReplacementPlain | camel_tools/morphology/analyzer.py:273-275 | a stem text without a backslash replaces 'NOAN' as it stands |
| MorphAnalyzer.BackoffSuffixRunEmpty | camel_tools/morphology/analyzer.py:261-276 | the backoff suffix loop builds nothing exactly when no suffix fits with a stem the 'PROP' test lets through, and then the stem features stay untouched |
| MorphAnalyzer.BackoffStemRunEmpty | camel_tools/morphology/analyzer.py:254-287 | the stems of one prefix build nothing exactly when none compatible with it reaches the substitution |
| MorphAnalyzer.BackoffCombinedEmpty | camel_tools/morphology/analyzer.py:246-289 | _combined_backoff_analyses builds something exactly when some triple reaches the substitution, so only then is the template parsed |
| MorphAnalyzer.SegBackoffFails | camel_tools/morphology/analyzer.py:462-478 | one segmentation's backoff raises exactly when its prefix and suffix have entries, its stem text is a malformed template and some triple reaches the substitution (calima_star/analyzer.py:187-189); otherwise it yields _combined_backoff_analyses |
| MorphAnalyzer.BackoffOverFails | camel_tools/morphology/analyzer.py:462-478 | the backoff over the segmentations fails exactly when one of them does, with the first error in order |
| MorphAnalyzer.BackoffOverPlain | camel_tools/morphology/analyzer.py:462-478 | with no backslash in any segment's stem text the backoff cannot fail |
| MorphAnalyzer.AnalyzePlain | camel_tools/morphology/analyzer.py:292-482 | `analyze` never raises for a word whose normalised, dediacritised form holds no backslash |
| MorphAnalyzer.SubstituteAgain | camel_tools/morphology/analyzer.py:273-275 | substituting 'NOAN' again in a copy where the first substitution left none changes nothing |
| MorphAnalyzer.ResubstitutedSettled | camel_tools/morphology/analyzer.py:261-276 | on a settled placeholder stem, every later in-place substitution gives the first one's result |
| MorphAnalyzer.ResubstitutedDescends | camel_tools/morphology/analyzer.py:273-276 | any number of in-place substitutions keeps the placeholder entry's keys and its other features |
| MorphAnalyzer.NoanAbsent | camel_tools/morphology/analyzer.py:61 | replacing the literal 'NOAN' in a text where it does not occur changes nothing |
| MorphAnalyzer.OccursAt | camel_tools/morphology/analyzer.py:269-270 | a literal found at some position is `in` the text |
| MorphAnalyzer.BackoffStepFrom | camel_tools/morphology/analyzer.py:262-285 | one suffix keeps the stem copy or substitutes into it once more. It adds at most the merge of prefix, new copy and that suffix |
| MorphAnalyzer.BackoffSuffixRunState | camel_tools/morphology/analyzer.py:258-287 | the copy the suffix loop carries is always the placeholder entry substituted some number of times |
| MorphAnalyzer.BackoffSuffixRunFrom | camel_tools/morphology/analyzer.py:261-287 | every analysis of the suffix loop is the merge of the prefix, a fitting suffix entry and the copy as substituted so far, which the 'PROP' test let through |
| MorphAnalyzer.BackoffStepExact | camel_tools/morphology/analyzer.py:262-285 | on a settled stem, one suffix adds the analysis on the once-substituted stem exactly when it fits and the 'PROP' test passes |
| MorphAnalyzer.BackoffSuffixRunExact | camel_tools/morphology/analyzer.py:261-287 | both directions on a settled stem: the suffix loop holds exactly one analysis per fitting suffix, on the stem substituted once, unless the 'PROP' test drops the stem |
| MorphAnalyzer.BackoffStemRunFrom | camel_tools/morphology/analyzer.py:254-287 | every analysis for one prefix is built on a compatible placeholder stem and a fitting suffix |
| MorphAnalyzer.BackoffStemRunExact | camel_tools/morphology/analyzer.py:254-287 | both directions, for settled stems, over the stems paired with one prefix |
| MorphAnalyzer.BackoffCombinedFrom | camel_tools/morphology/analyzer.py:246-289 | every analysis of _combined_backoff_analyses is the merge of a prefix entry, a compatible placeholder stem as substituted in place, and a fitting suffix entry |
| MorphAnalyzer.BackoffCombinedExact | camel_tools/morphology/analyzer.py:246-289 | both directions for settled stems: every triple with a compatible prefix and stem, a fitting suffix and a stem the 'PROP' test admits contributes its analysis, and nothing else is built |
| MorphAnalyzer.BackoffYieldsMarked | camel_tools/morphology/analyzer.py:278-285 | every backoff analysis carries source 'backoff', its placeholder stem's category and gloss |
| MorphAnalyzer.BackoffSegFrom | camel_tools/morphology/analyzer.py:462-478 | every analysis of one segmentation's backoff is built from its prefix's entries, an admitted placeholder stem and its suffix's entries |
| MorphAnalyzer.BackoffSegExact | camel_tools/morphology/analyzer.py:462-478 | both directions, for one segmentation with settled stems |
| MorphAnalyzer.BackoffOverFrom | camel_tools/morphology/analyzer.py:462-478 | every backoff analysis is built from a listed segmentation: the merge of a prefix entry, an admitted compatible placeholder stem with the stem text substituted, and a fitting suffix entry |
| MorphAnalyzer.BackoffOverMembers | camel_tools/morphology/analyzer.py:462-478 | both directions for settled stems: a successful backoff holds exactly the analyses of the admitted triples of the listed segmentations |
| MorphAnalyzer.BackoffFrom | camel_tools/morphology/analyzer.py:450-478 | every backoff analysis comes from an allowed split of the normalised word, with its content as in BackoffOverFrom |
| MorphAnalyzer.BackoffExact | camel_tools/morphology/analyzer.py:450-478 | both directions for settled stems: the backoff finds exactly the analyses of the admitted triples over the allowed splits of the normalised, dediacritised word |
| Regex.TemplatePlain | camel_tools/morphology/analyzer.py:273-275 | a replacement text without a backslash is inserted literally by re.sub |
| Regex.TemplateTrailing | camel_tools/morphology/analyzer.py:273-275 | a replacement text ending in a lone backslash is a malformed template |
| Regex.TemplateExamples | camel_tools/morphology/analyzer.py:273-275 | re.sub's template rules on examples: `\g<0>` is the whole match 'NOAN', `\t` a tab, `\101` is 'A', and an unknown non-letter escape is kept. A group reference, `\g<1>`, an unknown letter escape and a trailing backslash are errors |

## Left out

- Caching of `analyze` (an `LFUCache` behind an `RLock`) is not modelled. `analyze` is uncached, and `cache_size` is only checked for being an int. Caching is library code plus concurrency.
- File and network I/O is not modelled: opening the database file (it is given as lines), the catalogue's JSON loading, package downloads and version-file writes, `CharMapper.builtin_mapper` and `mapper_from_json`.
- The command-line `main` functions, docopt handling, file opening and the stdin loops around the modelled parsers and serialisers are left out as I/O wiring. So are the other command-line scripts, `server.py` and `setup.py`.
- The neural and statistical components are left out: BERT models, dialect identification, NER, sentiment, the MLE and simple disambiguators, and the 'tag' tie-breaker of `score_analysis_uniform`. They rest on floating-point and foreign libraries.
- Floating-point values are not computed. The log-probability features and the -99.0 sentinel are kept as their decimal text (`Float("-99.0")`), and the `float(...)` casts in `merge_features` only mark a value as a float.
- Unicode character categories are not modelled. The punctuation-and-symbol class and `\w` are parameters of the members that use them, and `normalize_unicode` (NFC/NFKC) is not modelled.
- `camel_tools/morphology/generator.py` is not part of this model. The current reinflector receives the generator as a function parameter (`MorphReinflector.GenerateFn`).
- The BERT word-piece tokenizer is a function parameter of the dataset members.
- Where Python iterates a set or a dictionary built from a set, the model uses ascending element order (`SetOrder.Elems`). This covers the legacy generator's prefix and suffix categories, the legacy CLI serialiser and the walk over the dependency closure in `download_package`; Python's set iteration order is arbitrary. A catalogue package's dependency frozenset is instead taken with its iteration order as given (`Catalogue.PackageEntry.dependencies` is a sequence), so every order is covered.
- A request of features is a Dafny `map`, which has no insertion order. The source walks the caller's dictionary in insertion order when it validates a request; the model walks its keys in ascending order.
- MorphReinflector.ValidateRequest: with more than one invalid feature, reports the first in ascending key order, while the source reports the first in the caller's insertion order (`{"zzz": v, "aaa": w}` with neither defined: the source names 'zzz', the model 'aaa'). Whether a request is valid, and that the reported feature is invalid, are stated exactly.
- CalimaGenerator.ValidateRequest: the same difference as `MorphReinflector.ValidateRequest` for the legacy generator's check of the request.
- BertDataset.MorphDataset.constructor: requires a non-empty label list. With an empty one the source raises `IndexError` on `labels[0]` before building anything; a Dafny constructor cannot return that failure.
- CliSerialize.SerializeAnalysesSet: the legacy serialiser's lines come out in `SetOrder` order, while Python's set order is unspecified; the set of lines and their distinctness are stated exactly.
- MorphReinflector.Reinflect: the source de-duplicates generated analyses through `set(tuple(x.items()))`; the model keeps each distinct analysis at its first occurrence, which is one admissible order of the same set. Two analyses equal as maps but built with their keys in different insertion orders give different tuples, so both survive in the source; a Dafny `map` has no insertion order, and the model keeps one of them.
- MorphAnalyzer.AnalyzeWord: requires `Ready`, what `analyze` could read for any combination of entries the database holds (`DbReady`, and `BackoffDbReady` when the backoff runs). This is stronger than what one word actually reaches, where the source raises `KeyError`.
- MorphMerge.MergeFeatures: requires `GenNumReadable`, the 'gen'/'num' keys and their `form_` fallbacks that the source reads without a guard.
- CalimaMerge.CalimaMergeFeatures: requires `CalimaReadable`, the 'gen'/'num' and `form_gen`/`form_num` keys the legacy merge reads unconditionally.
- MorphReinflector.ReinflectWord: requires `ReinflectReady`, the keys the source indexes while rebuilding features (a missing key is a `KeyError` there).
- CalimaReinflector.Reinflect: requires `ReinflectReady`. That covers the analyzer's `Ready` and, for every analysis, `Readable` (string 'diac' and 'lex', and 'pos' when the request names one: the reads at camel_tools/calima_star/reinflector.py:65-70, where a missing key is a `KeyError` or a non-string a `TypeError`) and `GenOk` (the generator's `GenReady` for each request it is handed). The source reads 'lex' only for analyses that pass the diac and pos checks; the model asks for it in every analysis.
- CalimaReinflector.ReinflectWord: requires the same `ReinflectReady` as `CalimaReinflector.Reinflect`, for the same reads.
- CalimaGenerator.Generate: requires `GenReady`, the defaults and table keys the source indexes without a guard.
- MorphAnalyzer.BackoffExact: both directions of backoff membership (also `MorphAnalyzer.BackoffOverMembers`, `MorphAnalyzer.BackoffSegExact`, `MorphAnalyzer.BackoffCombinedExact`, `MorphAnalyzer.BackoffStemRunExact` and `MorphAnalyzer.BackoffSuffixRunExact`) are proved for placeholder stems that are `Settled`. For such a stem, the first substitution leaves no 'NOAN' in bw, diac and lex, and does not change whether bw contains 'NOUN_PROP'. Without that, the in-place rewrite makes later suffixes see a copy substituted again, and only the comes-from direction is stated, with the number of substitutions (`MorphAnalyzer.BackoffFrom`).
- Regex.Template: `\g<name>` is accepted only when the name is ASCII '0's, as Python 3.12 does; older Pythons also accept other spellings of group 0. The error that `re` raises for a bad template (`re.error` or `IndexError`) is one error, `MorphAnalyzer.BadTemplate`, carrying the stem text.
- Catalogue.GetDependencies: takes a `fuel` bound. META packages are never collected, so the source may not terminate when a dependency cycle made only of META packages is reachable (an unknown package popped before the cycle is entered raises `CatalogueError` instead). The model reports no result once `fuel` packages have been popped; `Catalogue.GetDependenciesEnds` proves that enough fuel always gives a result when no such cycle is reachable.
- CliParse.ToInt: accepts only the ASCII digits 0-9, while `str.isdigit` also accepts other Unicode decimal digits.
- Transliterate.WordExamples: the sentence-level expectations of `tests/test_transliterate.py:160-214` are not restated; the word-level ones and the general piece rule are.
