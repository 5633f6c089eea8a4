# termSpaceBuilder in Dafny

A model of `termSpaceBuilder.py`, which builds a term space for a corpus of
plain-text documents in English, German or Russian. Every line of every `.txt`
file under a directory is split into tokens. Each token is stripped of
punctuation, lower-cased and normalised for its language:

- English: contraction endings are removed and irregular verb and noun forms
  are mapped to base forms.
- German: contraction endings are removed, umlauts are folded to digraphs and
  the word is lemmatised against a lexicon.
- Russian: ё is written as е and the word is reduced to its normal form.

Stopwords, tokens with a digit and empty tokens are dropped. The rest are
stemmed. In `tfidf` mode each document contributes its set of stems, so a
stem's count is its document frequency. In `raw` mode each document
contributes its list of stems, so a count is the stem's frequency in the
whole corpus.

Modules, one per part of the program:

| module | file | models |
|---|---|---|
| `PyStr` | `pystr.dfy` | the Python string primitives used: `in`, `replace`, `endswith`, `strip` |
| `Contractions` | `contractions.dfy` | `NormalizerEN.del_contractions` and `NormalizerDE.deleteContrs`, as one definition parameterised by the regex's apostrophe class and quantifier |
| `ContractionExamples` | `contraction_examples.dfy` | worked examples of both regexes on concrete words, proved as lemmas |
| `Umlauts` | `umlauts.dfy` | `NormalizerDE.normalizeUmlaut` |
| `Lemmatizer` | `lemmatizer.dfy` | `NormalizerDE.lemmatize` |
| `NormalizerRU` | `normalizer_ru.dfy` | `NormalizerRU.normalizeE` |
| `NormalizerEN` | `normalizer_en.dfy` | `NormalizerEN.token_transform` |
| `BuildTermSpace` | `term_space.dfy` | `processString`, `processFile` and the counting loop of `crawl` |

The loops of the source are Dafny methods proved against specification
functions:

- `Umlauts.NormalizeUmlaut` against `Fold`, a single left-to-right scan.
- `Lemmatizer.Lemmatize` against `Lemmatized`.
- `BuildTermSpace.ProcessFile` against `FileTerms`.
- `BuildTermSpace.AddTerms` and `BuildTermSpace.Crawl` against `Tally`.

The lemmas then state what those functions mean: document frequency,
corpus frequency, idempotence of the umlaut fold, the leftmost-longest
contraction match, and which inputs raise `KeyError`.

Behaviour as the code is written:

- Inside brackets, `[s|m|t|d|n]` is a character class that contains `|`, so
  `x'|` loses its last two characters. Within `processString` this never
  changes a term: `|` is one of the split characters and is also stripped as
  punctuation, so no token reaching the contraction regex ends in it.
- `re.sub` with a `$`-anchored pattern removes the longest matching suffix.
  Both functions apply it at most twice, so a third stacked contraction
  survives.
- The German lemmatiser looks up the three-letter head of every suffix of the
  word. A head that is in its `alphabet` but has no bucket in the lexicon
  raises `KeyError`. Nothing catches it: it leaves `processString`, then
  `processFile` (which catches only decoding and I/O errors), then `crawl`.
  The model carries it as `Failure(head)` all the way up.
- A decoding or I/O error in the middle of a file is swallowed, and the terms
  of the lines read before it are kept. A document is therefore modelled as
  the lines read before any such error.
- Only lines with more than one character are processed. Only files whose
  names end in `.txt` or `.TXT` are counted.

## Model

| member | source | states |
|---|---|---|
| `PyStr.Replace` | termSpaceBuilder.py:117 | `str.replace` with a replacement as long as the pattern keeps the length, and with a longer one never shortens the string |
| `PyStr.ReplaceAbsent` | termSpaceBuilder.py:115-117 | replacing a pattern that does not occur returns the word unchanged, so the `if umlaut in word` guard changes nothing |
| `PyStr.ReplaceCharPointwise` | termSpaceBuilder.py:186-187 | replacing one character by another keeps the length and rewrites each position independently |
| `PyStr.SkipForward` | termSpaceBuilder.py:297 | the leading run of `strip` consists of characters in the set and stops at one outside it |
| `PyStr.SkipBackward` | termSpaceBuilder.py:297 | the trailing run of `strip` consists of characters in the set and stops at one outside it |
| `PyStr.Strip` | termSpaceBuilder.py:297 | `token.strip(punctuation)` is a slice of the token; everything cut off on either side is punctuation, and the result starts and ends with a non-punctuation character |
| `Contractions.MatchFrom` | termSpaceBuilder.py:133 | a match found by the search starts a suffix in the regex's language |
| `Contractions.MatchFromIsFirst` | termSpaceBuilder.py:131-133 | the search returns the leftmost matching index, and finds nothing only when no suffix from there on matches |
| `Contractions.MatchFromReaches` | termSpaceBuilder.py:131 | a matching index with no match before it is the one the search finds |
| `Contractions.Sub` | termSpaceBuilder.py:129-131 | one `del_endings.sub('', s)` returns a prefix of `s`; it is `s` itself iff the regex matches nowhere; otherwise the removed part is a match and no earlier index matches (leftmost, hence longest) |
| `Contractions.SubAt` | termSpaceBuilder.py:203-205 | `sub` cuts the word at the first index where the regex matches |
| `Contractions.StripContractions` | termSpaceBuilder.py:122-140 | `deleteContrs` / `del_contractions` return a prefix of the token, which is the token itself iff no contraction ending is present |
| `Contractions.AtMostTwoRemoved` | termSpaceBuilder.py:131-137 | what is removed splits into at most two consecutive matches of the regex |
| `ContractionExamples.StackedContractionsRemoved` | termSpaceBuilder.py:196-214 | English `i'd've` becomes `i`: two stacked contractions are both removed |
| `ContractionExamples.ThirdContractionSurvives` | termSpaceBuilder.py:196-214 | English `a'd'd'd` becomes `a'd`: only two substitutions are made |
| `ContractionExamples.BarIsALetter` | termSpaceBuilder.py:203 | English `x'` followed by a bar becomes `x`: the bracketed letter class contains the bar character |
| `ContractionExamples.OneApostropheBeforeTailInEnglish` | termSpaceBuilder.py:203 | English `x''ve` becomes `x'`: the English second alternative takes exactly one apostrophe |
| `ContractionExamples.ApostropheRunBeforeTailInGerman` | termSpaceBuilder.py:129 | German `x''ve` becomes `x`: the German second alternative takes a run of apostrophes |
| `Umlauts.FirstKey` | termSpaceBuilder.py:113-117 | the first table entry whose key starts the word, and none before it |
| `Umlauts.KeyUnique` | termSpaceBuilder.py:113 | no two entries of the table have keys that start the same string |
| `Umlauts.OnlyKeyChosen` | termSpaceBuilder.py:113-117 | the entry used at a position is the only one whose key starts there, wherever it stands in the table |
| `Umlauts.NormalizeUmlaut` | termSpaceBuilder.py:106-119 | the replacement loop over the table equals the left-to-right fold of every key into its digraph |
| `Umlauts.FoldWithNone` | termSpaceBuilder.py:115 | before any entry is applied, the word is unchanged |
| `Umlauts.FirstKeyExtend` | termSpaceBuilder.py:113-115 | adding the next table entry keeps the first match among the earlier entries |
| `Umlauts.ReplaceExtendsFold` | termSpaceBuilder.py:115-117 | one iteration of the loop, `word.replace(umlaut, ersatz)`, extends the fold by that entry: no replacement creates or breaks another key |
| `Umlauts.FoldKeyFree` | termSpaceBuilder.py:106-119 | no key of the table is left in the result |
| `Umlauts.FoldKeepsKeyFree` | termSpaceBuilder.py:115-117 | a word with no key in it is returned unchanged |
| `Umlauts.FoldIdempotent` | termSpaceBuilder.py:106-119 | normalising twice is normalising once |
| `Umlauts.KeyFreeIffNoKeyContained` | termSpaceBuilder.py:116 | no key position in the word iff `umlaut in word` is false for every entry |
| `Umlauts.FoldRemovesAllKeys` | termSpaceBuilder.py:106-119 | after normalisation, `umlaut in word` is false for every table entry |
| `Lemmatizer.Head` | termSpaceBuilder.py:167 | `word_no_prefix[:3]` is a prefix of length min(3, length) |
| `Lemmatizer.FirstForm` | termSpaceBuilder.py:168-171 | the first pair of the bucket whose wordforms contain the candidate, and none before it |
| `Lemmatizer.Lemmatize` | termSpaceBuilder.py:143-174 | the nested loops return exactly `Lemmatized`: the first decided prefix length wins, a missing bucket fails, and the word is returned unchanged when nothing matches |
| `Lemmatizer.SkipUndecided` | termSpaceBuilder.py:164-167 | prefix lengths whose head is not in the alphabet, or whose bucket lacks the candidate, are passed over |
| `Lemmatizer.SmallestPrefixWins` | termSpaceBuilder.py:164-171 | the smallest prefix length at which the candidate is a listed wordform gives `prefix + lemma` of the first pair listing it |
| `Lemmatizer.MissingBucketFails` | termSpaceBuilder.py:167-168 | a head in the alphabet with no lexicon entry raises `KeyError` for that head |
| `Lemmatizer.NoMatchKeepsWord` | termSpaceBuilder.py:173-174 | when no candidate is decided, the word is returned unchanged |
| `Lemmatizer.ShortCandidatesNeverLookedUp` | termSpaceBuilder.py:161-167 | with three-letter heads, candidates shorter than three characters are never looked up |
| `Lemmatizer.ShortWordUnchanged` | termSpaceBuilder.py:161-174 | words shorter than three characters come back unchanged |
| `Lemmatizer.NoKeyErrorWhenBucketsComplete` | termSpaceBuilder.py:167-168 | with a bucket for every head of the alphabet, `lemmatize` never raises |
| `Lemmatizer.FailureNamesMissingHead` | termSpaceBuilder.py:167-168 | a `KeyError` always names a head that is in the alphabet and has no bucket in the lexicon |
| `Lemmatizer.PrefixReattached` | termSpaceBuilder.py:164-171 | `vorfahren` with lexicon entry `fahr: [fahren]` lemmatises to `vorfahr` |
| `NormalizerRU.NormalizeE` | termSpaceBuilder.py:181-189 | each ё becomes е, every other character stays where it is, and the length is kept |
| `NormalizerRU.NormalizeENoYo` | termSpaceBuilder.py:181-189 | no ё is left, and normalising again changes nothing |
| `NormalizerEN.TokenTransform` | termSpaceBuilder.py:216-228 | the verb table is consulted first, then the noun table, else the token is kept; the result is a table value or the token |
| `BuildTermSpace.NormalizeToken` | termSpaceBuilder.py:296-309 | a German token comes out with no umlaut key left; a Russian one with no ё and its length kept; an English one is a base form from the irregular tables or a prefix of the stripped, lower-cased token |
| `BuildTermSpace.KeptTerms` | termSpaceBuilder.py:312 | the kept terms are exactly the tokens that are not stopwords, have no digit and are non-empty, with their multiplicities, in line order |
| `BuildTermSpace.StemTerm` | termSpaceBuilder.py:298-312 | stemming a term can fail only in German, and then with a head of the alphabet that has no bucket |
| `BuildTermSpace.StemTerms` | termSpaceBuilder.py:298 | stemming succeeds iff every term's stemming does, and then gives one stem per term, in order |
| `BuildTermSpace.StemTermsFirstFailure` | termSpaceBuilder.py:298 | a failure is the error of the first term whose stemming fails, as the generator raises it |
| `BuildTermSpace.ProcessString` | termSpaceBuilder.py:276-319 | `processString` raises only in German, and only the `KeyError` of an alphabet head missing from the lexicon |
| `BuildTermSpace.StemsComeFromKeptTokens` | termSpaceBuilder.py:296-312 | every stem of a line is the stem of a normalised token that passed the filter, in token order |
| `BuildTermSpace.DroppedTokensNeverStemmed` | termSpaceBuilder.py:312 | a stopword, a token with a digit or an empty token never reaches the stemmer |
| `BuildTermSpace.ProcessStringFailsOnlyOnMissingBucket` | termSpaceBuilder.py:296-302 | only German processing can fail, and only when the alphabet has a head with no bucket |
| `BuildTermSpace.LinesTermsAppend` | termSpaceBuilder.py:337-340 | the terms of concatenated lines are the concatenated terms, and the first failure wins |
| `BuildTermSpace.ShortLineSkipped` | termSpaceBuilder.py:338 | a line of length at most 1, wherever it stands, contributes nothing |
| `BuildTermSpace.FailurePersists` | termSpaceBuilder.py:337-340 | once a line fails, the whole document fails with that error |
| `BuildTermSpace.ProcessFile` | termSpaceBuilder.py:322-359 | `processFile` returns the document's term set (tfidf) or term list (raw), or the first `KeyError` |
| `BuildTermSpace.CollectTermSet` | termSpaceBuilder.py:333-345 | the tfidf loop builds exactly the set of the terms of all long lines |
| `BuildTermSpace.CollectTermList` | termSpaceBuilder.py:347-359 | the raw loop builds exactly the list of the terms of all long lines, in order |
| `BuildTermSpace.Selected` | termSpaceBuilder.py:382 | a file is selected iff its name's last four characters are `.txt` or `.TXT` |
| `BuildTermSpace.SelectedFilesMembers` | termSpaceBuilder.py:380-382 | the files processed are exactly those of the walk whose names end in `.txt` or `.TXT` |
| `BuildTermSpace.SelectedFilesStep` | termSpaceBuilder.py:382 | one step of the walk adds the file iff it is selected |
| `BuildTermSpace.CollectionsOfPointwise` | termSpaceBuilder.py:380-386 | the walk succeeds iff every selected document does, and then holds one collection per document, in order |
| `BuildTermSpace.CollectionsOfSnoc` | termSpaceBuilder.py:380-386 | processing one more document appends its collection or fails with its error |
| `BuildTermSpace.SelectedFailurePersists` | termSpaceBuilder.py:380-386 | once a selected document fails, the whole walk fails with that error |
| `BuildTermSpace.AddTerms` | termSpaceBuilder.py:388-390 | `terms_dict[term] += 1` over a collection adds the collection's weight to each entry, and a key is present iff it was or the weight is positive |
| `BuildTermSpace.TallySnoc` | termSpaceBuilder.py:388-390 | one more document adds its weight to every term's tally |
| `BuildTermSpace.Crawl` | termSpaceBuilder.py:362-392 | `crawl` counts the selected documents in `docs_num`, and `terms_dict` holds exactly the terms with a positive tally, each with that tally; a `KeyError` escapes |
| `BuildTermSpace.TallyIsDocumentFrequency` | termSpaceBuilder.py:367-369 | with term sets, a term's count is the number of documents containing it, never more than the number of documents |
| `BuildTermSpace.TallyIsCorpusFrequency` | termSpaceBuilder.py:352-354 | with term lists, a term's count is its number of occurrences in the whole corpus |
| `BuildTermSpace.TallyAppend` | termSpaceBuilder.py:388-390 | the counts of two batches of documents add up |
| `BuildTermSpace.TallyPermutation` | termSpaceBuilder.py:376-380 | the order in which the walk meets the documents does not change any count |
| `BuildTermSpace.CollectionsKind` | termSpaceBuilder.py:333-359 | in tfidf mode every document yields a set, in raw mode a list |
| `BuildTermSpace.DocumentFrequency` | termSpaceBuilder.py:367-369 | tfidf mode: a term's entry is the number of selected documents it occurs in, at most `docs_num` |
| `BuildTermSpace.CorpusFrequency` | termSpaceBuilder.py:347-359 | raw mode: a term's entry is its number of occurrences across all selected documents |
| `BuildTermSpace.SetWeightBelowListWeight` | termSpaceBuilder.py:338-354 | a document counted as a set never adds more than as a list, and adds to the same terms |
| `BuildTermSpace.SameVocabularyOf` | termSpaceBuilder.py:333-359 | collections of per-document sets and lists that agree term by term agree on the whole walk |
| `BuildTermSpace.SameVocabulary` | termSpaceBuilder.py:333-359 | both modes fail on the same walks and find the same terms, and document frequency never exceeds corpus frequency |
| `BuildTermSpace.SelectionExamples` | termSpaceBuilder.py:382 | `notes.txt` and `NOTES.TXT` are selected; `notes.Txt`, `txt` and `notes.text` are not |

## Left out

- File I/O: `codecs.open` with UTF-16 and `os.walk` are not modelled. The walk is given as the sequence of files it visits in order, each with the lines read before any decoding or I/O error. Line endings are part of a line as given.
- `LoadExternalLists` and the loading of stopwords, the irregular-form tables and the German lexicon are left out. They are parameters (`Resources`).
- The external code is passed in as function-valued fields of `Externals`: the `splitchars` regex split, `unicode.lower()`, the Porter, German and Russian stemmers, and pymorphy2's `normal_form`.
- Contractions.Sub: `$` is modelled as the end of the string only. Python's `$` also matches before a final newline, which cannot occur in a token produced by the whitespace split.
- The punctuation string is a set of code points. On a narrow Python 2 build, U+1F33C would be two surrogates, and that detail is not modelled.
- Umlauts.NormalizeUmlaut: proved equal to `Fold` only for the table in the order it is written. Python 2 iterates the dictionary in hash order. For any other order, the argument rests on `Umlauts.KeyUnique` and `Umlauts.OnlyKeyChosen`: at most one key starts at any position, so the same entry rewrites it whatever the order. The loop itself is not proved for a permuted table.
- Dictionary iteration order of a lexicon bucket is not modelled. A bucket is a sequence of (lemma, wordforms) pairs in a fixed order, and the lemma returned when two pairs list the same wordform depends on that order.
- The `alphabet` constant of `lemmatize` (a long tuple of three-letter heads) is not written out. It is the `alphabet` field of `Resources`, passed to `Lemmatizer.Lemmatize`.
- Writing the output is left out: the raw frequency list sorted by count, the tfidf JSON dump, the `print` progress messages, and `main` with its argument handling.
- An action other than `tfidf` and `raw` is not modelled: `processFile` returns `None` there and `crawl` would fail iterating it.
- The `if not rslt_list` test in `processString` and the `got_lemma` flag in `lemmatize` are not modelled separately. A generator is always truthy, and the flag is false whenever it is read, so neither changes the result.
- Python's `str.replace` and `strip` are modelled on code points. Unicode normalisation is not done, so a precomposed ä and a decomposed a + U+0308 are different keys, as they are in the table.
