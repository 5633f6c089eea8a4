/**
 * `BuildTermSpace`: the per-line pipeline (`processString`), the per-document
 * accumulation (`processFile`) and the corpus counting loop (`crawl`).
 *
 * The tokenizer regex, `lower()`, the stemmers and the Russian morphological analyser
 * are foreign code; they are the function-valued fields of `Externals`. The
 * directory walk is replaced by the sequence of files it visits, each given as the
 * lines that were read from it before any decoding or I/O error.
 */
module BuildTermSpace {
  import opened Wrappers
  import opened PyStr
  import Contractions
  import Umlauts
  import Lemmatizer
  import NormalizerRU
  import NormalizerEN

  datatype Language = English | German | Russian

  datatype Action = Tfidf | Raw

  /** Foreign code the pipeline calls. */
  datatype Externals = Externals(
    split: string -> seq<string>,   // splitchars.split(line)
    lower: string -> string,        // unicode.lower()
    stem: string -> string,         // the language's stemmer
    normalForm: string -> string)   // pymorphy2: parse(term)[0].normal_form

  /** The loaded resources: stopwords, the irregular-form tables, the German lexicon and its head alphabet. */
  datatype Resources = Resources(
    stopwords: set<string>,
    irregVerbs: map<string, string>,
    irregNouns: map<string, string>,
    alphabet: set<string>,
    lexicon: Lemmatizer.Lexicon)

  /** What `processString` depends on: the language, its resources and the foreign code. */
  datatype Pipeline = Pipeline(language: Language, res: Resources, ext: Externals)

  /** `self.punctuation`: stripped from both ends of every token. */
  const Punctuation: set<char> := {
    '\U{2219}', '!', '\U{203C}', '\U{00A1}', '"', '#', '\U{00A3}', '\U{20AC}', '$', '\U{00A5}',
    '%', '&', '\'', '(', ')', '*', '+', '\U{00B1}', '\U{00D7}', '\U{00F7}', '\U{00B7}', ',', '-',
    '.', '/', ':', ';', '<', '=', '>', '?', '\U{00BF}', '@', '[', '\\', ']', '^', '\U{02C6}',
    '\U{00A8}', '_', '`', '\U{2014}', '\U{2013}', '\U{00AD}', '{', '|', '}', '~', '\U{2248}',
    '\U{2260}', '\U{2192}', '\U{2193}', '\U{00AC}', '\U{2019}', '\U{201C}', '\U{201D}', '\U{00AB}',
    '\U{00BB}', '\U{226B}', '\U{2018}', '\U{2026}', '\U{00A6}', '\U{203A}', '\U{1F33C}',
    '\U{2032}', '\U{2033}', '\U{00B9}', '\U{00A7}', '\U{00BC}', '\U{215C}', '\U{00BD}', '\U{00BE}',
    '\U{2158}', '\U{00A9}', '\U{2712}', '\U{2022}', '\U{25BA}', '\U{25CF}', '\U{2605}', '\U{2764}',
    '\U{27A1}', '\U{279C}', '\U{279A}', '\U{2798}', '\U{2794}', '\U{2714}', '\U{2793}', '\U{2792}',
    '\U{2791}', '\U{2790}', '\U{278F}', '\U{278E}', '\U{278D}', '\U{278C}', '\U{278B}', '\U{278A}',
    '\U{2778}', '\U{2777}', '\U{25A0}', '\U{2020}', '\U{271D}', '\U{270C}', '\U{FFFC}', '\U{FE0F}',
    '\U{00B3}', '\U{200E}', '\U{00B2}', '\U{201A}', '\U{201E}', '\U{0020}', '\U{200B}'
  }

  // ---------------------------------------------------------------- processString

  /** The stripped, lower-cased token that the language's normaliser receives. */
  function Lowered(p: Pipeline, token: string): string
  {
    p.ext.lower(Strip(token, Punctuation))
  }

  /**
   * The token generator of `processString`: strip, lower-case, then the language's
   * normaliser. A German token comes out with no umlaut key left, a Russian one with no
   * ё and its length kept, and an English one is either a base form from the irregular
   * tables or a prefix of the lowered token (its contraction endings removed).
   */
  function NormalizeToken(p: Pipeline, token: string): (r: string)
    ensures p.language == German ==> Umlauts.KeyFree(r)
    ensures p.language == Russian ==> NormalizerRU.Yo !in r && |r| == |Lowered(p, token)|
    ensures p.language == English ==>
      r in p.res.irregVerbs.Values || r in p.res.irregNouns.Values || r <= Lowered(p, token)
  {
    var t := Lowered(p, token);
    match p.language
    case German =>
      var c := Contractions.StripContractions(t, Contractions.German);
      Umlauts.FoldKeyFree(c);
      Umlauts.Fold(c)
    case Russian =>
      NormalizerRU.NormalizeENoYo(t);
      NormalizerRU.NormalizeE(t)
    case English =>
      NormalizerEN.TokenTransform(Contractions.StripContractions(t, Contractions.English), p.res.irregVerbs, p.res.irregNouns)
  }

  function NormalizeTokens(p: Pipeline, tokens: seq<string>): seq<string>
  {
    seq(|tokens|, i requires 0 <= i < |tokens| => NormalizeToken(p, tokens[i]))
  }

  /** `esc_num.search(term)`: some character is an ASCII digit. */
  predicate HasDigit(term: string)
  {
    exists i | 0 <= i < |term| :: '0' <= term[i] <= '9'
  }

  /** The filter of `processString`. */
  predicate Keep(stopwords: set<string>, term: string)
  {
    term !in stopwords && !HasDigit(term) && |term| > 0
  }

  /** `a` is `b` with some elements left out, the rest in their order. */
  predicate IsSubsequence<T(==)>(a: seq<T>, b: seq<T>)
    decreases |b|
  {
    if b == [] then a == []
    else
      || IsSubsequence(a, b[..|b| - 1])
      || (a != [] && a[|a| - 1] == b[|b| - 1] && IsSubsequence(a[..|a| - 1], b[..|b| - 1]))
  }

  /** The terms that pass the filter, in line order. */
  function KeptTerms(stopwords: set<string>, terms: seq<string>): (r: seq<string>)
    ensures forall i :: 0 <= i < |r| ==> Keep(stopwords, r[i])
    ensures forall x :: multiset(r)[x] == if Keep(stopwords, x) then multiset(terms)[x] else 0
    ensures IsSubsequence(r, terms)
    decreases |terms|
  {
    if terms == [] then []
    else
      var init, last := terms[..|terms| - 1], terms[|terms| - 1];
      assert terms == init + [last];
      var prev := KeptTerms(stopwords, init);
      if Keep(stopwords, last) then
        var r := prev + [last];
        assert r[..|r| - 1] == prev && r[|r| - 1] == last;
        assert IsSubsequence(r, terms);
        r
      else
        assert IsSubsequence(prev, terms);
        prev
  }

  /** The stem of one kept term; for German the lemmatiser may raise `KeyError`. */
  function StemTerm(p: Pipeline, term: string): (r: Result<string, string>)
    ensures r.Failure? ==> p.language == German && r.error in p.res.alphabet && r.error !in p.res.lexicon
  {
    Lemmatizer.FailureNamesMissingHead(term, p.res.alphabet, p.res.lexicon, 0);
    match p.language
    case German =>
      (match Lemmatizer.Lemmatized(term, p.res.alphabet, p.res.lexicon)
       case Success(base) => Success(p.ext.stem(base))
       case Failure(head) => Failure(head))
    case Russian => Success(p.ext.stem(p.ext.normalForm(term)))
    case English => Success(p.ext.stem(term))
  }

  /** Applies `stem` to every term in order; the first failing term's error escapes. */
  function StemTerms(stem: string -> Result<string, string>, terms: seq<string>): (r: Result<seq<string>, string>)
    ensures r.Success? <==> forall i :: 0 <= i < |terms| ==> stem(terms[i]).Success?
    ensures r.Success? ==> |r.value| == |terms| && forall i :: 0 <= i < |terms| ==> stem(terms[i]) == Success(r.value[i])
    decreases |terms|
  {
    if terms == [] then Success([])
    else
      var init, last := terms[..|terms| - 1], terms[|terms| - 1];
      match StemTerms(stem, init)
      case Failure(e) => Failure(e)
      case Success(stems) =>
        match stem(last)
        case Failure(e) => Failure(e)
        case Success(s) => Success(stems + [s])
  }

  /** A failure is the error of the first term whose stemming fails, as the lazy generator raises it. */
  lemma {:induction false} StemTermsFirstFailure(stem: string -> Result<string, string>, terms: seq<string>)
    requires StemTerms(stem, terms).Failure?
    ensures exists i :: && 0 <= i < |terms|
                        && stem(terms[i]) == Failure(StemTerms(stem, terms).error)
                        && forall j :: 0 <= j < i ==> stem(terms[j]).Success?
    decreases |terms|
  {
    var init := terms[..|terms| - 1];
    if StemTerms(stem, init).Failure? {
      StemTermsFirstFailure(stem, init);
      var i :| 0 <= i < |init| && stem(init[i]) == Failure(StemTerms(stem, init).error)
               && forall j :: 0 <= j < i ==> stem(init[j]).Success?;
      assert terms[i] == init[i];
    } else {
      assert forall j :: 0 <= j < |terms| - 1 ==> terms[j] == init[j];
      assert stem(terms[|terms| - 1]) == Failure(StemTerms(stem, terms).error);
    }
  }

  /** The normalised tokens of a line that reach the stemmer. */
  function LineTerms(p: Pipeline, line: string): seq<string>
  {
    KeptTerms(p.res.stopwords, NormalizeTokens(p, p.ext.split(line)))
  }

  /** `processString(line)`, forced to a list. */
  function ProcessString(p: Pipeline, line: string): (r: Result<seq<string>, string>)
    ensures r.Failure? ==> p.language == German && r.error in p.res.alphabet && r.error !in p.res.lexicon
  {
    var stem := t => StemTerm(p, t);
    var terms := LineTerms(p, line);
    var r := StemTerms(stem, terms);
    if r.Failure? then
      StemTermsFirstFailure(stem, terms);
      r
    else r
  }

  /**
   * Every stem comes from a normalised token of the line that is non-empty, free of
   * ASCII digits and not a stopword; the stems follow the order of those tokens.
   */
  lemma StemsComeFromKeptTokens(p: Pipeline, line: string)
    requires ProcessString(p, line).Success?
    ensures var tokens := NormalizeTokens(p, p.ext.split(line));
      var kept := LineTerms(p, line);
      var stems := ProcessString(p, line).value;
      && IsSubsequence(kept, tokens)
      && |stems| == |kept|
      && forall i :: 0 <= i < |kept| ==>
           && |kept[i]| > 0 && !HasDigit(kept[i]) && kept[i] !in p.res.stopwords
           && StemTerm(p, kept[i]) == Success(stems[i])
  {
  }

  /** A stopword, a token with a digit, or an empty token never reaches the stemmer. */
  lemma DroppedTokensNeverStemmed(p: Pipeline, line: string, token: string)
    requires token in p.res.stopwords || HasDigit(token) || token == []
    ensures token !in LineTerms(p, line)
  {
  }

  /** Only the German lemmatiser can fail, and only for a head without a bucket. */
  lemma ProcessStringFailsOnlyOnMissingBucket(p: Pipeline, line: string)
    requires p.language != German || p.res.alphabet <= p.res.lexicon.Keys
    ensures ProcessString(p, line).Success?
  {
    var terms := LineTerms(p, line);
    forall i | 0 <= i < |terms| ensures StemTerm(p, terms[i]).Success? {
      if p.language == German {
        Lemmatizer.NoKeyErrorWhenBucketsComplete(terms[i], p.res.alphabet, p.res.lexicon, 0);
      }
    }
  }

  // ---------------------------------------------------------------- processFile

  /** What `processFile` returns: a set of terms (tfidf) or a list with repeats (raw). */
  datatype Terms = TermSet(terms: set<string>) | TermList(items: seq<string>)

  /** `processString` as a value, so that the line recursion below does not unfold it. */
  function LineProcessor(p: Pipeline): string -> Result<seq<string>, string>
  {
    line => ProcessString(p, line)
  }

  /** The terms of a document's lines, in order; lines of length at most 1 are skipped. */
  function LinesTerms(proc: string -> Result<seq<string>, string>, lines: seq<string>): Result<seq<string>, string>
    decreases |lines|
  {
    if lines == [] then Success([])
    else
      var line := lines[|lines| - 1];
      match LinesTerms(proc, lines[..|lines| - 1])
      case Failure(e) => Failure(e)
      case Success(prev) =>
        if |line| <= 1 then Success(prev)
        else match proc(line)
          case Failure(e) => Failure(e)
          case Success(terms) => Success(prev + terms)
  }

  function DocTerms(p: Pipeline, lines: seq<string>): Result<seq<string>, string>
  {
    LinesTerms(LineProcessor(p), lines)
  }

  function Collect(action: Action, terms: seq<string>): Terms
  {
    match action
    case Tfidf => TermSet(set t | t in terms)
    case Raw => TermList(terms)
  }

  function FileTerms(p: Pipeline, action: Action, lines: seq<string>): Result<Terms, string>
  {
    match DocTerms(p, lines)
    case Failure(e) => Failure(e)
    case Success(terms) => Success(Collect(action, terms))
  }

  /** Concatenating documents concatenates their terms, and the first failure wins. */
  lemma {:induction false} LinesTermsAppend(proc: string -> Result<seq<string>, string>, a: seq<string>, b: seq<string>)
    ensures LinesTerms(proc, a + b) ==
      match LinesTerms(proc, a)
      case Failure(e) => Failure(e)
      case Success(x) =>
        match LinesTerms(proc, b)
        case Failure(e) => Failure(e)
        case Success(y) => Success(x + y)
    decreases |b|
  {
    if b == [] {
      assert a + b == a;
      if LinesTerms(proc, a).Success? {
        assert LinesTerms(proc, a).value + [] == LinesTerms(proc, a).value;
      }
    } else {
      var b' := b[..|b| - 1];
      assert (a + b)[..|a + b| - 1] == a + b';
      assert (a + b)[|a + b| - 1] == b[|b| - 1];
      LinesTermsAppend(proc, a, b');
      if LinesTerms(proc, a).Success? && LinesTerms(proc, b').Success? && LinesTerms(proc, b).Success? {
        var x, y' := LinesTerms(proc, a).value, LinesTerms(proc, b').value;
        if |b[|b| - 1]| > 1 {
          var z := proc(b[|b| - 1]).value;
          assert x + y' + z == x + (y' + z);
        }
      }
    }
  }

  /** A line of length at most 1, wherever it stands, contributes nothing. */
  lemma ShortLineSkipped(p: Pipeline, a: seq<string>, line: string, b: seq<string>)
    requires |line| <= 1
    ensures DocTerms(p, a + [line] + b) == DocTerms(p, a + b)
  {
    var proc := LineProcessor(p);
    LinesTermsAppend(proc, a + [line], b);
    LinesTermsAppend(proc, a, [line]);
    assert [line][..0] == [];
    assert LinesTerms(proc, [line]) == Success([]);
    if LinesTerms(proc, a).Success? {
      assert LinesTerms(proc, a).value + [] == LinesTerms(proc, a).value;
    }
    LinesTermsAppend(proc, a, b);
  }

  /** `processFile(filename)`, given the lines read from the file. */
  method ProcessFile(p: Pipeline, action: Action, lines: seq<string>) returns (r: Result<Terms, string>)
    ensures r == FileTerms(p, action, lines)
  {
    match action
    case Tfidf =>
      var terms := CollectTermSet(LineProcessor(p), lines);
      r := if terms.Success? then Success(TermSet(terms.value)) else Failure(terms.error);
    case Raw =>
      var terms := CollectTermList(LineProcessor(p), lines);
      r := if terms.Success? then Success(TermList(terms.value)) else Failure(terms.error);
  }

  /** The tfidf branch of `processFile`: every term of every long line is added to a set. */
  method CollectTermSet(proc: string -> Result<seq<string>, string>, lines: seq<string>)
    returns (r: Result<set<string>, string>)
    ensures LinesTerms(proc, lines).Failure? ==> r == Failure(LinesTerms(proc, lines).error)
    ensures LinesTerms(proc, lines).Success? ==> r == Success(set t | t in LinesTerms(proc, lines).value)
  {
    var termsSet: set<string> := {};
    for i := 0 to |lines|
      invariant LinesTerms(proc, lines[..i]).Success?
      invariant termsSet == set t | t in LinesTerms(proc, lines[..i]).value
    {
      assert lines[..i + 1][..i] == lines[..i];
      var line := lines[i];
      if |line| > 1 {
        var terms := proc(line);
        if terms.Failure? {
          FailurePersists(proc, lines, i + 1);
          return Failure(terms.error);
        }
        ghost var prev := termsSet;
        for k := 0 to |terms.value|
          invariant termsSet == prev + set t | t in terms.value[..k]
        {
          assert terms.value[..k + 1] == terms.value[..k] + [terms.value[k]];
          termsSet := termsSet + {terms.value[k]};
        }
        assert terms.value[..|terms.value|] == terms.value;
      }
    }
    assert lines[..|lines|] == lines;
    return Success(termsSet);
  }

  /** The raw branch of `processFile`: every term of every long line is appended to a list. */
  method CollectTermList(proc: string -> Result<seq<string>, string>, lines: seq<string>)
    returns (r: Result<seq<string>, string>)
    ensures r == LinesTerms(proc, lines)
  {
    var termsList: seq<string> := [];
    for i := 0 to |lines|
      invariant LinesTerms(proc, lines[..i]) == Success(termsList)
    {
      assert lines[..i + 1][..i] == lines[..i];
      var line := lines[i];
      if |line| > 1 {
        var terms := proc(line);
        if terms.Failure? {
          FailurePersists(proc, lines, i + 1);
          return Failure(terms.error);
        }
        ghost var prev := termsList;
        for k := 0 to |terms.value|
          invariant termsList == prev + terms.value[..k]
        {
          assert terms.value[..k + 1] == terms.value[..k] + [terms.value[k]];
          termsList := termsList + [terms.value[k]];
        }
        assert terms.value[..|terms.value|] == terms.value;
      }
    }
    assert lines[..|lines|] == lines;
    return Success(termsList);
  }

  /** Once a prefix of the lines fails, the whole document fails with the same error. */
  lemma FailurePersists(proc: string -> Result<seq<string>, string>, lines: seq<string>, i: nat)
    requires i <= |lines| && LinesTerms(proc, lines[..i]).Failure?
    ensures LinesTerms(proc, lines) == LinesTerms(proc, lines[..i])
  {
    assert lines == lines[..i] + lines[i..];
    LinesTermsAppend(proc, lines[..i], lines[i..]);
  }

  // ---------------------------------------------------------------- crawl

  /** A file met by the directory walk, with the lines it yields when read. */
  datatype FileEntry = FileEntry(name: string, lines: seq<string>)

  /** Only files ending in `.txt` or `.TXT` are processed (other spellings are not). */
  predicate Selected(name: string)
    ensures Selected(name) <==> |name| >= 4 && name[|name| - 4..] in {".txt", ".TXT"}
  {
    EndsWith(name, ".txt") || EndsWith(name, ".TXT")
  }

  /** The selected files, in walk order. */
  function SelectedFiles(files: seq<FileEntry>): seq<FileEntry>
    decreases |files|
  {
    if files == [] then []
    else
      var last := files[|files| - 1];
      if Selected(last.name) then SelectedFiles(files[..|files| - 1]) + [last]
      else SelectedFiles(files[..|files| - 1])
  }

  /** The walk keeps exactly the selected files. */
  lemma {:induction false} SelectedFilesMembers(files: seq<FileEntry>)
    ensures |SelectedFiles(files)| <= |files|
    ensures forall f :: f in SelectedFiles(files) <==> f in files && Selected(f.name)
    decreases |files|
  {
    if files != [] {
      var init := files[..|files| - 1];
      SelectedFilesMembers(init);
      assert files == init + [files[|files| - 1]];
    }
  }

  lemma SelectedFilesStep(files: seq<FileEntry>, i: nat)
    requires i < |files|
    ensures Selected(files[i].name) ==> SelectedFiles(files[..i + 1]) == SelectedFiles(files[..i]) + [files[i]]
    ensures !Selected(files[i].name) ==> SelectedFiles(files[..i + 1]) == SelectedFiles(files[..i])
  {
    assert files[..i + 1][..i] == files[..i];
  }

  /** `processFile` as a value, so that the recursion over documents below does not unfold it. */
  function FileProcessor(p: Pipeline, action: Action): seq<string> -> Result<Terms, string>
  {
    lines => FileTerms(p, action, lines)
  }

  /** What `proc` gives for each document, or the first document's failure. */
  function CollectionsOf(proc: seq<string> -> Result<Terms, string>, docs: seq<FileEntry>): Result<seq<Terms>, string>
    decreases |docs|
  {
    if docs == [] then Success([])
    else
      var init := docs[..|docs| - 1];
      match CollectionsOf(proc, init)
      case Failure(e) => Failure(e)
      case Success(prev) =>
        match proc(docs[|docs| - 1].lines)
        case Failure(e) => Failure(e)
        case Success(c) => Success(prev + [c])
  }

  /** The walk succeeds exactly when every document does, and then holds one collection per document, in order. */
  lemma {:induction false} CollectionsOfPointwise(proc: seq<string> -> Result<Terms, string>, docs: seq<FileEntry>)
    ensures CollectionsOf(proc, docs).Success? <==> forall i | 0 <= i < |docs| :: proc(docs[i].lines).Success?
    ensures CollectionsOf(proc, docs).Success? ==> |CollectionsOf(proc, docs).value| == |docs|
    ensures CollectionsOf(proc, docs).Success? ==>
      forall i | 0 <= i < |docs| :: CollectionsOf(proc, docs).value[i] == proc(docs[i].lines).value
    decreases |docs|
  {
    if docs != [] {
      var init := docs[..|docs| - 1];
      CollectionsOfPointwise(proc, init);
      assert forall i | 0 <= i < |init| :: docs[i] == init[i];
    }
  }

  lemma CollectionsOfSnoc(proc: seq<string> -> Result<Terms, string>, docs: seq<FileEntry>, d: FileEntry)
    ensures CollectionsOf(proc, docs + [d]) ==
      match CollectionsOf(proc, docs)
      case Failure(e) => Failure(e)
      case Success(prev) =>
        match proc(d.lines)
        case Failure(e) => Failure(e)
        case Success(c) => Success(prev + [c])
  {
    assert (docs + [d])[..|docs|] == docs;
  }

  /** What `processFile` gives for each document, or the first document's failure. */
  function Collections(p: Pipeline, action: Action, docs: seq<FileEntry>): Result<seq<Terms>, string>
  {
    CollectionsOf(FileProcessor(p, action), docs)
  }

  /** How much one document adds to a term's entry: once per document for a set, once per occurrence for a list. */
  function Weight(c: Terms, t: string): nat
  {
    match c
    case TermSet(ts) => if t in ts then 1 else 0
    case TermList(items) => multiset(items)[t]
  }

  /** A term's entry in `terms_dict` after the given documents. */
  function Tally(cols: seq<Terms>, t: string): nat
    decreases |cols|
  {
    if cols == [] then 0 else Tally(cols[..|cols| - 1], t) + Weight(cols[|cols| - 1], t)
  }

  /** Reading a `defaultdict(int)`: a missing key reads as 0. */
  function CountOf(m: map<string, nat>, t: string): nat
  {
    if t in m then m[t] else 0
  }

  /** The result of `crawl`: the document frequency (tfidf) or corpus frequency (raw) of each term, and the number of documents. */
  datatype CorpusDict = CorpusDict(counts: map<string, nat>, docsNum: nat)

  /** `for term in terms: terms_dict[term] += 1`. */
  method AddTerms(counts: map<string, nat>, c: Terms) returns (r: map<string, nat>)
    ensures forall t :: CountOf(r, t) == CountOf(counts, t) + Weight(c, t)
    ensures forall t :: t in r <==> t in counts || Weight(c, t) > 0
  {
    r := counts;
    match c
    case TermSet(ts) =>
      var remaining := ts;
      while remaining != {}
        invariant remaining <= ts
        invariant forall t :: CountOf(r, t) == CountOf(counts, t) + if t in ts - remaining then 1 else 0
        invariant forall t :: t in r <==> t in counts || t in ts - remaining
        decreases remaining
      {
        var term :| term in remaining;
        r := r[term := CountOf(r, term) + 1];
        remaining := remaining - {term};
      }
    case TermList(items) =>
      for k := 0 to |items|
        invariant forall t :: CountOf(r, t) == CountOf(counts, t) + multiset(items[..k])[t]
        invariant forall t :: t in r <==> t in counts || t in items[..k]
      {
        assert items[..k + 1] == items[..k] + [items[k]];
        r := r[items[k] := CountOf(r, items[k]) + 1];
      }
      assert items[..|items|] == items;
  }

  /** `crawl(dirname)`, given the files of the walk in traversal order. */
  method Crawl(p: Pipeline, action: Action, files: seq<FileEntry>) returns (r: Result<CorpusDict, string>)
    ensures Collections(p, action, SelectedFiles(files)).Failure? ==>
      r == Failure(Collections(p, action, SelectedFiles(files)).error)
    ensures Collections(p, action, SelectedFiles(files)).Success? ==>
      var cols := Collections(p, action, SelectedFiles(files)).value;
      && r.Success?
      && r.value.docsNum == |SelectedFiles(files)|
      && (forall t :: t in r.value.counts <==> Tally(cols, t) > 0)
      && (forall t | t in r.value.counts :: r.value.counts[t] == Tally(cols, t))
  {
    var docsNum := 0;
    var termsDict: map<string, nat> := map[];
    ghost var cols: seq<Terms> := [];
    for i := 0 to |files|
      invariant Collections(p, action, SelectedFiles(files[..i])) == Success(cols)
      invariant docsNum == |SelectedFiles(files[..i])|
      invariant forall t :: CountOf(termsDict, t) == Tally(cols, t)
      invariant forall t :: t in termsDict <==> Tally(cols, t) > 0
    {
      SelectedFilesStep(files, i);
      var f := files[i];
      if Selected(f.name) {
        CollectionsOfSnoc(FileProcessor(p, action), SelectedFiles(files[..i]), f);
        var terms := ProcessFile(p, action, f.lines);
        if terms.Failure? {
          SelectedFailurePersists(FileProcessor(p, action), files, i + 1);
          return Failure(terms.error);
        }
        termsDict := AddTerms(termsDict, terms.value);
        TallySnoc(cols, terms.value);
        cols := cols + [terms.value];
        docsNum := docsNum + 1;
      }
    }
    assert files[..|files|] == files;
    return Success(CorpusDict(termsDict, docsNum));
  }

  lemma TallySnoc(cols: seq<Terms>, c: Terms)
    ensures forall t :: Tally(cols + [c], t) == Tally(cols, t) + Weight(c, t)
  {
    assert (cols + [c])[..|cols|] == cols;
  }

  /** Once the documents selected so far fail, the whole walk fails with the same error. */
  lemma SelectedFailurePersists(proc: seq<string> -> Result<Terms, string>, files: seq<FileEntry>, i: nat)
    requires i <= |files| && CollectionsOf(proc, SelectedFiles(files[..i])).Failure?
    ensures CollectionsOf(proc, SelectedFiles(files)) == CollectionsOf(proc, SelectedFiles(files[..i]))
    decreases |files| - i
  {
    if i < |files| {
      SelectedFilesStep(files, i);
      var prev := SelectedFiles(files[..i]);
      if Selected(files[i].name) {
        CollectionsOfSnoc(proc, prev, files[i]);
      }
      SelectedFailurePersists(proc, files, i + 1);
    } else {
      assert files[..i] == files;
    }
  }

  // ---------------------------------------------------------------- what the counts mean

  /** The documents (by position) whose term set contains `t`. */
  function DocsContaining(cols: seq<Terms>, t: string): set<nat>
  {
    set i: nat | i < |cols| && cols[i].TermSet? && t in cols[i].terms
  }

  /** All documents' term lists, one after the other. */
  function Corpus(cols: seq<Terms>): seq<string>
    decreases |cols|
  {
    if cols == [] then []
    else
      var last := cols[|cols| - 1];
      Corpus(cols[..|cols| - 1]) + if last.TermList? then last.items else []
  }

  /** With term sets, a term's entry is the number of documents that contain it. */
  lemma {:induction false} TallyIsDocumentFrequency(cols: seq<Terms>, t: string)
    requires forall i | 0 <= i < |cols| :: cols[i].TermSet?
    ensures Tally(cols, t) == |DocsContaining(cols, t)|
    ensures Tally(cols, t) <= |cols|
    decreases |cols|
  {
    if cols != [] {
      var n := |cols| - 1;
      var init := cols[..n];
      TallyIsDocumentFrequency(init, t);
      var before := DocsContaining(init, t);
      assert n !in before;
      if t in cols[n].terms {
        assert DocsContaining(cols, t) == before + {n};
      } else {
        assert DocsContaining(cols, t) == before;
      }
    }
  }

  /** With term lists, a term's entry is its number of occurrences in the whole corpus. */
  lemma {:induction false} TallyIsCorpusFrequency(cols: seq<Terms>, t: string)
    requires forall i | 0 <= i < |cols| :: cols[i].TermList?
    ensures Tally(cols, t) == multiset(Corpus(cols))[t]
    decreases |cols|
  {
    if cols != [] {
      var n := |cols| - 1;
      TallyIsCorpusFrequency(cols[..n], t);
    }
  }

  lemma {:induction false} TallyAppend(a: seq<Terms>, b: seq<Terms>, t: string)
    ensures Tally(a + b, t) == Tally(a, t) + Tally(b, t)
    decreases |b|
  {
    if b == [] {
      assert a + b == a;
    } else {
      var n := |b| - 1;
      assert (a + b)[..|a + b| - 1] == a + b[..n];
      TallyAppend(a, b[..n], t);
    }
  }

  /** The order in which the walk meets the documents does not change any entry. */
  lemma {:induction false} TallyPermutation(a: seq<Terms>, b: seq<Terms>, t: string)
    requires multiset(a) == multiset(b)
    ensures Tally(a, t) == Tally(b, t)
    decreases |a|
  {
    if a != [] {
      var n := |a| - 1;
      var c := a[n];
      assert c in multiset(b);
      var k :| 0 <= k < |b| && b[k] == c;
      var rest := b[..k] + b[k + 1..];
      assert b == b[..k] + [c] + b[k + 1..];
      assert a == a[..n] + [c];
      assert multiset(b) == multiset(b[..k]) + multiset{c} + multiset(b[k + 1..]);
      assert multiset(a) == multiset(a[..n]) + multiset{c};
      assert multiset(rest) == multiset(b[..k]) + multiset(b[k + 1..]);
      assert multiset(a[..n]) == multiset(a) - multiset{c};
      TallyPermutation(a[..n], rest, t);
      TallyAppend(b[..k] + [c], b[k + 1..], t);
      TallyAppend(b[..k], [c], t);
      TallyAppend(b[..k], b[k + 1..], t);
      assert [c][..0] == [];
    }
  }

  /** In tfidf mode every collection is a set, in raw mode a list. */
  lemma CollectionsKind(p: Pipeline, action: Action, docs: seq<FileEntry>)
    requires Collections(p, action, docs).Success?
    ensures |Collections(p, action, docs).value| == |docs|
    ensures forall i | 0 <= i < |docs| :: Collections(p, action, docs).value[i].TermSet? <==> action == Tfidf
  {
    CollectionsOfPointwise(FileProcessor(p, action), docs);
  }

  /** tfidf mode: a term's count is the number of selected documents it occurs in, never more than `docs_num`. */
  lemma DocumentFrequency(p: Pipeline, files: seq<FileEntry>, t: string)
    requires Collections(p, Tfidf, SelectedFiles(files)).Success?
    ensures var cols := Collections(p, Tfidf, SelectedFiles(files)).value;
      Tally(cols, t) == |DocsContaining(cols, t)| && Tally(cols, t) <= |SelectedFiles(files)|
  {
    CollectionsKind(p, Tfidf, SelectedFiles(files));
    TallyIsDocumentFrequency(Collections(p, Tfidf, SelectedFiles(files)).value, t);
  }

  /** raw mode: a term's count is its number of occurrences across all selected documents. */
  lemma CorpusFrequency(p: Pipeline, files: seq<FileEntry>, t: string)
    requires Collections(p, Raw, SelectedFiles(files)).Success?
    ensures var cols := Collections(p, Raw, SelectedFiles(files)).value;
      Tally(cols, t) == multiset(Corpus(cols))[t]
  {
    CollectionsKind(p, Raw, SelectedFiles(files));
    TallyIsCorpusFrequency(Collections(p, Raw, SelectedFiles(files)).value, t);
  }

  /** Collecting a document as a set never counts a term more often than collecting it as a list, and finds the same terms. */
  lemma SetWeightBelowListWeight(items: seq<string>, t: string)
    ensures Weight(TermSet(set u | u in items), t) <= Weight(TermList(items), t)
    ensures Weight(TermSet(set u | u in items), t) > 0 <==> Weight(TermList(items), t) > 0
  {
    assert t in items <==> multiset(items)[t] > 0;
  }

  lemma {:induction false} SameVocabularyOf(
    asSet: seq<string> -> Result<Terms, string>, asList: seq<string> -> Result<Terms, string>,
    docs: seq<FileEntry>, t: string)
    requires forall i | 0 <= i < |docs| :: asSet(docs[i].lines).Success? <==> asList(docs[i].lines).Success?
    requires forall i | 0 <= i < |docs| && asSet(docs[i].lines).Success? ::
      Weight(asSet(docs[i].lines).value, t) <= Weight(asList(docs[i].lines).value, t) &&
      (Weight(asSet(docs[i].lines).value, t) > 0 <==> Weight(asList(docs[i].lines).value, t) > 0)
    ensures CollectionsOf(asSet, docs).Success? <==> CollectionsOf(asList, docs).Success?
    ensures CollectionsOf(asSet, docs).Success? ==>
      var d := Tally(CollectionsOf(asSet, docs).value, t);
      var c := Tally(CollectionsOf(asList, docs).value, t);
      d <= c && (d > 0 <==> c > 0)
    decreases |docs|
  {
    if docs != [] {
      var n := |docs| - 1;
      var init := docs[..n];
      assert forall i | 0 <= i < |init| :: init[i] == docs[i];
      SameVocabularyOf(asSet, asList, init, t);
      assert docs == init + [docs[n]];
      CollectionsOfSnoc(asSet, init, docs[n]);
      CollectionsOfSnoc(asList, init, docs[n]);
      if CollectionsOf(asSet, docs).Success? {
        TallySnoc(CollectionsOf(asSet, init).value, asSet(docs[n].lines).value);
        TallySnoc(CollectionsOf(asList, init).value, asList(docs[n].lines).value);
      }
    }
  }

  /** Both modes fail on the same walks, find the same terms, and the document frequency never exceeds the corpus frequency. */
  lemma SameVocabulary(p: Pipeline, docs: seq<FileEntry>, t: string)
    ensures Collections(p, Tfidf, docs).Success? <==> Collections(p, Raw, docs).Success?
    ensures Collections(p, Tfidf, docs).Success? ==>
      var d := Tally(Collections(p, Tfidf, docs).value, t);
      var c := Tally(Collections(p, Raw, docs).value, t);
      d <= c && (d > 0 <==> c > 0)
  {
    var s, l := FileProcessor(p, Tfidf), FileProcessor(p, Raw);
    forall i | 0 <= i < |docs| && s(docs[i].lines).Success?
      ensures Weight(s(docs[i].lines).value, t) <= Weight(l(docs[i].lines).value, t)
      ensures Weight(s(docs[i].lines).value, t) > 0 <==> Weight(l(docs[i].lines).value, t) > 0
    {
      SetWeightBelowListWeight(DocTerms(p, docs[i].lines).value, t);
    }
    SameVocabularyOf(s, l, docs, t);
  }

  /** File selection is by case-sensitive suffix: `.txt` and `.TXT` only. */
  lemma SelectionExamples()
    ensures Selected("notes.txt") && Selected("NOTES.TXT")
    ensures !Selected("notes.Txt") && !Selected("txt") && !Selected("notes.text")
  {
    assert "notes.txt"[9 - 4..] == ".txt";
    assert "NOTES.TXT"[9 - 4..] == ".TXT";
    assert "notes.Txt"[9 - 4..] == ".Txt";
    assert "notes.text"[10 - 4..] == "text";
  }
}
