/**
 * `NormalizerDE.lemmatize`: dictionary lemmatisation with prefix fallback.
 *
 * For L = 0, 1, ..., |word| - 1 the candidate `word[L..]` is looked up: when its first
 * three characters (its head) are in the constant `alphabet`, the bucket of the lexicon
 * under that head is scanned pair by pair, and on the first pair whose wordforms contain
 * the candidate the result is `word[..L]` followed by that pair's lemma. When no L
 * matches, the word is returned unchanged. A head in `alphabet` that is not a key of
 * the lexicon raises `KeyError`, modelled as `Failure(head)`.
 */
module Lemmatizer {
  import opened Wrappers

  /** The (lemma, wordforms) pairs of one bucket, in a fixed order. */
  type Bucket = seq<(string, seq<string>)>

  /** The German lexicon: three-letter head to bucket. */
  type Lexicon = map<string, Bucket>

  /** `s[:3]`. */
  function Head(s: string): (h: string)
    ensures h <= s
    ensures |h| == if |s| < 3 then |s| else 3
  {
    if |s| <= 3 then s else s[..3]
  }

  /** The first pair of `bucket`, from index `j` on, whose wordforms contain `form`. */
  function FirstForm(bucket: Bucket, form: string, j: nat): (r: Option<nat>)
    requires j <= |bucket|
    ensures r.Some? ==> j <= r.value < |bucket| && form in bucket[r.value].1
    ensures r.Some? ==> forall m :: j <= m < r.value ==> form !in bucket[m].1
    ensures r.None? ==> forall m :: j <= m < |bucket| ==> form !in bucket[m].1
    decreases |bucket| - j
  {
    if j == |bucket| then None
    else if form in bucket[j].1 then Some(j)
    else FirstForm(bucket, form, j + 1)
  }

  /** The candidate `word[l..]` is looked up, and the lookup either fails or finds a lemma. */
  predicate Decides(word: string, alphabet: set<string>, lexicon: Lexicon, l: int)
  {
    && 0 <= l < |word|
    && Head(word[l..]) in alphabet
    && (Head(word[l..]) !in lexicon || FirstForm(lexicon[Head(word[l..])], word[l..], 0).Some?)
  }

  /** The outcome of the search from prefix length `l` on. */
  function LemmatizeFrom(word: string, alphabet: set<string>, lexicon: Lexicon, l: nat): Result<string, string>
    decreases |word| - l
  {
    if l >= |word| then Success(word)
    else
      var tail := word[l..];
      var head := Head(tail);
      if head !in alphabet then LemmatizeFrom(word, alphabet, lexicon, l + 1)
      else if head !in lexicon then Failure(head)
      else match FirstForm(lexicon[head], tail, 0)
        case Some(k) => Success(word[..l] + lexicon[head][k].0)
        case None => LemmatizeFrom(word, alphabet, lexicon, l + 1)
  }

  function Lemmatized(word: string, alphabet: set<string>, lexicon: Lexicon): Result<string, string>
  {
    LemmatizeFrom(word, alphabet, lexicon, 0)
  }

  /** `lemmatize(word, lexicon)`, with the `alphabet` constant passed in. */
  method Lemmatize(word: string, alphabet: set<string>, lexicon: Lexicon) returns (r: Result<string, string>)
    ensures r == Lemmatized(word, alphabet, lexicon)
  {
    for l := 0 to |word|
      invariant LemmatizeFrom(word, alphabet, lexicon, 0) == LemmatizeFrom(word, alphabet, lexicon, l)
    {
      var wordNoPrefix := word[l..];
      var prefix := word[..l];
      var head := Head(wordNoPrefix);
      if head in alphabet {
        if head !in lexicon {
          return Failure(head);
        }
        var bucket := lexicon[head];
        for j := 0 to |bucket|
          invariant forall m :: 0 <= m < j ==> wordNoPrefix !in bucket[m].1
        {
          var (lemmaName, wordforms) := bucket[j];
          if wordNoPrefix in wordforms {
            return Success(prefix + lemmaName);
          }
        }
      }
    }
    return Success(word);
  }

  /** Prefix lengths at which nothing is decided are passed over. */
  lemma {:induction false} SkipUndecided(word: string, alphabet: set<string>, lexicon: Lexicon, l: nat, e: nat)
    requires l <= e <= |word|
    requires forall i :: l <= i < e ==> !Decides(word, alphabet, lexicon, i)
    ensures LemmatizeFrom(word, alphabet, lexicon, l) == LemmatizeFrom(word, alphabet, lexicon, e)
    decreases e - l
  {
    if l < e {
      assert !Decides(word, alphabet, lexicon, l);
      SkipUndecided(word, alphabet, lexicon, l + 1, e);
    }
  }

  /**
   * The smallest prefix length wins: when `l` is the first length at which a lookup is
   * decided and the candidate `word[l..]` is a wordform in its bucket, the result is
   * `word[..l]` followed by the lemma of the first pair listing that wordform.
   */
  lemma SmallestPrefixWins(word: string, alphabet: set<string>, lexicon: Lexicon, l: nat)
    requires Decides(word, alphabet, lexicon, l)
    requires forall i :: 0 <= i < l ==> !Decides(word, alphabet, lexicon, i)
    requires Head(word[l..]) in lexicon
    ensures var bucket := lexicon[Head(word[l..])];
      exists k :: && 0 <= k < |bucket|
                  && word[l..] in bucket[k].1
                  && (forall m :: 0 <= m < k ==> word[l..] !in bucket[m].1)
                  && Lemmatized(word, alphabet, lexicon) == Success(word[..l] + bucket[k].0)
  {
    SkipUndecided(word, alphabet, lexicon, 0, l);
    var bucket := lexicon[Head(word[l..])];
    var k := FirstForm(bucket, word[l..], 0).value;
    assert Lemmatized(word, alphabet, lexicon) == Success(word[..l] + bucket[k].0);
  }

  /** When the first decided lookup has no bucket in the lexicon, the `KeyError` escapes. */
  lemma MissingBucketFails(word: string, alphabet: set<string>, lexicon: Lexicon, l: nat)
    requires Decides(word, alphabet, lexicon, l)
    requires forall i :: 0 <= i < l ==> !Decides(word, alphabet, lexicon, i)
    requires Head(word[l..]) !in lexicon
    ensures Lemmatized(word, alphabet, lexicon) == Failure(Head(word[l..]))
  {
    SkipUndecided(word, alphabet, lexicon, 0, l);
  }

  /** When no candidate is decided, the word comes back unchanged. */
  lemma NoMatchKeepsWord(word: string, alphabet: set<string>, lexicon: Lexicon)
    requires forall i :: 0 <= i < |word| ==> !Decides(word, alphabet, lexicon, i)
    ensures Lemmatized(word, alphabet, lexicon) == Success(word)
  {
    SkipUndecided(word, alphabet, lexicon, 0, |word|);
  }

  /**
   * With an alphabet of three-letter heads, a candidate shorter than three characters
   * (the last two prefix lengths, and every length of a word shorter than three) is
   * never looked up.
   */
  lemma ShortCandidatesNeverLookedUp(word: string, alphabet: set<string>, lexicon: Lexicon, l: nat)
    requires forall a :: a in alphabet ==> |a| == 3
    requires |word| - 3 < l
    ensures !Decides(word, alphabet, lexicon, l)
  {
  }

  lemma ShortWordUnchanged(word: string, alphabet: set<string>, lexicon: Lexicon)
    requires forall a :: a in alphabet ==> |a| == 3
    requires |word| < 3
    ensures Lemmatized(word, alphabet, lexicon) == Success(word)
  {
    forall i | 0 <= i < |word| ensures !Decides(word, alphabet, lexicon, i) {
      ShortCandidatesNeverLookedUp(word, alphabet, lexicon, i);
    }
    NoMatchKeepsWord(word, alphabet, lexicon);
  }

  /** With a bucket for every head of the alphabet, `lemmatize` never raises. */
  lemma {:induction false} NoKeyErrorWhenBucketsComplete(word: string, alphabet: set<string>, lexicon: Lexicon, l: nat)
    requires alphabet <= lexicon.Keys
    ensures LemmatizeFrom(word, alphabet, lexicon, l).Success?
    decreases |word| - l
  {
    if l < |word| {
      NoKeyErrorWhenBucketsComplete(word, alphabet, lexicon, l + 1);
    }
  }

  /** A `KeyError` always names a head of the alphabet that the lexicon has no bucket for. */
  lemma {:induction false} FailureNamesMissingHead(word: string, alphabet: set<string>, lexicon: Lexicon, l: nat)
    ensures LemmatizeFrom(word, alphabet, lexicon, l).Failure? ==>
      && LemmatizeFrom(word, alphabet, lexicon, l).error in alphabet
      && LemmatizeFrom(word, alphabet, lexicon, l).error !in lexicon
    decreases |word| - l
  {
    if l < |word| {
      FailureNamesMissingHead(word, alphabet, lexicon, l + 1);
    }
  }

  /** The prefix `vor` is reattached to the lemma `fahr` of the listed wordform `fahren`. */
  lemma PrefixReattached()
    ensures Lemmatized("vorfahren", {"fah"}, map["fah" := [("fahr", ["fahren"])]]) == Success("vorfahr")
  {
    var word, alphabet, lexicon := "vorfahren", {"fah"}, map["fah" := [("fahr", ["fahren"])]];
    assert Head(word[0..]) == "vor";
    assert Head(word[1..]) == "orf";
    assert Head(word[2..]) == "rfa";
    assert Head(word[3..]) == "fah" && word[3..] == "fahren";
    assert FirstForm(lexicon["fah"], "fahren", 0) == Some(0);
    assert word[..3] + "fahr" == "vorfahr";
  }
}
