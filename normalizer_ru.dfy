/** `NormalizerRU.normalizeE`: the letter ё is written as е. */
module NormalizerRU {
  import opened PyStr

  /** ё (U+0451) */
  const Yo: char := '\U{0451}'

  /** е (U+0435) */
  const Ye: char := '\U{0435}'

  /** Each ё becomes е and every other character stays where it is. */
  function NormalizeE(word: string): (r: string)
    ensures |r| == |word|
    ensures forall i :: 0 <= i < |word| ==> r[i] == if word[i] == Yo then Ye else word[i]
  {
    ReplaceCharPointwise(word, Yo, Ye);
    if Contains(word, [Yo]) then Replace(word, [Yo], [Ye])
    else
      ReplaceAbsent(word, [Yo], [Ye]);
      word
  }

  /** No ё is left, and normalising again changes nothing. */
  lemma NormalizeENoYo(word: string)
    ensures Yo !in NormalizeE(word)
    ensures NormalizeE(NormalizeE(word)) == NormalizeE(word)
  {
    var r := NormalizeE(word);
    assert Yo !in r by {
      forall i | 0 <= i < |r| ensures r[i] != Yo { }
    }
  }
}
