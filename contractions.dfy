/**
 * Contraction stripping, shared by `NormalizerEN.del_contractions` and
 * `NormalizerDE.deleteContrs`. Both compile a regular expression whose two
 * alternatives are anchored at the end of the token, substitute the empty string
 * for a match, and substitute once more when the pattern still matches.
 *
 * Since both alternatives end in `$`, a match is a suffix of the token drawn from a
 * finite suffix language, and the leftmost match (the one `re.sub` finds) is the
 * longest such suffix.
 */
module Contractions {
  import opened Wrappers

  /**
   * What differs between the two languages' regexes: the apostrophe class, and whether
   * the second alternative accepts a run of apostrophes (`+`) or exactly one.
   */
  datatype Pattern = Pattern(apostrophes: set<char>, runBeforeTail: bool)

  /** `[\'\’]+[s|m|t|d|n]$|[\'\’](ve|ll|re|nt|ya|yer)$` */
  const English := Pattern({'\'', '\U{2019}'}, false)

  /** `[\'\’`‘]+[s|m|t|d|n]$|[\'\’‘`]+(ve|ll|re|nt|ya|yer)$` */
  const German := Pattern({'\'', '\U{2019}', '`', '\U{2018}'}, true)

  /** The class `[s|m|t|d|n]`; inside brackets the bar is a literal character. */
  const Letters: set<char> := {'s', '|', 'm', 't', 'd', 'n'}

  predicate AllApostrophes(u: string, p: Pattern)
  {
    u == [] || (u[0] in p.apostrophes && AllApostrophes(u[1..], p))
  }

  /** What may stand before a tail of the second alternative. */
  predicate Marker(m: string, p: Pattern)
  {
    if p.runBeforeTail then m != [] && AllApostrophes(m, p)
    else |m| == 1 && m[0] in p.apostrophes
  }

  /** First alternative: one or more apostrophes, then one character of `Letters`. */
  predicate FirstAlternative(u: string, p: Pattern)
  {
    |u| >= 2 && u[|u| - 1] in Letters && AllApostrophes(u[..|u| - 1], p)
  }

  /** `u` is the marker followed by `tail`. */
  predicate EndsInTail(u: string, tail: string, p: Pattern)
  {
    |tail| < |u| && u[|u| - |tail|..] == tail && Marker(u[..|u| - |tail|], p)
  }

  /** Second alternative: the marker, then one of the group `(ve|ll|re|nt|ya|yer)`. */
  predicate SecondAlternative(u: string, p: Pattern)
  {
    || EndsInTail(u, "ve", p) || EndsInTail(u, "ll", p) || EndsInTail(u, "re", p)
    || EndsInTail(u, "nt", p) || EndsInTail(u, "ya", p) || EndsInTail(u, "yer", p)
  }

  /** `u` is a whole match of the regex, which is anchored at the end. */
  predicate InSuffixLanguage(u: string, p: Pattern)
  {
    FirstAlternative(u, p) || SecondAlternative(u, p)
  }

  /** No suffix of `s` is matched: `re.search` finds nothing. */
  predicate NoContraction(s: string, p: Pattern)
  {
    forall j :: 0 <= j <= |s| ==> !InSuffixLanguage(s[j..], p)
  }

  /** Every match has at least two characters. */
  lemma MatchedSuffixNonEmpty(u: string, p: Pattern)
    requires InSuffixLanguage(u, p)
    ensures |u| >= 2
  {
  }

  /**
   * The regex engine's search: the first start index, from `i` on, at which the rest
   * of `s` is matched.
   */
  function MatchFrom(s: string, p: Pattern, i: nat): (r: Option<nat>)
    requires i <= |s|
    ensures r.Some? ==> i <= r.value < |s| && InSuffixLanguage(s[r.value..], p)
    decreases |s| - i
  {
    if InSuffixLanguage(s[i..], p) then
      MatchedSuffixNonEmpty(s[i..], p);
      Some(i)
    else if i == |s| then None
    else MatchFrom(s, p, i + 1)
  }

  /** The search returns the first matching index, and finds nothing only when nothing from `i` on matches. */
  lemma {:induction false} MatchFromIsFirst(s: string, p: Pattern, i: nat)
    requires i <= |s|
    ensures MatchFrom(s, p, i).Some? ==> forall j :: i <= j < MatchFrom(s, p, i).value ==> !InSuffixLanguage(s[j..], p)
    ensures MatchFrom(s, p, i).None? ==> forall j :: i <= j <= |s| ==> !InSuffixLanguage(s[j..], p)
    decreases |s| - i
  {
    if !InSuffixLanguage(s[i..], p) && i < |s| {
      MatchFromIsFirst(s, p, i + 1);
      forall j | i <= j <= |s| && (MatchFrom(s, p, i).None? || j < MatchFrom(s, p, i).value)
        ensures !InSuffixLanguage(s[j..], p)
      {
        if j > i {
          assert i + 1 <= j;
        }
      }
    }
  }

  /** `re.sub` removes the suffix at the first index where the pattern matches. */
  lemma SubAt(s: string, p: Pattern, i: nat)
    requires i < |s| && InSuffixLanguage(s[i..], p)
    requires forall j | 0 <= j < i :: !InSuffixLanguage(s[j..], p)
    ensures Sub(s, p) == s[..i]
  {
    MatchFromReaches(s, p, 0, i);
  }

  /** Searching from `lo` finds `i` when `i` matches and nothing between `lo` and `i` does. */
  lemma {:induction false} MatchFromReaches(s: string, p: Pattern, lo: nat, i: nat)
    requires lo <= i < |s| && InSuffixLanguage(s[i..], p)
    requires forall j | lo <= j < i :: !InSuffixLanguage(s[j..], p)
    ensures MatchFrom(s, p, lo) == Some(i)
    decreases i - lo
  {
    if lo < i {
      assert !InSuffixLanguage(s[lo..], p);
      MatchFromReaches(s, p, lo + 1, i);
    }
  }

  /**
   * One `del_endings.sub('', s)`: removes the longest suffix of `s` that the regex
   * matches, or returns `s` when there is none.
   */
  function Sub(s: string, p: Pattern): (r: string)
    ensures r <= s
    ensures r == s <==> NoContraction(s, p)
    ensures r != s ==> InSuffixLanguage(s[|r|..], p)
    ensures forall j :: 0 <= j < |r| ==> !InSuffixLanguage(s[j..], p)
  {
    MatchFromIsFirst(s, p, 0);
    match MatchFrom(s, p, 0)
    case Some(i) => s[..i]
    case None => s
  }

  /**
   * `del_contractions` / `deleteContrs`: one substitution, and a second one when the
   * regex still finds a match in what is left.
   */
  function StripContractions(s: string, p: Pattern): (r: string)
    ensures r <= s
    ensures r == s <==> NoContraction(s, p)
  {
    var once := Sub(s, p);
    if MatchFrom(once, p, 0).Some? then Sub(once, p) else once
  }

  /** At most two contractions are removed: what is removed splits into at most two matches. */
  lemma AtMostTwoRemoved(s: string, p: Pattern)
    ensures var r := StripContractions(s, p);
      exists k :: |r| <= k <= |s| && Removed(s, |r|, k, p)
  {
    var once := Sub(s, p);
    var r := StripContractions(s, p);
    if MatchFrom(once, p, 0).Some? {
      assert once[|r|..] == s[|r|..|once|];
      assert Removed(s, |r|, |once|, p);
    } else {
      assert Removed(s, |r|, |r|, p);
    }
  }

  /** `s[lo..]` is the (possibly empty) match `s[lo..k]` followed by the (possibly empty) match `s[k..]`. */
  predicate Removed(s: string, lo: int, k: int, p: Pattern)
  {
    && 0 <= lo <= k <= |s|
    && (lo == k || InSuffixLanguage(s[lo..k], p))
    && (k == |s| || InSuffixLanguage(s[k..], p))
  }
}
