/**
 * Worked inputs for the contraction regexes: which suffix each substitution takes,
 * and where the English and German patterns part ways.
 *
 * Each example takes its word as a parameter fixed by `requires s == "..."` rather than
 * applying the functions to a literal, so that the verifier does not unfold the
 * recursive definitions on the literal all at once; the helper lemmas then walk the
 * search one index at a time.
 */
module ContractionExamples {
  import opened Wrappers
  import opened Contractions

  /** With no match anywhere, `re.sub` and `re.search` find nothing. */
  lemma NoMatchAnywhere(s: string, p: Pattern)
    requires forall j | 0 <= j <= |s| :: !InSuffixLanguage(s[j..], p)
    ensures MatchFrom(s, p, 0) == None
  {
  }

  /** `s` is changed by the first substitution to `t`, which still matches at `k`. */
  lemma TwoSubs(s: string, p: Pattern, i: nat, k: nat)
    requires i < |s| && InSuffixLanguage(s[i..], p)
    requires forall j | 0 <= j < i :: !InSuffixLanguage(s[j..], p)
    requires k < i && InSuffixLanguage(s[..i][k..], p)
    requires forall j | 0 <= j < k :: !InSuffixLanguage(s[..i][j..], p)
    ensures StripContractions(s, p) == s[..k]
  {
    SubAt(s, p, i);
    SubAt(s[..i], p, k);
  }

  /** `s` is changed by the first substitution to `t`, which no longer matches. */
  lemma OneSub(s: string, p: Pattern, i: nat)
    requires i < |s| && InSuffixLanguage(s[i..], p)
    requires forall j | 0 <= j < i :: !InSuffixLanguage(s[j..], p)
    requires forall j | 0 <= j <= i :: !InSuffixLanguage(s[..i][j..], p)
    ensures StripContractions(s, p) == s[..i]
  {
    SubAt(s, p, i);
    NoMatchAnywhere(s[..i], p);
  }

  lemma {:induction false} AllApostrophesAt(u: string, p: Pattern, k: nat)
    requires AllApostrophes(u, p) && k < |u|
    ensures u[k] in p.apostrophes
    decreases k
  {
    if k > 0 {
      AllApostrophesAt(u[1..], p, k - 1);
    }
  }

  /** A character other than an apostrophe before the last one rules out the first alternative. */
  lemma NotFirstAlternative(u: string, p: Pattern, k: nat)
    requires k + 1 < |u| && u[k] !in p.apostrophes
    ensures !FirstAlternative(u, p)
  {
    if FirstAlternative(u, p) {
      AllApostrophesAt(u[..|u| - 1], p, k);
    }
  }

  /** A suffix that is none of the tails rules out the second alternative. */
  lemma NotSecondAlternative(u: string, p: Pattern)
    requires |u| >= 2 ==> u[|u| - 2..] !in {"ve", "ll", "re", "nt", "ya"}
    requires |u| >= 3 ==> u[|u| - 3..] != "yer"
    ensures !SecondAlternative(u, p)
  {
    assert !EndsInTail(u, "yer", p);
    assert !EndsInTail(u, "ve", p) && !EndsInTail(u, "ll", p) && !EndsInTail(u, "re", p);
    assert !EndsInTail(u, "nt", p) && !EndsInTail(u, "ya", p);
  }

  /** An apostrophe followed by one of `Letters` is a whole match of the first alternative. */
  lemma ApostropheThenLetter(u: string, p: Pattern)
    requires |u| == 2 && u[0] in p.apostrophes && u[1] in Letters
    ensures InSuffixLanguage(u, p)
  {
    var m := u[..|u| - 1];
    assert m[0] == u[0] && m[1..] == [];
    assert AllApostrophes(m, p);
    assert FirstAlternative(u, p);
  }

  /** Neither alternative matches `u`. */
  lemma NotAMatch(u: string, p: Pattern, k: nat)
    requires k + 1 < |u| && u[k] !in p.apostrophes
    requires u[|u| - 2..] !in {"ve", "ll", "re", "nt", "ya"}
    requires |u| >= 3 ==> u[|u| - 3..] != "yer"
    ensures !InSuffixLanguage(u, p)
  {
    NotFirstAlternative(u, p, k);
    NotSecondAlternative(u, p);
  }

  /** In English the marker is one apostrophe, so a second-alternative match is one character longer than its tail. */
  lemma NotSecondAlternativeEnglish(u: string)
    requires |u| == 3 ==> u[1..] !in {"ve", "ll", "re", "nt", "ya"}
    requires |u| == 4 ==> u[1..] != "yer"
    ensures !SecondAlternative(u, English)
  {
    assert !EndsInTail(u, "yer", English);
    assert !EndsInTail(u, "ve", English) && !EndsInTail(u, "ll", English) && !EndsInTail(u, "re", English);
    assert !EndsInTail(u, "nt", English) && !EndsInTail(u, "ya", English);
  }

  /** Two stacked contractions are both removed: the first `sub` takes `'ve`, the second `'d`. */
  lemma StackedContractionsRemoved(s: string)
    requires s == "i'd've"
    ensures StripContractions(s, English) == "i"
  {
    FirstMatchAtThreeOfSix(s);
    assert s[..3] == "i'd";
    FirstMatchAtOne(s[..3]);
    TwoSubs(s, English, 3, 1);
    assert s[..1] == "i";
  }

  lemma FirstMatchAtThreeOfSix(s: string)
    requires s == "i'd've"
    ensures InSuffixLanguage(s[3..], English)
    ensures forall j | 0 <= j < 3 :: !InSuffixLanguage(s[j..], English)
  {
    assert s[3..][..1] == "'" && s[3..][1..] == "ve";
    assert EndsInTail(s[3..], "ve", English);
    forall j | 0 <= j < 3
      ensures !InSuffixLanguage(s[j..], English)
    {
      var u := s[j..];
      var k := if j == 1 then 1 else 0;
      assert u[k] == s[j + k] && (s[j + k] == 'i' || s[j + k] == 'd');
      NotFirstAlternative(u, English, k);
      NotSecondAlternativeEnglish(u);
    }
  }

  lemma FirstMatchAtOne(t: string)
    requires t == "i'd"
    ensures InSuffixLanguage(t[1..], English)
    ensures !InSuffixLanguage(t[0..], English)
  {
    ApostropheThenLetter(t[1..], English);
    NotAMatch(t, English, 0);
  }

  /** Only two substitutions are made: a third contraction survives. */
  lemma ThirdContractionSurvives(s: string)
    requires s == "a'd'd'd"
    ensures StripContractions(s, English) == "a'd"
  {
    SlicesOfThree(s);
    FirstMatchAtFive(s);
    FirstMatchAtThree(s[..5]);
    TwoSubs(s, English, 5, 3);
  }

  lemma SlicesOfThree(s: string)
    requires s == "a'd'd'd"
    ensures s[..5] == "a'd'd" && s[..3] == "a'd"
  {
  }

  lemma FirstMatchAtFive(s: string)
    requires s == "a'd'd'd"
    ensures InSuffixLanguage(s[5..], English)
    ensures forall j | 0 <= j < 5 :: !InSuffixLanguage(s[j..], English)
  {
    ApostropheThenLetter(s[5..], English);
    forall j | 0 <= j < 5
      ensures !InSuffixLanguage(s[j..], English)
    {
      if j == 0 {
        NotAMatch(s[j..], English, 0);
      } else if j == 1 {
        NotAMatch(s[j..], English, 1);
      } else if j == 2 {
        NotAMatch(s[j..], English, 0);
      } else if j == 3 {
        NotAMatch(s[j..], English, 1);
      } else {
        NotAMatch(s[j..], English, 0);
      }
    }
  }

  lemma FirstMatchAtThree(t: string)
    requires t == "a'd'd"
    ensures InSuffixLanguage(t[3..], English)
    ensures forall j | 0 <= j < 3 :: !InSuffixLanguage(t[j..], English)
  {
    ApostropheThenLetter(t[3..], English);
    forall j | 0 <= j < 3
      ensures !InSuffixLanguage(t[j..], English)
    {
      if j == 1 {
        NotAMatch(t[j..], English, 1);
      } else {
        NotAMatch(t[j..], English, 0);
      }
    }
  }

  /** The bar inside `[s|m|t|d|n]` is a literal, so an apostrophe followed by `|` is removed too. */
  lemma BarIsALetter(s: string)
    requires s == "x'|"
    ensures StripContractions(s, English) == "x"
  {
    ApostropheThenLetter(s[1..], English);
    assert !InSuffixLanguage(s[0..], English) by { NotAMatch(s, English, 0); }
    OneSub(s, English, 1);
  }

  /** English allows exactly one apostrophe before `ve`, and then the run's first apostrophe is left behind. */
  lemma OneApostropheBeforeTailInEnglish(s: string)
    requires s == "x''ve"
    ensures StripContractions(s, English) == "x'"
  {
    EnglishMatchAtTwo(s);
    assert s[..2] == "x'";
    NothingLeftInEnglish(s[..2]);
    OneSub(s, English, 2);
  }

  lemma EnglishMatchAtTwo(s: string)
    requires s == "x''ve"
    ensures InSuffixLanguage(s[2..], English)
    ensures forall j | 0 <= j < 2 :: !InSuffixLanguage(s[j..], English)
  {
    assert s[2..][..1] == "'" && s[2..][1..] == "ve";
    assert EndsInTail(s[2..], "ve", English);
    forall j | 0 <= j < 2
      ensures !InSuffixLanguage(s[j..], English)
    {
      var u := s[j..];
      assert u[1] == '\'' && u[0] == s[j];
      NotFirstAlternative(u, English, if j == 0 then 0 else 2);
      NotSecondAlternativeEnglish(u);
    }
  }

  lemma NothingLeftInEnglish(t: string)
    requires t == "x'"
    ensures forall j | 0 <= j <= 2 :: !InSuffixLanguage(t[j..], English)
  {
    assert t[..1] == "x";
  }

  /** German allows a run of apostrophes before `ve`, so the whole run goes. */
  lemma ApostropheRunBeforeTailInGerman(s: string)
    requires s == "x''ve"
    ensures StripContractions(s, German) == "x"
  {
    GermanMatchAtOne(s);
    assert s[..1] == "x";
    OneSub(s, German, 1);
  }

  lemma GermanMatchAtOne(s: string)
    requires s == "x''ve"
    ensures InSuffixLanguage(s[1..], German)
    ensures !InSuffixLanguage(s[0..], German)
    ensures forall j | 0 <= j <= 1 :: !InSuffixLanguage(s[..1][j..], German)
  {
    var u := s[1..];
    var m := u[..2];
    assert m[0] == '\'' && m[1..] == "'" && "'"[1..] == [];
    assert AllApostrophes(m, German);
    assert u[2..] == "ve";
    assert EndsInTail(u, "ve", German);
    NotFirstAlternative(s, German, 0);
    assert s[..3] == "x''";
    assert !SecondAlternative(s, German);
  }
}
