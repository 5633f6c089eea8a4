/**
 * `NormalizerDE.normalizeUmlaut`: for each entry of a fixed table, every occurrence
 * of the key in the word is replaced by an ASCII digraph. Three keys are two
 * characters long: a base letter followed by the combining diaeresis U+0308 (the
 * decomposed spelling of ä, ö, ü).
 *
 * The method runs the replacements one after the other, in the order the table is
 * written, and is proved equal to `Fold`, a single left-to-right scan that rewrites each
 * key where it starts. At most one key starts at any position (`KeyUnique`), so the
 * scan's choice of entry does not depend on the table's order (`OnlyKeyChosen`).
 */
module Umlauts {
  import opened Wrappers
  import opened PyStr

  const Diaeresis: char := '\U{0308}'

  /** The table of `normalizeUmlaut`, in the order it is written. */
  const Table: seq<(string, string)> := [
    ("\U{00E4}", "ae"), ("\U{00F6}", "oe"), ("\U{00FC}", "ue"), ("\U{00DF}", "ss"),
    ("\U{0434}", "ae"), ("\U{0446}", "oe"), ("\U{044C}", "ue"), ("\U{042F}", "ss"),
    ("a\U{0308}", "ae"), ("o\U{0308}", "oe"), ("u\U{0308}", "ue")
  ]

  /** The one-character keys: ä ö ü ß and the Cyrillic д ц ь Я. */
  const SingleKeys: set<char> := {'\U{00E4}', '\U{00F6}', '\U{00FC}', '\U{00DF}', '\U{0434}', '\U{0446}', '\U{044C}', '\U{042F}'}

  /** The letters that, followed by the diaeresis, form a two-character key. */
  const Bases: set<char> := {'a', 'o', 'u'}

  const Digraphs: set<string> := {"ae", "oe", "ue", "ss"}

  /** A key of the table starts at index `j` of `t`. */
  predicate KeyAt(t: string, j: int)
  {
    0 <= j < |t| && (t[j] in SingleKeys || (t[j] in Bases && j + 1 < |t| && t[j + 1] == Diaeresis))
  }

  predicate KeyFree(t: string)
  {
    forall j :: 0 <= j < |t| ==> !KeyAt(t, j)
  }

  /** Every entry is a one-character key or a base followed by the diaeresis, mapped to a digraph. */
  predicate EntryShape(e: (string, string))
  {
    && ((|e.0| == 1 && e.0[0] in SingleKeys) || (|e.0| == 2 && e.0[0] in Bases && e.0[1] == Diaeresis))
    && e.1 in Digraphs
  }

  lemma TableShape(k: nat)
    requires k < |Table|
    ensures EntryShape(Table[k])
  {
  }

  /** The first entry of `Table[..n]`, from index `k` on, whose key is a prefix of `s`. */
  function FirstKey(s: string, n: nat, k: nat): (r: Option<nat>)
    requires k <= n <= |Table|
    ensures r.Some? ==> k <= r.value < n && Table[r.value].0 <= s
    ensures r.Some? ==> forall m :: k <= m < r.value ==> !(Table[m].0 <= s)
    ensures r.None? ==> forall m :: k <= m < n ==> !(Table[m].0 <= s)
    decreases n - k
  {
    if k == n then None
    else if Table[k].0 <= s then Some(k)
    else FirstKey(s, n, k + 1)
  }

  /** No two entries of the table have keys that start the same string. */
  lemma KeyUnique(s: string, m: nat, m2: nat)
    requires m < |Table| && m2 < |Table|
    requires Table[m].0 <= s && Table[m2].0 <= s
    ensures m == m2
  {
    TableShape(m);
    TableShape(m2);
  }

  /** The entry the scan uses at the front of `s` is the only one whose key starts there, wherever it stands in the table. */
  lemma OnlyKeyChosen(s: string, m: nat)
    requires m < |Table| && Table[m].0 <= s
    ensures FirstKey(s, |Table|, 0) == Some(m)
  {
    var r := FirstKey(s, |Table|, 0);
    assert r.Some?;
    KeyUnique(s, r.value, m);
  }

  /** Scan `s` left to right, rewriting every occurrence of a key of `Table[..n]` where it starts. */
  function FoldWith(s: string, n: nat): string
    requires n <= |Table|
    decreases |s|
  {
    if s == [] then []
    else match FirstKey(s, n, 0)
      case Some(k) =>
        TableShape(k);
        Table[k].1 + FoldWith(s[|Table[k].0|..], n)
      case None => [s[0]] + FoldWith(s[1..], n)
  }

  /** The umlaut folding of a word, with the whole table. */
  function Fold(s: string): string
  {
    FoldWith(s, |Table|)
  }

  /** `normalizeUmlaut(word)`. */
  method NormalizeUmlaut(word: string) returns (r: string)
    ensures r == Fold(word)
  {
    r := word;
    FoldWithNone(word);
    for i := 0 to |Table|
      invariant r == FoldWith(word, i)
    {
      var (umlaut, ersatz) := Table[i];
      TableShape(i);
      if Contains(r, umlaut) {
        r := Replace(r, umlaut, ersatz);
      } else {
        ReplaceAbsent(r, umlaut, ersatz);
      }
      ReplaceExtendsFold(word, i);
    }
  }

  lemma {:induction false} FoldWithNone(s: string)
    ensures FoldWith(s, 0) == s
    decreases |s|
  {
    if s != [] {
      FoldWithNone(s[1..]);
    }
  }

  /** Adding entry `n` to the keys searched for: the first match among the first `n` keys still wins. */
  lemma {:induction false} FirstKeyExtend(s: string, n: nat, k: nat)
    requires k <= n < |Table|
    ensures FirstKey(s, n + 1, k) ==
      if FirstKey(s, n, k).Some? then FirstKey(s, n, k)
      else if Table[n].0 <= s then Some(n) else None
    decreases n - k
  {
    if k < n && !(Table[k].0 <= s) {
      FirstKeyExtend(s, n, k + 1);
    }
  }

  /** A folded string starts with the diaeresis only where the original did. */
  lemma FoldWithHead(s: string, n: nat)
    requires n <= |Table|
    requires s != [] && s[0] != Diaeresis
    ensures FoldWith(s, n) != [] && FoldWith(s, n)[0] != Diaeresis
  {
    match FirstKey(s, n, 0)
    case Some(k) => TableShape(k);
    case None =>
  }

  /** No key starts with the diaeresis, so the scan copies it. */
  lemma FoldWithAtDiaeresis(x: string, n: nat)
    requires n <= |Table|
    ensures FoldWith([Diaeresis] + x, n) == [Diaeresis] + FoldWith(x, n)
  {
    var t := [Diaeresis] + x;
    assert t[1..] == x;
    assert FirstKey(t, n, 0).None? by {
      forall m | 0 <= m < n ensures !(Table[m].0 <= t) { TableShape(m); }
    }
  }

  /** `Replace` passes over a character at which `pat` does not start. */
  lemma ReplaceCons(c: char, x: string, pat: string, rep: string)
    requires pat != [] && !(pat <= [c] + x)
    ensures Replace([c] + x, pat, rep) == [c] + Replace(x, pat, rep)
  {
    var s := [c] + x;
    assert s[1..] == x;
    if |s| < |pat| {
      assert Replace(x, pat, rep) == x;
    }
  }

  /** `Replace` passes over a digraph: no key starts inside one. */
  lemma ReplaceSkipsDigraph(v: string, x: string, k: nat)
    requires k < |Table| && v in Digraphs
    ensures Replace(v + x, Table[k].0, Table[k].1) == v + Replace(x, Table[k].0, Table[k].1)
  {
    TableShape(k);
    var pat, rep := Table[k].0, Table[k].1;
    assert v + x == [v[0]] + ([v[1]] + x);
    assert !(pat <= [v[1]] + x);
    ReplaceCons(v[1], x, pat, rep);
    assert !(pat <= [v[0]] + ([v[1]] + x));
    ReplaceCons(v[0], [v[1]] + x, pat, rep);
  }

  /** One step of the loop: replacing key `n` in `FoldWith(s, n)` gives `FoldWith(s, n + 1)`. */
  lemma {:induction false} ReplaceExtendsFold(s: string, n: nat)
    requires n < |Table|
    ensures Table[n].0 != [] && Replace(FoldWith(s, n), Table[n].0, Table[n].1) == FoldWith(s, n + 1)
    decreases |s|
  {
    TableShape(n);
    var pat, rep := Table[n].0, Table[n].1;
    if s == [] {
      return;
    }
    FirstKeyExtend(s, n, 0);
    match FirstKey(s, n, 0)
    case Some(k) =>
      TableShape(k);
      var rest := s[|Table[k].0|..];
      ReplaceExtendsFold(rest, n);
      ReplaceSkipsDigraph(Table[k].1, FoldWith(rest, n), n);
    case None =>
      if pat <= s && |pat| == 1 {
        ReplaceExtendsFold(s[1..], n);
        ExtendAtSingleKey(s, n);
      } else if pat <= s {
        ReplaceExtendsFold(s[2..], n);
        ExtendAtDoubleKey(s, n);
      } else {
        ReplaceExtendsFold(s[1..], n);
        if |pat| == 2 && s[0] == pat[0] && |s| >= 2 {
          FoldWithHead(s[1..], n);
        }
        ReplaceCons(s[0], FoldWith(s[1..], n), pat, rep);
      }
  }

  /** The step at a one-character key `n` that no earlier key preempts. */
  lemma ExtendAtSingleKey(s: string, n: nat)
    requires n < |Table| && s != [] && FirstKey(s, n, 0).None?
    requires |Table[n].0| == 1 && Table[n].0 <= s
    requires Replace(FoldWith(s[1..], n), Table[n].0, Table[n].1) == FoldWith(s[1..], n + 1)
    requires FirstKey(s, n + 1, 0) == Some(n)
    ensures Replace(FoldWith(s, n), Table[n].0, Table[n].1) == FoldWith(s, n + 1)
  {
    var f := FoldWith(s, n);
    assert f == [s[0]] + FoldWith(s[1..], n);
    assert f[..1] == Table[n].0;
    assert f[1..] == FoldWith(s[1..], n);
  }

  /** The step at a two-character key `n`: the diaeresis after the base is not itself a key. */
  lemma ExtendAtDoubleKey(s: string, n: nat)
    requires n < |Table| && s != [] && FirstKey(s, n, 0).None?
    requires |Table[n].0| != 1 && Table[n].0 <= s
    requires |s| >= 2 ==> Replace(FoldWith(s[2..], n), Table[n].0, Table[n].1) == FoldWith(s[2..], n + 1)
    requires FirstKey(s, n + 1, 0) == Some(n)
    ensures Replace(FoldWith(s, n), Table[n].0, Table[n].1) == FoldWith(s, n + 1)
  {
    TableShape(n);
    var pat, rep := Table[n].0, Table[n].1;
    var x := s[2..];
    assert s == [s[0], Diaeresis] + x;
    FoldWithBeforeDiaeresis(s[0], x, n);
    ReplaceAtPair(FoldWith(x, n), pat, rep);
  }

  /** `Replace` rewrites a two-character pattern found at the front. */
  lemma ReplaceAtPair(y: string, pat: string, rep: string)
    requires |pat| == 2
    ensures Replace(pat + y, pat, rep) == rep + Replace(y, pat, rep)
  {
    var s := pat + y;
    assert s[..2] == pat && s[2..] == y;
  }

  /** Where no key starts at the front and a diaeresis follows, the scan copies both characters. */
  lemma FoldWithBeforeDiaeresis(c: char, x: string, n: nat)
    requires n <= |Table| && FirstKey([c, Diaeresis] + x, n, 0).None?
    ensures FoldWith([c, Diaeresis] + x, n) == [c, Diaeresis] + FoldWith(x, n)
  {
    var s := [c, Diaeresis] + x;
    ConsPair(c, Diaeresis, x);
    FoldWithCopiesFront(s, n);
    FoldWithAtDiaeresis(x, n);
    ConsPair(c, Diaeresis, FoldWith(x, n));
  }

  lemma ConsPair(c: char, d: char, y: string)
    ensures [c] + ([d] + y) == [c, d] + y
    ensures ([c, d] + y)[1..] == [d] + y
  {
    assert ([c, d] + y)[1..] == [d] + y;
  }

  /** Where no key starts at the front, the scan copies the first character. */
  lemma FoldWithCopiesFront(s: string, n: nat)
    requires n <= |Table| && s != [] && FirstKey(s, n, 0).None?
    ensures FoldWith(s, n) == [s[0]] + FoldWith(s[1..], n)
  {
  }

  /** A key starting at the front of `s` is the key of some entry of the table. */
  lemma KeyAtFrontInTable(s: string)
    requires KeyAt(s, 0)
    ensures FirstKey(s, |Table|, 0).Some?
  {
    var c := s[0];
    var m :=
      if c == '\U{00E4}' then 0 else if c == '\U{00F6}' then 1 else if c == '\U{00FC}' then 2
      else if c == '\U{00DF}' then 3 else if c == '\U{0434}' then 4 else if c == '\U{0446}' then 5
      else if c == '\U{044C}' then 6 else if c == '\U{042F}' then 7
      else if c == 'a' then 8 else if c == 'o' then 9 else 10;
    assert Table[m].0 <= s;
  }

  /** Conversely, a table key that is a prefix of `s` is a key at the front of `s`. */
  lemma TableKeyAtFront(s: string, m: nat)
    requires m < |Table| && Table[m].0 <= s
    ensures KeyAt(s, 0)
  {
    TableShape(m);
  }

  lemma KeyFreePrepend(c: char, f: string)
    requires KeyFree(f) && c !in SingleKeys
    requires c in Bases ==> f == [] || f[0] != Diaeresis
    ensures KeyFree([c] + f)
  {
    var t := [c] + f;
    forall j | 0 < j < |t| ensures !KeyAt(t, j) {
      assert !KeyAt(f, j - 1);
    }
  }

  /** Folding leaves no key anywhere in the result. */
  lemma {:induction false} FoldKeyFree(s: string)
    ensures KeyFree(Fold(s))
    decreases |s|
  {
    if s == [] {
      return;
    }
    match FirstKey(s, |Table|, 0)
    case Some(k) =>
      TableShape(k);
      var v, rest := Table[k].1, s[|Table[k].0|..];
      FoldKeyFree(rest);
      KeyFreePrepend(v[1], Fold(rest));
      KeyFreePrepend(v[0], [v[1]] + Fold(rest));
      assert Fold(s) == [v[0]] + ([v[1]] + Fold(rest));
    case None =>
      if KeyAt(s, 0) {
        KeyAtFrontInTable(s);
      }
      FoldKeyFree(s[1..]);
      if |s| >= 2 && s[0] in Bases {
        FoldWithHead(s[1..], |Table|);
      }
      KeyFreePrepend(s[0], Fold(s[1..]));
  }

  /** A word in which no key occurs is left as it is. */
  lemma {:induction false} FoldKeepsKeyFree(s: string)
    requires KeyFree(s)
    ensures Fold(s) == s
    decreases |s|
  {
    if s != [] {
      if FirstKey(s, |Table|, 0).Some? {
        TableKeyAtFront(s, FirstKey(s, |Table|, 0).value);
        assert false;
      }
      assert KeyFree(s[1..]) by {
        forall j | 0 <= j < |s| - 1 ensures !KeyAt(s[1..], j) {
          assert !KeyAt(s, j + 1);
        }
      }
      FoldKeepsKeyFree(s[1..]);
    }
  }

  /** Folding twice is folding once. */
  lemma FoldIdempotent(s: string)
    ensures Fold(Fold(s)) == Fold(s)
  {
    FoldKeyFree(s);
    FoldKeepsKeyFree(Fold(s));
  }

  /** `KeyFree` says exactly that no key of the table occurs (Python's `umlaut in word` is false for all of them). */
  lemma KeyFreeIffNoKeyContained(t: string)
    ensures KeyFree(t) <==> forall k :: 0 <= k < |Table| ==> !Contains(t, Table[k].0)
  {
    if KeyFree(t) {
      forall k, j | 0 <= k < |Table| && OccursAt(t, Table[k].0, j) ensures false {
        TableKeyAtFront(t[j..], k);
        assert KeyAt(t, j);
      }
    } else {
      var j :| 0 <= j < |t| && KeyAt(t, j);
      KeyAtFrontInTable(t[j..]);
      var k := FirstKey(t[j..], |Table|, 0).value;
      TableShape(k);
      assert OccursAt(t, Table[k].0, j);
    }
  }

  /** No key of the table occurs in the result of `normalizeUmlaut`. */
  lemma FoldRemovesAllKeys(s: string, k: nat)
    requires k < |Table|
    ensures !Contains(Fold(s), Table[k].0)
  {
    FoldKeyFree(s);
    KeyFreeIffNoKeyContained(Fold(s));
  }
}
