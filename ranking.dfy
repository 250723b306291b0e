/** Ranking of the dictionary against one word: `compareLevInfo`, the `qsort` in `TopWords`,
    the first LEVENSHTEIN_LIST_LIMIT entries, and the loop of `calculateLevenshtein` over the
    dictionary. */
module Ranking {
  import opened Text
  import opened Levenshtein

  const LevenshteinListLimit := 5

  /** One dictionary entry with its distance to the word being resolved. */
  datatype LevInfo = LevInfo(stringName: string, diff: int)

  /** `compareLevInfo`: by distance first, then by `strcmp` of the entry. */
  function CompareLevInfo(x: LevInfo, y: LevInfo): (r: int)
    ensures -1 <= r <= 1
  {
    if x.diff < y.diff then -1
    else if x.diff > y.diff then 1
    else Strcmp(x.stringName, y.stringName)
  }

  /** The comparison is 0 only on equal values and changes sign when its arguments swap. */
  lemma CompareLevInfoAntisymmetric(x: LevInfo, y: LevInfo)
    ensures CompareLevInfo(x, y) == 0 <==> x == y
    ensures CompareLevInfo(y, x) == -CompareLevInfo(x, y)
  {
    StrcmpZero(x.stringName, y.stringName);
    StrcmpAntisymmetric(x.stringName, y.stringName);
  }

  lemma CompareLevInfoTransitive(x: LevInfo, y: LevInfo, z: LevInfo)
    requires CompareLevInfo(x, y) <= 0 && CompareLevInfo(y, z) <= 0
    ensures CompareLevInfo(x, z) <= 0
  {
    if x.diff == y.diff == z.diff {
      StrcmpTransitive(x.stringName, y.stringName, z.stringName);
    }
  }

  /** x may stand before y in `qsort`'s result. */
  predicate Le(x: LevInfo, y: LevInfo) { CompareLevInfo(x, y) <= 0 }

  predicate Sorted(s: seq<LevInfo>)
  {
    forall i, j :: 0 <= i < j < |s| ==> Le(s[i], s[j])
  }

  function Insert(x: LevInfo, s: seq<LevInfo>): (r: seq<LevInfo>)
    requires Sorted(s)
    ensures Sorted(r)
    ensures multiset(r) == multiset(s) + multiset{x}
  {
    if s == [] then [x]
    else if Le(x, s[0]) then
      InsertFront(x, s);
      [x] + s
    else
      var tail := Insert(x, s[1..]);
      assert s == [s[0]] + s[1..];
      InsertBehind(x, s, tail);
      [s[0]] + tail
  }

  lemma InsertFront(x: LevInfo, s: seq<LevInfo>)
    requires Sorted(s) && s != [] && Le(x, s[0])
    ensures Sorted([x] + s)
  {
    forall j | 0 < j < |s| ensures Le(x, s[j]) { CompareLevInfoTransitive(x, s[0], s[j]); }
  }

  lemma InsertBehind(x: LevInfo, s: seq<LevInfo>, tail: seq<LevInfo>)
    requires Sorted(s) && s != [] && !Le(x, s[0])
    requires Sorted(tail) && multiset(tail) == multiset(s[1..]) + multiset{x}
    ensures Sorted([s[0]] + tail)
  {
    CompareLevInfoAntisymmetric(x, s[0]);
    forall j | 0 <= j < |tail| ensures Le(s[0], tail[j]) {
      assert tail[j] in multiset(tail);
      if tail[j] != x {
        assert tail[j] in multiset(s[1..]);
        var m :| 0 <= m < |s[1..]| && s[1..][m] == tail[j];
        assert s[m + 1] == tail[j];
      }
    }
  }

  /** The order `qsort` establishes with `compareLevInfo`, computed by insertion. */
  function SortLevInfo(s: seq<LevInfo>): (r: seq<LevInfo>)
    ensures Sorted(r)
    ensures multiset(r) == multiset(s)
  {
    if s == [] then []
    else
      assert s == [s[0]] + s[1..];
      Insert(s[0], SortLevInfo(s[1..]))
  }

  /** In a sorted sequence the first element is no greater than anything in it. */
  lemma SortedFirstIsLeast(s: seq<LevInfo>, y: LevInfo)
    requires Sorted(s) && y in multiset(s)
    ensures Le(s[0], y)
  {
    var j :| 0 <= j < |s| && s[j] == y;
    if j == 0 {
      CompareLevInfoAntisymmetric(y, y);
    }
  }

  /** Because `compareLevInfo` returns 0 only on equal values, there is exactly one sorted order
      of a collection of entries: whatever algorithm `qsort` uses, its result is SortLevInfo's. */
  lemma {:induction false} SortedUnique(s: seq<LevInfo>, t: seq<LevInfo>)
    requires Sorted(s) && Sorted(t) && multiset(s) == multiset(t)
    ensures s == t
    decreases |s|
  {
    if s != [] {
      assert s[0] in multiset(s);
      assert t != [];
      assert t[0] in multiset(t);
      SortedFirstIsLeast(s, t[0]);
      SortedFirstIsLeast(t, s[0]);
      CompareLevInfoAntisymmetric(s[0], t[0]);
      assert s == [s[0]] + s[1..] && t == [t[0]] + t[1..];
      assert multiset(s) == multiset{s[0]} + multiset(s[1..]);
      assert multiset(t) == multiset{t[0]} + multiset(t[1..]);
      assert multiset(s[1..]) == multiset(s) - multiset{s[0]};
      assert multiset(t[1..]) == multiset(t) - multiset{t[0]};
      SortedUnique(s[1..], t[1..]);
    }
  }

  /** `TopWords`: the first LEVENSHTEIN_LIST_LIMIT entries after sorting. TopWordsOrdered,
      TopWordsFromInput and TopWordsLeftOut state what the selection guarantees. */
  function TopWords(allWords: seq<LevInfo>): (top: seq<LevInfo>)
    requires |allWords| >= LevenshteinListLimit
    ensures |top| == LevenshteinListLimit
  {
    var sorted := SortLevInfo(allWords);
    assert |sorted| == |multiset(sorted)| == |allWords|;
    sorted[..LevenshteinListLimit]
  }

  /** The kept entries are sorted, and the first is no greater than any input entry. */
  lemma TopWordsOrdered(allWords: seq<LevInfo>)
    requires |allWords| >= LevenshteinListLimit
    ensures var top := TopWords(allWords);
      Sorted(top) && forall y :: y in multiset(allWords) ==> Le(top[0], y)
  {
    var sorted := SortLevInfo(allWords);
    forall y | y in multiset(allWords) ensures Le(sorted[0], y) { SortedFirstIsLeast(sorted, y); }
  }

  /** The entries `TopWords` keeps are entries of its input, each at most as often. */
  lemma TopWordsFromInput(allWords: seq<LevInfo>)
    requires |allWords| >= LevenshteinListLimit
    ensures multiset(TopWords(allWords)) <= multiset(allWords)
  {
    var sorted := SortLevInfo(allWords);
    assert sorted == sorted[..LevenshteinListLimit] + sorted[LevenshteinListLimit..];
    assert multiset(sorted) == multiset(sorted[..LevenshteinListLimit]) + multiset(sorted[LevenshteinListLimit..]);
  }

  /** Every entry `TopWords` leaves out is no smaller than the last one it keeps. */
  lemma TopWordsLeftOut(allWords: seq<LevInfo>)
    requires |allWords| >= LevenshteinListLimit
    ensures var top := TopWords(allWords);
      forall y :: y in multiset(allWords) - multiset(top) ==> Le(top[LevenshteinListLimit - 1], y)
  {
    var sorted := SortLevInfo(allWords);
    var top := sorted[..LevenshteinListLimit];
    var rest := sorted[LevenshteinListLimit..];
    assert sorted == top + rest;
    assert multiset(sorted) == multiset(top) + multiset(rest);
    forall y | y in multiset(rest) ensures Le(top[LevenshteinListLimit - 1], y) {
      var j :| 0 <= j < |rest| && rest[j] == y;
      assert sorted[LevenshteinListLimit + j] == y;
    }
  }

  /** The entries of the dictionary paired with their distance to the word, in dictionary order. */
  function AllWords(word: string, dict: seq<string>): seq<LevInfo>
  {
    seq(|dict|, m requires 0 <= m < |dict| => LevInfo(dict[m], Distance(word, dict[m])))
  }

  /** The ranked matches `calculateLevenshtein` returns for a word. */
  function Rank(word: string, dict: seq<string>): seq<LevInfo>
    requires |dict| >= LevenshteinListLimit
  {
    TopWords(AllWords(word, dict))
  }

  /** `calculateLevenshtein`: fills the table for every dictionary entry, then ranks. */
  method CalculateLevenshtein(s1: string, dict: seq<string>) returns (top: seq<LevInfo>)
    requires |dict| >= LevenshteinListLimit
    ensures top == Rank(s1, dict)
  {
    var allWords := new LevInfo[|dict|];
    for m := 0 to |dict|
      invariant forall k :: 0 <= k < m ==> allWords[k] == LevInfo(dict[k], Distance(s1, dict[k]))
    {
      var d := CalculateDistance(s1, dict[m]);
      allWords[m] := LevInfo(dict[m], d);
    }
    assert allWords[..] == AllWords(s1, dict);
    top := TopWords(allWords[..]);
  }

  /** Every ranked match is a dictionary entry carrying its true distance to the word. */
  lemma RankEntries(word: string, dict: seq<string>, k: nat)
    requires |dict| >= LevenshteinListLimit && k < LevenshteinListLimit
    ensures Rank(word, dict)[k].stringName in dict
    ensures Rank(word, dict)[k].diff == Distance(word, Rank(word, dict)[k].stringName)
  {
    var all := AllWords(word, dict);
    var top := Rank(word, dict);
    TopWordsFromInput(all);
    assert top[k] in multiset(top);
    assert top[k] in multiset(all);
    var m :| 0 <= m < |all| && all[m] == top[k];
  }

  /** The first match is the closest entry: no entry of the dictionary is nearer to the word. */
  lemma RankFirstIsClosest(word: string, dict: seq<string>, entry: string)
    requires |dict| >= LevenshteinListLimit && entry in dict
    ensures Rank(word, dict)[0].diff <= Distance(word, entry)
  {
    var all := AllWords(word, dict);
    var m :| 0 <= m < |dict| && dict[m] == entry;
    assert all[m] in multiset(all);
    TopWordsOrdered(all);
  }

  /** The first match has distance 0 exactly when the word is in the dictionary; the server
      reports "present in dictionary" on this test. */
  lemma RankPresent(word: string, dict: seq<string>)
    requires |dict| >= LevenshteinListLimit
    ensures Rank(word, dict)[0].diff == 0 <==> word in dict
    ensures word in dict ==> Rank(word, dict)[0] == LevInfo(word, 0)
  {
    var top := Rank(word, dict);
    RankEntries(word, dict, 0);
    DistanceZero(word, top[0].stringName);
    if word in dict {
      RankFirstIsClosest(word, dict, word);
      DistanceToSelf(word);
    }
  }

  /** The first match each worker of a group computes before it waits for its turn. */
  function Ranked(group: seq<string>, snapshot: seq<string>): (bests: seq<LevInfo>)
    requires |snapshot| >= LevenshteinListLimit
    ensures |bests| == |group|
  {
    seq(|group|, k requires 0 <= k < |group| => Rank(group[k], snapshot)[0])
  }

  /** The first line of `threadFunction` in each worker of a group: `calculateLevenshtein` on the
      dictionary as the group found it, before the worker waits for its turn. */
  method RankGroup(group: seq<string>, snapshot: seq<string>) returns (bests: seq<LevInfo>)
    requires |snapshot| >= LevenshteinListLimit
    ensures bests == Ranked(group, snapshot)
  {
    ghost var ranked := Ranked(group, snapshot);
    bests := [];
    for j := 0 to |group|
      invariant |bests| == j
      invariant forall k :: 0 <= k < j ==> bests[k] == ranked[k]
    {
      var top := CalculateLevenshtein(group[j], snapshot);
      assert top[0] == ranked[j];
      bests := bests + [top[0]];
    }
  }
}
