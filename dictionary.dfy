/** The dictionary file basic_english_2000.txt as `main` reads it (one entry per piece `fgets`
    reads, cut at the line end and lower-cased) and writes it back (the entries sorted with `compareStrings`, one per
    line). */
module DictionaryFile {
  import opened Text
  import opened Input

  /** An entry as `main` keeps it: no line end and no capital letter. */
  predicate Clean(w: string)
  {
    forall k :: 0 <= k < |w| ==> !IsLineEnd(w[k]) && !IsUpper(w[k])
  }

  /** The entry `main` makes of one line: `line[strcspn(line, "\r\n")] = 0` and `toLowerCase`. */
  function LoadedEntry(line: string): (w: string)
    ensures Clean(w) && |w| <= |line|
    ensures Clean(line) ==> w == line
  {
    var cut := line[..LineLength(line)];
    assert forall k :: 0 <= k < |cut| ==> !IsLineEnd(ToLower(cut[k]));
    assert Clean(line) ==> LineLength(line) == |line| && cut == line;
    assert Clean(line) ==> Lower(cut) == line by {
      if Clean(line) { LowerOfLowerCase(line); }
    }
    Lower(cut)
  }

  /** The length of `text` up to and including its first newline, all of it when it has none. */
  function NewlineEnd(text: string): (m: nat)
    ensures m <= |text| && (text != [] ==> 1 <= m)
  {
    if text == [] then 0 else if text[0] == '\n' then 1 else 1 + NewlineEnd(text[1..])
  }

  /** How much one `fgets(line, sizeof(line), dictionary)` takes of the rest of the file: up to
      and including the next newline, but no more than the 100 characters `line`, declared with
      `INPUT_CHARACTER_LIMIT + 1` bytes, holds before its terminator. */
  function PieceLength(text: string): (n: nat)
    requires text != []
    ensures 1 <= n <= |text| && n <= InputCharacterLimit
    ensures n == NewlineEnd(text) || n == InputCharacterLimit < NewlineEnd(text)
  {
    var m := NewlineEnd(text);
    if m <= InputCharacterLimit then m else InputCharacterLimit
  }

  /** The file whose lines these are, each ended by a newline: what the `fprintf(dictionary,
      "%s\n", ...)` loop writes. */
  function FileText(lines: seq<string>): string
  {
    if lines == [] then [] else lines[0] + "\n" + FileText(lines[1..])
  }

  /** The `while (fgets(...))` loop over the rest of the file: one entry per piece read. */
  function LoadedText(text: string): (dict: seq<string>)
    ensures forall k :: 0 <= k < |dict| ==> Clean(dict[k])
    decreases |text|
  {
    if text == [] then []
    else
      var n := PieceLength(text);
      [LoadedEntry(text[..n])] + LoadedText(text[n..])
  }

  /** The dictionary loaded from the file with these lines, in file order. A line yields one
      entry per piece `fgets` reads of it, so at least one. */
  function LoadedDictionary(lines: seq<string>): (dict: seq<string>)
    ensures |dict| >= |lines|
    ensures forall k :: 0 <= k < |dict| ==> Clean(dict[k])
  {
    LoadedLinesLength(lines);
    LoadedText(FileText(lines))
  }

  /** One more `fgets`: the entries loaded so far, then those of the rest of the file. */
  lemma LoadedTextNext(done: seq<string>, rest: string)
    requires rest != []
    ensures done + LoadedText(rest)
         == (done + [LoadedEntry(rest[..PieceLength(rest)])]) + LoadedText(rest[PieceLength(rest)..])
  {
  }

  lemma {:induction false} NewlineEndAppend(a: string, b: string)
    requires a != [] && a[|a| - 1] == '\n'
    ensures NewlineEnd(a + b) == NewlineEnd(a)
    decreases |a|
  {
    if a[0] != '\n' {
      assert (a + b)[1..] == a[1..] + b;
      NewlineEndAppend(a[1..], b);
    }
  }

  /** No piece runs over a newline, so the entries of a text read after a line end are the
      entries of that text read alone. */
  lemma {:induction false} LoadedTextAppend(a: string, b: string)
    requires a != [] && a[|a| - 1] == '\n'
    ensures LoadedText(a + b) == LoadedText(a) + LoadedText(b)
    decreases |a|
  {
    NewlineEndAppend(a, b);
    var n := PieceLength(a);
    assert PieceLength(a + b) == n;
    assert (a + b)[..n] == a[..n];
    assert (a + b)[n..] == a[n..] + b;
    if n < |a| {
      LoadedTextAppend(a[n..], b);
    } else {
      assert a[n..] == [] && a[n..] + b == b;
    }
  }

  lemma {:induction false} LoadedLinesLength(lines: seq<string>)
    ensures |LoadedText(FileText(lines))| >= |lines|
  {
    if lines != [] {
      LoadedTextAppend(lines[0] + "\n", FileText(lines[1..]));
      LoadedLinesLength(lines[1..]);
    }
  }

  /** The entry of a clean word followed by a line end is the word. */
  lemma LoadedEntryOfLine(w: string, rest: string)
    requires Clean(w) && rest != [] && IsLineEnd(rest[0])
    ensures LoadedEntry(w + rest) == w
  {
    LineLengthOfLine(w, rest);
    assert (w + rest)[..|w|] == w;
    LowerOfLowerCase(w);
  }

  /** What one saved entry loads back as. `fgets` hands it over in pieces of 100 characters, so
      an entry of 100 characters or more comes back cut, and one whose length is a multiple of
      100 leaves its newline to a last piece of its own, which loads as the empty entry. */
  function Reloaded(w: string): seq<string>
    decreases |w|
  {
    if |w| < InputCharacterLimit then [w]
    else [w[..InputCharacterLimit]] + Reloaded(w[InputCharacterLimit..])
  }

  function ReloadedAll(s: seq<string>): seq<string>
  {
    if s == [] then [] else Reloaded(s[0]) + ReloadedAll(s[1..])
  }

  lemma {:induction false} LoadedLine(w: string)
    requires Clean(w)
    ensures LoadedText(w + "\n") == Reloaded(w)
    decreases |w|
  {
    var t := w + "\n";
    NewlineEndOfLine(w);
    if |w| < InputCharacterLimit {
      assert t[..PieceLength(t)] == t && t[PieceLength(t)..] == [];
      LoadedEntryOfLine(w, "\n");
    } else {
      var head := w[..InputCharacterLimit];
      assert t[..InputCharacterLimit] == head;
      assert Clean(head);
      assert t[InputCharacterLimit..] == w[InputCharacterLimit..] + "\n";
      LoadedLine(w[InputCharacterLimit..]);
    }
  }

  lemma {:induction false} NewlineEndOfLine(w: string)
    requires Clean(w)
    ensures NewlineEnd(w + "\n") == |w| + 1
  {
    if w != [] {
      assert (w + "\n")[1..] == w[1..] + "\n";
      NewlineEndOfLine(w[1..]);
    }
  }

  /** A file of clean lines loads as each line's pieces, in file order. */
  lemma {:induction false} LoadedLines(lines: seq<string>)
    requires forall k :: 0 <= k < |lines| ==> Clean(lines[k])
    ensures LoadedDictionary(lines) == ReloadedAll(lines)
  {
    if lines != [] {
      LoadedTextAppend(lines[0] + "\n", FileText(lines[1..]));
      LoadedLine(lines[0]);
      LoadedLines(lines[1..]);
    }
  }

  /** Lines shorter than 100 characters are read whole, one entry each. */
  lemma {:induction false} ReloadedShort(s: seq<string>)
    requires forall k :: 0 <= k < |s| ==> |s[k]| < InputCharacterLimit
    ensures ReloadedAll(s) == s
  {
    if s != [] {
      ReloadedShort(s[1..]);
      assert s == [s[0]] + s[1..];
    }
  }

  /** A clean line of n characters loads as n / 100 + 1 entries, so a single long line can give a
      dictionary of five entries or more. */
  lemma LineEntryCount(w: string)
    requires Clean(w)
    ensures |LoadedDictionary([w])| == |w| / InputCharacterLimit + 1
  {
    LoadedLines([w]);
    assert ReloadedAll([w]) == Reloaded(w) + ReloadedAll([]);
    ReloadedCount(w);
  }

  lemma {:induction false} ReloadedCount(w: string)
    ensures |Reloaded(w)| == |w| / InputCharacterLimit + 1
    decreases |w|
  {
    if |w| >= InputCharacterLimit {
      ReloadedCount(w[InputCharacterLimit..]);
    }
  }

  /** A clean line of exactly 100 characters loads as itself followed by an empty entry. */
  lemma LongLineLoads(w: string)
    requires Clean(w) && |w| == InputCharacterLimit
    ensures LoadedDictionary([w]) == [w, ""]
  {
    LoadedLines([w]);
    assert w[..InputCharacterLimit] == w && w[InputCharacterLimit..] == [];
    assert Reloaded(w) == [w] + Reloaded([]) == [w, ""];
    assert ReloadedAll([w]) == Reloaded(w) + ReloadedAll([]);
  }

  /** `compareStrings`: a may stand before b in the saved file. The C program sorts twice, with
      two comparators over two element types (`compareLevInfo` on `LevInfo`, `compareStrings` on
      strings); the sort below mirrors the one in Ranking for the second of them, so that each
      stays a first-order function whose order facts are the lemmas of `Strcmp`. */
  predicate StrLe(a: string, b: string) { Strcmp(a, b) <= 0 }

  predicate StrSorted(s: seq<string>)
  {
    forall i, j :: 0 <= i < j < |s| ==> StrLe(s[i], s[j])
  }

  function InsertString(x: string, s: seq<string>): (r: seq<string>)
    requires StrSorted(s)
    ensures StrSorted(r)
    ensures multiset(r) == multiset(s) + multiset{x}
  {
    if s == [] then [x]
    else if StrLe(x, s[0]) then
      InsertStringFront(x, s);
      [x] + s
    else
      var tail := InsertString(x, s[1..]);
      assert s == [s[0]] + s[1..];
      InsertStringBehind(x, s, tail);
      [s[0]] + tail
  }

  lemma InsertStringFront(x: string, s: seq<string>)
    requires StrSorted(s) && s != [] && StrLe(x, s[0])
    ensures StrSorted([x] + s)
  {
    forall j | 0 < j < |s| ensures StrLe(x, s[j]) { StrcmpTransitive(x, s[0], s[j]); }
  }

  lemma InsertStringBehind(x: string, s: seq<string>, tail: seq<string>)
    requires StrSorted(s) && s != [] && !StrLe(x, s[0])
    requires StrSorted(tail) && multiset(tail) == multiset(s[1..]) + multiset{x}
    ensures StrSorted([s[0]] + tail)
  {
    StrcmpAntisymmetric(x, s[0]);
    forall j | 0 <= j < |tail| ensures StrLe(s[0], tail[j]) {
      assert tail[j] in multiset(tail);
      if tail[j] != x {
        assert tail[j] in multiset(s[1..]);
        var m :| 0 <= m < |s[1..]| && s[1..][m] == tail[j];
        assert s[m + 1] == tail[j];
      }
    }
  }

  /** The order the `qsort` before saving establishes, computed by insertion. */
  function SortStrings(s: seq<string>): (r: seq<string>)
    ensures StrSorted(r)
    ensures multiset(r) == multiset(s)
  {
    if s == [] then []
    else
      assert s == [s[0]] + s[1..];
      InsertString(s[0], SortStrings(s[1..]))
  }

  lemma StrSortedFirstIsLeast(s: seq<string>, y: string)
    requires StrSorted(s) && y in multiset(s)
    ensures StrLe(s[0], y)
  {
    var j :| 0 <= j < |s| && s[j] == y;
    if j == 0 {
      StrcmpZero(y, y);
    }
  }

  /** `strcmp` is 0 only on equal strings, so the sorted file is the same whatever order `qsort`
      visits the entries in. */
  lemma {:induction false} StrSortedUnique(s: seq<string>, t: seq<string>)
    requires StrSorted(s) && StrSorted(t) && multiset(s) == multiset(t)
    ensures s == t
    decreases |s|
  {
    if s != [] {
      assert s[0] in multiset(s);
      assert t != [];
      assert t[0] in multiset(t);
      StrSortedFirstIsLeast(s, t[0]);
      StrSortedFirstIsLeast(t, s[0]);
      StrcmpAntisymmetric(s[0], t[0]);
      StrcmpZero(s[0], t[0]);
      assert s == [s[0]] + s[1..] && t == [t[0]] + t[1..];
      assert multiset(s[1..]) == multiset(s) - multiset{s[0]};
      assert multiset(t[1..]) == multiset(t) - multiset{t[0]};
      StrSortedUnique(s[1..], t[1..]);
    }
  }

  /** Saving and loading again gives the saved entries back as `fgets` reads them: the file
      written before the next request holds the dictionary of this one, sorted, and it loads as
      that sequence whenever no entry has 100 characters or more. */
  lemma SavedReloads(dict: seq<string>)
    requires forall k :: 0 <= k < |dict| ==> Clean(dict[k])
    ensures LoadedDictionary(SortStrings(dict)) == ReloadedAll(SortStrings(dict))
    ensures (forall k :: 0 <= k < |dict| ==> |dict[k]| < InputCharacterLimit) ==>
              LoadedDictionary(SortStrings(dict)) == SortStrings(dict)
  {
    var sorted := SortStrings(dict);
    forall k | 0 <= k < |sorted| ensures Clean(sorted[k]) && exists i :: 0 <= i < |dict| && dict[i] == sorted[k] {
      assert sorted[k] in multiset(dict);
    }
    LoadedLines(sorted);
    if forall k :: 0 <= k < |dict| ==> |dict[k]| < InputCharacterLimit {
      ReloadedShort(sorted);
    }
  }
}
