/** Character and string helpers of the C library as the server uses them:
    ASCII `isalpha` and `tolower`, `strcmp`, `strlen` and `strtok` with the delimiter " ". */
module Text {

  /** The C string terminator. */
  const Nul: char := '\0'

  predicate IsUpper(c: char) { 'A' <= c <= 'Z' }

  /** `isalpha` in the C locale. */
  predicate IsAlpha(c: char) { IsUpper(c) || 'a' <= c <= 'z' }

  /** `tolower` in the C locale. */
  function ToLower(c: char): (r: char)
    ensures !IsUpper(r)
    ensures r == c <==> !IsUpper(c)
    ensures IsAlpha(r) == IsAlpha(c)
  {
    if IsUpper(c) then (c as int + 32) as char else c
  }

  function Lower(s: string): string
  {
    seq(|s|, i requires 0 <= i < |s| => ToLower(s[i]))
  }

  /** Lower-casing twice is lower-casing once. */
  lemma LowerIdempotent(s: string)
    ensures Lower(Lower(s)) == Lower(s)
  {
    assert forall i :: 0 <= i < |s| ==> ToLower(ToLower(s[i])) == ToLower(s[i]);
  }

  /** Lower-casing leaves a string without capitals as it is. */
  lemma LowerOfLowerCase(s: string)
    requires forall i :: 0 <= i < |s| ==> !IsUpper(s[i])
    ensures Lower(s) == s
  {
  }

  /** `strlen`: the index of the first terminator, or the whole buffer if there is none. */
  function CLength(s: string): (n: nat)
    ensures n <= |s|
    ensures Nul !in s[..n]
    ensures n < |s| ==> s[n] == Nul
  {
    if s == [] || s[0] == Nul then 0
    else
      var n := 1 + CLength(s[1..]);
      assert s[..n] == [s[0]] + s[1..][..n - 1];
      n
  }

  /** `toLowerCase`: lower-cases a C string in place, up to its terminator. */
  method ToLowerCase(str: array<char>)
    modifies str
    ensures var n := CLength(old(str[..]));
      str[..] == Lower(old(str[..])[..n]) + old(str[..])[n..]
  {
    ghost var s := str[..];
    ghost var n := CLength(s);
    var i := 0;
    while i < str.Length && str[i] != Nul
      invariant 0 <= i <= n
      invariant forall k :: 0 <= k < i ==> str[k] == ToLower(s[k])
      invariant forall k :: i <= k < str.Length ==> str[k] == s[k]
    {
      str[i] := ToLower(str[i]);
      i := i + 1;
    }
    assert str[..] == Lower(s[..n]) + s[n..];
  }

  /** Copies a string that holds no terminator into a buffer and lower-cases it there. */
  method LowerCopy(s: string) returns (t: string)
    requires Nul !in s
    ensures t == Lower(s)
  {
    var buffer := new char[|s|](i requires 0 <= i < |s| => s[i]);
    assert buffer[..] == s;
    assert CLength(s) == |s|;
    ToLowerCase(buffer);
    t := buffer[..];
  }

  /** `strcmp` on strings without terminators, as its sign: characters compare as unsigned codes
      and a proper prefix comes first. */
  function Strcmp(a: string, b: string): (r: int)
    ensures -1 <= r <= 1
  {
    if a == [] then (if b == [] then 0 else -1)
    else if b == [] then 1
    else if a[0] < b[0] then -1
    else if a[0] > b[0] then 1
    else Strcmp(a[1..], b[1..])
  }

  lemma {:induction false} StrcmpZero(a: string, b: string)
    ensures Strcmp(a, b) == 0 <==> a == b
  {
    if a != [] && b != [] && a[0] == b[0] {
      StrcmpZero(a[1..], b[1..]);
      if a[1..] == b[1..] {
        assert a == [a[0]] + a[1..] && b == [b[0]] + b[1..];
      }
    }
  }

  lemma {:induction false} StrcmpAntisymmetric(a: string, b: string)
    ensures Strcmp(b, a) == -Strcmp(a, b)
  {
    if a != [] && b != [] && a[0] == b[0] {
      StrcmpAntisymmetric(a[1..], b[1..]);
    }
  }

  lemma {:induction false} StrcmpTransitive(a: string, b: string, c: string)
    requires Strcmp(a, b) <= 0 && Strcmp(b, c) <= 0
    ensures Strcmp(a, c) <= 0
  {
    if a != [] && b != [] && c != [] && a[0] == b[0] == c[0] {
      StrcmpTransitive(a[1..], b[1..], c[1..]);
    }
  }

  /** Length of the leading run of characters other than the delimiter ' '. */
  function WordLength(s: string): (n: nat)
    ensures n <= |s|
    ensures forall k :: 0 <= k < n ==> s[k] != ' '
    ensures n < |s| ==> s[n] == ' '
  {
    if s == [] || s[0] == ' ' then 0 else 1 + WordLength(s[1..])
  }

  /** The tokens `strtok(s, " ")` returns one after the other: the maximal runs of non-space
      characters, with runs of spaces between them skipped. */
  function Tokens(s: string): (r: seq<string>)
    ensures forall k :: 0 <= k < |r| ==> r[k] != [] && ' ' !in r[k]
    ensures forall k, c :: 0 <= k < |r| && c in r[k] ==> c in s
    decreases |s|
  {
    if s == [] then []
    else if s[0] == ' ' then
      assert forall c :: c in s[1..] ==> c in s;
      Tokens(s[1..])
    else
      var n := WordLength(s);
      var rest := Tokens(s[n..]);
      assert forall c :: c in s[..n] ==> c in s;
      assert forall c :: c in s[n..] ==> c in s;
      [s[..n]] + rest
  }

  /** Words separated by single spaces. */
  function Join(words: seq<string>): string
  {
    if |words| == 0 then ""
    else if |words| == 1 then words[0]
    else words[0] + " " + Join(words[1..])
  }

  lemma JoinCons(w: string, words: seq<string>)
    requires words != []
    ensures Join([w] + words) == w + " " + Join(words)
  {
    assert ([w] + words)[1..] == words;
  }

  lemma {:induction false} WordLengthOfWord(w: string, rest: string)
    requires ' ' !in w
    requires rest == [] || rest[0] == ' '
    ensures WordLength(w + rest) == |w|
  {
    if w != [] {
      assert (w + rest)[1..] == w[1..] + rest;
      WordLengthOfWord(w[1..], rest);
    }
  }

  /** A single word is its own only token. */
  lemma TokensWord(w: string)
    requires w != [] && ' ' !in w
    ensures Tokens(w) == [w]
  {
    WordLengthOfWord(w, []);
    assert w + [] == w && w[|w|..] == [];
  }

  /** A word followed by a space is the first token. */
  lemma TokensCons(w: string, rest: string)
    requires w != [] && ' ' !in w
    ensures Tokens(w + " " + rest) == [w] + Tokens(rest)
  {
    var s := w + " " + rest;
    WordLengthOfWord(w, " " + rest);
    assert w + (" " + rest) == s;
    assert s[..|w|] == w && s[|w|..] == " " + rest && (" " + rest)[1..] == rest;
  }

  /** `strtok` gives back the words that Join put together, when none is empty or holds a space. */
  lemma {:induction false} TokensOfWords(words: seq<string>)
    requires forall k :: 0 <= k < |words| ==> words[k] != [] && ' ' !in words[k]
    ensures Tokens(Join(words)) == words
  {
    if |words| == 1 {
      TokensWord(words[0]);
    } else if |words| > 1 {
      TokensCons(words[0], Join(words[1..]));
      TokensOfWords(words[1..]);
      assert words == [words[0]] + words[1..];
    }
  }
}
