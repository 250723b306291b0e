/** `SplitbyRepeatedWords` and `isinArray`: the input is cut into groups of lower-cased tokens,
    and a group is closed as soon as the next token already occurs in it. */
module Grouping {
  import opened Text

  /** The tokens `strtok` yields, each lower-cased as `toLowerCase` does to it. */
  function LowerTokens(input: string): seq<string>
  {
    var tokens := Tokens(input);
    seq(|tokens|, k requires 0 <= k < |tokens| => Lower(tokens[k]))
  }

  /** The groups in order, concatenated. */
  function Flatten(groups: seq<seq<string>>): seq<string>
  {
    if groups == [] then [] else Flatten(groups[..|groups| - 1]) + groups[|groups| - 1]
  }

  predicate NoDuplicates(s: seq<string>)
  {
    forall i, j :: 0 <= i < j < |s| ==> s[i] != s[j]
  }

  /** The loop state of `SplitbyRepeatedWords`: the groups closed so far (`array_list`) and the
      group being filled (`current_array`). */
  datatype Scan = Scan(closed: seq<seq<string>>, current: seq<string>)

  /** The loop state after the given tokens. */
  function ScanTokens(tokens: seq<string>): Scan
  {
    if tokens == [] then Scan([], [])
    else
      var sc := ScanTokens(tokens[..|tokens| - 1]);
      var token := tokens[|tokens| - 1];
      if token in sc.current then Scan(sc.closed + [sc.current], [token])
      else Scan(sc.closed, sc.current + [token])
  }

  /** The groups `SplitbyRepeatedWords` returns: the closed groups and then the last one, if any. */
  function Grouping(tokens: seq<string>): seq<seq<string>>
  {
    var sc := ScanTokens(tokens);
    if |sc.current| > 0 then sc.closed + [sc.current] else sc.closed
  }

  /** What a correct grouping of `tokens` is: the groups concatenate to the tokens, none is
      empty or holds a token twice, and each group after the first begins with a token of the
      group before it (which is why that group was closed). */
  predicate IsGrouping(groups: seq<seq<string>>, tokens: seq<string>)
  {
    && Flatten(groups) == tokens
    && (forall k :: 0 <= k < |groups| ==> groups[k] != [] && NoDuplicates(groups[k]))
    && (forall k :: 0 < k < |groups| ==> groups[k][0] in groups[k - 1])
  }

  /** The predicate of the loop in `SplitbyRepeatedWords` after the given tokens. */
  predicate ScanInvariant(sc: Scan, tokens: seq<string>)
  {
    && Flatten(sc.closed) + sc.current == tokens
    && (tokens != [] <==> sc.current != [])
    && NoDuplicates(sc.current)
    && (forall k :: 0 <= k < |sc.closed| ==> sc.closed[k] != [] && NoDuplicates(sc.closed[k]))
    && (forall k :: 0 < k < |sc.closed| ==> sc.closed[k][0] in sc.closed[k - 1])
    && (|sc.closed| > 0 ==> sc.current != [] && sc.current[0] in sc.closed[|sc.closed| - 1])
  }

  lemma FlattenAppend(groups: seq<seq<string>>, g: seq<string>)
    ensures Flatten(groups + [g]) == Flatten(groups) + g
  {
    assert (groups + [g])[..|groups|] == groups;
  }

  /** A token the current group already holds closes it and opens the next one. */
  lemma InvariantClose(sc: Scan, tokens: seq<string>, token: string)
    requires ScanInvariant(sc, tokens) && token in sc.current
    ensures ScanInvariant(Scan(sc.closed + [sc.current], [token]), tokens + [token])
  {
    FlattenAppend(sc.closed, sc.current);
    var closed := sc.closed + [sc.current];
    assert forall k :: 0 <= k < |sc.closed| ==> closed[k] == sc.closed[k];
  }

  /** Any other token extends the current group. */
  lemma InvariantExtend(sc: Scan, tokens: seq<string>, token: string)
    requires ScanInvariant(sc, tokens) && token !in sc.current
    ensures ScanInvariant(Scan(sc.closed, sc.current + [token]), tokens + [token])
  {
    var current := sc.current + [token];
    assert forall i :: 0 <= i < |sc.current| ==> current[i] == sc.current[i];
    assert Flatten(sc.closed) + current == (Flatten(sc.closed) + sc.current) + [token];
  }

  lemma {:induction false} ScanTokensInvariant(tokens: seq<string>)
    ensures ScanInvariant(ScanTokens(tokens), tokens)
    decreases |tokens|
  {
    if tokens != [] {
      var prefix := tokens[..|tokens| - 1];
      var token := tokens[|tokens| - 1];
      ScanTokensInvariant(prefix);
      var sc := ScanTokens(prefix);
      assert tokens == prefix + [token];
      if token in sc.current {
        InvariantClose(sc, prefix, token);
      } else {
        InvariantExtend(sc, prefix, token);
      }
    }
  }

  /** `SplitbyRepeatedWords` returns a grouping of its tokens. */
  lemma GroupingIsGrouping(tokens: seq<string>)
    ensures IsGrouping(Grouping(tokens), tokens)
  {
    var sc := ScanTokens(tokens);
    ScanTokensInvariant(tokens);
    if |sc.current| > 0 {
      FlattenAppend(sc.closed, sc.current);
      var groups := sc.closed + [sc.current];
      assert forall k :: 0 <= k < |sc.closed| ==> groups[k] == sc.closed[k];
    }
  }

  /** It is the only one: any grouping of the tokens in the sense of IsGrouping is the one
      `SplitbyRepeatedWords` returns, so a group is closed exactly when the next token is in it. */
  lemma GroupingUnique(groups: seq<seq<string>>, tokens: seq<string>)
    requires IsGrouping(groups, tokens)
    ensures groups == Grouping(tokens)
  {
    if groups != [] {
      ScanOfGrouping(groups);
      var last := groups[|groups| - 1];
      assert groups == groups[..|groups| - 1] + [last];
    } else {
      assert tokens == [];
    }
  }

  /** Dropping the last group of a grouping leaves a grouping. */
  lemma FrontIsGrouping(groups: seq<seq<string>>)
    requires |groups| > 1 && IsGrouping(groups, Flatten(groups))
    ensures var front := groups[..|groups| - 1];
      IsGrouping(front, Flatten(front)) && Flatten(groups) == Flatten(front) + groups[|groups| - 1]
  {
  }

  /** Dropping the last token of a grouping whose last group has two or more leaves a grouping. */
  lemma ShorterIsGrouping(groups: seq<seq<string>>)
    requires groups != [] && IsGrouping(groups, Flatten(groups)) && |groups[|groups| - 1]| > 1
    ensures var n, last := |groups|, groups[|groups| - 1];
      var shorter := groups[..n - 1] + [last[..|last| - 1]];
      && IsGrouping(shorter, Flatten(shorter))
      && Flatten(shorter) + [last[|last| - 1]] == Flatten(groups)
  {
    var n, last := |groups|, groups[|groups| - 1];
    var front, lastFront := groups[..n - 1], last[..|last| - 1];
    var shorter := front + [lastFront];
    FlattenAppend(front, lastFront);
    assert shorter[..n - 1] == front;
    assert last == lastFront + [last[|last| - 1]];
    assert forall k :: 0 <= k < n - 1 ==> shorter[k] == groups[k];
  }

  /** The scan of a grouping whose last group is a single token, given the scan of the rest. */
  lemma OpenStep(groups: seq<seq<string>>)
    requires groups != [] && IsGrouping(groups, Flatten(groups)) && |groups[|groups| - 1]| == 1
    requires |groups| > 1 ==>
      ScanTokens(Flatten(groups[..|groups| - 1])) == Scan(groups[..|groups| - 2], groups[|groups| - 2])
    ensures ScanTokens(Flatten(groups)) == Scan(groups[..|groups| - 1], groups[|groups| - 1])
  {
    var n := |groups|;
    var front, last := groups[..n - 1], groups[n - 1];
    assert Flatten(groups) == Flatten(front) + last;
    if n > 1 {
      assert front == groups[..n - 2] + [groups[n - 2]];
    }
  }

  /** The scan of a grouping whose last group has two or more tokens, given the scan without
      its last token. */
  lemma ExtendStep(groups: seq<seq<string>>)
    requires groups != [] && IsGrouping(groups, Flatten(groups)) && |groups[|groups| - 1]| > 1
    requires var n, last := |groups|, groups[|groups| - 1];
      var shorter := groups[..n - 1] + [last[..|last| - 1]];
      && Flatten(shorter) + [last[|last| - 1]] == Flatten(groups)
      && ScanTokens(Flatten(shorter)) == Scan(groups[..n - 1], last[..|last| - 1])
    ensures ScanTokens(Flatten(groups)) == Scan(groups[..|groups| - 1], groups[|groups| - 1])
  {
    var n, last := |groups|, groups[|groups| - 1];
    var shorter := groups[..n - 1] + [last[..|last| - 1]];
    var tokens := Flatten(groups);
    var token, lastFront := last[|last| - 1], last[..|last| - 1];
    assert tokens[..|tokens| - 1] == Flatten(shorter);
    assert last == lastFront + [token];
    assert forall i :: 0 <= i < |lastFront| ==> lastFront[i] == last[i] != token;
  }

  /** The scan of a grouping ends with its last group open and the others closed. */
  lemma {:induction false} ScanOfGrouping(groups: seq<seq<string>>)
    requires groups != [] && IsGrouping(groups, Flatten(groups))
    ensures ScanTokens(Flatten(groups)) == Scan(groups[..|groups| - 1], groups[|groups| - 1])
    decreases |Flatten(groups)|
  {
    var n, last := |groups|, groups[|groups| - 1];
    if |last| == 1 {
      if n > 1 {
        FrontIsGrouping(groups);
        ScanOfGrouping(groups[..n - 1]);
      }
      OpenStep(groups);
    } else {
      ShorterIsGrouping(groups);
      var shorter := groups[..n - 1] + [last[..|last| - 1]];
      ScanOfGrouping(shorter);
      assert shorter[..n - 1] == groups[..n - 1];
      ExtendStep(groups);
    }
  }

  /** `isinArray`. */
  method IsInArray(words: seq<string>, word: string) returns (found: bool)
    ensures found <==> word in words
  {
    for i := 0 to |words|
      invariant word !in words[..i]
    {
      if words[i] == word {
        return true;
      }
      assert words[..i + 1] == words[..i] + [words[i]];
    }
    assert words[..|words|] == words;
    return false;
  }

  /** `SplitbyRepeatedWords(input, " ", ...)`; a failed `realloc` is not modelled. */
  method SplitbyRepeatedWords(input: string) returns (arrayList: seq<seq<string>>)
    requires Nul !in input
    ensures arrayList == Grouping(LowerTokens(input))
  {
    var tokens := Tokens(input);
    ghost var lowered := LowerTokens(input);
    var currentArray: seq<string> := [];
    arrayList := [];
    var n := 0;
    while n < |tokens|
      invariant 0 <= n <= |tokens|
      invariant ScanTokens(lowered[..n]) == Scan(arrayList, currentArray)
    {
      var token := LowerCopy(tokens[n]);
      var found := IsInArray(currentArray, token);
      if found {
        arrayList := arrayList + [currentArray];
        currentArray := [];
      }
      currentArray := currentArray + [token];
      assert lowered[..n + 1][..n] == lowered[..n];
      n := n + 1;
    }
    assert lowered[..n] == lowered;
    if |currentArray| > 0 {
      arrayList := arrayList + [currentArray];
    }
  }

  /** One iteration of the loop of `SplitbyRepeatedWords`. */
  lemma ScanTokensStep(tokens: seq<string>, token: string, closed: seq<seq<string>>, current: seq<string>)
    requires ScanTokens(tokens) == Scan(closed, current)
    ensures ScanTokens(tokens + [token])
         == if token in current then Scan(closed + [current], [token]) else Scan(closed, current + [token])
  {
    assert (tokens + [token])[..|tokens|] == tokens;
  }

  /** Words without spaces or capitals, joined by single spaces, come back out of the
      tokenizer unchanged. */
  lemma LowerTokensOfWords(words: seq<string>)
    requires forall k :: 0 <= k < |words| ==> words[k] != [] && ' ' !in words[k] && Lower(words[k]) == words[k]
    ensures LowerTokens(Join(words)) == words
  {
    TokensOfWords(words);
  }

  /** The pattern of the example below for any three distinct words a, b, c. */
  lemma GroupingPattern(a: string, b: string, c: string)
    requires a != b && a != c && b != c
    ensures Grouping([a, b, c, b, a, a]) == [[a, b, c], [b, a], [a]]
  {
    GroupingPatternOpening(a, b, c);
    var t3 := [a, b, c];
    var t4 := t3 + [b];
    var t5 := t4 + [a];
    ScanTokensStep(t3, b, [], [a, b, c]);
    ScanTokensStep(t4, a, [[a, b, c]], [b]);
    ScanTokensStep(t5, a, [[a, b, c]], [b, a]);
    assert t5 + [a] == [a, b, c, b, a, a];
  }

  /** The first three distinct words make up the first group, still open. */
  lemma GroupingPatternOpening(a: string, b: string, c: string)
    requires a != b && a != c && b != c
    ensures ScanTokens([a, b, c]) == Scan([], [a, b, c])
  {
    var t1 := [a];
    var t2 := t1 + [b];
    assert t1 == [] + [a];
    ScanTokensStep([], a, [], []);
    ScanTokensStep(t1, b, [], [a]);
    ScanTokensStep(t2, c, [], [a, b]);
    assert t2 + [c] == [a, b, c];
  }

  /** The example input below is its six words joined by single spaces. */
  lemma ExampleJoin()
    ensures Join(["hello", "ege", "abdullah", "ege", "hello", "hello"]) == "hello ege abdullah ege hello hello"
  {
    var words := ["hello", "ege", "abdullah", "ege", "hello", "hello"];
    JoinCons("hello", words[1..]);
    JoinCons("ege", words[2..]);
    JoinCons("abdullah", words[3..]);
    JoinCons("ege", words[4..]);
    JoinCons("hello", words[5..]);
  }

  /** The tokens of the example input below. */
  lemma ExampleTokens()
    ensures LowerTokens("hello ege abdullah ege hello hello")
         == ["hello", "ege", "abdullah", "ege", "hello", "hello"]
  {
    LowerOfLowerCase("hello");
    LowerOfLowerCase("ege");
    LowerOfLowerCase("abdullah");
    ExampleJoin();
    LowerTokensOfWords(["hello", "ege", "abdullah", "ege", "hello", "hello"]);
  }

  /** The example in the comment above `SplitbyRepeatedWords`. The comment lists the second
      group as "hello,ege"; the code keeps input order within a group and yields [ege, hello]. */
  lemma GroupingExample()
    ensures Grouping(LowerTokens("hello ege abdullah ege hello hello"))
         == [["hello", "ege", "abdullah"], ["ege", "hello"], ["hello"]]
  {
    ExampleTokens();
    GroupingPattern("hello", "ege", "abdullah");
  }
}
