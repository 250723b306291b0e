/** Unit-cost edit distance (insert, delete, substitute) as `calculateLevenshtein` computes it
    for one pair of strings. */
module Levenshtein {

  function Min(x: int, y: int): int { if x <= y then x else y }

  /** Entry (i, j) of the dynamic-programming table: the edit distance between a[..i] and b[..j].
      Row 0 and column 0 are the base cases; every other entry is the least of the diagonal
      entry plus the substitution cost, the entry above plus one and the entry to the left plus one. */
  function Cell(a: string, b: string, i: nat, j: nat): nat
    requires i <= |a| && j <= |b|
    decreases i + j
  {
    if i == 0 then j
    else if j == 0 then i
    else
      var cost := if a[i - 1] == b[j - 1] then 0 else 1;
      Min(Min(Cell(a, b, i - 1, j - 1) + cost, Cell(a, b, i - 1, j) + 1), Cell(a, b, i, j - 1) + 1)
  }

  /** The edit distance between a and b: the bottom-right entry of the table. */
  function Distance(a: string, b: string): nat
  {
    Cell(a, b, |a|, |b|)
  }

  /** The table loops of `calculateLevenshtein` for one dictionary entry. */
  method CalculateDistance(s1: string, s2: string) returns (d: nat)
    ensures d == Distance(s1, s2)
  {
    var len1, len2 := |s1|, |s2|;
    var dp := new nat[len1 + 1, len2 + 1];
    for i := 0 to len1 + 1
      invariant forall i' :: 0 <= i' < i ==> dp[i', 0] == i'
    {
      dp[i, 0] := i;
    }
    for j := 0 to len2 + 1
      invariant forall i' :: 0 <= i' <= len1 ==> dp[i', 0] == i'
      invariant forall j' :: 0 <= j' < j ==> dp[0, j'] == j'
    {
      dp[0, j] := j;
    }
    for i := 1 to len1 + 1
      invariant forall i', j' {:trigger dp[i', j']} :: 0 <= i' < i && 0 <= j' <= len2 ==> dp[i', j'] == Cell(s1, s2, i', j')
      invariant forall i' :: i <= i' <= len1 ==> dp[i', 0] == i'
    {
      for j := 1 to len2 + 1
        invariant forall i', j' {:trigger dp[i', j']} :: 0 <= i' < i && 0 <= j' <= len2 ==> dp[i', j'] == Cell(s1, s2, i', j')
        invariant forall i' :: i < i' <= len1 ==> dp[i', 0] == i'
        invariant forall j' {:trigger dp[i, j']} :: 0 <= j' < j ==> dp[i, j'] == Cell(s1, s2, i, j')
      {
        var cost := if s1[i - 1] == s2[j - 1] then 0 else 1;
        var best := dp[i - 1, j - 1] + cost;
        if dp[i - 1, j] + 1 < best {
          best := dp[i - 1, j] + 1;
        }
        if dp[i, j - 1] + 1 < best {
          best := dp[i, j - 1] + 1;
        }
        dp[i, j] := best;
      }
    }
    d := dp[len1, len2];
  }

  lemma {:induction false} CellDiagonal(a: string, i: nat)
    requires i <= |a|
    ensures Cell(a, a, i, i) == 0
  {
    if i > 0 {
      CellDiagonal(a, i - 1);
    }
  }

  /** A string is at distance 0 from itself. */
  lemma DistanceToSelf(a: string)
    ensures Distance(a, a) == 0
  {
    CellDiagonal(a, |a|);
  }

  lemma {:induction false} CellZero(a: string, b: string, i: nat, j: nat)
    requires i <= |a| && j <= |b|
    requires Cell(a, b, i, j) == 0
    ensures i == j && a[..i] == b[..j]
  {
    if i > 0 && j > 0 {
      CellZero(a, b, i - 1, j - 1);
      assert a[..i] == a[..i - 1] + [a[i - 1]];
      assert b[..j] == b[..j - 1] + [b[j - 1]];
    }
  }

  /** Distance 0 holds exactly between equal strings. */
  lemma DistanceZero(a: string, b: string)
    ensures Distance(a, b) == 0 <==> a == b
  {
    if a == b {
      DistanceToSelf(a);
    }
    if Distance(a, b) == 0 {
      CellZero(a, b, |a|, |b|);
      assert a == a[..|a|] && b == b[..|b|];
    }
  }

  lemma {:induction false} CellSymmetric(a: string, b: string, i: nat, j: nat)
    requires i <= |a| && j <= |b|
    ensures Cell(a, b, i, j) == Cell(b, a, j, i)
    decreases i + j
  {
    if i > 0 && j > 0 {
      CellSymmetric(a, b, i - 1, j - 1);
      CellSymmetric(a, b, i - 1, j);
      CellSymmetric(a, b, i, j - 1);
    }
  }

  /** Edit distance does not depend on the order of its arguments. */
  lemma DistanceSymmetric(a: string, b: string)
    ensures Distance(a, b) == Distance(b, a)
  {
    CellSymmetric(a, b, |a|, |b|);
  }

  lemma {:induction false} CellLowerBound(a: string, b: string, i: nat, j: nat)
    requires i <= |a| && j <= |b|
    ensures i - j <= Cell(a, b, i, j) && j - i <= Cell(a, b, i, j)
    decreases i + j
  {
    if i > 0 && j > 0 {
      CellLowerBound(a, b, i - 1, j - 1);
      CellLowerBound(a, b, i - 1, j);
      CellLowerBound(a, b, i, j - 1);
    }
  }

  lemma {:induction false} CellUpperBound(a: string, b: string, i: nat, j: nat)
    requires i <= |a| && j <= |b|
    ensures Cell(a, b, i, j) <= if i <= j then j else i
    decreases i + j
  {
    if i > 0 && j > 0 {
      CellUpperBound(a, b, i - 1, j - 1);
    }
  }

  /** The distance is at least the difference of the lengths and at most the longer length. */
  lemma DistanceBounds(a: string, b: string)
    ensures |a| - |b| <= Distance(a, b) && |b| - |a| <= Distance(a, b)
    ensures Distance(a, b) <= if |a| <= |b| then |b| else |a|
  {
    CellLowerBound(a, b, |a|, |b|);
    CellUpperBound(a, b, |a|, |b|);
  }

  /** The example in the comment above `calculateLevenshtein`. */
  lemma HelloHollow()
    ensures Distance("hello", "hollow") == 2
  {
    var a, b := "hello", "hollow";
    // Rows 2 and 4 of the table; Dafny evaluates the rows in between.
    assert Cell(a, b, 2, 1) == 1;
    assert Cell(a, b, 2, 2) == 1;
    assert Cell(a, b, 2, 3) == 2;
    assert Cell(a, b, 2, 4) == 3;
    assert Cell(a, b, 2, 5) == 4;
    assert Cell(a, b, 2, 6) == 5;
    assert Cell(a, b, 4, 1) == 3;
    assert Cell(a, b, 4, 2) == 3;
    assert Cell(a, b, 4, 3) == 2;
    assert Cell(a, b, 4, 4) == 1;
    assert Cell(a, b, 4, 5) == 2;
    assert Cell(a, b, 4, 6) == 3;
  }
}
