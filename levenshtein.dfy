/** `levenshtein_distance`: the two-row dynamic program for edit distance. */
module Levenshtein {

  function Min3(a: nat, b: nat, c: nat): nat {
    if a <= b && a <= c then a else if b <= c then b else c
  }

  /** Edit distance between the prefixes `a[..i]` and `b[..j]`. */
  function Dist(a: string, b: string, i: nat, j: nat): nat
    requires i <= |a| && j <= |b|
    decreases i + j
  {
    if i == 0 then j
    else if j == 0 then i
    else Min3(Dist(a, b, i - 1, j) + 1,
              Dist(a, b, i, j - 1) + 1,
              Dist(a, b, i - 1, j - 1) + (if a[i - 1] == b[j - 1] then 0 else 1))
  }

  /** The fewest single-character insertions, deletions and substitutions turning `a` into `b`. */
  function EditDistance(a: string, b: string): nat {
    Dist(a, b, |a|, |b|)
  }

  /** One step of the recurrence, for both sides non-empty. */
  lemma DistUnfold(a: string, b: string, i: nat, j: nat)
    requires 0 < i <= |a| && 0 < j <= |b|
    ensures Dist(a, b, i, j) == Min3(Dist(a, b, i - 1, j) + 1, Dist(a, b, i, j - 1) + 1,
                                     Dist(a, b, i - 1, j - 1) + (if a[i - 1] == b[j - 1] then 0 else 1))
  {
  }

  /** Edit distance is symmetric. */
  lemma {:induction false} DistSymmetric(a: string, b: string, i: nat, j: nat)
    requires i <= |a| && j <= |b|
    ensures Dist(a, b, i, j) == Dist(b, a, j, i)
    decreases i + j
  {
    if i > 0 && j > 0 {
      DistSymmetric(a, b, i - 1, j);
      DistSymmetric(a, b, i, j - 1);
      DistSymmetric(a, b, i - 1, j - 1);
      var c := if a[i - 1] == b[j - 1] then 0 else 1;
      Min3Swap(Dist(a, b, i - 1, j) + 1, Dist(a, b, i, j - 1) + 1, Dist(a, b, i - 1, j - 1) + c);
    }
  }

  lemma Min3Swap(x: nat, y: nat, z: nat)
    ensures Min3(x, y, z) == Min3(y, x, z)
  {
  }

  /** The smallest of three is at most each of them and is one of them. */
  lemma Min3Facts(x: nat, y: nat, z: nat)
    ensures Min3(x, y, z) <= x && Min3(x, y, z) <= y && Min3(x, y, z) <= z
    ensures Min3(x, y, z) == x || Min3(x, y, z) == y || Min3(x, y, z) == z
  {
  }

  /** A string is at distance 0 from itself. */
  lemma {:induction false} DistSelf(a: string, i: nat)
    requires i <= |a|
    ensures Dist(a, a, i, i) == 0
  {
    if i > 0 {
      DistSelf(a, i - 1);
    }
  }

  /** The distance is at least the difference of the lengths. */
  lemma {:induction false} DistLower(a: string, b: string, i: nat, j: nat)
    requires i <= |a| && j <= |b|
    ensures (if i >= j then i - j else j - i) <= Dist(a, b, i, j)
    decreases i + j
  {
    if i > 0 && j > 0 {
      DistLower(a, b, i - 1, j);
      DistLower(a, b, i, j - 1);
      DistLower(a, b, i - 1, j - 1);
      var c := if a[i - 1] == b[j - 1] then 0 else 1;
      DistUnfold(a, b, i, j);
      Min3Facts(Dist(a, b, i - 1, j) + 1, Dist(a, b, i, j - 1) + 1, Dist(a, b, i - 1, j - 1) + c);
    }
  }

  /** The distance is at most the larger length. */
  lemma {:induction false} DistUpper(a: string, b: string, i: nat, j: nat)
    requires i <= |a| && j <= |b|
    ensures Dist(a, b, i, j) <= (if i >= j then i else j)
    decreases i + j
  {
    if i > 0 && j > 0 {
      DistUpper(a, b, i - 1, j - 1);
      if i > j {
        DistUpper(a, b, i - 1, j);
      } else if j > i {
        DistUpper(a, b, i, j - 1);
      }
      var c := if a[i - 1] == b[j - 1] then 0 else 1;
      DistUnfold(a, b, i, j);
      Min3Facts(Dist(a, b, i - 1, j) + 1, Dist(a, b, i, j - 1) + 1, Dist(a, b, i - 1, j - 1) + c);
    }
  }

  /**
   * `levenshtein_distance(s1, s2)`: swaps its arguments so that the longer
   * comes first, then keeps one row of the table at a time.
   */
  method LevenshteinDistance(s1: string, s2: string) returns (d: nat)
    ensures d == EditDistance(s1, s2)
    decreases if |s1| < |s2| then 1 else 0
  {
    if |s1| < |s2| {
      d := LevenshteinDistance(s2, s1);
      DistSymmetric(s2, s1, |s2|, |s1|);
      return;
    }
    if |s2| == 0 {
      return |s1|;
    }
    var previous: seq<nat> := seq(|s2| + 1, k requires 0 <= k <= |s2| => k as nat);
    for i := 0 to |s1|
      invariant |previous| == |s2| + 1
      invariant forall k {:trigger previous[k]} :: 0 <= k <= |s2| ==> previous[k] == Dist(s1, s2, i, k)
    {
      var current: seq<nat> := [i + 1];
      for j := 0 to |s2|
        invariant |current| == j + 1
        invariant forall k {:trigger current[k]} :: 0 <= k <= j ==> current[k] == Dist(s1, s2, i + 1, k)
      {
        var insertions := previous[j + 1] + 1;
        var deletions := current[j] + 1;
        var substitutions := previous[j] + (if s1[i] != s2[j] then 1 else 0);
        current := current + [Min3(insertions, deletions, substitutions)];
      }
      previous := current;
    }
    d := previous[|s2|];
  }
}
