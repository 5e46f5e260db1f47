/**
 * The Levenshtein edit distance used to score a candidate company against the
 * searched name: the textbook recurrence as the specification, and the
 * single-row dynamic programme the client runs, proved to compute it.
 */
module Levenshtein {
  import opened JavaLang

  function DropLast(s: string): string
    requires s != []
  {
    s[..|s| - 1]
  }

  function Last(s: string): char
    requires s != []
  {
    s[|s| - 1]
  }

  /**
   * The least number of single-character deletions, insertions and
   * substitutions that turn `a` into `b`, by the usual recurrence on the last
   * characters. The distance lies between the difference of the lengths and
   * the larger length.
   */
  function Lev(a: string, b: string): (r: nat)
    ensures r <= Max(|a|, |b|)
    ensures |a| - |b| <= r && |b| - |a| <= r
    decreases |a| + |b|
  {
    if a == [] then |b|
    else if b == [] then |a|
    else
      var cost := if Last(a) == Last(b) then 0 else 1;
      Min(Min(Lev(DropLast(a), DropLast(b)) + cost, Lev(a, DropLast(b)) + 1), Lev(DropLast(a), b) + 1)
  }

  /** Appending a character to the target costs at most one more edit. */
  lemma InsertBound(a: string, b: string)
    requires b != []
    ensures Lev(a, b) <= Lev(a, DropLast(b)) + 1
  {
  }

  /** Appending a character to the source costs at most one more edit. */
  lemma DeleteBound(a: string, b: string)
    requires a != []
    ensures Lev(a, b) <= Lev(DropLast(a), b) + 1
  {
  }

  /** Removing the last character of the source saves at most one edit. */
  lemma {:induction false} DropLastSource(a: string, b: string)
    requires a != []
    ensures Lev(DropLast(a), b) <= Lev(a, b) + 1
    decreases |a| + |b|
  {
    var a' := DropLast(a);
    if b != [] {
      var b' := DropLast(b);
      var cost := if Last(a) == Last(b) then 0 else 1;
      if Lev(a, b) == Lev(a, b') + 1 {
        DropLastSource(a, b');
        InsertBound(a', b);
      } else if Lev(a, b) == Lev(a', b') + cost {
        InsertBound(a', b);
      }
    }
  }

  /** Removing the last character of the target saves at most one edit. */
  lemma {:induction false} DropLastTarget(a: string, b: string)
    requires b != []
    ensures Lev(a, DropLast(b)) <= Lev(a, b) + 1
    decreases |a| + |b|
  {
    var b' := DropLast(b);
    if a != [] {
      var a' := DropLast(a);
      var cost := if Last(a) == Last(b) then 0 else 1;
      if Lev(a, b) == Lev(a', b) + 1 {
        DropLastTarget(a', b);
        DeleteBound(a, b');
      } else if Lev(a, b) == Lev(a', b') + cost {
        DeleteBound(a, b');
      }
    }
  }

  /**
   * The recurrence the client's loop applies: equal last characters cost
   * nothing and need no further choice; otherwise one edit is added to the
   * cheapest of the three neighbouring distances.
   */
  lemma Step(a: string, b: string)
    requires a != [] && b != []
    ensures Lev(a, b) ==
      if Last(a) == Last(b) then Lev(DropLast(a), DropLast(b))
      else Min(Min(Lev(DropLast(a), DropLast(b)), Lev(a, DropLast(b))), Lev(DropLast(a), b)) + 1
  {
    if Last(a) == Last(b) {
      DropLastTarget(DropLast(a), b);
      DropLastSource(a, DropLast(b));
    }
  }

  /** The distance between the first `i` characters of `s` and the first `j`
      of `t`: the entry the client's cost row holds. */
  function PrefixDistance(s: string, t: string, i: nat, j: nat): nat
    requires i <= |s| && j <= |t|
  {
    Lev(s[..i], t[..j])
  }

  /** `Step` on prefixes of two fixed strings, as the loop indexes them. */
  lemma StepAt(s: string, t: string, i: int, j: int)
    requires 0 < i <= |s| && 0 < j <= |t|
    ensures var diagonal, left, up := PrefixDistance(s, t, i - 1, j - 1), PrefixDistance(s, t, i, j - 1), PrefixDistance(s, t, i - 1, j);
            PrefixDistance(s, t, i, j) ==
              if s[i - 1] == t[j - 1] then diagonal else Min(Min(diagonal, left), up) + 1
  {
    var a, b := s[..i], t[..j];
    assert DropLast(a) == s[..i - 1] && DropLast(b) == t[..j - 1];
    Step(a, b);
  }

  /** A string is at distance zero from itself. */
  lemma {:induction false} Self(a: string)
    ensures Lev(a, a) == 0
    decreases |a|
  {
    if a != [] {
      Self(DropLast(a));
    }
  }

  /** The distance is zero exactly when the two strings are equal. */
  lemma {:induction false} ZeroIff(a: string, b: string)
    ensures Lev(a, b) == 0 <==> a == b
    decreases |a| + |b|
  {
    if a == b {
      Self(a);
    }
    if a != [] && b != [] && Lev(a, b) == 0 {
      ZeroIff(DropLast(a), DropLast(b));
      assert a == DropLast(a) + [Last(a)] && b == DropLast(b) + [Last(b)];
    }
  }

  /** Turning `a` into `b` costs as much as turning `b` into `a`. */
  lemma {:induction false} Symmetric(a: string, b: string)
    ensures Lev(a, b) == Lev(b, a)
    decreases |a| + |b|
  {
    if a != [] && b != [] {
      Symmetric(DropLast(a), DropLast(b));
      Symmetric(a, DropLast(b));
      Symmetric(DropLast(a), b);
    }
  }

  /** The score of two names: the distance between their lower-cased forms. */
  function Distance(source: string, target: string): (r: nat)
    ensures r <= Max(|source|, |target|)
    ensures |source| - |target| <= r && |target| - |source| <= r
  {
    Lev(ToLowerCase(source), ToLowerCase(target))
  }

  /** An empty source scores the length of the target. */
  lemma DistanceFromEmpty(target: string)
    ensures Distance("", target) == |target|
  {
  }

  /** Lower-casing either name first does not change the score. */
  lemma DistanceIgnoresCase(source: string, target: string)
    ensures Distance(ToLowerCase(source), target) == Distance(source, target)
    ensures Distance(source, ToLowerCase(target)) == Distance(source, target)
  {
    ToLowerCaseIdempotent(source);
    ToLowerCaseIdempotent(target);
  }

  /** A score of zero, "a perfect match", means the names agree up to case. */
  lemma DistanceZeroIff(source: string, target: string)
    ensures Distance(source, target) == 0 <==> ToLowerCase(source) == ToLowerCase(target)
  {
    ZeroIff(ToLowerCase(source), ToLowerCase(target));
  }

  /** Swapping the two names does not change the score. */
  lemma DistanceSymmetric(source: string, target: string)
    ensures Distance(source, target) == Distance(target, source)
  {
    Symmetric(ToLowerCase(source), ToLowerCase(target));
  }

  /**
   * One pass of the inner loop of `computeLevenshteinDistance`, for source
   * position `i`: the row of costs for `i - 1` source characters becomes the
   * row for `i`, except for its last entry, which the running `lastValue`
   * holds on exit. The first pass just fills in `0, 1, ..., |t|`.
   */
  method UpdateRow(s: string, t: string, costs: array<int>, i: nat) returns (lastValue: int)
    requires costs.Length == |t| + 1 && i <= |s|
    requires i > 0 ==> forall k :: 0 <= k <= |t| ==> costs[k] == PrefixDistance(s, t, i - 1, k)
    modifies costs
    ensures i == 0 ==> forall k :: 0 <= k <= |t| ==> costs[k] == PrefixDistance(s, t, 0, k)
    ensures i > 0 ==> forall k :: 0 <= k < |t| ==> costs[k] == PrefixDistance(s, t, i, k)
    ensures i > 0 ==> lastValue == PrefixDistance(s, t, i, |t|)
  {
    lastValue := i;
    var j := 0;
    while j <= |t|
      invariant 0 <= j <= |t| + 1
      invariant i == 0 ==> forall k :: 0 <= k < j ==> costs[k] == k
      invariant i > 0 && j == 0 ==> lastValue == i
      invariant i > 0 && j > 0 ==> lastValue == PrefixDistance(s, t, i, j - 1)
      invariant i > 0 ==> forall k :: 0 <= k < j - 1 ==> costs[k] == PrefixDistance(s, t, i, k)
      invariant i > 0 ==> forall k :: 0 <= k <= |t| && j - 1 <= k ==> costs[k] == PrefixDistance(s, t, i - 1, k)
    {
      if i == 0 {
        costs[j] := j;
      } else if j > 0 {
        var newValue := costs[j - 1];
        if s[i - 1] != t[j - 1] {
          newValue := Min(Min(newValue, lastValue), costs[j]) + 1;
        }
        assert newValue == PrefixDistance(s, t, i, j) by {
          StepAt(s, t, i, j);
        }
        costs[j - 1] := lastValue;
        lastValue := newValue;
      } else {
        assert PrefixDistance(s, t, i, 0) == i;
      }
      j := j + 1;
    }
    if i == 0 {
      forall k | 0 <= k <= |t|
        ensures costs[k] == PrefixDistance(s, t, 0, k)
      {
        assert s[..0] == [];
      }
    }
  }

  /**
   * `computeLevenshteinDistance(source, target)`: both names are lower-cased,
   * then one row of costs is kept and rewritten in place for each character
   * of the source.
   */
  method ComputeLevenshteinDistance(source: string, target: string) returns (distance: int)
    ensures distance == Distance(source, target)
  {
    var s := ToLowerCase(source);
    var t := ToLowerCase(target);
    var costs := new int[|t| + 1];
    var i := 0;
    while i <= |s|
      invariant 0 <= i <= |s| + 1
      invariant i > 0 ==> forall k :: 0 <= k <= |t| ==> costs[k] == PrefixDistance(s, t, i - 1, k)
    {
      var lastValue := UpdateRow(s, t, costs, i);
      if i > 0 {
        costs[|t|] := lastValue;
      }
      i := i + 1;
    }
    assert s[..|s|] == s && t[..|t|] == t;
    distance := costs[|t|];
    assert distance == PrefixDistance(s, t, |s|, |t|);
  }

  /** The first `i` source characters are `i` edits away from an empty target,
      and an empty source is `j` edits away from the first `j` target characters. */
  lemma Border(s: string, t: string, i: nat, j: nat)
    requires i <= |s| && j <= |t|
    ensures PrefixDistance(s, t, i, 0) == i && PrefixDistance(s, t, 0, j) == j
  {
    assert s[..0] == [] && t[..0] == [];
  }

  /** A cell whose two characters agree costs what its diagonal neighbour does. */
  lemma SameCell(s: string, t: string, i: nat, j: nat, diagonal: nat)
    requires 0 < i <= |s| && 0 < j <= |t| && s[i - 1] == t[j - 1]
    requires PrefixDistance(s, t, i - 1, j - 1) == diagonal
    ensures PrefixDistance(s, t, i, j) == diagonal
  {
    StepAt(s, t, i, j);
  }

  /** A cell whose two characters differ costs one more than its cheapest neighbour. */
  lemma OtherCell(s: string, t: string, i: nat, j: nat, diagonal: nat, left: nat, up: nat)
    requires 0 < i <= |s| && 0 < j <= |t| && s[i - 1] != t[j - 1]
    requires PrefixDistance(s, t, i - 1, j - 1) == diagonal
    requires PrefixDistance(s, t, i, j - 1) == left && PrefixDistance(s, t, i - 1, j) == up
    ensures PrefixDistance(s, t, i, j) == Min(Min(diagonal, left), up) + 1
  {
    StepAt(s, t, i, j);
  }

  /** The characters of `kitten` and `sitting`, given one by one so that no
      distance between literal strings is ever unfolded. */
  predicate KittenSitting(s: string, t: string) {
    && |s| == 6 && s[0] == 'k' && s[1] == 'i' && s[2] == 't' && s[3] == 't' && s[4] == 'e' && s[5] == 'n'
    && |t| == 7 && t[0] == 's' && t[1] == 'i' && t[2] == 't' && t[3] == 't' && t[4] == 'i' && t[5] == 'n' && t[6] == 'g'
  }

  /** Row 0 of the cost table for `kitten` against `sitting`. */
  lemma KittenRow0(s: string, t: string)
    requires KittenSitting(s, t)
    ensures PrefixDistance(s, t, 0, 0) == 0 && PrefixDistance(s, t, 0, 1) == 1 && PrefixDistance(s, t, 0, 2) == 2 && PrefixDistance(s, t, 0, 3) == 3
    ensures PrefixDistance(s, t, 0, 4) == 4 && PrefixDistance(s, t, 0, 5) == 5 && PrefixDistance(s, t, 0, 6) == 6 && PrefixDistance(s, t, 0, 7) == 7
  {
    forall j | 0 <= j <= 7
      ensures PrefixDistance(s, t, 0, j) == j
    {
      Border(s, t, 0, j);
    }
  }

  /** Row 1 of the cost table: `k` against each prefix of `sitting`. */
  lemma KittenRow1(s: string, t: string)
    requires KittenSitting(s, t)
    ensures PrefixDistance(s, t, 1, 0) == 1 && PrefixDistance(s, t, 1, 1) == 1 && PrefixDistance(s, t, 1, 2) == 2 && PrefixDistance(s, t, 1, 3) == 3
    ensures PrefixDistance(s, t, 1, 4) == 4 && PrefixDistance(s, t, 1, 5) == 5 && PrefixDistance(s, t, 1, 6) == 6 && PrefixDistance(s, t, 1, 7) == 7
  {
    KittenRow0(s, t);
    Border(s, t, 1, 0);
    OtherCell(s, t, 1, 1, 0, 1, 1);
    OtherCell(s, t, 1, 2, 1, 1, 2);
    OtherCell(s, t, 1, 3, 2, 2, 3);
    OtherCell(s, t, 1, 4, 3, 3, 4);
    OtherCell(s, t, 1, 5, 4, 4, 5);
    OtherCell(s, t, 1, 6, 5, 5, 6);
    OtherCell(s, t, 1, 7, 6, 6, 7);
  }

  /** Row 2 of the cost table: `ki` against each prefix of `sitting`. */
  lemma KittenRow2(s: string, t: string)
    requires KittenSitting(s, t)
    ensures PrefixDistance(s, t, 2, 0) == 2 && PrefixDistance(s, t, 2, 1) == 2 && PrefixDistance(s, t, 2, 2) == 1 && PrefixDistance(s, t, 2, 3) == 2
    ensures PrefixDistance(s, t, 2, 4) == 3 && PrefixDistance(s, t, 2, 5) == 4 && PrefixDistance(s, t, 2, 6) == 5 && PrefixDistance(s, t, 2, 7) == 6
  {
    KittenRow1(s, t);
    Border(s, t, 2, 0);
    OtherCell(s, t, 2, 1, 1, 2, 1);
    SameCell(s, t, 2, 2, 1);
    OtherCell(s, t, 2, 3, 2, 1, 3);
    OtherCell(s, t, 2, 4, 3, 2, 4);
    SameCell(s, t, 2, 5, 4);
    OtherCell(s, t, 2, 6, 5, 4, 6);
    OtherCell(s, t, 2, 7, 6, 5, 7);
  }

  /** Row 3 of the cost table: `kit` against each prefix of `sitting`. */
  lemma KittenRow3(s: string, t: string)
    requires KittenSitting(s, t)
    ensures PrefixDistance(s, t, 3, 0) == 3 && PrefixDistance(s, t, 3, 1) == 3 && PrefixDistance(s, t, 3, 2) == 2 && PrefixDistance(s, t, 3, 3) == 1
    ensures PrefixDistance(s, t, 3, 4) == 2 && PrefixDistance(s, t, 3, 5) == 3 && PrefixDistance(s, t, 3, 6) == 4 && PrefixDistance(s, t, 3, 7) == 5
  {
    KittenRow2(s, t);
    Border(s, t, 3, 0);
    OtherCell(s, t, 3, 1, 2, 3, 2);
    OtherCell(s, t, 3, 2, 2, 3, 1);
    SameCell(s, t, 3, 3, 1);
    SameCell(s, t, 3, 4, 2);
    OtherCell(s, t, 3, 5, 3, 2, 4);
    OtherCell(s, t, 3, 6, 4, 3, 5);
    OtherCell(s, t, 3, 7, 5, 4, 6);
  }

  /** Row 4 of the cost table: `kitt` against each prefix of `sitting`. */
  lemma KittenRow4(s: string, t: string)
    requires KittenSitting(s, t)
    ensures PrefixDistance(s, t, 4, 0) == 4 && PrefixDistance(s, t, 4, 1) == 4 && PrefixDistance(s, t, 4, 2) == 3 && PrefixDistance(s, t, 4, 3) == 2
    ensures PrefixDistance(s, t, 4, 4) == 1 && PrefixDistance(s, t, 4, 5) == 2 && PrefixDistance(s, t, 4, 6) == 3 && PrefixDistance(s, t, 4, 7) == 4
  {
    KittenRow3(s, t);
    Border(s, t, 4, 0);
    OtherCell(s, t, 4, 1, 3, 4, 3);
    OtherCell(s, t, 4, 2, 3, 4, 2);
    SameCell(s, t, 4, 3, 2);
    SameCell(s, t, 4, 4, 1);
    OtherCell(s, t, 4, 5, 2, 1, 3);
    OtherCell(s, t, 4, 6, 3, 2, 4);
    OtherCell(s, t, 4, 7, 4, 3, 5);
  }

  /** Row 5 of the cost table: `kitte` against each prefix of `sitting`. */
  lemma KittenRow5(s: string, t: string)
    requires KittenSitting(s, t)
    ensures PrefixDistance(s, t, 5, 0) == 5 && PrefixDistance(s, t, 5, 1) == 5 && PrefixDistance(s, t, 5, 2) == 4 && PrefixDistance(s, t, 5, 3) == 3
    ensures PrefixDistance(s, t, 5, 4) == 2 && PrefixDistance(s, t, 5, 5) == 2 && PrefixDistance(s, t, 5, 6) == 3 && PrefixDistance(s, t, 5, 7) == 4
  {
    KittenRow4(s, t);
    Border(s, t, 5, 0);
    OtherCell(s, t, 5, 1, 4, 5, 4);
    OtherCell(s, t, 5, 2, 4, 5, 3);
    OtherCell(s, t, 5, 3, 3, 4, 2);
    OtherCell(s, t, 5, 4, 2, 3, 1);
    OtherCell(s, t, 5, 5, 1, 2, 2);
    OtherCell(s, t, 5, 6, 2, 2, 3);
    OtherCell(s, t, 5, 7, 3, 3, 4);
  }

  /** Row 6 of the cost table: `kitten` against each prefix of `sitting`. */
  lemma KittenRow6(s: string, t: string)
    requires KittenSitting(s, t)
    ensures PrefixDistance(s, t, 6, 0) == 6 && PrefixDistance(s, t, 6, 1) == 6 && PrefixDistance(s, t, 6, 2) == 5 && PrefixDistance(s, t, 6, 3) == 4
    ensures PrefixDistance(s, t, 6, 4) == 3 && PrefixDistance(s, t, 6, 5) == 3 && PrefixDistance(s, t, 6, 6) == 2 && PrefixDistance(s, t, 6, 7) == 3
  {
    KittenRow5(s, t);
    Border(s, t, 6, 0);
    OtherCell(s, t, 6, 1, 5, 6, 5);
    OtherCell(s, t, 6, 2, 5, 6, 4);
    OtherCell(s, t, 6, 3, 4, 5, 3);
    OtherCell(s, t, 6, 4, 3, 4, 2);
    OtherCell(s, t, 6, 5, 2, 3, 2);
    SameCell(s, t, 6, 6, 2);
    OtherCell(s, t, 6, 7, 3, 2, 4);
  }

  /** The last entry of the table: `kitten` is three edits from `sitting`. */
  lemma KittenTable(s: string, t: string)
    requires KittenSitting(s, t)
    ensures Lev(s, t) == 3
  {
    KittenRow6(s, t);
    assert s[..6] == s && t[..7] == t;
  }

  /** Both example words are already lower case. */
  lemma LowerKitten(s: string, t: string)
    requires s == ToLowerCase("kitten") && t == ToLowerCase("sitting")
    ensures KittenSitting(s, t)
  {
  }

  /** The usual worked example: `kitten` is three edits from `sitting`. */
  lemma KittenSittingDistance()
    ensures Distance("kitten", "sitting") == 3
  {
    var s, t := ToLowerCase("kitten"), ToLowerCase("sitting");
    LowerKitten(s, t);
    KittenTable(s, t);
  }

  /** The characters of `acme corporation` and `acme ltd`, given one by one. */
  predicate AcmeNames(s: string, t: string) {
    && |s| == 16 && s[0] == 'a' && s[1] == 'c' && s[2] == 'm' && s[3] == 'e' && s[4] == ' ' && s[5] == 'c' && s[6] == 'o' && s[7] == 'r'
    && s[8] == 'p' && s[9] == 'o' && s[10] == 'r' && s[11] == 'a' && s[12] == 't' && s[13] == 'i' && s[14] == 'o' && s[15] == 'n'
    && |t| == 8 && t[0] == 'a' && t[1] == 'c' && t[2] == 'm' && t[3] == 'e' && t[4] == ' ' && t[5] == 'l' && t[6] == 't' && t[7] == 'd'
  }

  /** Row 0 of the cost table for `acme corporation` against `acme ltd`. */
  lemma AcmeRow0(s: string, t: string)
    requires AcmeNames(s, t)
    ensures PrefixDistance(s, t, 0, 0) == 0 && PrefixDistance(s, t, 0, 1) == 1 && PrefixDistance(s, t, 0, 2) == 2 && PrefixDistance(s, t, 0, 3) == 3 && PrefixDistance(s, t, 0, 4) == 4
    ensures PrefixDistance(s, t, 0, 5) == 5 && PrefixDistance(s, t, 0, 6) == 6 && PrefixDistance(s, t, 0, 7) == 7 && PrefixDistance(s, t, 0, 8) == 8
  {
    forall j | 0 <= j <= 8
      ensures PrefixDistance(s, t, 0, j) == j
    {
      Border(s, t, 0, j);
    }
  }

  /** Row 1 of the cost table: `a` against each prefix of `acme ltd`. */
  lemma AcmeRow1(s: string, t: string)
    requires AcmeNames(s, t)
    ensures PrefixDistance(s, t, 1, 0) == 1 && PrefixDistance(s, t, 1, 1) == 0 && PrefixDistance(s, t, 1, 2) == 1 && PrefixDistance(s, t, 1, 3) == 2 && PrefixDistance(s, t, 1, 4) == 3
    ensures PrefixDistance(s, t, 1, 5) == 4 && PrefixDistance(s, t, 1, 6) == 5 && PrefixDistance(s, t, 1, 7) == 6 && PrefixDistance(s, t, 1, 8) == 7
  {
    AcmeRow0(s, t);
    Border(s, t, 1, 0);
    SameCell(s, t, 1, 1, 0);
    OtherCell(s, t, 1, 2, 1, 0, 2);
    OtherCell(s, t, 1, 3, 2, 1, 3);
    OtherCell(s, t, 1, 4, 3, 2, 4);
    OtherCell(s, t, 1, 5, 4, 3, 5);
    OtherCell(s, t, 1, 6, 5, 4, 6);
    OtherCell(s, t, 1, 7, 6, 5, 7);
    OtherCell(s, t, 1, 8, 7, 6, 8);
  }

  /** Row 2 of the cost table: `ac` against each prefix of `acme ltd`. */
  lemma AcmeRow2(s: string, t: string)
    requires AcmeNames(s, t)
    ensures PrefixDistance(s, t, 2, 0) == 2 && PrefixDistance(s, t, 2, 1) == 1 && PrefixDistance(s, t, 2, 2) == 0 && PrefixDistance(s, t, 2, 3) == 1 && PrefixDistance(s, t, 2, 4) == 2
    ensures PrefixDistance(s, t, 2, 5) == 3 && PrefixDistance(s, t, 2, 6) == 4 && PrefixDistance(s, t, 2, 7) == 5 && PrefixDistance(s, t, 2, 8) == 6
  {
    AcmeRow1(s, t);
    Border(s, t, 2, 0);
    OtherCell(s, t, 2, 1, 1, 2, 0);
    SameCell(s, t, 2, 2, 0);
    OtherCell(s, t, 2, 3, 1, 0, 2);
    OtherCell(s, t, 2, 4, 2, 1, 3);
    OtherCell(s, t, 2, 5, 3, 2, 4);
    OtherCell(s, t, 2, 6, 4, 3, 5);
    OtherCell(s, t, 2, 7, 5, 4, 6);
    OtherCell(s, t, 2, 8, 6, 5, 7);
  }

  /** Row 3 of the cost table: `acm` against each prefix of `acme ltd`. */
  lemma AcmeRow3(s: string, t: string)
    requires AcmeNames(s, t)
    ensures PrefixDistance(s, t, 3, 0) == 3 && PrefixDistance(s, t, 3, 1) == 2 && PrefixDistance(s, t, 3, 2) == 1 && PrefixDistance(s, t, 3, 3) == 0 && PrefixDistance(s, t, 3, 4) == 1
    ensures PrefixDistance(s, t, 3, 5) == 2 && PrefixDistance(s, t, 3, 6) == 3 && PrefixDistance(s, t, 3, 7) == 4 && PrefixDistance(s, t, 3, 8) == 5
  {
    AcmeRow2(s, t);
    Border(s, t, 3, 0);
    OtherCell(s, t, 3, 1, 2, 3, 1);
    OtherCell(s, t, 3, 2, 1, 2, 0);
    SameCell(s, t, 3, 3, 0);
    OtherCell(s, t, 3, 4, 1, 0, 2);
    OtherCell(s, t, 3, 5, 2, 1, 3);
    OtherCell(s, t, 3, 6, 3, 2, 4);
    OtherCell(s, t, 3, 7, 4, 3, 5);
    OtherCell(s, t, 3, 8, 5, 4, 6);
  }

  /** Row 4 of the cost table: `acme` against each prefix of `acme ltd`. */
  lemma AcmeRow4(s: string, t: string)
    requires AcmeNames(s, t)
    ensures PrefixDistance(s, t, 4, 0) == 4 && PrefixDistance(s, t, 4, 1) == 3 && PrefixDistance(s, t, 4, 2) == 2 && PrefixDistance(s, t, 4, 3) == 1 && PrefixDistance(s, t, 4, 4) == 0
    ensures PrefixDistance(s, t, 4, 5) == 1 && PrefixDistance(s, t, 4, 6) == 2 && PrefixDistance(s, t, 4, 7) == 3 && PrefixDistance(s, t, 4, 8) == 4
  {
    AcmeRow3(s, t);
    Border(s, t, 4, 0);
    OtherCell(s, t, 4, 1, 3, 4, 2);
    OtherCell(s, t, 4, 2, 2, 3, 1);
    OtherCell(s, t, 4, 3, 1, 2, 0);
    SameCell(s, t, 4, 4, 0);
    OtherCell(s, t, 4, 5, 1, 0, 2);
    OtherCell(s, t, 4, 6, 2, 1, 3);
    OtherCell(s, t, 4, 7, 3, 2, 4);
    OtherCell(s, t, 4, 8, 4, 3, 5);
  }

  /** Row 5 of the cost table: `acme ` against each prefix of `acme ltd`. */
  lemma AcmeRow5(s: string, t: string)
    requires AcmeNames(s, t)
    ensures PrefixDistance(s, t, 5, 0) == 5 && PrefixDistance(s, t, 5, 1) == 4 && PrefixDistance(s, t, 5, 2) == 3 && PrefixDistance(s, t, 5, 3) == 2 && PrefixDistance(s, t, 5, 4) == 1
    ensures PrefixDistance(s, t, 5, 5) == 0 && PrefixDistance(s, t, 5, 6) == 1 && PrefixDistance(s, t, 5, 7) == 2 && PrefixDistance(s, t, 5, 8) == 3
  {
    AcmeRow4(s, t);
    Border(s, t, 5, 0);
    OtherCell(s, t, 5, 1, 4, 5, 3);
    OtherCell(s, t, 5, 2, 3, 4, 2);
    OtherCell(s, t, 5, 3, 2, 3, 1);
    OtherCell(s, t, 5, 4, 1, 2, 0);
    SameCell(s, t, 5, 5, 0);
    OtherCell(s, t, 5, 6, 1, 0, 2);
    OtherCell(s, t, 5, 7, 2, 1, 3);
    OtherCell(s, t, 5, 8, 3, 2, 4);
  }

  /** Row 6 of the cost table: `acme c` against each prefix of `acme ltd`. */
  lemma AcmeRow6(s: string, t: string)
    requires AcmeNames(s, t)
    ensures PrefixDistance(s, t, 6, 0) == 6 && PrefixDistance(s, t, 6, 1) == 5 && PrefixDistance(s, t, 6, 2) == 4 && PrefixDistance(s, t, 6, 3) == 3 && PrefixDistance(s, t, 6, 4) == 2
    ensures PrefixDistance(s, t, 6, 5) == 1 && PrefixDistance(s, t, 6, 6) == 1 && PrefixDistance(s, t, 6, 7) == 2 && PrefixDistance(s, t, 6, 8) == 3
  {
    AcmeRow5(s, t);
    Border(s, t, 6, 0);
    OtherCell(s, t, 6, 1, 5, 6, 4);
    SameCell(s, t, 6, 2, 4);
    OtherCell(s, t, 6, 3, 3, 4, 2);
    OtherCell(s, t, 6, 4, 2, 3, 1);
    OtherCell(s, t, 6, 5, 1, 2, 0);
    OtherCell(s, t, 6, 6, 0, 1, 1);
    OtherCell(s, t, 6, 7, 1, 1, 2);
    OtherCell(s, t, 6, 8, 2, 2, 3);
  }

  /** Row 7 of the cost table: `acme co` against each prefix of `acme ltd`. */
  lemma AcmeRow7(s: string, t: string)
    requires AcmeNames(s, t)
    ensures PrefixDistance(s, t, 7, 0) == 7 && PrefixDistance(s, t, 7, 1) == 6 && PrefixDistance(s, t, 7, 2) == 5 && PrefixDistance(s, t, 7, 3) == 4 && PrefixDistance(s, t, 7, 4) == 3
    ensures PrefixDistance(s, t, 7, 5) == 2 && PrefixDistance(s, t, 7, 6) == 2 && PrefixDistance(s, t, 7, 7) == 2 && PrefixDistance(s, t, 7, 8) == 3
  {
    AcmeRow6(s, t);
    Border(s, t, 7, 0);
    OtherCell(s, t, 7, 1, 6, 7, 5);
    OtherCell(s, t, 7, 2, 5, 6, 4);
    OtherCell(s, t, 7, 3, 4, 5, 3);
    OtherCell(s, t, 7, 4, 3, 4, 2);
    OtherCell(s, t, 7, 5, 2, 3, 1);
    OtherCell(s, t, 7, 6, 1, 2, 1);
    OtherCell(s, t, 7, 7, 1, 2, 2);
    OtherCell(s, t, 7, 8, 2, 2, 3);
  }

  /** Row 8 of the cost table: `acme cor` against each prefix of `acme ltd`. */
  lemma AcmeRow8(s: string, t: string)
    requires AcmeNames(s, t)
    ensures PrefixDistance(s, t, 8, 0) == 8 && PrefixDistance(s, t, 8, 1) == 7 && PrefixDistance(s, t, 8, 2) == 6 && PrefixDistance(s, t, 8, 3) == 5 && PrefixDistance(s, t, 8, 4) == 4
    ensures PrefixDistance(s, t, 8, 5) == 3 && PrefixDistance(s, t, 8, 6) == 3 && PrefixDistance(s, t, 8, 7) == 3 && PrefixDistance(s, t, 8, 8) == 3
  {
    AcmeRow7(s, t);
    Border(s, t, 8, 0);
    OtherCell(s, t, 8, 1, 7, 8, 6);
    OtherCell(s, t, 8, 2, 6, 7, 5);
    OtherCell(s, t, 8, 3, 5, 6, 4);
    OtherCell(s, t, 8, 4, 4, 5, 3);
    OtherCell(s, t, 8, 5, 3, 4, 2);
    OtherCell(s, t, 8, 6, 2, 3, 2);
    OtherCell(s, t, 8, 7, 2, 3, 2);
    OtherCell(s, t, 8, 8, 2, 3, 3);
  }

  /** Row 9 of the cost table: `acme corp` against each prefix of `acme ltd`. */
  lemma AcmeRow9(s: string, t: string)
    requires AcmeNames(s, t)
    ensures PrefixDistance(s, t, 9, 0) == 9 && PrefixDistance(s, t, 9, 1) == 8 && PrefixDistance(s, t, 9, 2) == 7 && PrefixDistance(s, t, 9, 3) == 6 && PrefixDistance(s, t, 9, 4) == 5
    ensures PrefixDistance(s, t, 9, 5) == 4 && PrefixDistance(s, t, 9, 6) == 4 && PrefixDistance(s, t, 9, 7) == 4 && PrefixDistance(s, t, 9, 8) == 4
  {
    AcmeRow8(s, t);
    Border(s, t, 9, 0);
    OtherCell(s, t, 9, 1, 8, 9, 7);
    OtherCell(s, t, 9, 2, 7, 8, 6);
    OtherCell(s, t, 9, 3, 6, 7, 5);
    OtherCell(s, t, 9, 4, 5, 6, 4);
    OtherCell(s, t, 9, 5, 4, 5, 3);
    OtherCell(s, t, 9, 6, 3, 4, 3);
    OtherCell(s, t, 9, 7, 3, 4, 3);
    OtherCell(s, t, 9, 8, 3, 4, 3);
  }

  /** Row 10 of the cost table: `acme corpo` against each prefix of `acme ltd`. */
  lemma AcmeRow10(s: string, t: string)
    requires AcmeNames(s, t)
    ensures PrefixDistance(s, t, 10, 0) == 10 && PrefixDistance(s, t, 10, 1) == 9 && PrefixDistance(s, t, 10, 2) == 8 && PrefixDistance(s, t, 10, 3) == 7 && PrefixDistance(s, t, 10, 4) == 6
    ensures PrefixDistance(s, t, 10, 5) == 5 && PrefixDistance(s, t, 10, 6) == 5 && PrefixDistance(s, t, 10, 7) == 5 && PrefixDistance(s, t, 10, 8) == 5
  {
    AcmeRow9(s, t);
    Border(s, t, 10, 0);
    OtherCell(s, t, 10, 1, 9, 10, 8);
    OtherCell(s, t, 10, 2, 8, 9, 7);
    OtherCell(s, t, 10, 3, 7, 8, 6);
    OtherCell(s, t, 10, 4, 6, 7, 5);
    OtherCell(s, t, 10, 5, 5, 6, 4);
    OtherCell(s, t, 10, 6, 4, 5, 4);
    OtherCell(s, t, 10, 7, 4, 5, 4);
    OtherCell(s, t, 10, 8, 4, 5, 4);
  }

  /** Row 11 of the cost table: `acme corpor` against each prefix of `acme ltd`. */
  lemma AcmeRow11(s: string, t: string)
    requires AcmeNames(s, t)
    ensures PrefixDistance(s, t, 11, 0) == 11 && PrefixDistance(s, t, 11, 1) == 10 && PrefixDistance(s, t, 11, 2) == 9 && PrefixDistance(s, t, 11, 3) == 8 && PrefixDistance(s, t, 11, 4) == 7
    ensures PrefixDistance(s, t, 11, 5) == 6 && PrefixDistance(s, t, 11, 6) == 6 && PrefixDistance(s, t, 11, 7) == 6 && PrefixDistance(s, t, 11, 8) == 6
  {
    AcmeRow10(s, t);
    Border(s, t, 11, 0);
    OtherCell(s, t, 11, 1, 10, 11, 9);
    OtherCell(s, t, 11, 2, 9, 10, 8);
    OtherCell(s, t, 11, 3, 8, 9, 7);
    OtherCell(s, t, 11, 4, 7, 8, 6);
    OtherCell(s, t, 11, 5, 6, 7, 5);
    OtherCell(s, t, 11, 6, 5, 6, 5);
    OtherCell(s, t, 11, 7, 5, 6, 5);
    OtherCell(s, t, 11, 8, 5, 6, 5);
  }

  /** Row 12 of the cost table: `acme corpora` against each prefix of `acme ltd`. */
  lemma AcmeRow12(s: string, t: string)
    requires AcmeNames(s, t)
    ensures PrefixDistance(s, t, 12, 0) == 12 && PrefixDistance(s, t, 12, 1) == 11 && PrefixDistance(s, t, 12, 2) == 10 && PrefixDistance(s, t, 12, 3) == 9 && PrefixDistance(s, t, 12, 4) == 8
    ensures PrefixDistance(s, t, 12, 5) == 7 && PrefixDistance(s, t, 12, 6) == 7 && PrefixDistance(s, t, 12, 7) == 7 && PrefixDistance(s, t, 12, 8) == 7
  {
    AcmeRow11(s, t);
    Border(s, t, 12, 0);
    SameCell(s, t, 12, 1, 11);
    OtherCell(s, t, 12, 2, 10, 11, 9);
    OtherCell(s, t, 12, 3, 9, 10, 8);
    OtherCell(s, t, 12, 4, 8, 9, 7);
    OtherCell(s, t, 12, 5, 7, 8, 6);
    OtherCell(s, t, 12, 6, 6, 7, 6);
    OtherCell(s, t, 12, 7, 6, 7, 6);
    OtherCell(s, t, 12, 8, 6, 7, 6);
  }

  /** Row 13 of the cost table: `acme corporat` against each prefix of `acme ltd`. */
  lemma AcmeRow13(s: string, t: string)
    requires AcmeNames(s, t)
    ensures PrefixDistance(s, t, 13, 0) == 13 && PrefixDistance(s, t, 13, 1) == 12 && PrefixDistance(s, t, 13, 2) == 11 && PrefixDistance(s, t, 13, 3) == 10 && PrefixDistance(s, t, 13, 4) == 9
    ensures PrefixDistance(s, t, 13, 5) == 8 && PrefixDistance(s, t, 13, 6) == 8 && PrefixDistance(s, t, 13, 7) == 7 && PrefixDistance(s, t, 13, 8) == 8
  {
    AcmeRow12(s, t);
    Border(s, t, 13, 0);
    OtherCell(s, t, 13, 1, 12, 13, 11);
    OtherCell(s, t, 13, 2, 11, 12, 10);
    OtherCell(s, t, 13, 3, 10, 11, 9);
    OtherCell(s, t, 13, 4, 9, 10, 8);
    OtherCell(s, t, 13, 5, 8, 9, 7);
    OtherCell(s, t, 13, 6, 7, 8, 7);
    SameCell(s, t, 13, 7, 7);
    OtherCell(s, t, 13, 8, 7, 7, 7);
  }

  /** Row 14 of the cost table: `acme corporati` against each prefix of `acme ltd`. */
  lemma AcmeRow14(s: string, t: string)
    requires AcmeNames(s, t)
    ensures PrefixDistance(s, t, 14, 0) == 14 && PrefixDistance(s, t, 14, 1) == 13 && PrefixDistance(s, t, 14, 2) == 12 && PrefixDistance(s, t, 14, 3) == 11 && PrefixDistance(s, t, 14, 4) == 10
    ensures PrefixDistance(s, t, 14, 5) == 9 && PrefixDistance(s, t, 14, 6) == 9 && PrefixDistance(s, t, 14, 7) == 8 && PrefixDistance(s, t, 14, 8) == 8
  {
    AcmeRow13(s, t);
    Border(s, t, 14, 0);
    OtherCell(s, t, 14, 1, 13, 14, 12);
    OtherCell(s, t, 14, 2, 12, 13, 11);
    OtherCell(s, t, 14, 3, 11, 12, 10);
    OtherCell(s, t, 14, 4, 10, 11, 9);
    OtherCell(s, t, 14, 5, 9, 10, 8);
    OtherCell(s, t, 14, 6, 8, 9, 8);
    OtherCell(s, t, 14, 7, 8, 9, 7);
    OtherCell(s, t, 14, 8, 7, 8, 8);
  }

  /** Row 15 of the cost table: `acme corporatio` against each prefix of `acme ltd`. */
  lemma AcmeRow15(s: string, t: string)
    requires AcmeNames(s, t)
    ensures PrefixDistance(s, t, 15, 0) == 15 && PrefixDistance(s, t, 15, 1) == 14 && PrefixDistance(s, t, 15, 2) == 13 && PrefixDistance(s, t, 15, 3) == 12 && PrefixDistance(s, t, 15, 4) == 11
    ensures PrefixDistance(s, t, 15, 5) == 10 && PrefixDistance(s, t, 15, 6) == 10 && PrefixDistance(s, t, 15, 7) == 9 && PrefixDistance(s, t, 15, 8) == 9
  {
    AcmeRow14(s, t);
    Border(s, t, 15, 0);
    OtherCell(s, t, 15, 1, 14, 15, 13);
    OtherCell(s, t, 15, 2, 13, 14, 12);
    OtherCell(s, t, 15, 3, 12, 13, 11);
    OtherCell(s, t, 15, 4, 11, 12, 10);
    OtherCell(s, t, 15, 5, 10, 11, 9);
    OtherCell(s, t, 15, 6, 9, 10, 9);
    OtherCell(s, t, 15, 7, 9, 10, 8);
    OtherCell(s, t, 15, 8, 8, 9, 8);
  }

  /** Row 16 of the cost table: `acme corporation` against each prefix of `acme ltd`. */
  lemma AcmeRow16(s: string, t: string)
    requires AcmeNames(s, t)
    ensures PrefixDistance(s, t, 16, 0) == 16 && PrefixDistance(s, t, 16, 1) == 15 && PrefixDistance(s, t, 16, 2) == 14 && PrefixDistance(s, t, 16, 3) == 13 && PrefixDistance(s, t, 16, 4) == 12
    ensures PrefixDistance(s, t, 16, 5) == 11 && PrefixDistance(s, t, 16, 6) == 11 && PrefixDistance(s, t, 16, 7) == 10 && PrefixDistance(s, t, 16, 8) == 10
  {
    AcmeRow15(s, t);
    Border(s, t, 16, 0);
    OtherCell(s, t, 16, 1, 15, 16, 14);
    OtherCell(s, t, 16, 2, 14, 15, 13);
    OtherCell(s, t, 16, 3, 13, 14, 12);
    OtherCell(s, t, 16, 4, 12, 13, 11);
    OtherCell(s, t, 16, 5, 11, 12, 10);
    OtherCell(s, t, 16, 6, 10, 11, 10);
    OtherCell(s, t, 16, 7, 10, 11, 9);
    OtherCell(s, t, 16, 8, 9, 10, 9);
  }

  /** The last entry of the table: `acme corporation` is ten edits from `acme ltd`. */
  lemma AcmeTable(s: string, t: string)
    requires AcmeNames(s, t)
    ensures Lev(s, t) == 10
  {
    AcmeRow16(s, t);
    assert s[..16] == s && t[..8] == t;
  }

  /** Both names of the two-name example are already lower case. */
  lemma LowerAcme(s: string, t: string)
    requires s == ToLowerCase("acme corporation") && t == ToLowerCase("acme ltd")
    ensures AcmeNames(s, t)
  {
  }

  /** `acme corporation` is ten edits from `acme ltd`. */
  lemma AcmeDistance()
    ensures Distance("acme corporation", "acme ltd") == 10
  {
    var s, t := ToLowerCase("acme corporation"), ToLowerCase("acme ltd");
    LowerAcme(s, t);
    AcmeTable(s, t);
  }
}
