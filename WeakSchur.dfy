/**
 * The weak Schur number game: the numbers 1..maxNumber are placed one at a
 * time into the subsets 1..nbSubsets so that no subset holds two distinct
 * numbers together with their sum. The engine keeps, per number and
 * subset, whether placing the number there is still allowed (the free
 * actions), a few counters over that table, the subset of every placed
 * number (0 when unplaced) and the score: the longest prefix 1..n of
 * placed numbers.
 *
 * The table of free actions is indexed here by number first and subset
 * second (`free[n - 1][s - 1]` is `_freeActions.get(s, n)`); the flat
 * storage behind it is not part of this model. The printing operator is
 * left out.
 */
module WeakSchur {

  /** Whether action (subset s + 1, number x + 1) is free; out of range means not free. */
  predicate Free(free: seq<seq<bool>>, x: int, s: int)
  {
    0 <= x < |free| && 0 <= s < |free[x]| && free[x][s]
  }

  /** The table has a row of `k` flags for each of the `m` numbers. */
  ghost predicate Grid(free: seq<seq<bool>>, m: nat, k: nat)
  {
    |free| == m && forall x :: 0 <= x < m ==> |free[x]| == k
  }

  /** How many flags of a row are set. */
  function Count(row: seq<bool>): nat
  {
    CountTo(row, |row|)
  }

  /** How many of the first n flags of a row are set. */
  function CountTo(row: seq<bool>, n: nat): nat
    requires n <= |row|
  {
    if n == 0 then 0 else CountTo(row, n - 1) + (if row[n - 1] then 1 else 0)
  }

  /** How many actions of the table are free. */
  function Total(free: seq<seq<bool>>): nat
  {
    TotalTo(free, |free|)
  }

  /** How many actions of the first n numbers are free. */
  function TotalTo(free: seq<seq<bool>>, n: nat): nat
    requires n <= |free|
  {
    if n == 0 then 0 else TotalTo(free, n - 1) + Count(free[n - 1])
  }

  /** How many numbers are placed in subset `s`. */
  function CountIn(sub: seq<int>, s: int): nat
  {
    CountInTo(sub, s, |sub|)
  }

  /** How many of the numbers 1..n are placed in subset `s`. */
  function CountInTo(sub: seq<int>, s: int, n: nat): nat
    requires n <= |sub|
  {
    if n == 0 then 0 else CountInTo(sub, s, n - 1) + (if sub[n - 1] == s then 1 else 0)
  }

  /** Every counter of free subsets matches its row of the table. */
  ghost predicate Counted(free: seq<seq<bool>>, counts: seq<int>)
  {
    |counts| == |free| && forall x :: 0 <= x < |free| ==> counts[x] == Count(free[x])
  }

  /** Every counter of numbers matches its subset. */
  ghost predicate Members(sub: seq<int>, sizes: seq<int>, k: nat)
  {
    |sizes| == k && forall s :: 0 <= s < k ==> sizes[s] == CountIn(sub, s + 1)
  }

  /** The score is the longest prefix 1..score of placed numbers. */
  ghost predicate ScoreOK(sub: seq<int>, score: int)
  {
    0 <= score <= |sub| && (forall n :: 0 <= n < score ==> sub[n] != 0) && (score < |sub| ==> sub[score] == 0)
  }

  /** A placed number has no free action left. */
  ghost predicate ClosedColumns(sub: seq<int>, free: seq<seq<bool>>)
  {
    forall x, s :: 0 <= x < |sub| && sub[x] != 0 ==> !Free(free, x, s)
  }

  /**
   * For two distinct numbers a + 1 and b + 1 of one subset, neither their
   * sum nor their difference is free in that subset.
   */
  ghost predicate Guarded(sub: seq<int>, free: seq<seq<bool>>)
  {
    forall a, b :: 0 <= a < |sub| && 0 <= b < |sub| && a != b && sub[a] != 0 && sub[a] == sub[b] ==>
      !Free(free, a + b + 1, sub[a] - 1) && (a > b ==> !Free(free, a - b - 1, sub[a] - 1))
  }

  /** No subset holds two distinct numbers and their sum: the weak Schur condition. */
  ghost predicate SumFree(sub: seq<int>)
  {
    forall a, b, c ::
      (0 <= a < |sub| && 0 <= b < |sub| && 0 <= c < |sub| && a != b && sub[a] != 0 && sub[a] == sub[b] && sub[b] == sub[c])
      ==> c != a + b + 1
  }

  /** Number y + 1 is the sum of `number` and a number i + 1 of `subset`, or their difference either way. */
  ghost predicate Hit(sub: seq<int>, subset: int, number: int, y: int)
  {
    exists i :: 0 <= i < |sub| && sub[i] == subset && (y == i + number || y == i - number || y == number - i - 2)
  }

  /** `Hit`, looking only at the numbers 1..n. */
  function HitUpTo(sub: seq<int>, subset: int, number: int, y: int, n: nat): bool
    requires n <= |sub|
  {
    n > 0 && (HitUpTo(sub, subset, number, y, n - 1) ||
              (sub[n - 1] == subset && (y == n + number - 1 || y == n - number - 1 || y == number - n - 1)))
  }

  lemma {:induction false} HitUpToIff(sub: seq<int>, subset: int, number: int, y: int, n: nat)
    requires n <= |sub|
    ensures HitUpTo(sub, subset, number, y, n) <==>
            exists i :: 0 <= i < n && sub[i] == subset && (y == i + number || y == i - number || y == number - i - 2)
  {
    if n > 0 {
      HitUpToIff(sub, subset, number, y, n - 1);
    }
  }

  /** With only number 1 placed, the score is 1. */
  lemma ScoreOfFirst(sub: seq<int>, score: int)
    requires ScoreOK(sub, score) && |sub| >= 1 && sub[0] != 0 && (|sub| == 1 || sub[1] == 0)
    ensures score == 1
  {
  }

  /** Looking at every number, `HitUpTo` is `Hit`. */
  lemma HitUpToAll(sub: seq<int>, subset: int, number: int)
    ensures forall y :: HitUpTo(sub, subset, number, y, |sub|) == Hit(sub, subset, number, y)
  {
    forall y
      ensures HitUpTo(sub, subset, number, y, |sub|) == Hit(sub, subset, number, y)
    {
      HitUpToIff(sub, subset, number, y, |sub|);
    }
  }

  /** Number x + 1 has no free subset left. */
  ghost predicate ColumnClosed(free: seq<seq<bool>>, x: int)
  {
    0 <= x < |free| && forall s :: 0 <= s < |free[x]| ==> !free[x][s]
  }

  /** Every free action of `after` was free in `before`. */
  ghost predicate Fewer(before: seq<seq<bool>>, after: seq<seq<bool>>)
  {
    forall x, s :: Free(after, x, s) ==> Free(before, x, s)
  }

  /** The table is m rows of k flags, and its counters agree with it. */
  ghost predicate TableOK(free: seq<seq<bool>>, m: nat, k: nat, total: int, counts: seq<int>)
  {
    Grid(free, m, k) && Counted(free, counts) && total == Total(free)
  }

  /** Every number has a subset or 0, the sizes agree with the partition, and the score is its placed prefix. */
  ghost predicate PartitionOK(sub: seq<int>, m: nat, k: nat, sizes: seq<int>, score: int)
  {
    |sub| == m && (forall n :: 0 <= n < m ==> 0 <= sub[n] <= k) && Members(sub, sizes, k) && ScoreOK(sub, score)
  }

  /** The partition is weak Schur and the table forbids every action that would break it. */
  ghost predicate SchurOK(sub: seq<int>, free: seq<seq<bool>>)
  {
    ClosedColumns(sub, free) && Guarded(sub, free) && SumFree(sub)
  }

  class WeakSchur {
    const nbSubsets: nat
    const maxNumber: nat
    /** `_freeActions`, indexed by number, then subset. */
    var free: seq<seq<bool>>
    var nbFreeActions: int
    /** `_nbFreeNumbersOfSubset`: a counter the source marks as unfinished; its updates are modelled as written. */
    var nbFreeNumbersOfSubset: seq<int>
    var nbNumbersOfSubset: seq<int>
    var nbFreeSubsetsOfNumber: seq<int>
    /** `_subsetOfNumber`: the subset of number n + 1, or 0. */
    var subsetOfNumber: seq<int>
    var score: int

    /** The counters agree with the table, the score is the placed prefix, and the partition is weak Schur. */
    ghost predicate Valid()
      reads this
    {
      TableOK(free, maxNumber, nbSubsets, nbFreeActions, nbFreeSubsetsOfNumber) &&
      PartitionOK(subsetOfNumber, maxNumber, nbSubsets, nbNumbersOfSubset, score) &&
      |nbFreeNumbersOfSubset| == nbSubsets && SchurOK(subsetOfNumber, free)
    }

    /** `WeakSchur(nbSubsets, maxNumber)`: the sizes are fixed, then the game is reset. */
    constructor(nbSubsets: nat, maxNumber: nat)
      requires nbSubsets >= 1 && maxNumber >= 1
      ensures Valid() && this.nbSubsets == nbSubsets && this.maxNumber == maxNumber
      ensures subsetOfNumber == Filled(maxNumber, 0)[0 := 1] && score == 1
    {
      this.nbSubsets := nbSubsets;
      this.maxNumber := maxNumber;
      new;
      Reset();
    }

    /**
     * `reset()`: every action free, no number placed, then number 1 placed
     * in subset 1.
     */
    method Reset()
      requires nbSubsets >= 1 && maxNumber >= 1
      modifies this
      ensures Valid()
      ensures subsetOfNumber == Filled(maxNumber, 0)[0 := 1] && score == 1
      ensures forall x, s :: 0 <= x < maxNumber && 0 <= s < nbSubsets ==> free[x][s] == (x != 0)
      ensures nbNumbersOfSubset == Filled(nbSubsets, 0)[0 := 1]
    {
      FreshOK(maxNumber, nbSubsets);
      free := FullTable(maxNumber, nbSubsets);
      nbFreeActions := nbSubsets * maxNumber;
      nbFreeNumbersOfSubset := Filled(nbSubsets, maxNumber);
      nbNumbersOfSubset := Filled(nbSubsets, 0);
      nbFreeSubsetsOfNumber := Filled(maxNumber, nbSubsets);
      subsetOfNumber := Filled(maxNumber, 0);
      score := 0;
      ghost var sub0 := subsetOfNumber;
      ghost var free0 := free;
      ApplyAction(1, 1);
      ScoreOfFirst(subsetOfNumber, score);
      forall x, s | 0 <= x < maxNumber && 0 <= s < nbSubsets
        ensures free[x][s] == (x != 0)
      {
        assert !Hit(sub0, 1, 1, x);
      }
    }

    /** `isTerminated()`: every number placed, or the first unplaced one has no free subset. */
    function IsTerminated(): (r: bool)
      requires Valid()
      reads this
      ensures r <==> score == maxNumber || forall s :: 0 <= s < nbSubsets ==> !free[score][s]
    {
      if score == maxNumber then true
      else
        CountZero(free[score]);
        nbFreeSubsetsOfNumber[score] == 0
    }

    /** `getScore()`: the largest n such that 1..n are all placed. */
    function GetScore(): (r: int)
      requires Valid()
      reads this
      ensures 0 <= r <= maxNumber && (forall n :: 0 <= n < r ==> subsetOfNumber[n] != 0)
      ensures r < maxNumber ==> subsetOfNumber[r] == 0
    {
      score
    }

    /** `getFirstLegalNumber()`: the smallest unplaced number. */
    function GetFirstLegalNumber(): (r: int)
      requires Valid() && !IsTerminated()
      reads this
      ensures 1 <= r <= maxNumber && subsetOfNumber[r - 1] == 0 && forall n :: 0 <= n < r - 1 ==> subsetOfNumber[n] != 0
    {
      score + 1
    }

    /**
     * `getMostConstrainedNumber()` as written: among the first unplaced
     * number and the numbers after it, up to but EXCLUDING maxNumber, that
     * still have a free subset, the first with the fewest free subsets.
     */
    method GetMostConstrainedNumber() returns (r: int)
      requires Valid() && !IsTerminated()
      ensures MostConstrainedChoice(nbFreeSubsetsOfNumber, score, maxNumber - 1, r)
    {
      r := MostConstrainedUpTo(maxNumber - 1);
    }

    /** The same choice with maxNumber itself among the candidates. */
    method GetMostConstrainedNumberIntended() returns (r: int)
      requires Valid() && !IsTerminated()
      ensures MostConstrainedChoice(nbFreeSubsetsOfNumber, score, maxNumber, r)
    {
      r := MostConstrainedUpTo(maxNumber);
    }

    /** The scan of `getMostConstrainedNumber()` over the number indices below `end`. */
    method MostConstrainedUpTo(end: int) returns (r: int)
      requires Valid() && !IsTerminated() && end <= maxNumber
      ensures MostConstrainedChoice(nbFreeSubsetsOfNumber, score, end, r)
    {
      CountZero(free[score]);
      var best := score;
      var nbBest := nbFreeSubsetsOfNumber[best];
      var x := best + 1;
      while x < end
        invariant score + 1 <= x && (x <= end || x == score + 1) && (best == score || score < best < end)
        invariant MostConstrainedChoice(nbFreeSubsetsOfNumber, score, x, best + 1) && nbBest == nbFreeSubsetsOfNumber[best]
      {
        var nb := nbFreeSubsetsOfNumber[x];
        if nb != 0 && nb < nbBest {
          nbBest := nb;
          best := x;
        }
        x := x + 1;
      }
      r := best + 1;
    }

    /** `getLegalSubsets(number)`: the free subsets of `number`; a subset above 2 only once the one before it is used. */
    method GetLegalSubsets(number: int) returns (legal: seq<int>)
      requires Valid() && 1 <= number <= maxNumber
      ensures forall i, j :: 0 <= i < j < |legal| ==> legal[i] < legal[j]
      ensures forall s :: s in legal <==>
                1 <= s <= nbSubsets && free[number - 1][s - 1] && (s <= 2 || CountIn(subsetOfNumber, s - 1) > 0)
    {
      legal := [];
      var s := 1;
      while s <= nbSubsets
        invariant 1 <= s <= nbSubsets + 1
        invariant forall i, j :: 0 <= i < j < |legal| ==> legal[i] < legal[j]
        invariant forall i :: 0 <= i < |legal| ==> legal[i] < s
        invariant forall t :: t in legal <==>
                    1 <= t < s && free[number - 1][t - 1] && (t <= 2 || CountIn(subsetOfNumber, t - 1) > 0)
      {
        if free[number - 1][s - 1] && (s <= 2 || nbNumbersOfSubset[s - 2] > 0) {
          legal := legal + [s];
        }
        s := s + 1;
      }
    }

    /**
     * `getLongestSeq(subset)` as written: the longest run of consecutive
     * numbers of the subset that is followed by a number outside it, and
     * how many such runs reach that length; the run that ends at maxNumber
     * is never compared.
     */
    method GetLongestSeq(subset: int) returns (longest: nat, nbLongest: nat)
      requires Valid()
      ensures longest == MaxRun(subsetOfNumber, subset, maxNumber)
      ensures nbLongest == CountRuns(subsetOfNumber, subset, maxNumber, longest)
    {
      var curr;
      longest, nbLongest, curr := LongestScanWithLast(subset);
    }

    /** The same scan with the run that reaches maxNumber compared as well. */
    method GetLongestSeqIntended(subset: int) returns (longest: nat, nbLongest: nat)
      requires Valid()
      ensures longest == MaxRun(subsetOfNumber, subset, maxNumber + 1)
      ensures nbLongest == CountRuns(subsetOfNumber, subset, maxNumber + 1, longest)
    {
      var curr;
      longest, nbLongest, curr := LongestScanWithLast(subset);
      if curr > longest {
        CountRunsAbove(subsetOfNumber, subset, maxNumber, curr);
        longest, nbLongest := curr, 1;
      } else if curr == longest {
        nbLongest := nbLongest + 1;
      }
    }

    /** The loop of `getLongestSeq`, also returning the length of the run still open at its end. */
    method LongestScanWithLast(subset: int) returns (longest: nat, nbLongest: nat, curr: nat)
      requires Valid()
      ensures longest == MaxRun(subsetOfNumber, subset, maxNumber)
      ensures nbLongest == CountRuns(subsetOfNumber, subset, maxNumber, longest)
      ensures curr == Run(subsetOfNumber, subset, maxNumber)
    {
      longest, nbLongest, curr := 0, 0, 0;
      var n := 1;
      while n <= maxNumber
        invariant 1 <= n <= maxNumber + 1
        invariant curr == Run(subsetOfNumber, subset, n - 1)
        invariant longest == MaxRun(subsetOfNumber, subset, n - 1)
        invariant nbLongest == CountRuns(subsetOfNumber, subset, n - 1, longest)
      {
        if subsetOfNumber[n - 1] == subset {
          curr := curr + 1;
        } else {
          if curr > longest {
            CountRunsAbove(subsetOfNumber, subset, n - 1, curr);
            longest := curr;
            nbLongest := 1;
          } else if curr == longest {
            nbLongest := nbLongest + 1;
          }
          curr := 0;
        }
        n := n + 1;
      }
    }

    /**
     * `removeAction(subset, number)`: when `number` is in range and the
     * action is still free, it is cleared and the counters drop by one;
     * otherwise nothing changes.
     */
    method RemoveAction(subset: int, number: int)
      requires Valid() && 1 <= subset <= nbSubsets
      modifies this`free, this`nbFreeActions, this`nbFreeSubsetsOfNumber
      ensures Valid()
      ensures forall x, s :: 0 <= x < maxNumber && 0 <= s < nbSubsets ==>
                free[x][s] == (old(free)[x][s] && !(x == number - 1 && s == subset - 1))
      ensures Free(old(free), number - 1, subset - 1) ==>
                nbFreeActions == old(nbFreeActions) - 1 &&
                nbFreeSubsetsOfNumber == old(nbFreeSubsetsOfNumber)[number - 1 := old(nbFreeSubsetsOfNumber)[number - 1] - 1]
      ensures !Free(old(free), number - 1, subset - 1) ==>
                nbFreeActions == old(nbFreeActions) && nbFreeSubsetsOfNumber == old(nbFreeSubsetsOfNumber)
    {
      if 1 <= number <= maxNumber && free[number - 1][subset - 1] {
        var x := number - 1;
        var row := free[x][subset - 1 := false];
        RemoveKeeps(free, maxNumber, nbSubsets, nbFreeActions, nbFreeSubsetsOfNumber, subsetOfNumber, x, subset - 1);
        free := free[x := row];
        nbFreeActions := nbFreeActions - 1;
        nbFreeSubsetsOfNumber := nbFreeSubsetsOfNumber[x := nbFreeSubsetsOfNumber[x] - 1];
      }
    }

    /**
     * `applyAction(subset, number)`: every subset of `number` is cleared,
     * then for each number m already in `subset` the actions m + number,
     * m - number and number - m of that subset are removed; `number` is
     * stored in `subset` and the score advances over the placed prefix.
     * The requirements are the source's assertions.
     */
    method ApplyAction(subset: int, number: int)
      requires Valid() && 1 <= subset <= nbSubsets && 1 <= number <= maxNumber
      requires nbFreeSubsetsOfNumber[number - 1] > 0 && subsetOfNumber[number - 1] == 0 && free[number - 1][subset - 1]
      modifies this
      ensures Valid()
      ensures subsetOfNumber == old(subsetOfNumber)[number - 1 := subset]
      ensures forall x, s :: 0 <= x < maxNumber && 0 <= s < nbSubsets ==>
                free[x][s] == (old(free)[x][s] && x != number - 1 &&
                               !(s == subset - 1 && Hit(old(subsetOfNumber), subset, number, x)))
      ensures nbNumbersOfSubset == old(nbNumbersOfSubset)[subset - 1 := old(nbNumbersOfSubset)[subset - 1] + 1]
      ensures nbFreeNumbersOfSubset ==
                old(nbFreeNumbersOfSubset)[subset - 1 := old(nbFreeNumbersOfSubset)[subset - 1] - CountIn(old(subsetOfNumber), subset)]
    {
      SumFreeAfterPlace(subsetOfNumber, free, subset, number);
      ClearColumn(number - 1);
      UpdateNumberData(subset, number);
      Place(subset, number);
    }

    /**
     * The second loop of `applyAction`: for each number n of `subset`, the
     * sum and differences of n and `number` are removed from `subset`, and
     * the unfinished counter of free numbers of `subset` drops by one.
     */
    method UpdateNumberData(subset: int, number: int)
      requires Valid() && 1 <= subset <= nbSubsets
      modifies this`free, this`nbFreeActions, this`nbFreeSubsetsOfNumber, this`nbFreeNumbersOfSubset
      ensures Valid()
      ensures forall x, s :: 0 <= x < maxNumber && 0 <= s < nbSubsets ==>
                free[x][s] == (old(free)[x][s] && !(s == subset - 1 && Hit(subsetOfNumber, subset, number, x)))
      ensures nbFreeNumbersOfSubset ==
                old(nbFreeNumbersOfSubset)[subset - 1 := old(nbFreeNumbersOfSubset)[subset - 1] - CountIn(subsetOfNumber, subset)]
    {
      ghost var counts := nbFreeNumbersOfSubset;
      ghost var c := 0;
      var n := 1;
      while n <= maxNumber
        invariant 1 <= n <= maxNumber + 1 && Valid()
        invariant forall x, s :: 0 <= x < maxNumber && 0 <= s < nbSubsets ==>
                    free[x][s] == (old(free)[x][s] && !(s == subset - 1 && HitUpTo(subsetOfNumber, subset, number, x, n - 1)))
        invariant c == CountInTo(subsetOfNumber, subset, n - 1)
        invariant |nbFreeNumbersOfSubset| == |counts| && nbFreeNumbersOfSubset[subset - 1] == counts[subset - 1] - c
        invariant forall t :: 0 <= t < |counts| && t != subset - 1 ==> nbFreeNumbersOfSubset[t] == counts[t]
      {
        if subset == subsetOfNumber[n - 1] {
          RemoveSumAndDifferences(subset, number, n);
          c := c + 1;
        }
        n := n + 1;
      }
      HitUpToAll(subsetOfNumber, subset, number);
    }

    /**
     * The body of the second loop of `applyAction` for a number n already in
     * `subset`: three `removeAction` calls, then one free number fewer.
     */
    method RemoveSumAndDifferences(subset: int, number: int, n: int)
      requires Valid() && 1 <= subset <= nbSubsets
      modifies this`free, this`nbFreeActions, this`nbFreeSubsetsOfNumber, this`nbFreeNumbersOfSubset
      ensures Valid()
      ensures forall x, s :: 0 <= x < maxNumber && 0 <= s < nbSubsets ==>
                free[x][s] == (old(free)[x][s] && !(s == subset - 1 && (x == n + number - 1 || x == n - number - 1 || x == number - n - 1)))
      ensures nbFreeNumbersOfSubset == old(nbFreeNumbersOfSubset)[subset - 1 := old(nbFreeNumbersOfSubset)[subset - 1] - 1]
    {
      ghost var before := free;
      RemoveAction(subset, n + number);
      ghost var afterSum := free;
      RemoveAction(subset, n - number);
      ghost var afterDifference := free;
      RemoveAction(subset, number - n);
      forall x, s | 0 <= x < maxNumber && 0 <= s < nbSubsets
        ensures free[x][s] == (before[x][s] && !(s == subset - 1 && (x == n + number - 1 || x == n - number - 1 || x == number - n - 1)))
      {
        assert afterSum[x][s] == (before[x][s] && !(x == n + number - 1 && s == subset - 1));
        assert afterDifference[x][s] == (afterSum[x][s] && !(x == n - number - 1 && s == subset - 1));
      }
      nbFreeNumbersOfSubset := nbFreeNumbersOfSubset[subset - 1 := nbFreeNumbersOfSubset[subset - 1] - 1];
    }

    /** The first loop of `applyAction`: every subset of number x + 1 cleared, the counters adjusted. */
    method ClearColumn(x: int)
      requires Valid() && 0 <= x < maxNumber
      modifies this`free, this`nbFreeActions, this`nbFreeSubsetsOfNumber
      ensures Valid()
      ensures forall y, s :: 0 <= y < maxNumber && 0 <= s < nbSubsets ==> free[y][s] == (old(free)[y][s] && y != x)
      ensures nbFreeActions == old(nbFreeActions) - old(nbFreeSubsetsOfNumber)[x]
      ensures nbFreeSubsetsOfNumber == old(nbFreeSubsetsOfNumber)[x := 0]
    {
      var row := free[x];
      var s := 0;
      while s < nbSubsets
        invariant 0 <= s <= nbSubsets && |row| == nbSubsets
        invariant row == seq(s, _ => false) + free[x][s..]
      {
        row := row[s := false];
        s := s + 1;
      }
      ClearKeeps(free, maxNumber, nbSubsets, nbFreeActions, nbFreeSubsetsOfNumber, subsetOfNumber, x, row);
      free := free[x := row];
      nbFreeActions := nbFreeActions - nbFreeSubsetsOfNumber[x];
      nbFreeSubsetsOfNumber := nbFreeSubsetsOfNumber[x := 0];
    }

    /** The last steps of `applyAction`: the number is stored and the score advances. */
    method Place(subset: int, number: int)
      requires Valid() && 1 <= subset <= nbSubsets && 1 <= number <= maxNumber && subsetOfNumber[number - 1] == 0
      requires SumFree(subsetOfNumber[number - 1 := subset])
      requires ColumnClosed(free, number - 1)
      requires forall y :: 0 <= y < maxNumber && Hit(subsetOfNumber, subset, number, y) ==> !free[y][subset - 1]
      modifies this`subsetOfNumber, this`score, this`nbNumbersOfSubset
      ensures Valid()
      ensures subsetOfNumber == old(subsetOfNumber)[number - 1 := subset]
      ensures nbNumbersOfSubset == old(nbNumbersOfSubset)[subset - 1 := old(nbNumbersOfSubset)[subset - 1] + 1]
    {
      var sub := subsetOfNumber[number - 1 := subset];
      PlaceKeeps(subsetOfNumber, free, maxNumber, nbSubsets, nbNumbersOfSubset, subset, number, sub);
      subsetOfNumber := sub;
      nbNumbersOfSubset := nbNumbersOfSubset[subset - 1 := nbNumbersOfSubset[subset - 1] + 1];
      var n := score;
      while n < maxNumber && sub[n] != 0
        invariant 0 <= n <= maxNumber && forall i :: 0 <= i < n ==> sub[i] != 0
      {
        n := n + 1;
      }
      score := n;
    }
  }

  /** The choice of `getMostConstrainedNumber()` scanning the number indices up to `end`: r is 1 + that index. */
  ghost predicate MostConstrainedChoice(counts: seq<int>, first: int, end: int, r: int)
  {
    0 <= first < |counts| && counts[first] > 0 && (r - 1 == first || first < r - 1 < end) && r - 1 < |counts| &&
    counts[r - 1] > 0 &&
    (forall x :: first <= x < end && x < |counts| && counts[x] != 0 ==> counts[r - 1] <= counts[x]) &&
    (forall x :: first <= x < r - 1 && counts[x] != 0 ==> counts[r - 1] < counts[x])
  }

  /** Members of subset `s` ending at number n: the length of the run. */
  function Run(sub: seq<int>, s: int, n: nat): nat
    requires n <= |sub|
  {
    if n == 0 || sub[n - 1] != s then 0 else Run(sub, s, n - 1) + 1
  }

  /** Position m closes a run: it is just past the end, or its number lies outside subset `s`. */
  predicate Closes(sub: seq<int>, s: int, m: int)
  {
    m == |sub| + 1 || (1 <= m <= |sub| && sub[m - 1] != s)
  }

  /** The longest run closed at one of the positions 1..e (0 when none). */
  function MaxRun(sub: seq<int>, s: int, e: nat): nat
    requires e <= |sub| + 1
  {
    if e == 0 then 0
    else
      var before := MaxRun(sub, s, e - 1);
      if Closes(sub, s, e) && Run(sub, s, e - 1) > before then Run(sub, s, e - 1) else before
  }

  /** How many of the positions 1..e close a run of length `len`. */
  function CountRuns(sub: seq<int>, s: int, e: nat, len: nat): nat
    requires e <= |sub| + 1
  {
    if e == 0 then 0
    else CountRuns(sub, s, e - 1, len) + (if Closes(sub, s, e) && Run(sub, s, e - 1) == len then 1 else 0)
  }

  /** MaxRun is the longest closed run: every closed run is at most it, and it is reached unless it is 0. */
  lemma {:induction false} MaxRunIsLongest(sub: seq<int>, s: int, e: nat)
    requires e <= |sub| + 1
    ensures forall m :: 1 <= m <= e && Closes(sub, s, m) ==> Run(sub, s, m - 1) <= MaxRun(sub, s, e)
    ensures MaxRun(sub, s, e) == 0 || exists m :: 1 <= m <= e && Closes(sub, s, m) && Run(sub, s, m - 1) == MaxRun(sub, s, e)
  {
    if e > 0 {
      MaxRunIsLongest(sub, s, e - 1);
    }
  }

  /** No closed run is longer than MaxRun, so none is counted at a greater length. */
  lemma CountRunsAbove(sub: seq<int>, s: int, e: nat, len: nat)
    requires e <= |sub| + 1 && len > MaxRun(sub, s, e)
    ensures CountRuns(sub, s, e, len) == 0
  {
    CountRunsAboveRec(sub, s, e, len);
  }

  lemma {:induction false} CountRunsAboveRec(sub: seq<int>, s: int, e: nat, len: nat)
    requires e <= |sub| + 1 && len > MaxRun(sub, s, e)
    ensures CountRuns(sub, s, e, len) == 0
  {
    if e > 0 {
      CountRunsAboveRec(sub, s, e - 1, len);
    }
  }

  /** With the last run compared, every run of the subset, wherever it ends, is at most the longest. */
  lemma {:induction false} IntendedCoversEveryRun(sub: seq<int>, s: int, n: nat)
    requires n <= |sub|
    ensures Run(sub, s, n) <= MaxRun(sub, s, |sub| + 1)
    decreases |sub| - n
  {
    MaxRunIsLongest(sub, s, |sub| + 1);
    if n < |sub| && sub[n] == s {
      IntendedCoversEveryRun(sub, s, n + 1);
    } else {
      assert Closes(sub, s, n + 1);
    }
  }

  /**
   * With maxNumber 1 and number 1 in subset 1 (the state after `reset()`),
   * the scan as written reports no run for subset 1, while the run {1}
   * exists and the intended scan reports it.
   */
  lemma TrailingRunMissed()
    ensures Run([1], 1, 1) == 1
    ensures MaxRun([1], 1, 1) == 0 && CountRuns([1], 1, 1, 0) == 0
    ensures MaxRun([1], 1, 2) == 1 && CountRuns([1], 1, 2, 1) == 1
  {
  }

  /**
   * Free-subset counts [0, 3, 0, 0, 2] with score 1: numbers 1, 3 and 4
   * placed, number 2 free in 3 subsets, number 5 in 2. As written, the
   * only choice is number 2, although number 5 has fewer free subsets;
   * with maxNumber among the candidates the choice is 5.
   */
  lemma MaxNumberOverlooked()
    ensures forall r :: MostConstrainedChoice([0, 3, 0, 0, 2], 1, 4, r) ==> r == 2
    ensures MostConstrainedChoice([0, 3, 0, 0, 2], 1, 4, 2)
    ensures forall r :: MostConstrainedChoice([0, 3, 0, 0, 2], 1, 5, r) ==> r == 5
    ensures MostConstrainedChoice([0, 3, 0, 0, 2], 1, 5, 5)
  {
    var c := [0, 3, 0, 0, 2];
    forall r | MostConstrainedChoice(c, 1, 5, r)
      ensures r == 5
    {
      assert c[4] != 0;
    }
  }

  lemma {:induction false} CountFull(k: nat, n: nat)
    requires n <= k
    ensures CountTo(seq(k, _ => true), n) == n
  {
    if n > 0 {
      CountFull(k, n - 1);
    }
  }

  lemma {:induction false} CountNone(k: nat, n: nat)
    requires n <= k
    ensures CountTo(seq(k, _ => false), n) == 0
  {
    if n > 0 {
      CountNone(k, n - 1);
    }
  }

  /** A row counts zero exactly when no flag is set. */
  lemma CountZero(row: seq<bool>)
    ensures Count(row) == 0 <==> forall s :: 0 <= s < |row| ==> !row[s]
  {
    CountToZero(row, |row|);
  }

  lemma {:induction false} CountToZero(row: seq<bool>, n: nat)
    requires n <= |row|
    ensures CountTo(row, n) == 0 <==> forall s :: 0 <= s < n ==> !row[s]
  {
    if n > 0 {
      CountToZero(row, n - 1);
    }
  }

  /** Clearing a set flag lowers the count by one. */
  lemma CountClear(row: seq<bool>, s: nat)
    requires s < |row| && row[s]
    ensures Count(row[s := false]) == Count(row) - 1
  {
    CountToClear(row, s, |row|);
  }

  lemma {:induction false} CountToClear(row: seq<bool>, s: nat, n: nat)
    requires s < |row| && row[s] && n <= |row|
    ensures CountTo(row[s := false], n) == CountTo(row, n) - (if s < n then 1 else 0)
  {
    if n > 0 {
      CountToClear(row, s, n - 1);
    }
  }

  lemma {:induction false} TotalFull(m: nat, k: nat, n: nat)
    requires n <= m
    ensures TotalTo(seq(m, _ => seq(k, _ => true)), n) == k * n
  {
    if n > 0 {
      TotalFull(m, k, n - 1);
      CountFull(k, k);
    }
  }

  /** Replacing one row changes the total by the change of that row's count. */
  lemma TotalUpdate(free: seq<seq<bool>>, x: nat, row: seq<bool>)
    requires x < |free|
    ensures Total(free[x := row]) == Total(free) - Count(free[x]) + Count(row)
  {
    TotalToUpdate(free, x, row, |free|);
  }

  lemma {:induction false} TotalToUpdate(free: seq<seq<bool>>, x: nat, row: seq<bool>, n: nat)
    requires x < |free| && n <= |free|
    ensures TotalTo(free[x := row], n) == TotalTo(free, n) + (if x < n then Count(row) - Count(free[x]) else 0)
  {
    if n > 0 {
      TotalToUpdate(free, x, row, n - 1);
    }
  }

  lemma {:induction false} CountInNone(m: nat, s: int, n: nat)
    requires n <= m
    ensures CountInTo(seq(m, _ => 0), s, n) == (if s == 0 then n else 0)
  {
    if n > 0 {
      CountInNone(m, s, n - 1);
    }
  }

  /** Placing an unplaced number in subset s adds one to s and changes no other subset. */
  lemma CountInPlace(sub: seq<int>, x: nat, s: int)
    requires x < |sub| && sub[x] == 0 && s != 0
    ensures CountIn(sub[x := s], s) == CountIn(sub, s) + 1
    ensures forall t :: t != s && t != 0 ==> CountIn(sub[x := s], t) == CountIn(sub, t)
  {
    CountInToPlace(sub, x, s, s, |sub|);
    forall t | t != s && t != 0
      ensures CountIn(sub[x := s], t) == CountIn(sub, t)
    {
      CountInToPlace(sub, x, s, t, |sub|);
    }
  }

  lemma {:induction false} CountInToPlace(sub: seq<int>, x: nat, s: int, t: int, n: nat)
    requires x < |sub| && sub[x] == 0 && s != 0 && t != 0 && n <= |sub|
    ensures CountInTo(sub[x := s], t, n) == CountInTo(sub, t, n) + (if t == s && x < n then 1 else 0)
  {
    if n > 0 {
      CountInToPlace(sub, x, s, t, n - 1);
    }
  }

  /** Clearing flags of one row leaves no action free that was not free before. */
  lemma RowFewer(free: seq<seq<bool>>, x: nat, row: seq<bool>)
    requires x < |free| && |row| == |free[x]| && forall s :: 0 <= s < |row| && row[s] ==> free[x][s]
    ensures Fewer(free, free[x := row])
  {
  }

  /** A table of m rows of k flags, all set. */
  function FullTable(m: nat, k: nat): (t: seq<seq<bool>>)
    ensures Grid(t, m, k) && forall x, s :: 0 <= x < m && 0 <= s < k ==> t[x][s]
  {
    seq(m, _ => seq(k, _ => true))
  }

  /** n copies of v. */
  function Filled(n: nat, v: int): (r: seq<int>)
    ensures |r| == n && forall i :: 0 <= i < n ==> r[i] == v
  {
    seq(n, _ => v)
  }

  /** The state `reset()` builds before placing 1: every action free, no number placed. */
  lemma FreshOK(m: nat, k: nat)
    ensures TableOK(FullTable(m, k), m, k, k * m, Filled(m, k))
    ensures PartitionOK(Filled(m, 0), m, k, Filled(k, 0), 0) && SchurOK(Filled(m, 0), FullTable(m, k))
  {
    TotalFull(m, k, m);
    CountFull(k, k);
    forall t | 1 <= t <= k
      ensures CountIn(Filled(m, 0), t) == 0
    {
      CountInNone(m, t, m);
    }
  }

  /**
   * Placing `number` in `subset` keeps every number in range, the sizes
   * right and the partition weak Schur, once the column of `number` is
   * closed and its sums and differences in `subset` are not free.
   */
  lemma PlaceKeeps(sub: seq<int>, free: seq<seq<bool>>, m: nat, k: nat, sizes: seq<int>, subset: int, number: int, placed: seq<int>)
    requires |sub| == m && (forall n :: 0 <= n < m ==> 0 <= sub[n] <= k) && Members(sub, sizes, k) && Grid(free, m, k)
    requires 1 <= subset <= k && 1 <= number <= m && sub[number - 1] == 0 && placed == sub[number - 1 := subset]
    requires ClosedColumns(sub, free) && Guarded(sub, free) && SumFree(placed)
    requires ColumnClosed(free, number - 1)
    requires forall y :: 0 <= y < m && Hit(sub, subset, number, y) ==> !free[y][subset - 1]
    ensures forall n :: 0 <= n < m ==> 0 <= placed[n] <= k
    ensures Members(placed, sizes[subset - 1 := sizes[subset - 1] + 1], k)
    ensures SchurOK(placed, free)
  {
    CountInPlace(sub, number - 1, subset);
    PlaceKeepsGuard(sub, free, k, subset, number);
  }

  /** Clearing every action of one number keeps the table's counters right and the partition guarded. */
  lemma ClearKeeps(free: seq<seq<bool>>, m: nat, k: nat, total: int, counts: seq<int>, sub: seq<int>, x: nat, row: seq<bool>)
    requires TableOK(free, m, k, total, counts) && SchurOK(sub, free) && x < m && row == seq(k, _ => false)
    ensures TableOK(free[x := row], m, k, total - counts[x], counts[x := 0])
    ensures SchurOK(sub, free[x := row])
  {
    CountNone(k, k);
    TotalUpdate(free, x, row);
    RowFewer(free, x, row);
    KeptByFewer(sub, free, free[x := row]);
  }

  /** Clearing one free action keeps the table's counters right and the partition guarded. */
  lemma RemoveKeeps(free: seq<seq<bool>>, m: nat, k: nat, total: int, counts: seq<int>, sub: seq<int>, x: nat, s: nat)
    requires TableOK(free, m, k, total, counts) && SchurOK(sub, free) && x < m && s < k && free[x][s]
    ensures TableOK(free[x := free[x][s := false]], m, k, total - 1, counts[x := counts[x] - 1])
    ensures SchurOK(sub, free[x := free[x][s := false]])
  {
    var row := free[x][s := false];
    CountClear(free[x], s);
    TotalUpdate(free, x, row);
    RowFewer(free, x, row);
    KeptByFewer(sub, free, free[x := row]);
  }

  lemma KeptByFewer(sub: seq<int>, before: seq<seq<bool>>, after: seq<seq<bool>>)
    requires Fewer(before, after)
    ensures ClosedColumns(sub, before) ==> ClosedColumns(sub, after)
    ensures Guarded(sub, before) ==> Guarded(sub, after)
  {
  }

  /**
   * Placing `number` in `subset` keeps the partition weak Schur: `number`
   * was free there, so it is neither the sum of two distinct numbers of
   * the subset nor, with one of them, a summand of a third.
   */
  lemma SumFreeAfterPlace(sub: seq<int>, free: seq<seq<bool>>, subset: int, number: int)
    requires 1 <= subset && 1 <= number <= |sub| && sub[number - 1] == 0
    requires Guarded(sub, free) && SumFree(sub) && Free(free, number - 1, subset - 1)
    ensures SumFree(sub[number - 1 := subset])
  {
    var sub' := sub[number - 1 := subset];
    var x := number - 1;
    forall a, b, c | 0 <= a < |sub'| && 0 <= b < |sub'| && 0 <= c < |sub'| && a != b && sub'[a] != 0 &&
                     sub'[a] == sub'[b] && sub'[b] == sub'[c]
      ensures c != a + b + 1
    {
      if c == a + b + 1 {
        assert false;
      }
    }
  }

  /**
   * Once the column of `number` is cleared and its sums and differences
   * with the numbers of `subset` are removed, placing it keeps every
   * placed number's column closed and every pair of a subset guarded.
   */
  lemma PlaceKeepsGuard(sub: seq<int>, free: seq<seq<bool>>, k: nat, subset: int, number: int)
    requires 1 <= subset <= k && 1 <= number <= |sub| && sub[number - 1] == 0 && Grid(free, |sub|, k)
    requires ClosedColumns(sub, free) && Guarded(sub, free)
    requires ColumnClosed(free, number - 1)
    requires forall y :: 0 <= y < |sub| && Hit(sub, subset, number, y) ==> !free[y][subset - 1]
    ensures ClosedColumns(sub[number - 1 := subset], free)
    ensures Guarded(sub[number - 1 := subset], free)
  {
    var sub' := sub[number - 1 := subset];
    var x := number - 1;
    forall a, b | 0 <= a < |sub'| && 0 <= b < |sub'| && a != b && sub'[a] != 0 && sub'[a] == sub'[b]
      ensures !Free(free, a + b + 1, sub'[a] - 1) && (a > b ==> !Free(free, a - b - 1, sub'[a] - 1))
    {
      if a == x || b == x {
        var i := if a == x then b else a;
        assert sub[i] == subset;
        var y := a + b + 1;
        if y < |sub| {
          assert y == i + number;
          assert Hit(sub, subset, number, y);
        }
        if a > b {
          var d := a - b - 1;
          assert d == i - number || d == number - i - 2;
          assert Hit(sub, subset, number, d);
        }
      }
    }
  }
}
