/** A weighted collection of prefabs: `GetRandom` walks the weights,
    subtracting each from a drawn value until the value falls below one, and
    `OnValidate` sorts the weights. The drawn value `RND.Next(0, total)` is
    a parameter. */
module PrefabCollection {
  import opened Wrappers
  import Lists
  import opened PropRules

  /** `_chances.Sum()`. */
  function Sum(s: seq<int>): int
  {
    if |s| == 0 then 0 else s[0] + Sum(s[1..])
  }

  /** Every weight is non-negative. */
  predicate NonNegativeWeights(s: seq<int>)
  {
    forall i :: 0 <= i < |s| ==> s[i] >= 0
  }

  /** What `RND.Next(0, total)` can return for a total that does not make
      it throw: zero for a zero total, otherwise a value in [0, total). */
  predicate Drawn(rnd: int, total: int)
  {
    if total == 0 then rnd == 0 else 0 <= rnd < total
  }

  /** The index the `foreach` loop stops at: the first weight the remaining
      value falls below, or one past the last weight when there is none. */
  function WeightedIndex(chances: seq<int>, rnd: int): (i: nat)
    ensures i <= |chances|
  {
    if |chances| == 0 then 0
    else if rnd < chances[0] then 0
    else 1 + WeightedIndex(chances[1..], rnd - chances[0])
  }

  /** Why `GetRandom` throws instead of returning a prefab. */
  datatype PickError =
    | NegativeTotal     // `RND.Next(0, total)` with total < 0
    | IndexOutOfRange   // `_prefabs[i]` with i past the end

  /** The outcome of `GetRandom` for the drawn value `rnd`. */
  function Pick(prefabs: seq<GameObject>, chances: seq<int>, rnd: int): (r: Result<GameObject, PickError>)
    ensures r.Success? ==> r.value in prefabs
    ensures r == Failure(NegativeTotal) <==> Sum(chances) < 0
  {
    if Sum(chances) < 0 then Failure(NegativeTotal)
    else
      var i := WeightedIndex(chances, rnd);
      if i < |prefabs| then Success(prefabs[i]) else Failure(IndexOutOfRange)
  }

  lemma SumSplit(s: seq<int>, i: nat)
    requires i < |s|
    ensures Sum(s[..i + 1]) == Sum(s[..i]) + s[i]
  {
    if i > 0 {
      assert s[..i + 1][1..] == s[1..][..i];
      assert s[..i][1..] == s[1..][..i - 1];
      SumSplit(s[1..], i - 1);
    } else {
      assert s[..1][1..] == [];
    }
  }

  /** A drawn value that is not negative stays non-negative all the way, and
      the index found has a weight above the value left at it: the value
      lies in the bracket of that weight. */
  lemma {:induction false} WeightedIndexBracket(chances: seq<int>, rnd: int)
    requires rnd >= 0
    ensures var i := WeightedIndex(chances, rnd);
      Sum(chances[..i]) <= rnd
      && (i < |chances| ==> rnd < Sum(chances[..i + 1]))
  {
    if |chances| > 0 && rnd >= chances[0] {
      var rest := chances[1..];
      WeightedIndexBracket(rest, rnd - chances[0]);
      var j := WeightedIndex(rest, rnd - chances[0]);
      assert chances[..j + 1][1..] == rest[..j];
      if j < |rest| {
        assert chances[..j + 2][1..] == rest[..j + 1];
      }
    } else if |chances| > 0 {
      assert chances[..1][1..] == [];
    }
  }

  /** With a value drawn in [0, total) from non-negative weights, the loop
      breaks before the end: the index is a valid position of the weights. */
  lemma {:induction false} InRangeValueFindsAWeight(chances: seq<int>, rnd: int)
    requires NonNegativeWeights(chances)
    requires 0 <= rnd < Sum(chances)
    ensures WeightedIndex(chances, rnd) < |chances|
  {
    if rnd >= chances[0] {
      InRangeValueFindsAWeight(chances[1..], rnd - chances[0]);
    }
  }

  /** For a value drawn in [0, total) from non-negative weights, the index is
      the one whose bracket [sum before it, sum up to it) holds the value. */
  lemma PickedBracket(chances: seq<int>, rnd: int)
    requires NonNegativeWeights(chances)
    requires 0 <= rnd < Sum(chances)
    ensures var i := WeightedIndex(chances, rnd);
      i < |chances| && Sum(chances[..i]) <= rnd < Sum(chances[..i + 1])
  {
    InRangeValueFindsAWeight(chances, rnd);
    WeightedIndexBracket(chances, rnd);
  }

  /** A weight of zero is never picked, whatever the other weights. */
  lemma ZeroWeightNeverPicked(chances: seq<int>, rnd: int)
    requires rnd >= 0
    ensures var i := WeightedIndex(chances, rnd); i < |chances| ==> chances[i] > 0
  {
    var i := WeightedIndex(chances, rnd);
    WeightedIndexBracket(chances, rnd);
    if i < |chances| {
      SumSplit(chances, i);
    }
  }

  /** With a positive total of non-negative weights and at least as many
      prefabs as weights, `GetRandom` returns the prefab at a position whose
      weight is positive and whose bracket holds the drawn value. */
  lemma PositiveTotalPicksAWeightedPrefab(prefabs: seq<GameObject>, chances: seq<int>, rnd: int)
    requires NonNegativeWeights(chances)
    requires Sum(chances) > 0 && Drawn(rnd, Sum(chances))
    requires |prefabs| >= |chances|
    ensures exists i :: (0 <= i < |chances| && chances[i] > 0
      && Sum(chances[..i]) <= rnd < Sum(chances[..i + 1])
      && Pick(prefabs, chances, rnd) == Success(prefabs[i]))
  {
    var i := WeightedIndex(chances, rnd);
    assert 0 <= rnd < Sum(chances);
    PickedBracket(chances, rnd);
    ZeroWeightNeverPicked(chances, rnd);
    assert Pick(prefabs, chances, rnd) == Success(prefabs[i]);
    assert 0 <= i < |chances| && chances[i] > 0
      && Sum(chances[..i]) <= rnd < Sum(chances[..i + 1])
      && Pick(prefabs, chances, rnd) == Success(prefabs[i]);
  }

  /** With every weight zero the loop never breaks and the index is one past
      the last weight. */
  lemma {:induction false} AllZeroRunsOff(chances: seq<int>, rnd: int)
    requires forall i :: 0 <= i < |chances| ==> chances[i] == 0
    requires rnd >= 0
    ensures WeightedIndex(chances, rnd) == |chances|
  {
    if |chances| > 0 {
      AllZeroRunsOff(chances[1..], rnd);
    }
  }

  /** So with every weight zero (the draw is then zero) `GetRandom` throws
      unless there are more prefabs than weights. */
  lemma AllZeroNeedsAnExtraPrefab(prefabs: seq<GameObject>, chances: seq<int>, rnd: int)
    requires forall i :: 0 <= i < |chances| ==> chances[i] == 0
    requires rnd >= 0
    ensures Pick(prefabs, chances, rnd).Failure? <==> |prefabs| <= |chances|
  {
    AllZeroRunsOff(chances, rnd);
    AllZeroSum(chances);
  }

  lemma AllZeroSum(chances: seq<int>)
    requires forall i :: 0 <= i < |chances| ==> chances[i] == 0
    ensures Sum(chances) == 0
  {
    if |chances| > 0 {
      AllZeroSum(chances[1..]);
    }
  }

  /** Ascending order. */
  predicate Sorted(s: seq<int>)
  {
    forall i, j :: 0 <= i < j < |s| ==> s[i] <= s[j]
  }

  /** `x` placed before the first element of `s` that is not smaller. */
  function Insert(x: int, s: seq<int>): (r: seq<int>)
    ensures multiset(r) == multiset(s) + multiset{x}
  {
    if |s| == 0 then [x]
    else if x <= s[0] then [x] + s
    else
      assert s == [s[0]] + s[1..];
      [s[0]] + Insert(x, s[1..])
  }

  /** Inserting into a sorted list keeps it sorted. */
  lemma {:induction false} InsertKeepsSorted(x: int, s: seq<int>)
    requires Sorted(s)
    ensures Sorted(Insert(x, s))
  {
    if |s| > 0 && x > s[0] {
      InsertKeepsSorted(x, s[1..]);
      var rest := Insert(x, s[1..]);
      forall k | 0 <= k < |rest|
        ensures s[0] <= rest[k]
      {
        assert rest[k] in multiset(rest);
        if rest[k] != x {
          assert rest[k] in multiset(s[1..]);
          assert rest[k] in s[1..];
        }
      }
    }
  }

  /** `List<int>.Sort()`: the weights in ascending order. */
  function SortedWeights(s: seq<int>): (r: seq<int>)
    ensures Sorted(r)
    ensures multiset(r) == multiset(s)
  {
    if |s| == 0 then []
    else
      assert s == [s[0]] + s[1..];
      InsertKeepsSorted(s[0], SortedWeights(s[1..]));
      Insert(s[0], SortedWeights(s[1..]))
  }

  /** A sorted list is its own sort. */
  lemma {:induction false} SortingSortedKeepsIt(s: seq<int>)
    requires Sorted(s)
    ensures SortedWeights(s) == s
  {
    if |s| > 0 {
      var rest := s[1..];
      assert Sorted(rest);
      SortingSortedKeepsIt(rest);
      assert SortedWeights(s) == Insert(s[0], rest);
      assert |rest| > 0 ==> s[0] <= rest[0];
      assert s == [s[0]] + rest;
    }
  }

  /** Sorting keeps the total, so the range of the draw is unchanged. */
  lemma SortKeepsTotal(s: seq<int>)
    ensures Sum(SortedWeights(s)) == Sum(s)
  {
    SumOfPermutation(SortedWeights(s), s);
  }

  lemma {:induction false} SumOfPermutation(a: seq<int>, b: seq<int>)
    requires multiset(a) == multiset(b)
    ensures Sum(a) == Sum(b)
    decreases |a|
  {
    if |a| > 0 {
      assert a[0] in multiset(b);
      var k := Lists.IndexOf(b, a[0]);
      MatchingPosition(a, b, k);
      SumOfPermutation(a[1..], b[..k] + b[k + 1..]);
      SumRemove(b, k);
    } else {
      assert |multiset(b)| == 0;
    }
  }

  /** Removing the first element of `a` and the matching element of its
      permutation `b` leaves again a pair of permutations. */
  lemma MatchingPosition(a: seq<int>, b: seq<int>, k: nat)
    requires |a| > 0 && multiset(a) == multiset(b)
    requires k < |b| && b[k] == a[0]
    ensures multiset(a[1..]) == multiset(b[..k] + b[k + 1..])
  {
    MultisetWithout(a, 0);
    assert a[..0] + a[1..] == a[1..];
    MultisetWithout(b, k);
  }

  lemma MultisetWithout(b: seq<int>, k: nat)
    requires k < |b|
    ensures multiset(b[..k] + b[k + 1..]) == multiset(b) - multiset{b[k]}
  {
    assert b == b[..k] + [b[k]] + b[k + 1..];
    assert multiset(b) == multiset(b[..k]) + multiset{b[k]} + multiset(b[k + 1..]);
  }

  lemma {:induction false} SumRemove(b: seq<int>, k: nat)
    requires k < |b|
    ensures Sum(b) == b[k] + Sum(b[..k] + b[k + 1..])
  {
    var c := b[..k] + b[k + 1..];
    if k > 0 {
      var rest := b[1..];
      SumRemove(rest, k - 1);
      assert c[0] == b[0];
      assert c[1..] == rest[..k - 1] + rest[k..];
      assert Sum(c) == c[0] + Sum(c[1..]);
    } else {
      assert c == b[1..];
    }
  }

  /** The prefab collection asset: the prefabs and, position by position,
      their weights. */
  class PrefabCollection {
    var prefabs: seq<GameObject>
    var chances: seq<int>

    constructor (prefabs: seq<GameObject>, chances: seq<int>)
      ensures this.prefabs == prefabs && this.chances == chances
    {
      this.prefabs := prefabs;
      this.chances := chances;
    }

    /** `GetRandom()` for the drawn value `rnd`: the loop keeps `rnd` equal
        to the drawn value less the weights passed, and stops at the first
        weight the remainder falls below. */
    method GetRandom(rnd: int) returns (r: Result<GameObject, PickError>)
      requires Sum(chances) >= 0 ==> Drawn(rnd, Sum(chances))
      ensures r == Pick(prefabs, chances, rnd)
    {
      var total := Sum(chances);
      if total < 0 {
        return Failure(NegativeTotal);
      }
      var left := rnd;
      var i := 0;
      while i < |chances|
        invariant 0 <= i <= |chances|
        invariant left == rnd - Sum(chances[..i]) && left >= 0
        invariant WeightedIndex(chances, rnd) == i + WeightedIndex(chances[i..], left)
      {
        if left < chances[i] {
          break;
        }
        SumSplit(chances, i);
        assert chances[i..][1..] == chances[i + 1..];
        left := left - chances[i];
        i := i + 1;
      }
      assert i < |chances| ==> WeightedIndex(chances[i..], left) == 0;
      if i < |prefabs| {
        r := Success(prefabs[i]);
      } else {
        r := Failure(IndexOutOfRange);
      }
    }

    /** `OnValidate()`: the weights are sorted in place; the prefabs keep
        their order, so a weight can end up beside another prefab. */
    method OnValidate()
      modifies this
      ensures chances == SortedWeights(old(chances))
      ensures prefabs == old(prefabs)
    {
      chances := SortedWeights(chances);
    }
  }

  /** Sorting the weights alone changes which prefab a weight belongs to:
      with weights 5 and 1, the first prefab's weight becomes 1. */
  lemma SortDetachesWeightsFromPrefabs()
    ensures SortedWeights([5, 1]) == [1, 5]
  {
    assert SortedWeights([1]) == [1] by {
      assert [1][1..] == [];
      assert SortedWeights([]) == [];
      assert Insert(1, []) == [1];
    }
    assert [5, 1][1..] == [1];
    assert SortedWeights([5, 1]) == Insert(5, [1]);
    assert Insert(5, []) == [5];
    assert [1][1..] == [];
    assert Insert(5, [1]) == [1] + [5];
  }
}
