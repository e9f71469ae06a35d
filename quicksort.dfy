/**
 * The hand-written `Quicksort` of java_battle/ideone_CSzOBE.java (Hoare partition around the
 * middle element, recursion on both sides) and the `compareSort` benchmark that sorts the
 * storage array of a full `DynamicIntArray` with it.
 */
module Quicksorting {
  import opened Sequences
  import opened Randomness
  import opened DynamicArray
  import opened SortedInsertion

  /** The cells `lo..hi` (both inclusive) of `a` are in ascending order. */
  ghost predicate SortedRange(a: seq<int>, lo: int, hi: int) {
    forall x, y :: 0 <= lo <= x < y <= hi < |a| ==> a[x] <= a[y]
  }

  /**
   * Two sequences with the same multiset that agree outside `lo..hi - 1` have the same
   * multiset inside it.
   */
  lemma RangePermutation(a: seq<int>, b: seq<int>, lo: int, hi: int)
    requires 0 <= lo <= hi <= |a| == |b|
    requires multiset(a) == multiset(b)
    requires forall k :: 0 <= k < |a| && !(lo <= k < hi) ==> a[k] == b[k]
    ensures multiset(a[lo..hi]) == multiset(b[lo..hi])
  {
    assert a == a[..lo] + a[lo..hi] + a[hi..];
    assert b == b[..lo] + b[lo..hi] + b[hi..];
    assert a[..lo] == b[..lo];
    assert a[hi..] == b[hi..];
    assert multiset(a) == multiset(a[..lo]) + multiset(a[lo..hi]) + multiset(a[hi..]);
    assert multiset(b) == multiset(b[..lo]) + multiset(b[lo..hi]) + multiset(b[hi..]);
    var outside := multiset(a[..lo]) + multiset(a[hi..]);
    assert multiset(a[lo..hi]) == multiset(a) - outside;
    assert multiset(b[lo..hi]) == multiset(b) - outside;
  }

  /**
   * Rearranging the cells `lo..hi` (inclusive) among themselves keeps an upper bound on
   * them: `b` is `a` with only those cells permuted.
   */
  lemma AtMostAfterRearranging(a: seq<int>, b: seq<int>, lo: int, hi: int, p: int)
    requires 0 <= lo <= hi < |a| == |b|
    requires multiset(a) == multiset(b)
    requires forall k :: 0 <= k < |a| && !(lo <= k <= hi) ==> a[k] == b[k]
    requires forall k :: lo <= k <= hi ==> a[k] <= p
    ensures forall k :: lo <= k <= hi ==> b[k] <= p
  {
    RangePermutation(a, b, lo, hi + 1);
    forall k | lo <= k <= hi ensures b[k] <= p {
      assert b[k] == b[lo..hi + 1][k - lo];
      assert b[k] in multiset(a[lo..hi + 1]);
      var w :| 0 <= w < hi + 1 - lo && a[lo..hi + 1][w] == b[k];
      assert a[lo + w] == b[k];
    }
  }

  /** The same for a lower bound. */
  lemma AtLeastAfterRearranging(a: seq<int>, b: seq<int>, lo: int, hi: int, p: int)
    requires 0 <= lo <= hi < |a| == |b|
    requires multiset(a) == multiset(b)
    requires forall k :: 0 <= k < |a| && !(lo <= k <= hi) ==> a[k] == b[k]
    requires forall k :: lo <= k <= hi ==> a[k] >= p
    ensures forall k :: lo <= k <= hi ==> b[k] >= p
  {
    RangePermutation(a, b, lo, hi + 1);
    forall k | lo <= k <= hi ensures b[k] >= p {
      assert b[k] == b[lo..hi + 1][k - lo];
      assert b[k] in multiset(a[lo..hi + 1]);
      var w :| 0 <= w < hi + 1 - lo && a[lo..hi + 1][w] == b[k];
      assert a[lo + w] == b[k];
    }
  }

  /**
   * After partitioning `low..high` into a part `<= pivot` up to `j`, a part equal to the
   * pivot strictly between `j` and `i`, and a part `>= pivot` from `i`, sorting the outer
   * parts sorts the whole range.
   */
  lemma SortedAfterPartition(a: seq<int>, low: int, j: int, i: int, high: int, pivot: int)
    requires 0 <= low && low - 1 <= j < i <= high + 1 && high < |a|
    requires SortedRange(a, low, j) && SortedRange(a, i, high)
    requires forall k :: low <= k <= j ==> a[k] <= pivot
    requires forall k :: j < k < i ==> a[k] == pivot
    requires forall k :: i <= k <= high ==> a[k] >= pivot
    ensures SortedRange(a, low, high)
  {
    forall x, y | low <= x < y <= high ensures a[x] <= a[y] {
      if y <= j {
      } else if x >= i {
      } else {
        assert a[x] <= pivot <= a[y];
      }
    }
  }

  /** `b` is `a` with only the cells `lo..hi` (inclusive) rearranged, and those sorted. */
  ghost predicate SortedRearrangement(a: seq<int>, b: seq<int>, lo: int, hi: int) {
    && |a| == |b|
    && multiset(a) == multiset(b)
    && SortedRange(b, lo, hi)
    && forall k :: 0 <= k < |a| && !(lo <= k <= hi) ==> a[k] == b[k]
  }

  /**
   * The two recursive calls of `quicksort(low, high)`: from the partitioned `a0`, sorting
   * `low..j` gives `a1`, then sorting `i..high` gives `a2`, which is sorted on `low..high`
   * and a rearrangement of `a0` inside that range only.
   */
  lemma SortedAfterRecursion(a0: seq<int>, a1: seq<int>, a2: seq<int>,
                             low: int, j: int, i: int, high: int, pivot: int)
    requires 0 <= low && low - 1 <= j < i <= high + 1 && high < |a0|
    requires forall k :: low <= k <= j ==> a0[k] <= pivot
    requires forall k :: j < k < i ==> a0[k] == pivot
    requires forall k :: i <= k <= high ==> a0[k] >= pivot
    requires SortedRearrangement(a0, a1, low, j)
    requires SortedRearrangement(a1, a2, i, high)
    ensures SortedRearrangement(a0, a2, low, high)
  {
    if low <= j {
      AtMostAfterRearranging(a0, a1, low, j, pivot);
    }
    if i <= high {
      AtLeastAfterRearranging(a1, a2, i, high, pivot);
    }
    SortedAfterPartition(a2, low, j, i, high, pivot);
  }

  class Quicksort {
    var numbers: array?<int>
    var number: int

    constructor ()
      ensures numbers == null && number == 0
    {
      numbers := null;
      number := 0;
    }

    /**
     * `sort(values)`: a null or empty array is left alone; otherwise the array is sorted
     * in place into an ascending permutation of itself.
     */
    method Sort(values: array?<int>)
      modifies this, values
      ensures values == null || values.Length == 0 ==> numbers == old(numbers) && number == old(number)
      ensures values != null && values.Length == 0 ==> values[..] == old(values[..])
      ensures values != null && values.Length > 0 ==> numbers == values && number == values.Length
      ensures values != null ==> Sorted(values[..]) && multiset(values[..]) == multiset(old(values[..]))
    {
      if values == null || values.Length == 0 {
        return;
      }
      numbers := values;
      number := values.Length;
      QuickSortRange(0, number - 1);
      assert values[..] == values[0..number - 1 + 1];
    }

    /**
     * `quicksort(low, high)`: partitions, then sorts the left part when it has two or more
     * cells (`low < j`) and the right part likewise (`i < high`). Only cells `low..high` move.
     */
    method QuickSortRange(low: int, high: int)
      requires numbers != null && 0 <= low <= high < numbers.Length
      modifies numbers
      ensures SortedRange(numbers[..], low, high)
      ensures multiset(numbers[..]) == old(multiset(numbers[..]))
      ensures forall k :: 0 <= k < numbers.Length && !(low <= k <= high) ==> numbers[k] == old(numbers[k])
      decreases high - low
    {
      var i, j, pivot := Partition(low, high);
      ghost var a0 := numbers[..];
      if low < j {
        QuickSortRange(low, j);
      }
      ghost var a1 := numbers[..];
      if i < high {
        QuickSortRange(i, high);
      }
      ghost var a2 := numbers[..];
      SortedAfterRecursion(a0, a1, a2, low, j, i, high, pivot);
    }

    /**
     * The partition loop of `quicksort(low, high)` around `pivot`, the value of the middle
     * cell `low + (high - low) / 2`. The ghost stoppers `si` and `sj` are cells that end the
     * two scans; the first round always exchanges, so both parts end up smaller than the range.
     */
    method Partition(low: int, high: int) returns (i: int, j: int, pivot: int)
      requires numbers != null && 0 <= low <= high < numbers.Length
      modifies numbers
      ensures pivot == old(numbers[low + (high - low) / 2])
      ensures low < i && j < high && j < i && low - 1 <= j && i <= high + 1
      ensures forall k :: low <= k <= j ==> numbers[k] <= pivot
      ensures forall k :: j < k < i ==> numbers[k] == pivot
      ensures forall k :: i <= k <= high ==> numbers[k] >= pivot
      ensures multiset(numbers[..]) == old(multiset(numbers[..]))
      ensures forall k :: 0 <= k < numbers.Length && !(low <= k <= high) ==> numbers[k] == old(numbers[k])
    {
      var middle := low + (high - low) / 2;
      pivot := numbers[middle];
      i, j := low, high;
      ghost var si, sj := middle, middle;
      while i <= j
        invariant low <= i <= high + 1 && low - 1 <= j <= high
        invariant i <= j ==> i <= si <= high && numbers[si] >= pivot && low <= sj <= j && numbers[sj] <= pivot
        invariant (i == low && j == high && si == sj) || (low < i && j < high)
        invariant forall k :: low <= k < i ==> numbers[k] <= pivot
        invariant forall k :: j < k <= high ==> numbers[k] >= pivot
        invariant multiset(numbers[..]) == old(multiset(numbers[..]))
        invariant forall k :: 0 <= k < numbers.Length && !(low <= k <= high) ==> numbers[k] == old(numbers[k])
        decreases j - i
      {
        i, j, si, sj := PartitionRound(low, high, i, j, si, sj, pivot);
      }
    }

    /**
     * One round of the partition loop: both scans, then the exchange when they have not
     * crossed. The cells left of `i` stay `<= pivot`, those right of `j` stay `>= pivot`,
     * and the scans move closer.
     */
    method PartitionRound(low: int, high: int, i0: int, j0: int, ghost si0: int, ghost sj0: int, pivot: int)
      returns (i: int, j: int, ghost si: int, ghost sj: int)
      requires numbers != null && 0 <= low <= i0 <= j0 <= high < numbers.Length
      requires i0 <= si0 <= high && numbers[si0] >= pivot && low <= sj0 <= j0 && numbers[sj0] <= pivot
      requires (i0 == low && j0 == high && si0 == sj0) || (low < i0 && j0 < high)
      requires forall k :: low <= k < i0 ==> numbers[k] <= pivot
      requires forall k :: j0 < k <= high ==> numbers[k] >= pivot
      modifies numbers
      ensures low < i <= high + 1 && low - 1 <= j < high && j - i < j0 - i0
      ensures i <= j ==> i <= si <= high && numbers[si] >= pivot && low <= sj <= j && numbers[sj] <= pivot
      ensures forall k :: low <= k < i ==> numbers[k] <= pivot
      ensures forall k :: j < k <= high ==> numbers[k] >= pivot
      ensures multiset(numbers[..]) == old(multiset(numbers[..]))
      ensures forall k :: 0 <= k < numbers.Length && !(low <= k <= high) ==> numbers[k] == old(numbers[k])
    {
      i := ScanUp(low, i0, si0, pivot);
      j := ScanDown(high, j0, sj0, pivot);
      si, sj := si0, sj0;
      if i <= j {
        Exchange(i, j);
        i := i + 1;
        j := j - 1;
        si, sj := j + 1, i - 1;
      }
    }

    /** `while (numbers[i] < pivot) i++;`, which the cell `si` stops. */
    method ScanUp(low: int, start: int, ghost si: int, pivot: int) returns (i: int)
      requires numbers != null && 0 <= low <= start <= si < numbers.Length && numbers[si] >= pivot
      requires forall k :: low <= k < start ==> numbers[k] <= pivot
      ensures start <= i <= si && numbers[i] >= pivot
      ensures forall k :: low <= k < i ==> numbers[k] <= pivot
    {
      i := start;
      while numbers[i] < pivot
        invariant start <= i <= si
        decreases si - i
        invariant forall k :: low <= k < i ==> numbers[k] <= pivot
      {
        i := i + 1;
      }
    }

    /** `while (numbers[j] > pivot) j--;`, which the cell `sj` stops. */
    method ScanDown(high: int, start: int, ghost sj: int, pivot: int) returns (j: int)
      requires numbers != null && 0 <= sj <= start <= high < numbers.Length && numbers[sj] <= pivot
      requires forall k :: start < k <= high ==> numbers[k] >= pivot
      ensures sj <= j <= start && numbers[j] <= pivot
      ensures forall k :: j < k <= high ==> numbers[k] >= pivot
    {
      j := start;
      while numbers[j] > pivot
        invariant sj <= j <= start
        decreases j - sj
        invariant forall k :: j < k <= high ==> numbers[k] >= pivot
      {
        j := j - 1;
      }
    }

    /** `exchange(i, j)`: swaps two cells. */
    method Exchange(i: int, j: int)
      requires numbers != null && 0 <= i < numbers.Length && 0 <= j < numbers.Length
      modifies numbers
      ensures numbers[i] == old(numbers[j]) && numbers[j] == old(numbers[i])
      ensures forall k :: 0 <= k < numbers.Length && k != i && k != j ==> numbers[k] == old(numbers[k])
      ensures multiset(numbers[..]) == old(multiset(numbers[..]))
    {
      var temp := numbers[i];
      numbers[i] := numbers[j];
      numbers[j] := temp;
    }
  }

  /**
   * `compareSort(numbers_to_sort)` without the timing: a `DynamicIntArray` created with
   * capacity `numbers_to_sort` receives that many `random.nextInt(INT_MAX)` values, so its
   * storage never grows and is exactly its contents; sorting `getStorage()` in place then
   * sorts the contents. The library sorts (`Collections.sort`, `Arrays.sort`) give the
   * ascending permutation, and the final `equal` is always true. `sorted` is the storage
   * array after the quicksort.
   */
  method CompareSort(numbersToSort: nat) returns (values: seq<int>, capacity: nat, sorted: seq<int>, equal: bool)
    ensures |values| == numbersToSort && forall k :: 0 <= k < numbersToSort ==> 0 <= values[k] < INT_MAX
    ensures capacity == numbersToSort
    ensures sorted == ReferenceSort(values)
    ensures equal
  {
    var dynamicArray := new DynamicIntArray.WithCapacity(numbersToSort);
    values := [];
    while |values| < numbersToSort
      invariant |values| <= numbersToSort
      invariant forall k :: 0 <= k < |values| ==> 0 <= values[k] < INT_MAX
      invariant fresh(dynamicArray) && fresh(dynamicArray.storage) && dynamicArray.Valid()
      invariant dynamicArray.storage.Length == numbersToSort
      invariant dynamicArray.Elements() == values
    {
      var randomValue := RandomInt(0, INT_MAX - 1);
      values := values + [randomValue];
      dynamicArray.Add(randomValue);
    }
    capacity := dynamicArray.storage.Length;
    assert dynamicArray.Elements() == dynamicArray.storage[..];

    var qsorter := new Quicksort();
    var storage := dynamicArray.GetStorage();
    qsorter.Sort(storage);
    assert dynamicArray.Elements() == storage[..];
    ReferenceSortUnique(values, storage[..]);

    var linkedList := ReferenceSort(values);
    var naiveArrayList := ReferenceSort(values);
    var sortedArray := ReferenceSort(values);
    var preSortedArrayList := sortedArray;

    equal := preSortedArrayList == linkedList;
    equal := equal && naiveArrayList == preSortedArrayList;
    var same := dynamicArray.Equals(preSortedArrayList);
    equal := equal && same;
    sorted := storage[..];
  }
}
