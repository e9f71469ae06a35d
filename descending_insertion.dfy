/**
 * The descending linear insertion of the Java benchmarks (java_battle/ideone_JOJ05.java,
 * ideone_1wnF1.java and the unused variant in ideone_KM5Ev.java). Each value is inserted
 * before the first element it is `>=` (in KM5Ev: `>`); when no element qualifies the value
 * is NOT inserted at all. The containers therefore start as `[-1]`: the random values are
 * never negative, so the sentinel `-1` always stops the scan and stays last.
 */
module DescendingInsertion {
  import opened Sequences
  import opened Containers
  import opened Randomness
  import opened SortedInsertion
  import opened DynamicArray

  /** The first position whose element `n` is `>=` of, or `|s|` when there is none. */
  function FirstAtMost(s: seq<int>, n: int): (p: nat)
    ensures p <= |s|
    ensures forall k :: 0 <= k < p ==> n < s[k]
    ensures p < |s| ==> n >= s[p]
  {
    if s == [] || n >= s[0] then 0 else 1 + FirstAtMost(s[1..], n)
  }

  lemma FirstAtMostUnique(s: seq<int>, n: int, p: nat)
    requires p <= |s|
    requires forall k :: 0 <= k < p ==> n < s[k]
    requires p < |s| ==> n >= s[p]
    ensures p == FirstAtMost(s, n)
  {
  }

  /** One pass of the outer loop: insert `n` at the stopping position, or drop it. */
  function InsertDescending(s: seq<int>, n: int): seq<int> {
    var p := FirstAtMost(s, n);
    if p < |s| then Inserted(s, p, n) else s
  }

  /** The contents after `linearInsertion(intArray, list)` on a list holding `c`. */
  function DescendingInsertAll(c: seq<int>, numbers: seq<int>): seq<int>
    decreases |numbers|
  {
    if numbers == [] then c
    else InsertDescending(DescendingInsertAll(c, numbers[..|numbers| - 1]), numbers[|numbers| - 1])
  }

  /** Inserting one more value of `numbers` is one more pass. */
  lemma DescendingInsertAllStep(c: seq<int>, numbers: seq<int>, k: nat)
    requires k < |numbers|
    ensures DescendingInsertAll(c, numbers[..k + 1]) == InsertDescending(DescendingInsertAll(c, numbers[..k]), numbers[k])
  {
    assert numbers[..k + 1][..k] == numbers[..k];
  }

  /**
   * One pass keeps a non-increasing list non-increasing; it adds `n` when some element is
   * `<= n` and leaves the list as it was otherwise.
   */
  lemma InsertDescendingProperties(s: seq<int>, n: int)
    requires NonIncreasing(s)
    ensures NonIncreasing(InsertDescending(s, n))
    ensures (exists k :: 0 <= k < |s| && s[k] <= n) ==>
      multiset(InsertDescending(s, n)) == multiset(s) + multiset{n} && |InsertDescending(s, n)| == |s| + 1
    ensures (forall k :: 0 <= k < |s| ==> n < s[k]) ==> InsertDescending(s, n) == s
  {
    var p := FirstAtMost(s, n);
    if p < |s| {
      var r := Inserted(s, p, n);
      forall i, j | 0 <= i < j < |r| ensures r[i] >= r[j] {
        if j < p {
          assert r[i] == s[i] && r[j] == s[j];
        } else if j == p {
          assert r[i] == s[i];
        } else if i < p {
          assert r[i] == s[i] >= s[p] >= s[j - 1] == r[j];
        } else if i == p {
          assert s[p] >= s[j - 1];
        } else {
          assert r[i] == s[i - 1] && r[j] == s[j - 1];
        }
      }
    } else {
      assert forall k :: 0 <= k < |s| ==> n < s[k];
    }
  }

  /** Without the sentinel nothing is ever inserted: an empty list stays empty. */
  lemma {:induction false} EmptyListStaysEmpty(numbers: seq<int>)
    ensures DescendingInsertAll([], numbers) == []
    decreases |numbers|
  {
    if numbers != [] {
      EmptyListStaysEmpty(numbers[..|numbers| - 1]);
    }
  }

  /** One pass on a non-increasing list that ends in the sentinel, for a value `>= -1`. */
  lemma SentinelStep(s: seq<int>, n: int)
    requires NonIncreasing(s) && |s| > 0 && s[|s| - 1] == -1 && n >= -1
    ensures NonIncreasing(InsertDescending(s, n))
    ensures |InsertDescending(s, n)| == |s| + 1
    ensures InsertDescending(s, n)[|s|] == -1
    ensures multiset(InsertDescending(s, n)) == multiset(s) + multiset{n}
  {
    InsertDescendingProperties(s, n);
    assert FirstAtMost(s, n) < |s|;
  }

  /**
   * What the benchmark's lists look like after inserting `numbers` into `[-1]`: non-increasing,
   * one element per value plus the sentinel, the sentinel last, and exactly those values.
   */
  predicate SentinelShape(r: seq<int>, numbers: seq<int>) {
    && NonIncreasing(r)
    && |r| == |numbers| + 1
    && r[|numbers|] == -1
    && multiset(r) == multiset(numbers) + multiset{-1}
  }

  /**
   * The benchmark's setting: the list starts as `[-1]` and no value is below `-1`. Every
   * value is inserted, the list is non-increasing, the sentinel stays last, and the list
   * holds the sentinel plus exactly the inserted values.
   */
  lemma {:induction false} SentinelKeepsEveryValue(numbers: seq<int>)
    requires forall k :: 0 <= k < |numbers| ==> numbers[k] >= -1
    ensures SentinelShape(DescendingInsertAll([-1], numbers), numbers)
    decreases |numbers|
  {
    if numbers != [] {
      var init := numbers[..|numbers| - 1];
      var last := numbers[|numbers| - 1];
      SentinelKeepsEveryValue(init);
      LastStep(numbers);
      SentinelShapeStep(DescendingInsertAll([-1], init), init, last);
    }
  }

  /** One more value `>= -1` keeps the benchmark's shape. */
  lemma SentinelShapeStep(before: seq<int>, init: seq<int>, last: int)
    requires SentinelShape(before, init) && last >= -1
    ensures SentinelShape(InsertDescending(before, last), init + [last])
  {
    SentinelStep(before, last);
    assert multiset(init + [last]) == multiset(init) + multiset{last};
  }

  /** A list is non-increasing exactly when its reversal is ascending. */
  lemma NonIncreasingReversed(s: seq<int>)
    requires NonIncreasing(s)
    ensures Sorted(Reverse(s))
  {
    var r := Reverse(s);
    forall i, j | 0 <= i < j < |r| ensures r[i] <= r[j] {
      assert r[i] == s[|s| - 1 - i] && r[j] == s[|s| - 1 - j];
    }
  }

  /**
   * The result in the benchmark's setting is the sentinel and the values sorted descending:
   * the reversal of the library sort of them.
   */
  lemma SentinelResultIsReverseSorted(numbers: seq<int>)
    requires forall k :: 0 <= k < |numbers| ==> numbers[k] >= -1
    ensures DescendingInsertAll([-1], numbers) == Reverse(ReferenceSort(numbers + [-1]))
  {
    var r := DescendingInsertAll([-1], numbers);
    SentinelKeepsEveryValue(numbers);
    NonIncreasingReversed(r);
    ReversePermutes(r);
    ReferenceSortUnique(numbers + [-1], Reverse(r));
    ReverseIsInvolution(r);
  }

  /**
   * The inner loop of `linearInsertion(Integer[], LinkedList)`: `it.next()` yields the
   * element under the cursor and moves past it; on a match `it.previous()` steps back and
   * `it.add` inserts before that element.
   */
  method InsertWithListIterator(integer: int, list: Container<int>)
    modifies list
    ensures list.items == InsertDescending(old(list.items), integer)
  {
    var it := 0;
    while it < |list.items|
      invariant 0 <= it <= |list.items|
      invariant list.items == old(list.items)
      invariant forall k :: 0 <= k < it ==> integer < list.items[k]
    {
      var next := list.items[it];
      it := it + 1;
      if integer >= next {
        it := it - 1;
        FirstAtMostUnique(list.items, integer, it);
        var _ := list.Insert(it, integer);
        return;
      }
    }
    FirstAtMostUnique(list.items, integer, it);
  }

  /**
   * The inner loop of `linearInsertion(Integer[], ArrayList)` (and of the `List` overload in
   * ideone_1wnF1.java): the size is read once before the scan, which is sound because the
   * scan stops at the first insertion.
   */
  method InsertWithCachedSize(integer: int, list: Container<int>)
    modifies list
    ensures list.items == InsertDescending(old(list.items), integer)
  {
    var listSize := |list.items|;
    var i := 0;
    while i < listSize
      invariant 0 <= i <= listSize == |list.items|
      invariant list.items == old(list.items)
      invariant forall k :: 0 <= k < i ==> integer < list.items[k]
    {
      if integer >= list.items[i] {
        FirstAtMostUnique(list.items, integer, i);
        var _ := list.Insert(i, integer);
        return;
      }
      i := i + 1;
    }
    FirstAtMostUnique(list.items, integer, i);
  }

  /** The inner loop of `linearInsertionToDynamicArray`: `size()` is re-read every step. */
  method InsertIntoDynamicArray(value: int, dynamicArray: DynamicIntArray)
    requires dynamicArray.Valid()
    modifies dynamicArray, dynamicArray.storage
    ensures dynamicArray.Valid()
    ensures dynamicArray.Elements() == InsertDescending(old(dynamicArray.Elements()), value)
    ensures dynamicArray.storage == old(dynamicArray.storage) || fresh(dynamicArray.storage)
  {
    var idx := 0;
    while idx < dynamicArray.Size()
      invariant dynamicArray.Valid() && dynamicArray.storage == old(dynamicArray.storage)
      invariant 0 <= idx <= dynamicArray.Size()
      invariant dynamicArray.Elements() == old(dynamicArray.Elements())
      invariant forall k :: 0 <= k < idx ==> value < dynamicArray.Elements()[k]
    {
      var g := dynamicArray.Get(idx);
      if value >= g.value {
        ghost var before := dynamicArray.Elements();
        FirstAtMostUnique(before, value, idx);
        var _ := dynamicArray.InsertAt(idx, value);
        return;
      }
      idx := idx + 1;
    }
    FirstAtMostUnique(dynamicArray.Elements(), value, idx);
  }

  /** `linearInsertion(Integer[] intArray, LinkedList<Integer> list)`. */
  method LinearInsertionLinkedList(intArray: seq<int>, list: Container<int>)
    modifies list
    ensures list.items == DescendingInsertAll(old(list.items), intArray)
  {
    for k := 0 to |intArray|
      invariant list.items == DescendingInsertAll(old(list.items), intArray[..k])
    {
      DescendingInsertAllStep(old(list.items), intArray, k);
      InsertWithListIterator(intArray[k], list);
    }
    assert intArray[..|intArray|] == intArray;
  }

  /** `linearInsertion(Integer[] intArray, ArrayList<Integer> list)` / `List<Integer> list`. */
  method LinearInsertionCachedSize(intArray: seq<int>, list: Container<int>)
    modifies list
    ensures list.items == DescendingInsertAll(old(list.items), intArray)
  {
    for k := 0 to |intArray|
      invariant list.items == DescendingInsertAll(old(list.items), intArray[..k])
    {
      DescendingInsertAllStep(old(list.items), intArray, k);
      InsertWithCachedSize(intArray[k], list);
    }
    assert intArray[..|intArray|] == intArray;
  }

  /** `linearInsertionToDynamicArray(Integer[] numbers, DynamicIntArray array)`. */
  method LinearInsertionToDynamicArray(numbers: seq<int>, dynamicArray: DynamicIntArray)
    requires dynamicArray.Valid()
    modifies dynamicArray, dynamicArray.storage
    ensures dynamicArray.Valid()
    ensures dynamicArray.Elements() == DescendingInsertAll(old(dynamicArray.Elements()), numbers)
  {
    for k := 0 to |numbers|
      invariant dynamicArray.Valid()
      invariant dynamicArray.storage == old(dynamicArray.storage) || fresh(dynamicArray.storage)
      invariant dynamicArray.Elements() == DescendingInsertAll(old(dynamicArray.Elements()), numbers[..k])
    {
      DescendingInsertAllStep(old(dynamicArray.Elements()), numbers, k);
      InsertIntoDynamicArray(numbers[k], dynamicArray);
    }
    assert numbers[..|numbers|] == numbers;
  }

  /**
   * One round of `listVsVectorLinearPerformance(size)` in ideone_JOJ05.java without the
   * timing: three containers start as `[-1]`, receive the same `random.nextInt(INT_MAX)`
   * values, and the final equality check (`equal`) never fails.
   */
  method ListVsDynamicArrayPerformance(size: nat) returns (intArray: seq<int>, contents: seq<int>, equal: bool)
    ensures |intArray| == size && forall k :: 0 <= k < size ==> 0 <= intArray[k] < INT_MAX
    ensures equal
    ensures contents == DescendingInsertAll([-1], intArray)
  {
    intArray := GenerateValues(size, 0, INT_MAX - 1);
    ghost var expected := DescendingInsertAll([-1], intArray);
    var linkedList := new Container<int>.Of([-1]);
    var arrayList := new Container<int>.Of([-1]);
    var dynamicArray := new DynamicIntArray();
    dynamicArray.Add(-1);
    assert dynamicArray.Elements() == [-1];
    LinearInsertionLinkedList(intArray, linkedList);
    assert linkedList.items == expected;
    LinearInsertionCachedSize(intArray, arrayList);
    assert arrayList.items == expected;
    LinearInsertionToDynamicArray(intArray, dynamicArray);
    assert dynamicArray.Elements() == expected;
    var same := dynamicArray.Equals(arrayList.items);
    assert same;
    equal := linkedList.items == arrayList.items && same;
    contents := arrayList.items;
  }

  /**
   * One round of `listVsVectorLinearPerformance(size)` in ideone_1wnF1.java: a `LinkedList`,
   * an `ArrayList` and a `Vector` (the latter two through the `List` overload).
   */
  method ListVsVectorPerformance(size: nat) returns (intArray: seq<int>, contents: seq<int>, equal: bool)
    ensures |intArray| == size && forall k :: 0 <= k < size ==> 0 <= intArray[k] < INT_MAX
    ensures equal
    ensures contents == DescendingInsertAll([-1], intArray)
  {
    intArray := GenerateValues(size, 0, INT_MAX - 1);
    var linkedList := new Container<int>.Of([-1]);
    var arrayList := new Container<int>.Of([-1]);
    var vector := new Container<int>.Of([-1]);
    LinearInsertionLinkedList(intArray, linkedList);
    LinearInsertionCachedSize(intArray, arrayList);
    LinearInsertionCachedSize(intArray, vector);
    equal := linkedList.items == arrayList.items && arrayList.items == vector.items;
    contents := arrayList.items;
  }

  /** The first position whose element is strictly below `n`, or `|s|`. */
  function FirstBelow(s: seq<int>, n: int): (p: nat)
    ensures p <= |s|
    ensures forall k :: 0 <= k < p ==> n <= s[k]
    ensures p < |s| ==> n > s[p]
  {
    if s == [] || n > s[0] then 0 else 1 + FirstBelow(s[1..], n)
  }

  lemma FirstBelowUnique(s: seq<int>, n: int, p: nat)
    requires p <= |s|
    requires forall k :: 0 <= k < p ==> n <= s[k]
    requires p < |s| ==> n > s[p]
    ensures p == FirstBelow(s, n)
  {
  }

  /** One pass of KM5Ev's `linearInsertion`: insert before the first smaller element, or drop. */
  function InsertStrict(s: seq<int>, n: int): seq<int> {
    var p := FirstBelow(s, n);
    if p < |s| then Inserted(s, p, n) else s
  }

  function StrictInsertAll(c: seq<int>, numbers: seq<int>): seq<int>
    decreases |numbers|
  {
    if numbers == [] then c
    else InsertStrict(StrictInsertAll(c, numbers[..|numbers| - 1]), numbers[|numbers| - 1])
  }

  /**
   * On a non-increasing list that holds a value smaller than `n`, the strict and the
   * non-strict comparison insert `n` into the same list: they differ only in whether `n`
   * goes before or after the elements equal to it.
   */
  lemma StrictAgreesWhenSomethingIsSmaller(s: seq<int>, n: int)
    requires NonIncreasing(s)
    requires exists k :: 0 <= k < |s| && s[k] < n
    ensures InsertStrict(s, n) == InsertDescending(s, n)
  {
    var p := FirstAtMost(s, n);
    var q := FirstBelow(s, n);
    var w :| 0 <= w < |s| && s[w] < n;
    assert q <= w;
    assert p <= q;
    forall k | p <= k < q ensures s[k] == n {
    }
    InsertedWithinRun(s, p, q, n);
  }

  /** Inserting `n` anywhere in a run of elements equal to `n` gives the same sequence. */
  lemma InsertedWithinRun(s: seq<int>, p: nat, q: nat, n: int)
    requires p <= q <= |s|
    requires forall k :: p <= k < q ==> s[k] == n
    ensures Inserted(s, q, n) == Inserted(s, p, n)
  {
    var a := Inserted(s, q, n);
    var b := Inserted(s, p, n);
    forall k | 0 <= k < |a| ensures a[k] == b[k] {
      InsertedAt(s, q, n, k);
      InsertedAt(s, p, n, k);
      if p < k <= q {
        assert b[k] == s[k - 1] == n;
      }
    }
  }

  /**
   * On a non-empty list whose elements all equal `n`, the strict comparison drops `n`
   * (no element is below it), while the non-strict one inserts it in front.
   */
  lemma StrictDropsTies(s: seq<int>, n: int)
    requires s != [] && forall k :: 0 <= k < |s| ==> s[k] == n
    ensures InsertStrict(s, n) == s
    ensures InsertDescending(s, n) == [n] + s
  {
    FirstBelowUnique(s, n, |s|);
    FirstAtMostUnique(s, n, 0);
  }

  /** Without a sentinel, KM5Ev's variant also never inserts into an empty list. */
  lemma {:induction false} StrictEmptyListStaysEmpty(numbers: seq<int>)
    ensures StrictInsertAll([], numbers) == []
    decreases |numbers|
  {
    if numbers != [] {
      StrictEmptyListStaysEmpty(numbers[..|numbers| - 1]);
    }
  }

  /** The inner loop of KM5Ev's `linearInsertion`, re-reading `list.size()` every step. */
  method InsertStrictly(integer: int, list: Container<int>)
    modifies list
    ensures list.items == InsertStrict(old(list.items), integer)
  {
    var i := 0;
    while i < |list.items|
      invariant 0 <= i <= |list.items|
      invariant list.items == old(list.items)
      invariant forall k :: 0 <= k < i ==> integer <= list.items[k]
    {
      if integer > list.items[i] {
        FirstBelowUnique(list.items, integer, i);
        var _ := list.Insert(i, integer);
        return;
      }
      i := i + 1;
    }
    FirstBelowUnique(list.items, integer, i);
  }

  /** `linearInsertion(Integer[] intArray, ArrayList<Integer> list)` of ideone_KM5Ev.java (never called there). */
  method StrictLinearInsertion(intArray: seq<int>, list: Container<int>)
    modifies list
    ensures list.items == StrictInsertAll(old(list.items), intArray)
  {
    for k := 0 to |intArray|
      invariant list.items == StrictInsertAll(old(list.items), intArray[..k])
    {
      InsertStrictly(intArray[k], list);
      assert intArray[..k + 1][..k] == intArray[..k];
    }
    assert intArray[..|intArray|] == intArray;
  }
}
