/**
 * Sorted linear insertion of the C++ benchmarks (`linearInsertion`, identical in
 * number_crunching-why___/code_ideone/src/ideone_62Emz.cpp, ideone_XprUU.cpp and
 * number_crunching-why___/code_examples/src/linear_performance.h):
 * each value is inserted before the first element that is `>=` it, or at the end.
 * The template is instantiated for `std::list`, `std::vector` and `std::deque`; all three
 * are a `Container<int>` here.
 */
module SortedInsertion {
  import opened Sequences
  import opened Containers
  import opened Randomness

  /** The position the scan stops at: the first element `>= n`, or the end. */
  function FirstAtLeast(s: seq<int>, n: int): (p: nat)
    ensures p <= |s|
    ensures forall k :: 0 <= k < p ==> s[k] < n
    ensures p < |s| ==> s[p] >= n
  {
    if s == [] || s[0] >= n then 0 else 1 + FirstAtLeast(s[1..], n)
  }

  /** The scan's stopping rule has only one solution. */
  lemma FirstAtLeastUnique(s: seq<int>, n: int, p: nat)
    requires p <= |s|
    requires forall k :: 0 <= k < p ==> s[k] < n
    requires p < |s| ==> s[p] >= n
    ensures p == FirstAtLeast(s, n)
  {
  }

  /** One step of `linearInsertion`. */
  function InsertSorted(s: seq<int>, n: int): seq<int> {
    Inserted(s, FirstAtLeast(s, n), n)
  }

  /** The contents after `linearInsertion(numbers, container)` on a container holding `c`. */
  function SortedInsertAll(c: seq<int>, numbers: seq<int>): seq<int>
    decreases |numbers|
  {
    if numbers == [] then c
    else InsertSorted(SortedInsertAll(c, numbers[..|numbers| - 1]), numbers[|numbers| - 1])
  }

  /** Extending the input by one value is one more insertion step. */
  lemma SortedInsertAllStep(c: seq<int>, numbers: seq<int>, k: nat)
    requires k < |numbers|
    ensures SortedInsertAll(c, numbers[..k + 1]) == InsertSorted(SortedInsertAll(c, numbers[..k]), numbers[k])
  {
    assert numbers[..k + 1][..k] == numbers[..k];
  }

  /**
   * Inserting `n` at a position `q` with nothing greater than `n` before it and nothing
   * smaller after it keeps an ascending sequence ascending.
   */
  lemma InsertedKeepsSorted(s: seq<int>, q: nat, n: int)
    requires Sorted(s) && q <= |s|
    requires forall k :: 0 <= k < q ==> s[k] <= n
    requires q < |s| ==> s[q] >= n
    ensures Sorted(Inserted(s, q, n))
  {
    var r := Inserted(s, q, n);
    forall i, j | 0 <= i < j < |r| ensures r[i] <= r[j] {
      if j < q {
        assert r[i] == s[i] && r[j] == s[j];
      } else if j == q {
        assert r[i] == s[i];
      } else if i < q {
        assert r[i] == s[i] <= s[q] <= s[j - 1] == r[j];
      } else if i == q {
        assert s[q] <= s[j - 1];
      } else {
        assert r[i] == s[i - 1] && r[j] == s[j - 1];
      }
    }
  }

  /** One insertion step keeps the container ascending and adds exactly `n`. */
  lemma InsertSortedProperties(s: seq<int>, n: int)
    requires Sorted(s)
    ensures Sorted(InsertSorted(s, n))
    ensures multiset(InsertSorted(s, n)) == multiset(s) + multiset{n}
    ensures |InsertSorted(s, n)| == |s| + 1
  {
    InsertedKeepsSorted(s, FirstAtLeast(s, n), n);
  }

  /**
   * From an ascending container, `linearInsertion` leaves it ascending, holding its old
   * values plus every inserted value (duplicates kept), one element more per value.
   */
  lemma {:induction false} SortedInsertAllProperties(c: seq<int>, numbers: seq<int>)
    requires Sorted(c)
    ensures Sorted(SortedInsertAll(c, numbers))
    ensures multiset(SortedInsertAll(c, numbers)) == multiset(c) + multiset(numbers)
    ensures |SortedInsertAll(c, numbers)| == |c| + |numbers|
    decreases |numbers|
  {
    if numbers != [] {
      var init := numbers[..|numbers| - 1];
      var last := numbers[|numbers| - 1];
      SortedInsertAllProperties(c, init);
      InsertSortedProperties(SortedInsertAll(c, init), last);
      LastStep(numbers);
    }
  }

  /** From an empty container the result is the input sorted ascending. */
  lemma SortedInsertAllSorts(numbers: seq<int>)
    ensures Sorted(SortedInsertAll([], numbers))
    ensures multiset(SortedInsertAll([], numbers)) == multiset(numbers)
    ensures |SortedInsertAll([], numbers)| == |numbers|
  {
    SortedInsertAllProperties([], numbers);
  }

  /**
   * The result from an empty container is THE ascending arrangement of the input: any
   * ascending sequence holding the same values equals it.
   */
  lemma SortedInsertAllIsTheSortedInput(numbers: seq<int>, t: seq<int>)
    requires Sorted(t) && multiset(t) == multiset(numbers)
    ensures SortedInsertAll([], numbers) == t
  {
    SortedInsertAllSorts(numbers);
    SortedUnique(SortedInsertAll([], numbers), t);
  }

  /** Inserting any permutation of the same values gives the same container. */
  lemma SortedInsertAllOrderIndependent(xs: seq<int>, ys: seq<int>)
    requires multiset(xs) == multiset(ys)
    ensures SortedInsertAll([], xs) == SortedInsertAll([], ys)
  {
    SortedInsertAllSorts(ys);
    SortedInsertAllIsTheSortedInput(xs, SortedInsertAll([], ys));
  }

  /** A library sort (`std::sort`, `Collections.sort`, `Arrays.sort`): the ascending permutation. */
  function ReferenceSort(s: seq<int>): (r: seq<int>)
    ensures Sorted(r) && multiset(r) == multiset(s) && |r| == |s|
  {
    SortedInsertAllSorts(s);
    SortedInsertAll([], s)
  }

  /** Any ascending permutation of `s` is `ReferenceSort(s)`. */
  lemma ReferenceSortUnique(s: seq<int>, t: seq<int>)
    requires Sorted(t) && multiset(t) == multiset(s)
    ensures t == ReferenceSort(s)
  {
    SortedUnique(t, ReferenceSort(s));
  }

  /** The values of the example below, counted with their multiplicities. */
  lemma FiveThreeFiveOneValues(t: seq<int>, u: seq<int>)
    requires t == [1, 3, 5, 5] && u == [5, 3, 5, 1]
    ensures multiset(t) == multiset(u)
  {
    calc {
      multiset(u);
      multiset{5, 3, 5, 1};
      multiset{1, 3, 5, 5};
      multiset(t);
    }
  }

  /** Inserting 5, 3, 5, 1 gives 1, 3, 5, 5. */
  lemma ExampleFiveThreeFiveOne(u: seq<int>)
    requires u == [5, 3, 5, 1]
    ensures SortedInsertAll([], u) == [1, 3, 5, 5]
  {
    var t := [1, 3, 5, 5];
    FiveThreeFiveOneValues(t, u);
    assert Sorted(t);
    SortedInsertAllIsTheSortedInput(u, t);
  }

  /**
   * The scan inside `linearInsertion`: advance the iterator from `start` until it reaches
   * an element `>= n` or `end()`.
   */
  method ScanFrom(container: Container<int>, start: nat, n: int) returns (itr: nat)
    requires start <= |container.items|
    ensures start <= itr <= |container.items|
    ensures forall j :: start <= j < itr ==> container.items[j] < n
    ensures itr < |container.items| ==> container.items[itr] >= n
  {
    itr := start;
    while itr != |container.items|
      invariant start <= itr <= |container.items|
      invariant forall j :: start <= j < itr ==> container.items[j] < n
    {
      if container.items[itr] >= n {
        break;
      }
      itr := itr + 1;
    }
  }

  /**
   * `linearInsertion(numbers, container)`: for each value, walk from `begin()` to the first
   * element `>= n` (or `end()`) and insert the value there.
   */
  method LinearInsertion(numbers: seq<int>, container: Container<int>)
    modifies container
    ensures container.items == SortedInsertAll(old(container.items), numbers)
  {
    for k := 0 to |numbers|
      invariant container.items == SortedInsertAll(old(container.items), numbers[..k])
    {
      var n := numbers[k];
      ghost var before := container.items;
      var itr := ScanFrom(container, 0, n);
      FirstAtLeastUnique(before, n, itr);
      SortedInsertAllStep(old(container.items), numbers, k);
      var _ := container.Insert(itr, n);
    }
    assert numbers[..|numbers|] == numbers;
  }

  /**
   * The step the smart variant takes: when everything before `q` is `<= n` and the element at
   * `q` (if any) is `>= n`, inserting at `q` gives the same sequence as the plain scan.
   */
  lemma SmartStepAgrees(s: seq<int>, q: nat, n: int)
    requires Sorted(s) && q <= |s|
    requires forall k :: 0 <= k < q ==> s[k] <= n
    requires q < |s| ==> s[q] >= n
    ensures Inserted(s, q, n) == InsertSorted(s, n)
  {
    InsertedKeepsSorted(s, q, n);
    InsertSortedProperties(s, n);
    SortedUnique(Inserted(s, q, n), InsertSorted(s, n));
  }

  /**
   * One value of `linearSmartInsertPerformance`: scan from the remembered iterator when `n`
   * is `>=` the last inserted value, else from `begin()`, and insert there. Returns the
   * iterator to the new element. When the list is ascending and everything before the
   * remembered iterator is at most the last value, this is one step of `linearInsertion`.
   */
  method SmartInsertStep(container: Container<int>, lastIterPosition: nat, lastInsertedValue: int,
                         n: int, ghost ascending: bool) returns (at: nat)
    requires lastIterPosition <= |container.items|
    requires ascending ==> Sorted(container.items)
    requires ascending ==> forall j :: 0 <= j < lastIterPosition ==> container.items[j] <= lastInsertedValue
    modifies container
    ensures multiset(container.items) == multiset(old(container.items)) + multiset{n}
    ensures at < |container.items| && container.items[at] == n
    ensures ascending ==> container.items == InsertSorted(old(container.items), n)
    ensures ascending ==> Sorted(container.items)
    ensures ascending ==> forall j :: 0 <= j < at ==> container.items[j] <= n
  {
    var itr := 0;
    if n >= lastInsertedValue {
      itr := lastIterPosition;
    }
    itr := ScanFrom(container, itr, n);
    if ascending {
      SmartStepAgrees(container.items, itr, n);
      InsertSortedProperties(container.items, n);
    }
    at := container.Insert(itr, n);
  }

  /**
   * `linearSmartInsertPerformance` without the stopwatch: remembers the iterator to the last
   * inserted element and the last value, starting from `begin()` and `0`. It always adds
   * exactly the given values; on an ascending list (the benchmark passes an empty one) it
   * yields exactly what plain `linearInsertion` yields.
   */
  method LinearSmartInsertion(numbers: seq<int>, container: Container<int>)
    modifies container
    ensures multiset(container.items) == multiset(old(container.items)) + multiset(numbers)
    ensures Sorted(old(container.items)) ==>
      container.items == SortedInsertAll(old(container.items), numbers)
  {
    ghost var ascending := Sorted(container.items);
    var lastInsertedValue := 0;
    var lastIterPosition: nat := 0;
    for k := 0 to |numbers|
      invariant multiset(container.items) == multiset(old(container.items)) + multiset(numbers[..k])
      invariant ascending ==> container.items == SortedInsertAll(old(container.items), numbers[..k])
      invariant ascending ==> Sorted(container.items)
      invariant lastIterPosition <= |container.items|
      invariant k > 0 ==> lastIterPosition < |container.items| && container.items[lastIterPosition] == lastInsertedValue
      invariant ascending ==> forall j :: 0 <= j < lastIterPosition ==> container.items[j] <= lastInsertedValue
    {
      var n := numbers[k];
      PrefixStep(numbers, k);
      SortedInsertAllStep(old(container.items), numbers, k);
      lastIterPosition := SmartInsertStep(container, lastIterPosition, lastInsertedValue, n, ascending);
      lastInsertedValue := n;
    }
    assert numbers[..|numbers|] == numbers;
  }

  /**
   * `listVsVectorLinearPerformance(nbr_of_randoms)` of ideone_XprUU.cpp without the timing:
   * values drawn by `random_int(0, nbr_of_randoms - 1)` are inserted into a fresh list by the
   * smart variant, into another list and into a vector by the plain one. All three end up as
   * the values in ascending order.
   */
  method SmartListVsVectorPerformance(nbrOfRandoms: nat)
    returns (values: seq<int>, smarterList: seq<int>, list: seq<int>, vector: seq<int>)
    ensures |values| == nbrOfRandoms
    ensures forall k :: 0 <= k < nbrOfRandoms ==> 0 <= values[k] <= nbrOfRandoms - 1
    ensures smarterList == list == vector == ReferenceSort(values)
  {
    values := GenerateValues(nbrOfRandoms, 0, nbrOfRandoms - 1);
    var s := new Container<int>.Empty();
    LinearSmartInsertion(values, s);
    var l := new Container<int>.Empty();
    LinearInsertion(values, l);
    var v := new Container<int>.Empty();
    LinearInsertion(values, v);
    smarterList, list, vector := s.items, l.items, v.items;
    SortedInsertAllSorts(values);
    ReferenceSortUnique(values, list);
  }
}
