/**
 * The POD-size benchmark (number_crunching-why___/code_ideone/src/ideone_W9vpT.cpp): the same linear insertion
 * template, instantiated for fixed-size records compared by their first field only, and run
 * on a list, a vector and a deque. The record size is a run-time length here instead of a
 * template parameter.
 */
module PodInsertion {
  import opened Sequences
  import opened Containers
  import opened Randomness

  /** `POD<Size>`: `Size` unsigned values; `a[0]` is the key the ordering looks at. */
  datatype Pod = Pod(a: seq<int>)

  /** C++ has no zero-length member arrays, so every record has a key. */
  type PodValue = p: Pod | |p.a| > 0 witness Pod([0])

  /** `POD::operator>=`. */
  predicate AtLeast(x: PodValue, y: PodValue) {
    x.a[0] >= y.a[0]
  }

  /** `operator>=` looks at the keys only: records that differ elsewhere compare alike. */
  lemma AtLeastComparesKeysOnly(x: PodValue, y: PodValue, x': PodValue, y': PodValue)
    requires x.a[0] == x'.a[0] && y.a[0] == y'.a[0]
    ensures AtLeast(x, y) == AtLeast(x', y')
    ensures AtLeast(x, y) || AtLeast(y, x)
  {
  }

  /** Ascending by key. */
  predicate KeySorted(s: seq<PodValue>) {
    forall i, j :: 0 <= i < j < |s| ==> s[i].a[0] <= s[j].a[0]
  }

  /** Where the scan stops: the first element that is `>=` the new record, or the end. */
  function FirstAtLeast(s: seq<PodValue>, n: PodValue): (p: nat)
    ensures p <= |s|
    ensures forall k :: 0 <= k < p ==> !AtLeast(s[k], n)
    ensures p < |s| ==> AtLeast(s[p], n)
  {
    if s == [] || AtLeast(s[0], n) then 0 else 1 + FirstAtLeast(s[1..], n)
  }

  lemma FirstAtLeastUnique(s: seq<PodValue>, n: PodValue, p: nat)
    requires p <= |s|
    requires forall k :: 0 <= k < p ==> !AtLeast(s[k], n)
    requires p < |s| ==> AtLeast(s[p], n)
    ensures p == FirstAtLeast(s, n)
  {
  }

  /** One step of `linearInsertion` on records. */
  function InsertByKey(s: seq<PodValue>, n: PodValue): seq<PodValue> {
    Inserted(s, FirstAtLeast(s, n), n)
  }

  /** The contents after `linearInsertion(numbers, container)` on a container holding `c`. */
  function KeyedInsertAll(c: seq<PodValue>, numbers: seq<PodValue>): seq<PodValue>
    decreases |numbers|
  {
    if numbers == [] then c
    else InsertByKey(KeyedInsertAll(c, numbers[..|numbers| - 1]), numbers[|numbers| - 1])
  }

  /** One step keeps the container ascending by key and adds exactly `n`. */
  lemma InsertByKeyProperties(s: seq<PodValue>, n: PodValue)
    requires KeySorted(s)
    ensures KeySorted(InsertByKey(s, n))
    ensures multiset(InsertByKey(s, n)) == multiset(s) + multiset{n}
    ensures |InsertByKey(s, n)| == |s| + 1
  {
    var p := FirstAtLeast(s, n);
    var r := InsertByKey(s, n);
    forall i, j | 0 <= i < j < |r| ensures r[i].a[0] <= r[j].a[0] {
      InsertedAt(s, p, n, i);
      InsertedAt(s, p, n, j);
      if j < p {
        assert r[i] == s[i] && r[j] == s[j];
      } else if j == p {
        assert r[i] == s[i];
      } else if i < p {
        assert r[i] == s[i] && r[j] == s[j - 1];
        assert s[i].a[0] <= s[p].a[0] <= s[j - 1].a[0];
      } else if i == p {
        assert AtLeast(s[p], n) && s[p].a[0] <= s[j - 1].a[0];
      } else {
        assert r[i] == s[i - 1] && r[j] == s[j - 1];
      }
    }
  }

  /**
   * The newest record goes before every older record with the same key: the scan stops at
   * the first element that is `>=` it, so everything before it has a smaller key.
   */
  lemma InsertByKeyPutsNewestFirst(s: seq<PodValue>, n: PodValue)
    ensures InsertByKey(s, n)[FirstAtLeast(s, n)] == n
    ensures forall k :: 0 <= k < FirstAtLeast(s, n) ==> InsertByKey(s, n)[k].a[0] < n.a[0]
  {
  }

  /**
   * From a container ascending by key, `linearInsertion` keeps it ascending by key and holds
   * a permutation of its old records plus the inserted ones, one more per record.
   */
  lemma {:induction false} KeyedInsertAllProperties(c: seq<PodValue>, numbers: seq<PodValue>)
    requires KeySorted(c)
    ensures KeySorted(KeyedInsertAll(c, numbers))
    ensures multiset(KeyedInsertAll(c, numbers)) == multiset(c) + multiset(numbers)
    ensures |KeyedInsertAll(c, numbers)| == |c| + |numbers|
    decreases |numbers|
  {
    if numbers != [] {
      var init := numbers[..|numbers| - 1];
      var last := numbers[|numbers| - 1];
      KeyedInsertAllProperties(c, init);
      LastStep(numbers);
      InsertByKeyProperties(KeyedInsertAll(c, init), last);
    }
  }

  /** Inserting one more record of `numbers` is one more step. */
  lemma KeyedInsertAllStep(c: seq<PodValue>, numbers: seq<PodValue>, k: nat)
    requires k < |numbers|
    ensures KeyedInsertAll(c, numbers[..k + 1]) == InsertByKey(KeyedInsertAll(c, numbers[..k]), numbers[k])
  {
    assert numbers[..k + 1][..k] == numbers[..k];
  }

  /** The scan: advance from `begin()` to the first element `>=` the record, or `end()`. */
  method Scan(container: Container<PodValue>, n: PodValue) returns (itr: nat)
    ensures itr <= |container.items|
    ensures forall j :: 0 <= j < itr ==> !AtLeast(container.items[j], n)
    ensures itr < |container.items| ==> AtLeast(container.items[itr], n)
  {
    itr := 0;
    while itr != |container.items|
      invariant itr <= |container.items|
      invariant forall j :: 0 <= j < itr ==> !AtLeast(container.items[j], n)
    {
      if AtLeast(container.items[itr], n) {
        break;
      }
      itr := itr + 1;
    }
  }

  /** `linearInsertion<ValueType, Container>(numbers, container)` for records. */
  method LinearInsertion(numbers: seq<PodValue>, container: Container<PodValue>)
    modifies container
    ensures container.items == KeyedInsertAll(old(container.items), numbers)
  {
    for k := 0 to |numbers|
      invariant container.items == KeyedInsertAll(old(container.items), numbers[..k])
    {
      var n := numbers[k];
      KeyedInsertAllStep(old(container.items), numbers, k);
      var itr := Scan(container, n);
      FirstAtLeastUnique(container.items, n, itr);
      var _ := container.Insert(itr, n);
    }
    assert numbers[..|numbers|] == numbers;
  }

  /**
   * The records of one benchmark round: `vector<POD>(n)` value-initialises every field to
   * zero, then each key is drawn by `random_int(0, n - 1)`.
   */
  method GeneratePods(nbrOfRandoms: nat, podSize: nat) returns (values: seq<PodValue>)
    requires podSize >= 1
    ensures |values| == nbrOfRandoms
    ensures forall k :: 0 <= k < nbrOfRandoms ==> 0 <= values[k].a[0] <= nbrOfRandoms - 1
    ensures forall k :: 0 <= k < nbrOfRandoms ==>
      |values[k].a| == podSize && values[k].a[1..] == seq(podSize - 1, _ => 0)
  {
    values := [];
    while |values| < nbrOfRandoms
      invariant |values| <= nbrOfRandoms
      invariant forall k :: 0 <= k < |values| ==> 0 <= values[k].a[0] <= nbrOfRandoms - 1
      invariant forall k :: 0 <= k < |values| ==>
        |values[k].a| == podSize && values[k].a[1..] == seq(podSize - 1, _ => 0)
    {
      var key := RandomInt(0, nbrOfRandoms - 1);
      var zeros := seq(podSize - 1, _ => 0);
      var pod := Pod([key] + zeros);
      assert pod.a[1..] == zeros;
      values := values + [pod];
    }
  }

  /**
   * One round of `listVsVectorLinearPerformance<SizeOfPod>` without the stopwatches: the
   * same records inserted into an empty list, vector and deque.
   */
  method ListVsVectorLinearPerformance(nbrOfRandoms: nat, podSize: nat)
    returns (values: seq<PodValue>, list: seq<PodValue>, vector: seq<PodValue>, deque: seq<PodValue>)
    requires podSize >= 1
    ensures |values| == nbrOfRandoms
    ensures list == vector == deque
    ensures KeySorted(list) && multiset(list) == multiset(values) && |list| == nbrOfRandoms
  {
    values := GeneratePods(nbrOfRandoms, podSize);
    var l := new Container<PodValue>.Empty();
    LinearInsertion(values, l);
    var v := new Container<PodValue>.Empty();
    LinearInsertion(values, v);
    var d := new Container<PodValue>.Empty();
    LinearInsertion(values, d);
    list, vector, deque := l.items, v.items, d.items;
    KeyedInsertAllProperties([], values);
  }
}
