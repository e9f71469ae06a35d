/**
 * Random-position erase and the benchmark rounds of the C++ list/vector comparison
 * (number_crunching-why___/code_ideone/src/ideone_62Emz.cpp and
 * number_crunching-why___/code_examples/src/linear_performance.h).
 */
module LinearErase {
  import opened Sequences
  import opened Containers
  import opened Randomness
  import opened SortedInsertion
  import opened EndInsertion

  /**
   * `linearErase(container)`: while the container is not empty, draw a position in
   * `[0, size - 1]`, walk an iterator there one step at a time and erase that element.
   * `size` is read once and decremented per erase, so it always equals the element count
   * and every drawn position is a valid one. The ghost `erased` lists the removed values in
   * removal order: together they are exactly the old contents.
   */
  method LinearErase(container: Container<int>) returns (ghost erased: seq<int>)
    modifies container
    ensures container.items == []
    ensures multiset(erased) == multiset(old(container.items))
    ensures |erased| == |old(container.items)|
  {
    erased := [];
    var size := |container.items|;
    while !(|container.items| == 0)
      invariant size == |container.items|
      invariant multiset(erased) + multiset(container.items) == multiset(old(container.items))
      invariant |erased| + |container.items| == |old(container.items)|
      decreases |container.items|
    {
      var randomPosition := RandomInt(0, size - 1);
      var itr := 0;
      var idx := 0;
      while idx != randomPosition
        invariant 0 <= idx <= randomPosition
        invariant itr == idx
      {
        itr := itr + 1;
        idx := idx + 1;
      }
      erased := erased + [container.items[itr]];
      container.Erase(itr);
      size := size - 1;
    }
  }

  /**
   * `verifyLinearSort(valid_container, container)` with its `assert`s as the result: it
   * succeeds exactly when `container` has at least as many elements as `valid` and starts
   * with `valid`, element by element.
   */
  method VerifyLinearSort(valid: seq<int>, container: seq<int>) returns (ok: bool)
    ensures ok <==> |valid| <= |container| && container[..|valid|] == valid
  {
    var toCheckItr := 0;
    for k := 0 to |valid|
      invariant toCheckItr == k
      invariant k <= |container| && container[..k] == valid[..k]
    {
      var n := valid[k];
      if toCheckItr == |container| {
        return false;
      }
      var n2 := container[toCheckItr];
      if n != n2 {
        return false;
      }
      toCheckItr := toCheckItr + 1;
      assert container[..k + 1] == container[..k] + [n2];
      assert valid[..k + 1] == valid[..k] + [n];
    }
    assert valid[..|valid|] == valid;
    return true;
  }

  /**
   * The test data length `nbr_of_randoms`: `random_int(0, nbr_of_randoms - 1)` per element in
   * ideone_62Emz.cpp, and `uniform_int_distribution(0, nbr_of_randoms)` (both ends inclusive)
   * in linear_performance.h.
   */
  method ListVsVectorLinearPerformance62Emz(nbrOfRandoms: nat)
    returns (values: seq<int>, list: seq<int>, vector: seq<int>, listAfterErase: seq<int>, vectorAfterErase: seq<int>)
    ensures |values| == nbrOfRandoms
    ensures forall k :: 0 <= k < nbrOfRandoms ==> 0 <= values[k] <= nbrOfRandoms - 1
    ensures list == vector == ReferenceSort(values)
    ensures listAfterErase == [] && vectorAfterErase == []
  {
    values := GenerateValues(nbrOfRandoms, 0, nbrOfRandoms - 1);
    var l := new Container<int>.Empty();
    LinearInsertion(values, l);
    list := l.items;
    ghost var _ := LinearErase(l);
    listAfterErase := l.items;
    var v := new Container<int>.Empty();
    LinearInsertion(values, v);
    vector := v.items;
    ghost var _ := LinearErase(v);
    vectorAfterErase := v.items;
    SortedInsertAllSorts(values);
    ReferenceSortUnique(values, list);
  }

  /**
   * `listVsVectorLinearPerformance` of linear_performance.h, serial path: insert into a list,
   * insert into a vector, then erase the list and erase the vector.
   */
  method ListVsVectorLinearPerformanceSerial(nbrOfRandoms: nat)
    returns (values: seq<int>, list: seq<int>, vector: seq<int>, listAfterErase: seq<int>, vectorAfterErase: seq<int>)
    ensures |values| == nbrOfRandoms
    ensures forall k :: 0 <= k < nbrOfRandoms ==> 0 <= values[k] <= nbrOfRandoms
    ensures list == vector == ReferenceSort(values)
    ensures listAfterErase == [] && vectorAfterErase == []
  {
    values := GenerateValues(nbrOfRandoms, 0, nbrOfRandoms);
    var l := new Container<int>.Empty();
    LinearInsertion(values, l);
    list := l.items;
    var v := new Container<int>.Empty();
    LinearInsertion(values, v);
    vector := v.items;
    ghost var _ := LinearErase(l);
    listAfterErase := l.items;
    ghost var _ := LinearErase(v);
    vectorAfterErase := v.items;
    SortedInsertAllSorts(values);
    ReferenceSortUnique(values, list);
  }

  /**
   * `listVsVectorLinearPerformance` of linear_performance.h, default (concurrent) path: a
   * list receives the sorted insertion, a second list receives every value by `push_front`
   * and is then erased, and a vector is inserted into and erased. The tasks share no
   * container (each reads its own copy of the values or only reads them), so running them
   * one after the other gives the same final contents.
   */
  method ListVsVectorLinearPerformanceConcurrent(nbrOfRandoms: nat)
    returns (values: seq<int>, list: seq<int>, listToDelete: seq<int>, vector: seq<int>,
             listAfterErase: seq<int>, vectorAfterErase: seq<int>)
    ensures |values| == nbrOfRandoms
    ensures forall k :: 0 <= k < nbrOfRandoms ==> 0 <= values[k] <= nbrOfRandoms
    ensures list == vector == ReferenceSort(values)
    ensures listToDelete == Reverse(values)
    ensures listAfterErase == [] && vectorAfterErase == []
  {
    values := GenerateValues(nbrOfRandoms, 0, nbrOfRandoms);
    var l := new Container<int>.Empty();
    LinearInsertion(values, l);
    list := l.items;
    var d := new Container<int>.Empty();
    FirstPositionInsertion(values, d);
    listToDelete := d.items;
    ghost var _ := LinearErase(d);
    listAfterErase := d.items;
    var v := new Container<int>.Empty();
    LinearInsertion(values, v);
    vector := v.items;
    ghost var _ := LinearErase(v);
    vectorAfterErase := v.items;
    SortedInsertAllSorts(values);
    ReferenceSortUnique(values, list);
  }
}
