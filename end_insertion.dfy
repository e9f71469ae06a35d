/**
 * Insertion at the ends of a container (java_battle/ideone_DDEJF.cpp): every value in front
 * of all older ones (a list's natural use, the naive use of a vector), against `push_back`
 * (the vector's natural use). Both collect the same values; the front insertion holds them
 * in reverse order.
 */
module EndInsertion {
  import opened Sequences
  import opened Containers
  import opened Randomness

  /** Reversing a sequence with one more element at the back puts that element in front. */
  lemma ReverseSnoc(s: seq<int>, x: int)
    ensures Reverse(s + [x]) == [x] + Reverse(s)
  {
    var l := Reverse(s + [x]);
    var r := [x] + Reverse(s);
    assert |l| == |r|;
    forall k | 0 <= k < |l| ensures l[k] == r[k] {
      if k > 0 {
        assert l[k] == (s + [x])[|s| - k];
        assert r[k] == Reverse(s)[k - 1] == s[|s| - k];
      }
    }
  }

  /** One front insertion extends the reversed prefix by one value. */
  lemma FrontStep(numbers: seq<int>, k: nat, rest: seq<int>)
    requires k < |numbers|
    ensures Inserted(Reverse(numbers[..k]) + rest, 0, numbers[k]) == Reverse(numbers[..k + 1]) + rest
  {
    InsertedAtFront(Reverse(numbers[..k]) + rest, numbers[k]);
    assert numbers[..k + 1] == numbers[..k] + [numbers[k]];
    ReverseSnoc(numbers[..k], numbers[k]);
  }

  /**
   * `firstPositionInsertion(numbers, container)`: each value is inserted at `begin()`, so
   * the container ends up holding the values last-first, followed by what it held before.
   */
  method FirstPositionInsertion(numbers: seq<int>, container: Container<int>)
    modifies container
    ensures container.items == Reverse(numbers) + old(container.items)
  {
    for k := 0 to |numbers|
      invariant container.items == Reverse(numbers[..k]) + old(container.items)
    {
      FrontStep(numbers, k, old(container.items));
      var itr := 0;
      var _ := container.Insert(itr, numbers[k]);
    }
    assert numbers[..|numbers|] == numbers;
  }

  /** `lastPositionInsertionPerformance` without the stopwatch: `push_back` of every value. */
  method LastPositionInsertion(numbers: seq<int>, vector: Container<int>)
    modifies vector
    ensures vector.items == old(vector.items) + numbers
  {
    for k := 0 to |numbers|
      invariant vector.items == old(vector.items) + numbers[..k]
    {
      vector.PushBack(numbers[k]);
      assert numbers[..k + 1] == numbers[..k] + [numbers[k]];
    }
    assert numbers[..|numbers|] == numbers;
  }

  /** `linearInsertPerformance` of ideone_DDEJF.cpp without the stopwatch: front insertion. */
  method LinearInsertPerformance(randoms: seq<int>, container: Container<int>)
    modifies container
    ensures container.items == Reverse(randoms) + old(container.items)
  {
    FirstPositionInsertion(randoms, container);
  }

  /**
   * `addPerformance(nbr_of_randoms)` without the timing: values drawn by
   * `random_int(0, nbr_of_randoms - 1)` are front-inserted into a list and into a vector
   * ("worst") and pushed back into another vector ("best"). The best vector holds the values
   * in their order; the list and the worst vector hold them reversed, the same collection.
   */
  method AddPerformance(nbrOfRandoms: nat)
    returns (values: seq<int>, list: seq<int>, vectorBest: seq<int>, vectorWorst: seq<int>)
    ensures |values| == nbrOfRandoms
    ensures forall k :: 0 <= k < nbrOfRandoms ==> 0 <= values[k] <= nbrOfRandoms - 1
    ensures vectorBest == values
    ensures list == vectorWorst && Reverse(list) == vectorBest
    ensures multiset(list) == multiset(vectorBest)
  {
    values := GenerateValues(nbrOfRandoms, 0, nbrOfRandoms - 1);
    var worst := new Container<int>.Empty();
    var best := new Container<int>.Empty();
    var l := new Container<int>.Empty();
    LinearInsertPerformance(values, l);
    LastPositionInsertion(values, best);
    LinearInsertPerformance(values, worst);
    assert l.items == Reverse(values);
    list, vectorBest, vectorWorst := l.items, best.items, worst.items;
    ReverseIsInvolution(values);
    ReversePermutes(values);
  }
}
