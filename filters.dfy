/**
 * The threshold filters of java_battle/ideone_NH6jl.java and ideone_KM5Ev.java: every value
 * above `Integer.MAX_VALUE / 2` is removed, the others are kept in their order. Six ways of
 * doing it are compared; all of them compute `Filter`.
 */
module Filters {
  import opened Sequences
  import opened Containers
  import opened Randomness
  import opened DynamicArray

  /** `Integer.MAX_VALUE / 2`: the largest value a filter keeps. */
  const HALF_MAX: int := INT_MAX / 2

  /** The values of `s` that are `<= HALF_MAX`, in their order in `s`. */
  function Filter(s: seq<int>): (r: seq<int>)
    ensures |r| <= |s|
    decreases |s|
  {
    if s == [] then []
    else
      var init := s[..|s| - 1];
      var last := s[|s| - 1];
      assert s == init + [last];
      if last <= HALF_MAX then Filter(init) + [last] else Filter(init)
  }

  /** A value is in the filtered list exactly when it is in the list and not above the threshold. */
  lemma {:induction false} FilterMembers(s: seq<int>, x: int)
    ensures x in Filter(s) <==> x in s && x <= HALF_MAX
    decreases |s|
  {
    if s != [] {
      var init := s[..|s| - 1];
      var last := s[|s| - 1];
      assert s == init + [last];
      FilterMembers(init, x);
    }
  }

  /** Filtering a concatenation filters the parts one after the other. */
  lemma {:induction false} FilterConcat(a: seq<int>, b: seq<int>)
    ensures Filter(a + b) == Filter(a) + Filter(b)
    decreases |b|
  {
    if b != [] {
      var init := b[..|b| - 1];
      var last := b[|b| - 1];
      assert a + b == (a + init) + [last];
      assert (a + b)[..|a + b| - 1] == a + init;
      FilterConcat(a, init);
    } else {
      assert a + b == a;
    }
  }

  /** Filtering keeps exactly the occurrences of the small values: none of the large. */
  lemma {:induction false} FilterCounts(s: seq<int>, x: int)
    ensures multiset(Filter(s))[x] == if x <= HALF_MAX then multiset(s)[x] else 0
    decreases |s|
  {
    if s != [] {
      var init := s[..|s| - 1];
      var last := s[|s| - 1];
      assert s == init + [last];
      FilterCounts(init, x);
    }
  }

  /** A filtered list contains nothing left to remove: filtering it again changes nothing. */
  lemma {:induction false} FilterIdempotent(s: seq<int>)
    ensures Filter(Filter(s)) == Filter(s)
    decreases |s|
  {
    if s != [] {
      var init := s[..|s| - 1];
      var last := s[|s| - 1];
      FilterIdempotent(init);
      if last <= HALF_MAX {
        FilterConcat(Filter(init), [last]);
        assert Filter([last]) == Filter([] + [last]);
        assert [last][..0] == [];
      }
    }
  }

  /** A one-element list keeps its element iff it is not above the threshold. */
  lemma FilterSingleton(v: int)
    ensures Filter([v]) == if v <= HALF_MAX then [v] else []
  {
    assert [v][..0] == [];
  }

  /** Examining one more element of `original`: the filtered prefix grows by it or not. */
  lemma FilterStep(original: seq<int>, done: nat)
    requires done < |original|
    ensures original[done..] == [original[done]] + original[done + 1..]
    ensures Filter(original[..done + 1]) ==
      if original[done] <= HALF_MAX then Filter(original[..done]) + [original[done]] else Filter(original[..done])
  {
    assert original[..done + 1][..done] == original[..done];
  }

  /** Examining one more element of `original` from the back. */
  lemma FilterStepBack(original: seq<int>, i: nat)
    requires i < |original|
    ensures original[..i + 1] == original[..i] + [original[i]]
    ensures Filter(original[i..]) ==
      if original[i] <= HALF_MAX then [original[i]] + Filter(original[i + 1..]) else Filter(original[i + 1..])
  {
    assert original[i..] == [original[i]] + original[i + 1..];
    FilterConcat([original[i]], original[i + 1..]);
    FilterSingleton(original[i]);
  }

  /**
   * One step of a forward scan that erases in place: `items` holds the filtered prefix of
   * `original` followed by its unexamined rest, and the cursor `|Filter(original[..done])|`
   * points at `original[done]`. Keeping it or erasing it restores that shape one step on.
   */
  lemma ForwardScanStep(original: seq<int>, done: nat, items: seq<int>)
    requires done < |original|
    requires items == Filter(original[..done]) + original[done..]
    ensures |Filter(original[..done])| < |items| && items[|Filter(original[..done])|] == original[done]
    ensures original[done] <= HALF_MAX ==>
      items == Filter(original[..done + 1]) + original[done + 1..] &&
      |Filter(original[..done + 1])| == |Filter(original[..done])| + 1
    ensures original[done] > HALF_MAX ==>
      Removed(items, |Filter(original[..done])|) == Filter(original[..done + 1]) + original[done + 1..] &&
      |Filter(original[..done + 1])| == |Filter(original[..done])|
  {
    var kept := Filter(original[..done]);
    var rest := original[done + 1..];
    FilterStep(original, done);
    assert items == kept + [original[done]] + rest;
    if original[done] > HALF_MAX {
      RemovedBetween(kept, original[done], rest);
    }
  }

  /** The scan is over exactly when the cursor reaches the end of the container. */
  lemma ForwardScanLength(original: seq<int>, done: nat, items: seq<int>)
    requires done <= |original|
    requires items == Filter(original[..done]) + original[done..]
    ensures |Filter(original[..done])| < |items| <==> done < |original|
  {
  }

  /**
   * One step of a backward scan that erases in place: `items` holds the unexamined prefix
   * `original[..i + 1]` followed by the filtered tail.
   */
  lemma BackwardScanStep(original: seq<int>, i: nat, items: seq<int>)
    requires i < |original|
    requires items == original[..i + 1] + Filter(original[i + 1..])
    ensures i < |items| && items[i] == original[i]
    ensures original[i] <= HALF_MAX ==> items == original[..i] + Filter(original[i..])
    ensures original[i] > HALF_MAX ==> Removed(items, i) == original[..i] + Filter(original[i..])
  {
    var prefix := original[..i];
    var tail := Filter(original[i + 1..]);
    FilterStepBack(original, i);
    assert items == prefix + [original[i]] + tail;
    if original[i] > HALF_MAX {
      RemovedBetween(prefix, original[i], tail);
    }
  }

  /** Erasing the element between `prefix` and `rest` joins the two. */
  lemma RemovedBetween(prefix: seq<int>, x: int, rest: seq<int>)
    ensures Removed(prefix + [x] + rest, |prefix|) == prefix + rest
  {
    var s := prefix + [x] + rest;
    var r := Removed(s, |prefix|);
    assert s[..|prefix|] == prefix && s[|prefix| + 1..] == rest;
    assert r == r[..|prefix|] + r[|prefix|..];
  }

  /**
   * One step of the set/replace copy: the first `insert` cells hold the filtered prefix
   * `original[..i]`, and the cells from `i` on are still the original ones.
   */
  lemma CopyForwardStep(original: seq<int>, i: nat, insert: nat, items: seq<int>)
    requires insert <= i < |items| == |original|
    requires items[..insert] == Filter(original[..i])
    requires items[i..] == original[i..]
    ensures items[i] == original[i]
    ensures original[i] <= HALF_MAX ==>
      items[insert := items[i]][..insert + 1] == Filter(original[..i + 1]) &&
      items[insert := items[i]][i + 1..] == original[i + 1..]
    ensures original[i] > HALF_MAX ==>
      items[..insert] == Filter(original[..i + 1]) && items[i + 1..] == original[i + 1..]
  {
    assert items[i] == items[i..][0] == original[i];
    FilterConcat(original[..i], [original[i]]);
    FilterSingleton(original[i]);
    assert original[..i + 1] == original[..i] + [original[i]];
    var after := items[insert := items[i]];
    assert after[..insert + 1] == items[..insert] + [original[i]];
    assert after[i + 1..] == items[i + 1..] == items[i..][1..];
  }

  /** Erasing the last element keeps every shorter prefix. */
  lemma TrimKeepsPrefix(items: seq<int>, insert: nat)
    requires insert < |items|
    ensures Removed(items, |items| - 1)[..insert] == items[..insert]
  {
    var r := Removed(items, |items| - 1);
    assert r[..insert] == r[..|items| - 1][..insert];
  }

  /**
   * "Naive ArrayList": a forward `for` loop that, on removing at `i`, steps `i` back once
   * (`remove(i--)`) so that the element moved into place `i` is examined next. `done`
   * counts the original elements examined so far.
   */
  method NaiveFilter(list: Container<int>)
    modifies list
    ensures list.items == Filter(old(list.items))
  {
    ghost var original := list.items;
    ghost var done := 0;
    var i := 0;
    while i < |list.items|
      invariant 0 <= done <= |original|
      invariant list.items == Filter(original[..done]) + original[done..]
      invariant i == |Filter(original[..done])|
      decreases |original| - done
    {
      ForwardScanLength(original, done, list.items);
      ForwardScanStep(original, done, list.items);
      if list.items[i] > HALF_MAX {
        list.Erase(i);
        i := i - 1;
      }
      i := i + 1;
      done := done + 1;
    }
    ForwardScanLength(original, done, list.items);
    assert original[..done] == original;
  }

  /**
   * "Less naive ArrayList": walks from the last index down to `0` and removes in place, so
   * only the already-filtered tail is shifted.
   */
  method LessNaiveFilter(list: Container<int>)
    modifies list
    ensures list.items == Filter(old(list.items))
  {
    ghost var original := list.items;
    var i := |list.items| - 1;
    while i >= 0
      invariant -1 <= i < |original|
      invariant list.items == original[..i + 1] + Filter(original[i + 1..])
    {
      BackwardScanStep(original, i, list.items);
      if list.items[i] > HALF_MAX {
        list.Erase(i);
      }
      i := i - 1;
    }
    assert original[0..] == original;
  }

  /**
   * "set/replace": the kept values are copied to the front with `set(insert, …)`, then the
   * surplus is trimmed by removing the last element while the list is longer than `insert`.
   */
  method SetReplaceFilter(list: Container<int>)
    modifies list
    ensures list.items == Filter(old(list.items))
  {
    var insert := CompactKept(list);
    TrimTo(list, insert);
  }

  /** The copying loop of the set/replace filter: returns how many values it kept in front. */
  method CompactKept(list: Container<int>) returns (insert: nat)
    modifies list
    ensures |list.items| == |old(list.items)|
    ensures insert <= |list.items| && list.items[..insert] == Filter(old(list.items))
  {
    ghost var original := list.items;
    insert := 0;
    var i := 0;
    while i < |list.items|
      invariant 0 <= insert <= i <= |list.items| == |original|
      invariant list.items[..insert] == Filter(original[..i])
      invariant list.items[i..] == original[i..]
    {
      CopyForwardStep(original, i, insert, list.items);
      if list.items[i] <= HALF_MAX {
        list.Set(insert, list.items[i]);
        insert := insert + 1;
      }
      i := i + 1;
    }
    assert original[..i] == original;
  }

  /** The trimming loop of the set/replace filter: erases from the back down to `insert` values. */
  method TrimTo(list: Container<int>, insert: nat)
    requires insert <= |list.items|
    modifies list
    ensures list.items == old(list.items)[..insert]
  {
    ghost var original := list.items;
    while |list.items| > insert
      invariant insert <= |list.items|
      invariant list.items[..insert] == original[..insert]
    {
      TrimKeepsPrefix(list.items, insert);
      list.Erase(|list.items| - 1);
    }
    assert list.items == list.items[..insert];
  }

  /**
   * "LinkedList": `it.next()` steps past an element and `it.remove()` drops the element just
   * returned, leaving the cursor in front of its successor.
   */
  method IteratorFilter(list: Container<int>)
    modifies list
    ensures list.items == Filter(old(list.items))
  {
    ghost var original := list.items;
    ghost var done := 0;
    var it := 0;
    while it < |list.items|
      invariant 0 <= done <= |original|
      invariant list.items == Filter(original[..done]) + original[done..]
      invariant it == |Filter(original[..done])|
      decreases |original| - done
    {
      ForwardScanLength(original, done, list.items);
      ForwardScanStep(original, done, list.items);
      var next := list.items[it];
      it := it + 1;
      if next > HALF_MAX {
        it := it - 1;
        list.Erase(it);
      }
      done := done + 1;
    }
    ForwardScanLength(original, done, list.items);
    assert original[..done] == original;
  }

  /**
   * "Smart ArrayList": the kept values are appended to a fresh work copy; the source list
   * is only read.
   */
  method WorkCopyFilter(list: Container<int>) returns (workcopy: Container<int>)
    ensures fresh(workcopy)
    ensures workcopy.items == Filter(list.items)
  {
    workcopy := new Container<int>.Empty();
    var i := 0;
    while i < |list.items|
      invariant 0 <= i <= |list.items|
      invariant workcopy.items == Filter(list.items[..i])
    {
      FilterStep(list.items, i);
      if list.items[i] <= HALF_MAX {
        workcopy.PushBack(list.items[i]);
      }
      i := i + 1;
    }
    assert list.items[..i] == list.items;
  }

  /**
   * "Smart DynamicIntArray": the kept values are added to a work copy pre-allocated with
   * the source's size, which therefore never has to grow.
   */
  method DynamicWorkCopyFilter(dynamicArray: DynamicIntArray) returns (workcopy: DynamicIntArray)
    requires dynamicArray.Valid()
    ensures fresh(workcopy) && fresh(workcopy.storage) && workcopy.Valid()
    ensures workcopy.Elements() == Filter(dynamicArray.Elements())
    ensures workcopy.storage.Length == |dynamicArray.Elements()|
  {
    ghost var source := dynamicArray.Elements();
    workcopy := new DynamicIntArray.WithCapacity(dynamicArray.Size());
    ghost var cells := workcopy.storage;
    var i := 0;
    while i < dynamicArray.Size()
      invariant 0 <= i <= |source|
      invariant workcopy.storage == cells && workcopy.Valid()
      invariant workcopy.Elements() == Filter(source[..i])
      invariant dynamicArray.Elements() == source
    {
      FilterStep(source, i);
      var g := dynamicArray.Get(i);
      if g.value <= HALF_MAX {
        var h := dynamicArray.Get(i);
        workcopy.Add(h.value);
      }
      i := i + 1;
    }
    assert source[..i] == source;
  }

  /**
   * The first loop of `performanceOfFilter`: `numbers` values drawn by
   * `random.nextInt(INT_MAX)`, kept in order and added to a fresh `DynamicIntArray`.
   */
  method RandomFill(numbers: nat) returns (values: seq<int>, dynamicArray: DynamicIntArray)
    ensures |values| == numbers && forall k :: 0 <= k < numbers ==> 0 <= values[k] < INT_MAX
    ensures fresh(dynamicArray) && fresh(dynamicArray.storage) && dynamicArray.Valid()
    ensures dynamicArray.Elements() == values
  {
    values := [];
    dynamicArray := new DynamicIntArray();
    while |values| < numbers
      invariant |values| <= numbers
      invariant forall k :: 0 <= k < |values| ==> 0 <= values[k] < INT_MAX
      invariant fresh(dynamicArray) && fresh(dynamicArray.storage) && dynamicArray.Valid()
      invariant dynamicArray.Elements() == values
    {
      var value := RandomInt(0, INT_MAX - 1);
      values := values + [value];
      dynamicArray.Add(value);
    }
  }

  /**
   * `performanceOfFilter(numbers)` without the stopwatches: `numbers` values drawn by
   * `random.nextInt(INT_MAX)` fill an `Integer[]` and a `DynamicIntArray`; five lists copied
   * from the values and the `DynamicIntArray` are filtered in the six ways, and `allEqual`
   * (the printed comparison) always holds.
   */
  method PerformanceOfFilter(numbers: nat) returns (values: seq<int>, filtered: seq<int>, allEqual: bool)
    ensures |values| == numbers && forall k :: 0 <= k < numbers ==> 0 <= values[k] < INT_MAX
    ensures allEqual
    ensures filtered == Filter(values)
  {
    var dynamicArray;
    values, dynamicArray := RandomFill(numbers);
    ghost var expected := Filter(values);

    var linkedList := new Container<int>.Of(values);
    var arrayListNaive := new Container<int>.Of(values);
    var arrayListLessNaive := new Container<int>.Of(values);
    var arrayListSmart := new Container<int>.Of(values);
    var arrayListSmartReplace := new Container<int>.Of(values);

    NaiveFilter(arrayListNaive);
    var naive := arrayListNaive.items;
    assert naive == expected;
    LessNaiveFilter(arrayListLessNaive);
    var lessNaive := arrayListLessNaive.items;
    assert lessNaive == expected;
    SetReplaceFilter(arrayListSmartReplace);
    var smartReplace := arrayListSmartReplace.items;
    assert smartReplace == expected;
    IteratorFilter(linkedList);
    var linked := linkedList.items;
    assert linked == expected;
    var arraylistWorkcopy := WorkCopyFilter(arrayListSmart);
    var workcopy := arraylistWorkcopy.items;
    assert workcopy == expected;
    var dynamicWorkcopy := DynamicWorkCopyFilter(dynamicArray);
    assert dynamicWorkcopy.Elements() == expected;

    var dynamicEqual := dynamicWorkcopy.Equals(naive);
    allEqual := naive == linked
             && lessNaive == naive
             && smartReplace == lessNaive
             && workcopy == smartReplace
             && dynamicEqual;
    filtered := naive;
  }

  /** The length of the `Integer[]` in ideone_KM5Ev.java's `main`. */
  const KM5EV_LENGTH: nat := 100000

  /**
   * `main` of ideone_KM5Ev.java without the timing: the iterator filter on a `LinkedList`
   * and the naive forward filter on an `ArrayList`, both copied from the same random values;
   * the printed `arrayList.equals(linkedList)` is always true.
   */
  method IteratorVersusIndexFilter() returns (values: seq<int>, equal: bool)
    ensures |values| == KM5EV_LENGTH && forall k :: 0 <= k < KM5EV_LENGTH ==> 0 <= values[k] < INT_MAX
    ensures equal
  {
    values := GenerateValues(KM5EV_LENGTH, 0, INT_MAX - 1);
    var linkedList := new Container<int>.Of(values);
    var arrayList := new Container<int>.Of(values);
    IteratorFilter(linkedList);
    NaiveFilter(arrayList);
    equal := arrayList.items == linkedList.items;
  }
}
