# Linked list versus array benchmarks, modelled in Dafny

The repository is a set of small C++ and Java benchmarks. They compare linked lists with
contiguous arrays: `std::list` against `std::vector` and `std::deque` in C++, and
`LinkedList` against `ArrayList`, `Vector` and a hand-written `DynamicIntArray` in Java.
Each benchmark runs one workload on every container:

- sorted linear insertion, ascending in C++ and descending (with a `-1` sentinel) in Java;
- erasing from random positions until the container is empty;
- filtering out values above `Integer.MAX_VALUE / 2`;
- inserting at the front versus pushing at the back;
- a hand-written quicksort against the library sorts.

It then checks that all containers ended up equal.

This project models the algorithms those benchmarks run and the containers they run on. It
proves what the benchmarks rely on: every container variant computes the same contents, and
those contents are what the workload promises. That means the input in order, the input
filtered, or an empty container after erasing.

- Library containers are one class, `Containers.Container<T>`, whose contents are a sequence.
  An iterator is an index into it, and `end()` is its length.
- `DynamicIntArray` is a class over an `array<int>` plus a size. Its contents are a function
  of the array, so `getStorage()` sorted in place by `Quicksort` changes them exactly as in
  the Java code.
- Random number generators are an oracle: `Randomness.RandomInt` may return any value in the
  requested range.
- Clocks, stopwatches and printing have no counterpart. Each benchmark function becomes a
  method that returns the data it built, with the benchmark's equality checks as results.

The two versions of `listVsVectorLinearPerformance` draw their test data from different
ranges. ideone_62Emz.cpp draws `random_int(0, nbr_of_randoms - 1)`, that is `[0, N - 1]`;
`linear_performance.h` draws from `[0, nbr_of_randoms]`, that is `[0, N]`. The model keeps
both: `LinearErase.ListVsVectorLinearPerformance62Emz` uses `[0, N - 1]`, and
`LinearErase.ListVsVectorLinearPerformanceSerial` and
`LinearErase.ListVsVectorLinearPerformanceConcurrent` use `[0, N]`.

## Model

| member | source | states |
|---|---|---|
| Randomness.RandomInt | number_crunching-why___/code_ideone/src/ideone_62Emz.cpp:63-72 | `random_int(low, high)` returns a value in `[low, high]`, both ends inclusive |
| Randomness.GenerateValues | number_crunching-why___/code_ideone/src/ideone_62Emz.cpp:158-159 | the test data has the requested length `N` and every value lies in the requested range; for `N = 0` nothing is drawn, so the range does not matter |
| Containers.Container.Empty | number_crunching-why___/code_ideone/src/ideone_62Emz.cpp:170 | a default-constructed container is empty |
| Containers.Container.Of | java_battle/ideone_NH6jl.java:153-157 | a container built with `new ArrayList<>(Arrays.asList(array))` holds the array's values in order |
| Containers.Container.Insert | number_crunching-why___/code_ideone/src/ideone_62Emz.cpp:105 | `insert(itr, n)` puts `n` at the iterator's position, shifts what followed it up by one, and returns an iterator to the new element |
| Containers.Container.Erase | number_crunching-why___/code_ideone/src/ideone_62Emz.cpp:139 | `erase(itr)` removes exactly the element under the iterator and closes the gap |
| Containers.Container.PushBack | java_battle/ideone_DDEJF.cpp:79 | `push_back(n)` appends `n` |
| Containers.Container.Set | java_battle/ideone_NH6jl.java:187 | `set(i, v)` replaces one element, leaving the others alone |
| Sequences.ReverseIsInvolution | java_battle/ideone_DDEJF.cpp:60-69 | reversing twice gives back the original order, which relates the front-inserted containers to the pushed-back one |
| Sequences.ReversePermutes | java_battle/ideone_DDEJF.cpp:60-69 | reversing keeps every value with its multiplicity |
| Sequences.SortedUnique | number_crunching-why___/code_ideone/src/ideone_62Emz.cpp:92-107 | two ascending containers holding the same values are equal element by element, which is what makes the benchmarks' final equality checks true |
| SortedInsertion.FirstAtLeast | number_crunching-why___/code_ideone/src/ideone_62Emz.cpp:98-104 | the scan stops at the first element `>= n`, or at `end()` when every element is smaller |
| SortedInsertion.FirstAtLeastUnique | number_crunching-why___/code_ideone/src/ideone_62Emz.cpp:98-104 | the scan's stopping rule has exactly one solution |
| SortedInsertion.InsertSorted | number_crunching-why___/code_ideone/src/ideone_62Emz.cpp:96-105 | reference definition of one pass: the value goes before the first element `>=` it, or at the end |
| SortedInsertion.SortedInsertAll | number_crunching-why___/code_ideone/src/ideone_62Emz.cpp:92-107 | reference definition of `linearInsertion`: one pass per value, in input order |
| SortedInsertion.InsertSortedProperties | number_crunching-why___/code_ideone/src/ideone_62Emz.cpp:96-105 | one insertion keeps an ascending container ascending and adds exactly `n` |
| SortedInsertion.SortedInsertAllProperties | number_crunching-why___/code_ideone/src/ideone_62Emz.cpp:92-107 | from an ascending container, `linearInsertion` leaves it ascending, holding its old values plus every input value, duplicates kept |
| SortedInsertion.SortedInsertAllSorts | number_crunching-why___/code_ideone/src/ideone_62Emz.cpp:92-107 | from an empty container, the result is the input sorted ascending, with the same length and the same values |
| SortedInsertion.SortedInsertAllIsTheSortedInput | number_crunching-why___/code_ideone/src/ideone_62Emz.cpp:92-107 | any ascending sequence holding the input's values equals the result of `linearInsertion` from empty |
| SortedInsertion.SortedInsertAllOrderIndependent | number_crunching-why___/code_ideone/src/ideone_62Emz.cpp:92-107 | two inputs holding the same values give the same container, whatever their order |
| SortedInsertion.ReferenceSort | java_battle/ideone_CSzOBE.java:50-60 | `Collections.sort` and `Arrays.sort`, the library sorts the results are compared with: an ascending permutation of the input |
| SortedInsertion.ReferenceSortUnique | java_battle/ideone_CSzOBE.java:59-62 | every ascending permutation of the input is the library sort's result |
| SortedInsertion.ExampleFiveThreeFiveOne | number_crunching-why___/code_ideone/src/ideone_62Emz.cpp:92-107 | inserting 5, 3, 5, 1 gives 1, 3, 5, 5 |
| SortedInsertion.ScanFrom | number_crunching-why___/code_ideone/src/ideone_62Emz.cpp:98-104 | the scan from a start position stops at the first element `>= n` after it, or at `end()`; everything it passed is smaller than `n` |
| SortedInsertion.LinearInsertion | number_crunching-why___/code_ideone/src/ideone_62Emz.cpp:92-107 | `linearInsertion` inserts the values one at a time, in input order, each before the first element `>= n` |
| SortedInsertion.SmartStepAgrees | number_crunching-why___/code_ideone/src/ideone_XprUU.cpp:113-125 | in an ascending list, inserting at a position with nothing greater before it and nothing smaller at it gives the same list as the plain scan |
| SortedInsertion.SmartInsertStep | number_crunching-why___/code_ideone/src/ideone_XprUU.cpp:113-126 | one value of the smart insertion adds exactly that value and returns an iterator to it; on an ascending list it is one step of plain `linearInsertion` |
| SortedInsertion.LinearSmartInsertion | number_crunching-why___/code_ideone/src/ideone_XprUU.cpp:104-130 | the smart insertion always adds exactly the input values; started on an ascending list (the benchmark passes an empty one), it gives exactly what plain `linearInsertion` gives |
| SortedInsertion.SmartListVsVectorPerformance | number_crunching-why___/code_ideone/src/ideone_XprUU.cpp:144-171 | the smart list, the plain list and the vector all end up as the values sorted ascending |
| LinearErase.LinearErase | number_crunching-why___/code_ideone/src/ideone_62Emz.cpp:122-142 | `linearErase` empties the container; every drawn position is valid, because the cached size tracks the element count; one element is erased per iteration, and the erased values are exactly the old contents |
| LinearErase.VerifyLinearSort | number_crunching-why___/code_ideone/src/ideone_62Emz.cpp:202-220 | the check passes exactly when the container has at least as many elements as the valid one and starts with the same values in the same order |
| LinearErase.ListVsVectorLinearPerformance62Emz | number_crunching-why___/code_ideone/src/ideone_62Emz.cpp:155-182 | values in `[0, N - 1]`; the list and the vector both hold the values sorted ascending; both are empty after the erase |
| LinearErase.ListVsVectorLinearPerformanceSerial | number_crunching-why___/code_examples/src/linear_performance.h:112-141 | values in `[0, N]`; the list and the vector hold the values sorted ascending and are empty after erasing |
| LinearErase.ListVsVectorLinearPerformanceConcurrent | number_crunching-why___/code_examples/src/linear_performance.h:142-176 | values in `[0, N]`; the inserted list and vector hold the values sorted ascending; the `push_front` list holds them reversed; the erased containers are empty |
| PodInsertion.AtLeast | number_crunching-why___/code_ideone/src/ideone_W9vpT.cpp:57-60 | `POD::operator>=` compares the first fields |
| PodInsertion.AtLeastComparesKeysOnly | number_crunching-why___/code_ideone/src/ideone_W9vpT.cpp:57-60 | `POD::operator>=` looks only at the first field and is total |
| PodInsertion.FirstAtLeast | number_crunching-why___/code_ideone/src/ideone_W9vpT.cpp:85-91 | the scan stops at the first record whose key is `>=` the new key, or at `end()` |
| PodInsertion.FirstAtLeastUnique | number_crunching-why___/code_ideone/src/ideone_W9vpT.cpp:85-91 | that stopping position is unique |
| PodInsertion.InsertByKey | number_crunching-why___/code_ideone/src/ideone_W9vpT.cpp:82-93 | reference definition of one pass over records: the record goes before the first record whose key is `>=` its own, or at the end |
| PodInsertion.KeyedInsertAll | number_crunching-why___/code_ideone/src/ideone_W9vpT.cpp:79-94 | reference definition of the record `linearInsertion`: one pass per record, in input order |
| PodInsertion.InsertByKeyProperties | number_crunching-why___/code_ideone/src/ideone_W9vpT.cpp:82-93 | one insertion keeps the records ordered by key and adds exactly that record |
| PodInsertion.InsertByKeyPutsNewestFirst | number_crunching-why___/code_ideone/src/ideone_W9vpT.cpp:82-93 | the new record goes before every earlier record with an equal key; every record before it has a smaller key |
| PodInsertion.KeyedInsertAllProperties | number_crunching-why___/code_ideone/src/ideone_W9vpT.cpp:79-94 | from a key-ordered container, the result is key-ordered and holds the old records plus every new one |
| PodInsertion.Scan | number_crunching-why___/code_ideone/src/ideone_W9vpT.cpp:85-91 | the scan loop stops where `FirstAtLeast` says |
| PodInsertion.LinearInsertion | number_crunching-why___/code_ideone/src/ideone_W9vpT.cpp:79-94 | the template `linearInsertion` over records inserts by key |
| PodInsertion.GeneratePods | number_crunching-why___/code_ideone/src/ideone_W9vpT.cpp:111-114 | `N` records of the given size; each key is in `[0, N - 1]`; every other field is zero |
| PodInsertion.ListVsVectorLinearPerformance | number_crunching-why___/code_ideone/src/ideone_W9vpT.cpp:106-138 | the list, the vector and the deque end equal, ordered by key, holding exactly the generated records |
| DynamicArray.ArrayCopy | java_battle/ideone_NH6jl.java:93 | `System.arraycopy` copies as if through a temporary array, so overlapping shifts within one array are correct |
| DynamicArray.CopyOf | java_battle/ideone_NH6jl.java:39 | `Arrays.copyOf` to a greater length: a fresh array holding the old cells, then zeros |
| DynamicArray.DynamicIntArray.constructor | java_battle/ideone_NH6jl.java:44-47 | a new array is empty, with storage of `INITIAL_CAPACITY` (8) cells |
| DynamicArray.DynamicIntArray.WithCapacity | java_battle/ideone_NH6jl.java:49-52 | a new array is empty, with storage of exactly the requested capacity |
| DynamicArray.DynamicIntArray.Size | java_battle/ideone_NH6jl.java:55 | `size()` is the number of stored elements |
| DynamicArray.DynamicIntArray.RangeCheck | java_battle/ideone_NH6jl.java:28-31 | succeeds exactly for `0 <= index < size`; otherwise an `IndexOutOfBounds(index, size)` error |
| DynamicArray.DynamicIntArray.EnsureCapacity | java_battle/ideone_NH6jl.java:34-41 | grows the storage to `2 * length + 1` cells exactly when more cells are wanted than it has; the contents stay the same |
| DynamicArray.DynamicIntArray.Equals | java_battle/ideone_NH6jl.java:57-66 | true exactly when the list has the same length and the same values in the same order |
| DynamicArray.DynamicIntArray.Get | java_battle/ideone_NH6jl.java:69-72 | the stored value at a valid position, an `IndexOutOfBounds` error elsewhere |
| DynamicArray.DynamicIntArray.Set | java_battle/ideone_NH6jl.java:74-77 | replaces exactly one stored value at a valid position; elsewhere an error and no change |
| DynamicArray.DynamicIntArray.Add | java_battle/ideone_NH6jl.java:79-81 | appends the value, growing full storage to `2 * length + 1` |
| DynamicArray.DynamicIntArray.InsertAt | java_battle/ideone_NH6jl.java:86-97 | succeeds exactly for `0 <= index <= size`, inserting the value there and shifting the tail up; otherwise an error and no change |
| DynamicArray.DynamicIntArray.StoreAt | java_battle/ideone_NH6jl.java:90-97 | past the range check: grows full storage to `2 * length + 1`, then the contents are the old ones with the value inserted at the index |
| DynamicArray.DynamicIntArray.OpenGap | java_battle/ideone_NH6jl.java:91-95 | the `arraycopy` shift and the store: cells before the index stay, the value lands at the index, and the cells from it up to `size` move one place up |
| DynamicArray.DynamicIntArray.RemoveAt | java_battle/ideone_NH6jl.java:99-106 | succeeds exactly for `0 <= index < size`, removing that value and shifting the tail down; otherwise an error and no change |
| DynamicArray.DynamicIntArray.GetStorage | java_battle/ideone_CSzOBE.java:181 | returns the storage array itself, not a copy |
| Filters.Filter | java_battle/ideone_NH6jl.java:164 | the filtered contents are never longer than the input |
| Filters.FilterMembers | java_battle/ideone_NH6jl.java:186 | a value survives exactly when it occurs in the input and is at most `Integer.MAX_VALUE / 2` |
| Filters.FilterCounts | java_battle/ideone_NH6jl.java:186 | a kept value keeps all its occurrences; a removed value keeps none |
| Filters.FilterConcat | java_battle/ideone_NH6jl.java:160-222 | filtering works element by element: filtering two parts and joining them equals filtering the whole |
| Filters.FilterIdempotent | java_battle/ideone_NH6jl.java:160-222 | filtering a filtered collection changes nothing |
| Filters.FilterSingleton | java_battle/ideone_NH6jl.java:164 | a single value is kept exactly when it is at most `Integer.MAX_VALUE / 2` |
| Filters.NaiveFilter | java_battle/ideone_NH6jl.java:163-165 | the forward `remove(i--)` loop leaves exactly the filtered input, in order |
| Filters.LessNaiveFilter | java_battle/ideone_NH6jl.java:173-175 | the backward removal loop leaves exactly the filtered input, in order |
| Filters.SetReplaceFilter | java_battle/ideone_NH6jl.java:184-192 | compacting the kept values with `set` and trimming the tail leaves exactly the filtered input, in order |
| Filters.CompactKept | java_battle/ideone_NH6jl.java:184-190 | the `set` loop leaves the filtered input in the first `insert` cells and keeps the length |
| Filters.TrimTo | java_battle/ideone_NH6jl.java:191-192 | removing the last element while the list is longer than `insert` leaves exactly its first `insert` elements |
| Filters.IteratorFilter | java_battle/ideone_NH6jl.java:200-202 | the iterator `remove` loop leaves exactly the filtered input, in order |
| Filters.WorkCopyFilter | java_battle/ideone_NH6jl.java:208-211 | the fresh work copy holds exactly the filtered input |
| Filters.DynamicWorkCopyFilter | java_battle/ideone_NH6jl.java:218-222 | the fresh `DynamicIntArray` work copy holds exactly the filtered input; its storage, pre-allocated to the input size, never grows |
| Filters.RandomFill | java_battle/ideone_NH6jl.java:141-150 | `numbers` values in `[0, INT_MAX - 1]`, and a fresh `DynamicIntArray` holding exactly them in order |
| Filters.PerformanceOfFilter | java_battle/ideone_NH6jl.java:137-234 | values in `[0, INT_MAX - 1]`; every variant yields the same filtered list, so `all_equal` is always true |
| Filters.IteratorVersusIndexFilter | java_battle/ideone_KM5Ev.java:9-37 | on 100000 values, the iterator filter of the linked list and the index filter of the array list agree, so the printed `equals` is always true |
| DescendingInsertion.FirstAtMost | java_battle/ideone_JOJ05.java:202-208 | the scan stops at the first element the value is `>=` of, or runs off the end |
| DescendingInsertion.FirstAtMostUnique | java_battle/ideone_JOJ05.java:202-208 | that stopping position is unique |
| DescendingInsertion.InsertDescending | java_battle/ideone_JOJ05.java:201-209 | reference definition of one pass: the value goes before the first element it is `>=` of; when there is none it is dropped |
| DescendingInsertion.DescendingInsertAll | java_battle/ideone_JOJ05.java:200-210 | reference definition of `linearInsertion`: one pass per value, in input order |
| DescendingInsertion.InsertDescendingProperties | java_battle/ideone_JOJ05.java:201-209 | one pass keeps a non-increasing list non-increasing; it inserts the value when some element is `<=` it and drops the value otherwise |
| DescendingInsertion.EmptyListStaysEmpty | java_battle/ideone_JOJ05.java:200-210 | without the sentinel nothing is ever inserted: an empty list stays empty |
| DescendingInsertion.SentinelKeepsEveryValue | java_battle/ideone_JOJ05.java:170-176 | starting from `[-1]` with non-negative values, every value is inserted, the list is non-increasing, and the sentinel stays last |
| DescendingInsertion.NonIncreasingReversed | java_battle/ideone_JOJ05.java:200-238 | a non-increasing list reversed is ascending |
| DescendingInsertion.SentinelResultIsReverseSorted | java_battle/ideone_JOJ05.java:170-190 | from `[-1]` with non-negative values, the result is the values and the sentinel sorted descending |
| DescendingInsertion.InsertWithListIterator | java_battle/ideone_JOJ05.java:202-208 | the `ListIterator` loop, with `next`, `previous` and `add`, performs one pass |
| DescendingInsertion.InsertWithCachedSize | java_battle/ideone_JOJ05.java:217-223 | the indexed loop over a size read once performs one pass; the stale size does no harm, because the loop stops at the first insertion |
| DescendingInsertion.InsertIntoDynamicArray | java_battle/ideone_JOJ05.java:229-236 | the indexed loop over `DynamicIntArray`, re-reading `size()`, performs one pass |
| DescendingInsertion.LinearInsertionLinkedList | java_battle/ideone_JOJ05.java:200-210 | `linearInsertion(Integer[], LinkedList)` makes one pass per value, in input order |
| DescendingInsertion.LinearInsertionCachedSize | java_battle/ideone_1wnF1.java:131-141 | `linearInsertion(Integer[], List)`, and the `ArrayList` overload of ideone_JOJ05.java, make one pass per value |
| DescendingInsertion.LinearInsertionToDynamicArray | java_battle/ideone_JOJ05.java:227-238 | `linearInsertionToDynamicArray` makes one pass per value |
| DescendingInsertion.ListVsDynamicArrayPerformance | java_battle/ideone_JOJ05.java:165-198 | values in `[0, INT_MAX - 1]`; all three containers end holding the descending insertion of the values into `[-1]` (sorted descending with the sentinel last, by `SentinelResultIsReverseSorted`), so the "Not equal" exception is never thrown |
| DescendingInsertion.ListVsVectorPerformance | java_battle/ideone_1wnF1.java:86-117 | `LinkedList`, `ArrayList` and `Vector` end equal, each the descending insertion of the values into `[-1]`; the exception is never thrown |
| DescendingInsertion.FirstBelow | java_battle/ideone_KM5Ev.java:42-46 | the strict scan stops at the first element strictly below the value |
| DescendingInsertion.FirstBelowUnique | java_battle/ideone_KM5Ev.java:42-46 | that stopping position is unique |
| DescendingInsertion.StrictAgreesWhenSomethingIsSmaller | java_battle/ideone_KM5Ev.java:40-49 | on a non-increasing list holding a smaller element, the `>` variant inserts the same as the `>=` variant |
| DescendingInsertion.InsertStrict | java_battle/ideone_KM5Ev.java:42-47 | reference definition of one strict pass: the value goes before the first element strictly below it; when there is none it is dropped |
| DescendingInsertion.StrictInsertAll | java_battle/ideone_KM5Ev.java:40-49 | reference definition of the strict `linearInsertion`: one strict pass per value |
| DescendingInsertion.StrictDropsTies | java_battle/ideone_KM5Ev.java:42-47 | on a non-empty list whose elements all equal the value, `>` leaves the list unchanged, while `>=` inserts the value in front |
| DescendingInsertion.StrictEmptyListStaysEmpty | java_battle/ideone_KM5Ev.java:40-49 | the `>` variant never inserts into an empty list |
| DescendingInsertion.InsertStrictly | java_battle/ideone_KM5Ev.java:42-47 | the inner loop performs one strict pass |
| DescendingInsertion.StrictLinearInsertion | java_battle/ideone_KM5Ev.java:40-49 | the unused `linearInsertion` of ideone_KM5Ev.java makes one strict pass per value |
| EndInsertion.FirstPositionInsertion | java_battle/ideone_DDEJF.cpp:60-69 | inserting each value at `begin()` leaves the values last-first, before the old contents |
| EndInsertion.LastPositionInsertion | java_battle/ideone_DDEJF.cpp:72-84 | `push_back` of each value leaves the old contents followed by the values in order |
| EndInsertion.LinearInsertPerformance | java_battle/ideone_DDEJF.cpp:88-95 | front insertion of all values |
| EndInsertion.AddPerformance | java_battle/ideone_DDEJF.cpp:99-115 | values in `[0, N - 1]`; the pushed-back vector holds them in order; the list and the worst vector hold them reversed, the same values |
| Quicksorting.SortedAfterPartition | java_battle/ideone_CSzOBE.java:231-235 | when both sides of a partition are sorted, the whole range is sorted: low part `<= pivot`, middle `== pivot`, high part `>= pivot` |
| Quicksorting.SortedAfterRecursion | java_battle/ideone_CSzOBE.java:231-235 | after the partition, sorting `low..j` and then `i..high` in place sorts `low..high` and rearranges only cells inside it |
| Quicksorting.Quicksort.constructor | java_battle/ideone_CSzOBE.java:188-190 | a new sorter has no array yet and a zero count |
| Quicksorting.Quicksort.Sort | java_battle/ideone_CSzOBE.java:192-200 | a null or empty array is left alone; any other array ends up sorted ascending as a permutation of its old contents |
| Quicksorting.Quicksort.QuickSortRange | java_battle/ideone_CSzOBE.java:202-236 | sorts `numbers[low..high]` in place as a permutation and leaves the rest of the array unchanged |
| Quicksorting.Quicksort.Partition | java_battle/ideone_CSzOBE.java:203-230 | with the middle element as pivot, the loop ends with `j < i`: everything up to `j` is `<= pivot`, everything between them equals it, everything from `i` on is `>= pivot`; it permutes within the range |
| Quicksorting.Quicksort.PartitionRound | java_battle/ideone_CSzOBE.java:209-229 | one round of the partition loop keeps the cells left of `i` at most the pivot and those right of `j` at least it, moves the scans closer, and permutes only within the range; after the first round `low < i` and `j < high` |
| Quicksorting.Quicksort.ScanUp | java_battle/ideone_CSzOBE.java:211-213 | `i` advances past elements below the pivot and stops within the range |
| Quicksorting.Quicksort.ScanDown | java_battle/ideone_CSzOBE.java:216-218 | `j` moves down past elements above the pivot and stops within the range |
| Quicksorting.Quicksort.Exchange | java_battle/ideone_CSzOBE.java:238-242 | swaps two cells and nothing else |
| Quicksorting.CompareSort | java_battle/ideone_CSzOBE.java:31-83 | values in `[0, INT_MAX - 1]`; the `DynamicIntArray` has capacity `N`; its storage after the quicksort (`sorted`) is the library-sorted values, so `equal` is always true |

## Left out

- Timing is left out: there are no clocks, stopwatches or elapsed times, and the benchmark results and their columns are not modelled.
- Printing is left out: `printAll`, `printValues`, `print_distribution` and `printResult` only write to the console.
- Every `main` is left out, along with the warm-up loops and the lists of sizes they run. number_crunching-why___/code_examples/src/main.cpp only calls the benchmark functions.
- Random engines and their distributions are left out. `random_int`, `randomNumber`, `mt19937` and `java.util.Random` (seeded or not) become an oracle that can return any value in the range, so the model says nothing about which values are drawn.
- `std::async` threads and their scheduling are left out. The concurrent path is modelled as its tasks run one after another; the tasks share no container, so the final contents are the same.
- java_battle/ideone_3eouT.cpp and java_battle/ideone_0l8Ct.java only time library sorts; the library sorts are modelled by `SortedInsertion.ReferenceSort`.
- `Collections.sort` and `Arrays.sort` are modelled as the unique ascending permutation. Their stability and algorithm are invisible for `int` values.
- Java `List.equals` between containers is modelled as sequence equality.
- The record size of ideone_W9vpT.cpp is a template parameter swept over 1 to 64 fields. Here it is a run-time length, `PodInsertion.GeneratePods`'s `podSize`, and `sizeof` is left out.
- Integer widths are left out. Values are unbounded `int`: the C++ `unsigned int` (`Number`) values and the Java `int` values are only compared and copied, and all of them fit.
- DynamicArray.DynamicIntArray.EnsureCapacity: the Java `int` overflow of `2 * length + 1` for arrays near `Integer.MAX_VALUE` cells is not modelled.
- DynamicArray.DynamicIntArray.WithCapacity: the capacity is a `nat`, so the `NegativeArraySizeException` of `new int[capacity]` for a negative capacity is not modelled.
- LinearErase.LinearErase: `size - 1` in an unsigned type wraps around when the container is empty, but the loop never draws then; the model takes positions as `nat`.
- LinearErase.LinearErase: the random positions themselves are not returned, only the erased values. The ghost result records which values were removed and in what order.
- Memory allocation, iterator invalidation and cache behaviour are left out; they affect only time, not contents.
