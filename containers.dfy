/**
 * The standard-library sequence containers the benchmarks operate on: C++ `std::list`,
 * `std::vector` and `std::deque`, and Java `LinkedList`, `ArrayList` and `Vector`.
 * They differ only in cost, so one model covers all of them; an iterator is an index
 * into `items` (the C++ `end()` iterator is `|items|`).
 */
module Containers {
  import opened Sequences

  class Container<T> {
    var items: seq<T>

    constructor Empty()
      ensures items == []
    {
      items := [];
    }

    /** A container built from a collection: `new ArrayList<>(Arrays.asList(array))`. */
    constructor Of(s: seq<T>)
      ensures items == s
    {
      items := s;
    }

    /** C++ `insert(itr, v)` / Java `add(i, v)`: returns the position of the new element. */
    method Insert(pos: nat, v: T) returns (at: nat)
      requires pos <= |items|
      modifies this
      ensures items == Inserted(old(items), pos, v)
      ensures at == pos
    {
      items := Inserted(items, pos, v);
      at := pos;
    }

    /** C++ `erase(itr)` / Java `remove(int)`. */
    method Erase(pos: nat)
      requires pos < |items|
      modifies this
      ensures items == Removed(old(items), pos)
    {
      items := Removed(items, pos);
    }

    /** C++ `push_back(v)` / Java `add(v)`. */
    method PushBack(v: T)
      modifies this
      ensures items == old(items) + [v]
    {
      items := items + [v];
    }

    /** Java `set(i, v)`. */
    method Set(pos: nat, v: T)
      requires pos < |items|
      modifies this
      ensures items == old(items)[pos := v]
    {
      items := items[pos := v];
    }
  }
}
