/**
 * `DynamicIntArray`: the hand-written growable `int` array of the Java benchmarks
 * (identical in java_battle/ideone_NH6jl.java, ideone_JOJ05.java and ideone_CSzOBE.java).
 * Its contents are the first `size` cells of `storage`; `getStorage` hands out the array
 * itself, so whoever sorts that array in place changes the contents too.
 */
module DynamicArray {
  import opened Sequences
  import opened Errors

  /**
   * `System.arraycopy(src, srcPos, dest, destPos, length)`: copies as if through a
   * temporary array, so overlapping ranges of one array are copied correctly.
   */
  method ArrayCopy(src: array<int>, srcPos: nat, dest: array<int>, destPos: nat, length: nat)
    requires srcPos + length <= src.Length && destPos + length <= dest.Length
    modifies dest
    ensures forall m :: 0 <= m < dest.Length ==>
      dest[m] == if destPos <= m < destPos + length then old(src[srcPos + (m - destPos)]) else old(dest[m])
  {
    var tmp := src[srcPos..srcPos + length];
    var k := 0;
    while k < length
      invariant 0 <= k <= length
      invariant forall m :: 0 <= m < dest.Length ==>
        dest[m] == if destPos <= m < destPos + k then tmp[m - destPos] else old(dest[m])
    {
      dest[destPos + k] := tmp[k];
      k := k + 1;
    }
  }

  /** `Arrays.copyOf(original, newLength)` for a longer array: the old cells, then zeros. */
  method CopyOf(original: array<int>, newLength: nat) returns (copy: array<int>)
    requires original.Length <= newLength
    ensures fresh(copy) && copy.Length == newLength
    ensures copy[..original.Length] == original[..]
    ensures forall m :: original.Length <= m < newLength ==> copy[m] == 0
  {
    copy := new int[newLength](_ => 0);
    var k := 0;
    while k < original.Length
      invariant 0 <= k <= original.Length
      invariant copy[..k] == original[..k]
      invariant forall m :: original.Length <= m < newLength ==> copy[m] == 0
    {
      copy[k] := original[k];
      k := k + 1;
    }
  }

  /** Cell-by-cell description of `Removed`, used after the `arraycopy` shift. */
  lemma RemovedFromCells(cells: seq<int>, before: seq<int>, index: nat)
    requires index < |before| && |cells| == |before| - 1
    requires forall m :: 0 <= m < index ==> cells[m] == before[m]
    requires forall m :: index <= m < |cells| ==> cells[m] == before[m + 1]
    ensures cells == Removed(before, index)
  {
  }

  /** Cell-by-cell description of `Inserted`, used after the `arraycopy` shift. */
  lemma GapOpened(before: seq<int>, after: seq<int>, n: nat, index: nat, value: int)
    requires index <= n < |before| == |after|
    requires forall k :: 0 <= k < index ==> after[k] == before[k]
    requires after[index] == value
    requires forall k :: index < k <= n ==> after[k] == before[k - 1]
    ensures after[..n + 1] == Inserted(before[..n], index, value)
  {
    var r := Inserted(before[..n], index, value);
    forall k | 0 <= k <= n ensures after[k] == r[k] {
      InsertedAt(before[..n], index, value, k);
    }
  }

  class DynamicIntArray {
    var storage: array<int>
    var size: nat
    const INITIAL_CAPACITY: nat := 8
    const GROW_FACTOR: nat := 2

    /** The class invariant: the used cells fit in the storage array. */
    ghost predicate Valid()
      reads this
    {
      size <= storage.Length
    }

    /** What the array holds: the first `size` cells of `storage`. */
    ghost function Elements(): seq<int>
      reads this, storage
      requires Valid()
    {
      storage[..size]
    }

    /** `new DynamicIntArray()`: empty, with room for `INITIAL_CAPACITY` values. */
    constructor ()
      ensures Valid() && fresh(storage)
      ensures storage.Length == INITIAL_CAPACITY && Elements() == []
    {
      storage := new int[INITIAL_CAPACITY];
      size := 0;
    }

    /** `new DynamicIntArray(capacity)`: empty, with room for `capacity` values. */
    constructor WithCapacity(capacity: nat)
      ensures Valid() && fresh(storage)
      ensures storage.Length == capacity && Elements() == []
    {
      storage := new int[capacity];
      size := 0;
    }

    function Size(): (n: nat)
      reads this
      requires Valid()
      ensures n == |Elements()|
    {
      size
    }

    /** `rangeCheck`: succeeds exactly for an index of a stored element. */
    method RangeCheck(index: int) returns (r: Result<()>)
      requires Valid()
      ensures r.Ok? <==> 0 <= index < |Elements()|
      ensures r.Err? ==> r.error == IndexOutOfBounds(index, |Elements()|)
    {
      if index < 0 || index >= size {
        return Err(IndexOutOfBounds(index, size));
      }
      return Ok(());
    }

    /**
     * `ensureCapacity(sizeWanted)`: grows the storage to `2 * length + 1` cells exactly
     * when more than `length` cells are wanted, keeping the contents.
     */
    method EnsureCapacity(sizeWanted: int)
      requires Valid()
      modifies this
      ensures Valid() && size == old(size) && Elements() == old(Elements())
      ensures storage.Length == if sizeWanted > old(storage.Length)
                                then GROW_FACTOR * old(storage.Length) + 1
                                else old(storage.Length)
      ensures if sizeWanted > old(storage.Length) then fresh(storage) else storage == old(storage)
    {
      var maxCapacity := storage.Length;
      if sizeWanted > maxCapacity {
        maxCapacity := maxCapacity * GROW_FACTOR + 1;
        storage := CopyOf(storage, maxCapacity);
      }
    }

    /** `equals(list)`: true iff `list` holds the same values in the same order. */
    method Equals(list: seq<int>) returns (success: bool)
      requires Valid()
      ensures success <==> Elements() == list
    {
      success := |list| == size;
      if success {
        var idx := 0;
        while success && idx < size
          invariant 0 <= idx <= size
          invariant success <==> forall k :: 0 <= k < idx ==> storage[k] == list[k]
        {
          var r := Get(idx);
          success := success && r.value == list[idx];
          idx := idx + 1;
        }
        if success {
          assert Elements() == list;
        }
      }
    }

    /** `get(position)`: the value stored there, or the exception outside `[0, size)`. */
    method Get(position: int) returns (r: Result<int>)
      requires Valid()
      ensures 0 <= position < |Elements()| ==> r == Ok(Elements()[position])
      ensures !(0 <= position < |Elements()|) ==> r == Err(IndexOutOfBounds(position, |Elements()|))
    {
      var check := RangeCheck(position);
      if check.Err? {
        return Err(check.error);
      }
      return Ok(storage[position]);
    }

    /** `set(index, value)`: replaces one stored value, or throws outside `[0, size)`. */
    method Set(index: int, value: int) returns (r: Result<()>)
      requires Valid()
      modifies storage
      ensures Valid()
      ensures r.Ok? <==> 0 <= index < old(size)
      ensures r.Ok? ==> Elements() == old(Elements())[index := value]
      ensures r.Err? ==> r.error == IndexOutOfBounds(index, old(size)) && Elements() == old(Elements())
      ensures forall k :: 0 <= k < storage.Length && k != index ==> storage[k] == old(storage[k])
    {
      r := RangeCheck(index);
      if r.Ok? {
        storage[index] := value;
      }
    }

    /** `add(value)`: `insertAt(size, value)`, the same as C++ `push_back`. */
    method Add(value: int)
      requires Valid()
      modifies this, storage
      ensures Valid() && Elements() == old(Elements()) + [value]
      ensures old(size) < old(storage.Length) ==> storage == old(storage)
      ensures old(size) == old(storage.Length) ==> fresh(storage) && storage.Length == GROW_FACTOR * old(storage.Length) + 1
    {
      var r := InsertAt(size, value);
      assert Elements() == Inserted(old(Elements()), old(size), value);
    }

    /**
     * `insertAt(index, value)`: opens a gap at `index` by shifting the tail one cell up,
     * growing the storage first if it is full. `index == size` appends; any index outside
     * `[0, size]` throws and changes nothing.
     */
    method InsertAt(index: int, value: int) returns (r: Result<()>)
      requires Valid()
      modifies this, storage
      ensures Valid()
      ensures r.Ok? <==> 0 <= index <= old(size)
      ensures r.Ok? ==> Elements() == Inserted(old(Elements()), index, value) && size == old(size) + 1
      ensures r.Err? ==> r.error == IndexOutOfBounds(index, old(size))
      ensures r.Err? ==> size == old(size) && storage == old(storage) && unchanged(storage)
      ensures r.Ok? && old(size) < old(storage.Length) ==> storage == old(storage)
      ensures r.Ok? && old(size) == old(storage.Length) ==>
        fresh(storage) && storage.Length == GROW_FACTOR * old(storage.Length) + 1
    {
      if index < 0 || index > size {
        return Err(IndexOutOfBounds(index, size));
      }
      StoreAt(index, value);
      r := Ok(());
    }

    /**
     * The body of `insertAt` past its range check: grow if full, shift the tail up, store
     * the value and count it.
     */
    method StoreAt(index: nat, value: int)
      requires Valid() && index <= size
      modifies this, storage
      ensures Valid()
      ensures Elements() == Inserted(old(Elements()), index, value) && size == old(size) + 1
      ensures old(size) < old(storage.Length) ==> storage == old(storage)
      ensures old(size) == old(storage.Length) ==>
        fresh(storage) && storage.Length == GROW_FACTOR * old(storage.Length) + 1
    {
      ghost var before := Elements();
      EnsureCapacity(size + 1);
      ghost var cells := storage[..];
      assert cells[..size] == before;
      OpenGap(index, value);
      GapOpened(cells, storage[..], size, index, value);
      size := size + 1;
      assert Elements() == storage[..][..size];
    }

    /**
     * The shift and store inside `insertAt`: `arraycopy` of the `size - index` cells from
     * `index` one cell up, when there are any, then `value` into the cell at `index`. Needs
     * one free cell behind the used ones.
     */
    method OpenGap(index: nat, value: int)
      requires Valid() && index <= size < storage.Length
      modifies storage
      ensures forall k :: 0 <= k < index ==> storage[k] == old(storage[k])
      ensures storage[index] == value
      ensures forall k :: index < k <= size ==> storage[k] == old(storage[k - 1])
    {
      var moveCount := size - index;
      if moveCount > 0 {
        ArrayCopy(storage, index, storage, index + 1, moveCount);
      }
      storage[index] := value;
    }

    /**
     * `removeAt(index)`: closes the gap at `index` by shifting the tail one cell down;
     * throws outside `[0, size)` and changes nothing then.
     */
    method RemoveAt(index: int) returns (r: Result<()>)
      requires Valid()
      modifies this, storage
      ensures Valid() && storage == old(storage)
      ensures r.Ok? <==> 0 <= index < old(size)
      ensures r.Ok? ==> Elements() == Removed(old(Elements()), index) && size == old(size) - 1
      ensures r.Err? ==> r.error == IndexOutOfBounds(index, old(size))
      ensures r.Err? ==> size == old(size) && unchanged(storage)
    {
      r := RangeCheck(index);
      if r.Err? {
        return;
      }
      ghost var before := Elements();
      ghost var cells := storage[..];
      var moveCount := size - index - 1;
      if moveCount > 0 {
        ArrayCopy(storage, index + 1, storage, index, moveCount);
      }
      assert forall m :: 0 <= m < index ==> storage[m] == before[m];
      assert forall m :: index <= m < size - 1 ==> storage[m] == cells[m + 1] == before[m + 1];
      size := size - 1;
      RemovedFromCells(storage[..size], before, index);
    }

    /** `getStorage()`: the storage array itself, not a copy. */
    method GetStorage() returns (a: array<int>)
      ensures a == storage
    {
      a := storage;
    }
  }
}
