/**
 * The small iterators of the decoder's list utilities: `upto(n)`, which counts
 * 0, 1, ..., n - 1, and `eachWithIndex`, which walks an array or another
 * iterator and hands out each element with its position. The indexed
 * iterators do not allocate a holder per element: after the first call, every
 * `next()` overwrites the value and index of one shared holder object.
 */
module Lists {
  import opened Wrappers

  /** The numbers 0, 1, ..., n - 1 (nothing when n is not positive). */
  function Range(n: int): (r: seq<int>)
    ensures |r| == if n < 0 then 0 else n
    ensures forall i :: 0 <= i < |r| ==> r[i] == i
  {
    if n <= 0 then [] else Range(n - 1) + [n - 1]
  }

  // ---------------------------------------------------------------------------
  // upto

  /** The iterator of `upto(exclusiveUpperBound)`. */
  class UptoIterator {
    const exclusiveUpperBound: int
    var next: int

    ghost predicate Valid()
      reads this
    {
      0 <= next && (next <= exclusiveUpperBound || next == 0)
    }

    constructor (exclusiveUpperBound: int)
      ensures Valid()
      ensures this.exclusiveUpperBound == exclusiveUpperBound && next == 0
    {
      this.exclusiveUpperBound := exclusiveUpperBound;
      next := 0;
    }

    predicate HasNext()
      reads this
    {
      next < exclusiveUpperBound
    }

    /** The current count, which then moves on by one; past the bound, an error and no change. */
    method Next() returns (r: Result<int, string>)
      requires Valid()
      modifies this
      ensures Valid()
      ensures old(HasNext()) ==> r == Success(old(next)) && next == old(next) + 1
      ensures !old(HasNext()) ==> r == Failure("NoSuchElementException") && next == old(next)
    {
      if !HasNext() {
        return Failure("NoSuchElementException");
      }
      var result := next;
      next := next + 1;
      return Success(result);
    }

    /** Removal is not supported. */
    method Remove() returns (r: Outcome<string>)
      ensures r == Fail("UnsupportedOperationException")
    {
      return Fail("UnsupportedOperationException");
    }
  }

  /**
   * A client draining `upto(n)`: it yields exactly 0, 1, ..., n - 1 in order,
   * and then has no next element.
   */
  method CollectUpto(n: int) returns (xs: seq<int>)
    ensures xs == Range(n)
  {
    var it := new UptoIterator(n);
    xs := [];
    while it.HasNext()
      invariant it.Valid() && it.exclusiveUpperBound == n
      invariant it.next == |xs| && xs == Range(|xs|)
      decreases n - it.next
    {
      var r := it.Next();
      xs := xs + [r.value];
    }
    assert !it.HasNext();
  }

  // ---------------------------------------------------------------------------
  // The holders

  /**
   * `Indexed<V>` (and its primitive twins `IndexedByte`, `IndexedInt`, ...):
   * an element and its position, both overwritten as iteration proceeds.
   */
  class Indexed<V> {
    var value: V
    var index: int

    constructor (value: V, index: int)
      ensures this.value == value && this.index == index
    {
      this.value := value;
      this.index := index;
    }

    /** `setIndex`: the index is replaced. */
    method SetIndex(index: int)
      modifies this
      ensures this.index == index && value == old(value)
    {
      this.index := index;
    }

    /** `setValue`: the value is replaced and the index moves on by exactly one. */
    method SetValue(value: V)
      modifies this
      ensures this.value == value && index == old(index) + 1
    {
      this.value := value;
      index := index + 1;
    }
  }

  // ---------------------------------------------------------------------------
  // eachWithIndex over an array

  /**
   * The iterator of `eachWithIndex(array)` as written: `nextIndex` starts at
   * -1 and `hasNext` compares it with the length, so an empty array claims a
   * first element and the first `next()` reads outside it.
   */
  class ArrayIndexedIterator<V> {
    const list: array<V>
    var nextIndex: int
    var indexedValue: Indexed?<V>

    /** After `k >= 1` successful calls, the holder shows element `k - 1`. */
    ghost predicate Valid()
      reads this, list, indexedValue
    {
      && -1 <= nextIndex <= list.Length
      && (nextIndex == 0 ==> list.Length == 0)
      && (nextIndex < 0 ==> indexedValue == null)
      && (nextIndex >= 1 ==>
            indexedValue != null && indexedValue.index == nextIndex - 1
            && indexedValue.value == list[nextIndex - 1])
    }

    constructor (list: array<V>)
      ensures Valid()
      ensures this.list == list && nextIndex == -1 && indexedValue == null
    {
      this.list := list;
      nextIndex := -1;
      indexedValue := null;
    }

    predicate HasNext()
      reads this
    {
      nextIndex < list.Length
    }

    /**
     * The next element and its position, in the shared holder. The first call
     * creates the holder; later calls overwrite it. On an empty array the
     * first call fails with an index error.
     */
    method Next() returns (r: Result<Indexed<V>, string>)
      requires Valid()
      modifies this, indexedValue
      ensures Valid()
      ensures old(nextIndex) >= list.Length ==>
        && r == Failure("NoSuchElementException") && nextIndex == old(nextIndex)
        && indexedValue == old(indexedValue)
        && (indexedValue != null ==>
              indexedValue.value == old(indexedValue.value) && indexedValue.index == old(indexedValue.index))
      ensures old(nextIndex) < 0 && list.Length == 0 ==>
        && r == Failure("ArrayIndexOutOfBoundsException") && nextIndex == 0
        && indexedValue == old(indexedValue)
      ensures var k := if old(nextIndex) < 0 then 0 else old(nextIndex);
        k < list.Length ==>
          && r.Success? && r.value == indexedValue
          && r.value.value == list[k] && r.value.index == k
          && nextIndex == k + 1
          && (old(nextIndex) < 0 ==> fresh(r.value))
          && (old(nextIndex) >= 0 ==> r.value == old(indexedValue))
    {
      if nextIndex >= list.Length {
        return Failure("NoSuchElementException");
      } else if nextIndex < 0 {
        nextIndex := 0;
        if list.Length == 0 {
          return Failure("ArrayIndexOutOfBoundsException");
        }
        indexedValue := new Indexed(list[nextIndex], nextIndex);
      } else {
        indexedValue.value := list[nextIndex];
        indexedValue.index := nextIndex;
      }
      nextIndex := nextIndex + 1;
      return Success(indexedValue);
    }

    /** Removal is not supported. */
    method Remove() returns (r: Outcome<string>)
      ensures r == Fail("UnsupportedOperationException")
    {
      return Fail("UnsupportedOperationException");
    }
  }

  /**
   * A client of the iterator as written: every element of a non-empty array
   * is seen once, in order, with its position, and `hasNext` turns false
   * exactly after `list.Length` calls; on an empty array the first call fails.
   */
  method CollectArrayAsWritten<V>(list: array<V>) returns (r: Outcome<string>, values: seq<V>, indices: seq<int>)
    ensures list.Length == 0 ==> r == Fail("ArrayIndexOutOfBoundsException")
    ensures list.Length > 0 ==> r.Pass? && values == list[..] && indices == Range(list.Length)
  {
    var it := new ArrayIndexedIterator(list);
    values, indices := [], [];
    while it.HasNext()
      invariant it.Valid() && it.list == list && fresh(it)
      invariant it.indexedValue != null ==> fresh(it.indexedValue)
      invariant list.Length > 0 ==> it.nextIndex == (if values == [] then -1 else |values|)
      invariant list.Length == 0 ==> it.nextIndex == -1 && values == []
      invariant values == list[..|values|] && indices == Range(|values|)
      decreases list.Length - it.nextIndex
    {
      var step := it.Next();
      if step.Failure? {
        return Fail(step.error), values, indices;
      }
      values, indices := values + [step.value.value], indices + [step.value.index];
    }
    assert list[..|values|] == list[..];
    return Pass, values, indices;
  }

  /**
   * The holder is shared: after two calls, the reference returned by the first
   * shows the second element and the second position.
   */
  method EarlierHolderSeesLaterValues<V>(list: array<V>) returns (first: Indexed<V>, second: Indexed<V>)
    requires list.Length >= 2
    ensures first == second
    ensures first.value == list[1] && first.index == 1
  {
    var it := new ArrayIndexedIterator(list);
    var r1 := it.Next();
    first := r1.value;
    var r2 := it.Next();
    second := r2.value;
  }

  /**
   * The iterator as it was evidently meant to behave: `hasNext` is false on an
   * empty array, so the empty case ends without touching the array.
   */
  class FixedArrayIndexedIterator<V> {
    const list: array<V>
    var nextIndex: int
    var indexedValue: Indexed?<V>

    ghost predicate Valid()
      reads this, list, indexedValue
    {
      && -1 <= nextIndex <= list.Length
      && nextIndex != 0
      && (nextIndex < 0 ==> indexedValue == null)
      && (nextIndex >= 1 ==>
            indexedValue != null && indexedValue.index == nextIndex - 1
            && indexedValue.value == list[nextIndex - 1])
    }

    constructor (list: array<V>)
      ensures Valid()
      ensures this.list == list && nextIndex == -1 && indexedValue == null
    {
      this.list := list;
      nextIndex := -1;
      indexedValue := null;
    }

    /** The position the next call reads, compared with the length. */
    predicate HasNext()
      reads this
    {
      (if nextIndex < 0 then 0 else nextIndex) < list.Length
    }

    method Next() returns (r: Result<Indexed<V>, string>)
      requires Valid()
      modifies this, indexedValue
      ensures Valid()
      ensures !old(HasNext()) ==>
        && r == Failure("NoSuchElementException") && nextIndex == old(nextIndex)
        && indexedValue == old(indexedValue)
        && (indexedValue != null ==>
              indexedValue.value == old(indexedValue.value) && indexedValue.index == old(indexedValue.index))
      ensures var k := if old(nextIndex) < 0 then 0 else old(nextIndex);
        k < list.Length ==>
          && r.Success? && r.value == indexedValue
          && r.value.value == list[k] && r.value.index == k
          && nextIndex == k + 1
          && (old(nextIndex) < 0 ==> fresh(r.value))
          && (old(nextIndex) >= 0 ==> r.value == old(indexedValue))
    {
      if !HasNext() {
        return Failure("NoSuchElementException");
      } else if nextIndex < 0 {
        nextIndex := 0;
        indexedValue := new Indexed(list[nextIndex], nextIndex);
      } else {
        indexedValue.value := list[nextIndex];
        indexedValue.index := nextIndex;
      }
      nextIndex := nextIndex + 1;
      return Success(indexedValue);
    }
  }

  /** With the corrected iterator every array, the empty one included, is walked completely. */
  method CollectArray<V>(list: array<V>) returns (values: seq<V>, indices: seq<int>)
    ensures values == list[..] && indices == Range(list.Length)
  {
    var it := new FixedArrayIndexedIterator(list);
    values, indices := [], [];
    while it.HasNext()
      invariant it.Valid() && it.list == list && fresh(it)
      invariant it.indexedValue != null ==> fresh(it.indexedValue)
      invariant it.nextIndex == (if values == [] then -1 else |values|)
      invariant values == list[..|values|] && indices == Range(|values|)
      decreases list.Length - it.nextIndex
    {
      var step := it.Next();
      values, indices := values + [step.value.value], indices + [step.value.index];
    }
    assert list[..|values|] == list[..];
  }

  // ---------------------------------------------------------------------------
  // eachWithIndex over another iterator

  /** The wrapped `java.util.Iterator`, as a cursor over the elements it will produce. */
  class SeqIterator<V> {
    const items: seq<V>
    var pos: nat

    ghost predicate Valid()
      reads this
    {
      pos <= |items|
    }

    constructor (items: seq<V>)
      ensures Valid() && this.items == items && pos == 0
    {
      this.items := items;
      pos := 0;
    }

    predicate HasNext()
      reads this
    {
      pos < |items|
    }

    method Next() returns (v: V)
      requires Valid() && HasNext()
      modifies this
      ensures Valid()
      ensures v == items[old(pos)] && pos == old(pos) + 1
    {
      v := items[pos];
      pos := pos + 1;
    }
  }

  /**
   * The iterator of `eachWithIndex(Iterator)`: elements are numbered from 0 in
   * the order the wrapped iterator produces them, starting wherever that
   * iterator stood when it was wrapped.
   */
  class IteratorIndexedIterator<V> {
    const valueIterator: SeqIterator<V>
    /** Where the wrapped iterator stood when it was wrapped. */
    ghost const start: nat
    var nextIndex: int
    var indexedValue: Indexed?<V>

    ghost predicate Valid()
      reads this, valueIterator, indexedValue
    {
      && valueIterator.Valid()
      && start <= valueIterator.pos
      && (nextIndex == -1 || nextIndex >= 1)
      && (nextIndex == -1 ==> valueIterator.pos == start && indexedValue == null)
      && (nextIndex >= 1 ==>
            && valueIterator.pos == start + nextIndex
            && indexedValue != null && indexedValue.index == nextIndex - 1
            && indexedValue.value == valueIterator.items[valueIterator.pos - 1])
    }

    constructor (valueIterator: SeqIterator<V>)
      requires valueIterator.Valid()
      ensures Valid()
      ensures this.valueIterator == valueIterator && start == valueIterator.pos
      ensures nextIndex == -1 && indexedValue == null
    {
      this.valueIterator := valueIterator;
      start := valueIterator.pos;
      nextIndex := -1;
      indexedValue := null;
    }

    /** Delegated to the wrapped iterator. */
    predicate HasNext()
      reads this, valueIterator
    {
      valueIterator.HasNext()
    }

    /**
     * The wrapped iterator's next element, numbered by how many came before it
     * through this iterator; an error once the wrapped iterator is exhausted.
     */
    method Next() returns (r: Result<Indexed<V>, string>)
      requires Valid()
      modifies this, valueIterator, indexedValue
      ensures Valid()
      ensures !old(HasNext()) ==>
        && r == Failure("NoSuchElementException") && valueIterator.pos == old(valueIterator.pos)
        && nextIndex == old(nextIndex)
        && indexedValue == old(indexedValue)
        && (indexedValue != null ==>
              indexedValue.value == old(indexedValue.value) && indexedValue.index == old(indexedValue.index))
      ensures old(HasNext()) ==>
        && r.Success? && r.value == indexedValue
        && r.value.value == valueIterator.items[old(valueIterator.pos)]
        && r.value.index == old(valueIterator.pos) - start
        && valueIterator.pos == old(valueIterator.pos) + 1
        && (old(nextIndex) < 0 ==> fresh(r.value))
        && (old(nextIndex) >= 0 ==> r.value == old(indexedValue))
    {
      if !valueIterator.HasNext() {
        return Failure("NoSuchElementException");
      } else if nextIndex < 0 {
        nextIndex := 0;
        var v := valueIterator.Next();
        indexedValue := new Indexed(v, nextIndex);
      } else {
        var v := valueIterator.Next();
        indexedValue.value := v;
        indexedValue.index := nextIndex;
      }
      nextIndex := nextIndex + 1;
      return Success(indexedValue);
    }

    /** Removal is not supported. */
    method Remove() returns (r: Outcome<string>)
      ensures r == Fail("UnsupportedOperationException")
    {
      return Fail("UnsupportedOperationException");
    }
  }

  /**
   * `eachWithIndex(Iterable)` drained by a client: the iterable's elements in
   * order, numbered 0, 1, 2, ...
   */
  method CollectIterable<V>(items: seq<V>) returns (values: seq<V>, indices: seq<int>)
    ensures values == items && indices == Range(|items|)
  {
    var source := new SeqIterator(items);
    var it := new IteratorIndexedIterator(source);
    values, indices := [], [];
    while it.HasNext()
      invariant it.Valid() && it.valueIterator == source && source.items == items && it.start == 0
      invariant fresh(it) && fresh(source)
      invariant it.indexedValue != null ==> fresh(it.indexedValue)
      invariant source.pos == |values|
      invariant values == items[..|values|] && indices == Range(|values|)
      decreases |items| - source.pos
    {
      var step := it.Next();
      values, indices := values + [step.value.value], indices + [step.value.index];
    }
    assert items[..|values|] == items;
  }
}
