// The growable vector: operations on an array that is replaced by a larger one when full.
module DoubleVector {

  const INITIAL_CAPACITY: nat := 4

  // ---- What the operations mean ----

  function Clamped<T>(s: seq<T>, pos: nat): nat { if pos > |s| then |s| else pos }

  function InsertAt<T>(s: seq<T>, pos: nat, item: T): seq<T> {
    s[..Clamped(s, pos)] + [item] + s[Clamped(s, pos)..]
  }

  function RemoveAt<T>(s: seq<T>, pos: nat): seq<T> {
    if pos >= |s| then s else s[..pos] + s[pos + 1..]
  }

  function Front<T>(s: seq<T>): seq<T> { if |s| == 0 then s else s[..|s| - 1] }

  /** Removing where the item went undoes the insertion; removing at the position asked for does
      so exactly when that position did not have to be clamped. */
  lemma InsertThenRemove<T>(s: seq<T>, pos: nat, item: T)
    ensures RemoveAt(InsertAt(s, pos, item), Clamped(s, pos)) == s
    ensures RemoveAt(InsertAt(s, pos, item), pos) == s <==> pos <= |s|
  {
    var loc, t := Clamped(s, pos), InsertAt(s, pos, item);
    assert t[..loc] == s[..loc] && t[loc + 1..] == s[loc..];
  }

  /** Putting a removed item back undoes the removal. */
  lemma RemoveThenInsert<T>(s: seq<T>, pos: nat)
    requires pos < |s|
    ensures InsertAt(RemoveAt(s, pos), pos, s[pos]) == s
  {
    var t := RemoveAt(s, pos);
    assert t[..pos] == s[..pos] && t[pos..] == s[pos + 1..];
  }

  /** Past the end an item goes to the end, and a pop undoes it; elsewhere it goes to its position,
      with everything before it in place and everything from there on one place further. */
  lemma InsertGoesTo<T>(s: seq<T>, pos: nat, item: T)
    ensures pos >= |s| ==> InsertAt(s, pos, item) == s + [item] && Front(InsertAt(s, pos, item)) == s
    ensures pos < |s| ==>
              var r := InsertAt(s, pos, item);
              && |r| == |s| + 1 && r[pos] == item
              && (forall i :: 0 <= i < pos ==> r[i] == s[i]) && forall i :: pos <= i < |s| ==> r[i + 1] == s[i]
  {
  }

  /** Removal takes out the item at the position and closes the gap, and nothing past the end. */
  lemma RemoveTakesOut<T>(s: seq<T>, pos: nat)
    ensures pos >= |s| ==> RemoveAt(s, pos) == s
    ensures pos < |s| ==>
              var r := RemoveAt(s, pos);
              && |r| == |s| - 1
              && (forall i :: 0 <= i < pos ==> r[i] == s[i]) && forall i :: pos <= i < |r| ==> r[i] == s[i + 1]
  {
  }

  lemma Inserted<T>(t: seq<T>, s: seq<T>, loc: nat, item: T)
    requires loc <= |s| < |t|
    requires t[..loc] == s[..loc] && t[loc] == item && t[loc + 1..|s| + 1] == s[loc..]
    ensures t[..|s| + 1] == InsertAt(s, loc, item)
  {
    assert t[..|s| + 1] == t[..loc] + [t[loc]] + t[loc + 1..|s| + 1];
  }

  // ---- What growth costs ----

  /** moved counts the slots handed to realloc; largest is the largest size asked for. */
  datatype Growth = Growth(capacity: nat, moved: nat, largest: nat)

  function Max(a: nat, b: nat): nat { if a < b then b else a }

  function Request(g: Growth, size: nat): Growth {
    if size > g.capacity
    then Growth(Max(5 * g.capacity / 4, size), g.moved + g.capacity, Max(g.largest, size))
    else g.(largest := Max(g.largest, size))
  }

  function Requests(sizes: seq<nat>): Growth {
    if |sizes| == 0 then Growth(INITIAL_CAPACITY, 0, 0)
    else Request(Requests(sizes[..|sizes| - 1]), sizes[|sizes| - 1])
  }

  predicate Amortised(g: Growth) {
    && g.capacity >= INITIAL_CAPACITY && g.capacity >= g.largest
    && g.moved <= 7 * (g.capacity - INITIAL_CAPACITY)
    && 4 * g.capacity <= Max(16, 5 * g.largest)
  }

  lemma RequestKeepsAmortised(g: Growth, size: nat)
    requires Amortised(g)
    ensures Amortised(Request(g, size))
    ensures Request(g, size).capacity >= size
  {
    if size > g.capacity {
      var grown := 5 * g.capacity / 4;
      assert g.capacity == 4 * (g.capacity / 4) + g.capacity % 4;
      assert grown == g.capacity + g.capacity / 4;
    }
  }

  /** The storage grows exactly when it is too small, and then all of it is moved. */
  lemma GrowthMovesStorage(g: Growth, size: nat)
    ensures Request(g, size).capacity == g.capacity <==> size <= g.capacity
    ensures Request(g, size).moved - g.moved == if size <= g.capacity then 0 else g.capacity
    ensures Request(g, size).largest == if size <= g.largest then g.largest else size
  {
  }

  /** Whatever sizes are asked for, the cost of growing is linear in the largest. */
  lemma {:induction false} GrowthIsLinear(sizes: seq<nat>)
    ensures Amortised(Requests(sizes))
    ensures 4 * Requests(sizes).moved <= 35 * Requests(sizes).largest
    ensures forall i :: 0 <= i < |sizes| ==> sizes[i] <= Requests(sizes).largest
    ensures Requests(sizes).largest == 0 || Requests(sizes).largest in sizes
  {
    if |sizes| > 0 {
      GrowthIsLinear(sizes[..|sizes| - 1]);
      RequestKeepsAmortised(Requests(sizes[..|sizes| - 1]), sizes[|sizes| - 1]);
    }
  }

  // ---- Moving items within and between arrays ----

  /** Moves the items of a[loc..size] up by one. */
  method ShiftUp<T>(a: array<T>, loc: nat, size: nat)
    requires loc <= size < a.Length
    modifies a
    ensures a[..loc] == old(a[..loc])
    ensures a[loc + 1..size + 1] == old(a[loc..size])
  {
    var i := size;
    while i > loc
      invariant loc <= i <= size
      invariant forall k :: 0 <= k < i ==> a[k] == old(a[k])
      invariant forall k :: i < k <= size ==> a[k] == old(a[k - 1])
    {
      a[i] := a[i - 1];
      i := i - 1;
    }
  }

  /** Makes room at loc and stores the item there. */
  method PlaceAt<T>(a: array<T>, loc: nat, size: nat, item: T)
    requires loc <= size < a.Length
    modifies a
    ensures a[..size + 1] == InsertAt(old(a[..size]), loc, item)
  {
    ghost var was := a[..size];
    ShiftUp(a, loc, size);
    a[loc] := item;
    assert a[..loc] == was[..loc] && a[loc + 1..size + 1] == was[loc..];
    Inserted(a[..], was, loc, item);
  }

  /** Moves the items of a[pos + 1..size] down by one. */
  method ShiftDown<T>(a: array<T>, pos: nat, size: nat)
    requires pos < size <= a.Length
    modifies a
    ensures a[..pos] == old(a[..pos])
    ensures a[pos..size - 1] == old(a[pos + 1..size])
  {
    for i := pos to size - 1
      invariant forall k :: 0 <= k < pos ==> a[k] == old(a[k])
      invariant forall k :: pos <= k < i ==> a[k] == old(a[k + 1])
      invariant forall k :: i <= k < size ==> a[k] == old(a[k])
    {
      a[i] := a[i + 1];
    }
  }

  /** Copies the first size items; the arrays may be the same. */
  method CopyFront<T>(source: array<T>, target: array<T>, size: nat)
    requires size <= source.Length && size <= target.Length
    modifies target
    ensures target[..size] == source[..size] == old(source[..size])
  {
    for i := 0 to size
      invariant source[..size] == old(source[..size])
      invariant forall k :: 0 <= k < i ==> target[k] == old(source[k])
    {
      target[i] := source[i];
    }
  }

  // ---- The vector ----

  class Vector<T(0)> {
    var size: nat
    var capacity: nat
    var data: array<T>
    ghost var growth: Growth

    /** The storage alone; size may run ahead of it inside an operation. */
    ghost predicate Stored()
      reads this
    {
      data.Length == capacity == growth.capacity && Amortised(growth)
    }

    ghost predicate Valid()
      reads this
    {
      Stored() && size <= capacity
    }

    ghost function Contents(): seq<T>
      requires Valid()
      reads this, data
    {
      data[..size]
    }

    constructor ()
      ensures Valid() && fresh(data) && Contents() == [] && growth == Requests([])
    {
      size := 0;
      capacity := INITIAL_CAPACITY;
      data := new T[INITIAL_CAPACITY];
      growth := Growth(INITIAL_CAPACITY, 0, 0);
    }

    method EnsureCapacity(newSize: nat)
      requires Stored()
      modifies this`capacity, this`data, this`growth
      ensures Stored() && newSize <= capacity && growth == Request(old(growth), newSize)
      ensures if newSize <= old(capacity) then data == old(data) else fresh(data)
      ensures data[..old(capacity)] == old(data[..])
    {
      RequestKeepsAmortised(growth, newSize);
      growth := Request(growth, newSize);
      if newSize > capacity {
        var newCapacity := capacity * 5 / 4;
        if newCapacity < newSize { newCapacity := newSize; }
        var newData := new T[newCapacity];
        forall i | 0 <= i < capacity { newData[i] := data[i]; }
        data := newData;
        capacity := newCapacity;
      }
    }

    method Push(item: T)
      requires Valid()
      modifies this, data
      ensures Valid() && (data == old(data) || fresh(data))
      ensures Contents() == old(Contents()) + [item]
      ensures growth == Request(old(growth), old(size) + 1)
    {
      var oldSize := size;
      size := oldSize + 1;
      EnsureCapacity(oldSize + 1);
      assert data[..oldSize] == data[..old(capacity)][..oldSize];
      data[oldSize] := item;
    }

    method Pop()
      requires Valid()
      modifies this`size
      ensures Valid() && Contents() == Front(old(Contents()))
    {
      var oldSize := size;
      if oldSize > 0 { size := oldSize - 1; }
    }

    method Last(nan: T) returns (item: T)
      requires Valid()
      ensures item == if |Contents()| > 0 then Contents()[|Contents()| - 1] else nan
    {
      if size > 0 { return data[size - 1]; }
      return nan;
    }

    method Clear()
      requires Valid()
      modifies this`size
      ensures Valid() && Contents() == []
    {
      size := 0;
    }

    method InsertItem(pos: nat, item: T)
      requires Valid()
      modifies this, data
      ensures Valid() && (data == old(data) || fresh(data))
      ensures Contents() == InsertAt(old(Contents()), pos, item)
      ensures growth == Request(old(growth), old(size) + 1)
    {
      hide Request, Amortised;
      ghost var was := Contents();
      var oldSize := size;
      var loc := pos;
      if loc > oldSize { loc := oldSize; }
      EnsureCapacity(oldSize + 1);
      assert data[..oldSize] == data[..old(capacity)][..oldSize] == was;
      PlaceAt(data, loc, oldSize, item);
      size := oldSize + 1;
      assert InsertAt(was, loc, item) == InsertAt(was, pos, item);
    }

    method RemoveItem(pos: nat)
      requires Valid()
      modifies this`size, data
      ensures Valid() && Contents() == RemoveAt(old(Contents()), pos)
    {
      hide Amortised;
      if pos >= size { return; }
      ShiftDown(data, pos, size);
      size := size - 1;
      assert data[..size] == data[..pos] + data[pos..size];
    }

    /** Makes dest a copy that shares no storage with this vector. */
    method Copy(dest: Vector<T>)
      requires Valid() && dest.Valid()
      requires dest != this ==> dest.data != data
      modifies dest, dest.data
      ensures dest.Valid() && Valid() && (dest.data == old(dest.data) || fresh(dest.data))
      ensures dest.Contents() == old(Contents())
      ensures dest != this ==>
          dest.data != data && Contents() == old(Contents()) && dest.growth == Request(old(dest.growth), size)
    {
      ghost var was := Contents();
      dest.size := size;
      dest.EnsureCapacity(size);
      assert dest == this ==> data == old(data);
      assert data[..size] == was;
      CopyFront(data, dest.data, size);
    }
  }
}
