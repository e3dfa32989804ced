/**
 Array operations on a value (json_value.cpp): an array is a map from indices to values in which slots
 may be missing. A missing slot reads as null, and the size is the highest present index plus one.
 */
module JsonArray {
  import opened Bytes
  import opened JsonValue

  /** The map of an array. */
  predicate IsArrayMap(m: Entries) {
    Sorted(m) && KeysOfKind(m, true)
  }

  function Slot(m: Entries, j: nat): Option<Value> {
    Find(m, Index(j))
  }

  /** What the read-only subscript returns. */
  function Read(m: Entries, j: nat): (v: Value)
    ensures v == Get(m, Index(j))
  {
    match Slot(m, j)
    case Some(v) => v
    case None => NULL_VALUE
  }

  /** What reading every index below the size yields. */
  function View(m: Entries): seq<Value> {
    seq(ArraySize(m), i requires 0 <= i => Read(m, i))
  }

  /** No slot below the size is missing. */
  predicate Dense(m: Entries) {
    forall j :: 0 <= j < ArraySize(m) ==> Slot(m, j).Some?
  }

  // --------------------------------------------------------------------------- Slots and size

  lemma {:induction false} SlotsAfterSet(m: Entries, i: nat, v: Value)
    requires IsArrayMap(m)
    ensures IsArrayMap(Set(m, Index(i), v))
    ensures forall j: nat :: Slot(Set(m, Index(i), v), j) == if j == i then Some(v) else Slot(m, j)
  {
    SetSorted(m, Index(i), v);
    forall j: nat ensures Slot(Set(m, Index(i), v), j) == if j == i then Some(v) else Slot(m, j) {
      FindAfterSet(m, Index(i), v, Index(j));
    }
  }

  lemma {:induction false} SlotsAfterErase(m: Entries, i: nat)
    requires IsArrayMap(m)
    ensures IsArrayMap(Erase(m, Index(i)))
    ensures forall j: nat :: Slot(Erase(m, Index(i)), j) == if j == i then None else Slot(m, j)
  {
    EraseSorted(m, Index(i));
    forall j: nat ensures Slot(Erase(m, Index(i)), j) == if j == i then None else Slot(m, j) {
      FindAfterErase(m, Index(i), Index(j));
    }
  }

  lemma {:induction false} NothingAbove(m: Entries, j: nat)
    requires IsArrayMap(m) && ArraySize(m) <= j
    ensures m.Cons? ==> m.key.n < j
    ensures Slot(m, j) == None
  {
    if m.Cons? {
      NothingAbove(m.rest, j);
    }
  }

  lemma {:induction false} LastSlot(m: Entries)
    requires IsArrayMap(m) && m.Cons?
    ensures m.key.n < ArraySize(m) && Slot(m, ArraySize(m) - 1).Some?
  {
    if m.rest.Cons? {
      LastSlot(m.rest);
    }
  }

  lemma {:induction false} HighestSlot(m: Entries)
    requires IsArrayMap(m)
    ensures 0 < ArraySize(m) ==> Slot(m, ArraySize(m) - 1).Some?
    ensures m.Nil? <==> ArraySize(m) == 0
    ensures forall j: nat :: ArraySize(m) <= j ==> Slot(m, j) == None
  {
    if m.Cons? {
      LastSlot(m);
    }
    forall j: nat | ArraySize(m) <= j ensures Slot(m, j) == None {
      NothingAbove(m, j);
    }
  }

  /** The size is the one number with the highest present slot just below it. */
  lemma {:induction false} SizeIs(m: Entries, n: nat)
    requires IsArrayMap(m) && forall j: nat :: n <= j ==> Slot(m, j) == None
    ensures ArraySize(m) <= n
    ensures ArraySize(m) == n <==> n == 0 || Slot(m, n - 1).Some?
  {
    HighestSlot(m);
  }

  /**
   What removing an index comes to. Everything behind it reads one place lower; the size goes down by one
   unless the last slot was removed with the one before it missing; of a dense array the sequence loses
   one element.
   */
  ghost predicate WithoutIndex(before: Entries, after: Entries, index: nat) {
    && index < ArraySize(before)
    && (forall j: nat :: Read(after, j) == Read(before, if j < index then j else j + 1))
    && (var n := ArraySize(before);
        ArraySize(after) == n - 1 <==> index + 1 < n || n == 1 || (n >= 2 && Slot(before, n - 2).Some?))
    && (Dense(before) ==> Dense(after) && View(after) == View(before)[..index] + View(before)[index + 1..])
  }

  /** The slots of `after` are those of `before` with everything behind `index` one place lower. */
  ghost predicate ShiftedAndCut(before: Entries, after: Entries, index: nat) {
    forall j: nat ::
      Slot(after, j) == if index <= j < ArraySize(before) - 1 then Some(Read(before, j + 1))
                        else if j == ArraySize(before) - 1 then None else Slot(before, j)
  }

  lemma {:induction false} DroppedReads(before: Entries, after: Entries, index: nat)
    requires IsArrayMap(before) && index < ArraySize(before) && ShiftedAndCut(before, after, index)
    ensures forall j: nat :: Read(after, j) == Read(before, if j < index then j else j + 1)
  {
    hide Find, Sorted, KeysOfKind, ArraySize;
    HighestSlot(before);
  }

  lemma {:induction false} DroppedFromDense(before: Entries, after: Entries, index: nat)
    requires index < ArraySize(before) && ArraySize(after) == ArraySize(before) - 1
    requires ShiftedAndCut(before, after, index) && Dense(before)
    requires forall j: nat :: Read(after, j) == Read(before, if j < index then j else j + 1)
    ensures Dense(after) && View(after) == View(before)[..index] + View(before)[index + 1..]
  {
    hide Find, ArraySize, Slot, Read;
  }

  lemma {:induction false} Dropped(before: Entries, after: Entries, index: nat)
    requires IsArrayMap(before) && IsArrayMap(after) && Slot(before, index).Some? && index < ArraySize(before)
    requires ShiftedAndCut(before, after, index)
    ensures WithoutIndex(before, after, index)
  {
    hide Find, Sorted, KeysOfKind, ArraySize, Read, View;
    HighestSlot(before);
    SizeIs(after, ArraySize(before) - 1);
    DroppedReads(before, after, index);
    if Dense(before) {
      assert ArraySize(before) >= 2 ==> Slot(before, ArraySize(before) - 2).Some?;
      DroppedFromDense(before, after, index);
    }
  }

  // --------------------------------------------------------------------------- Operations

  /** A value whose content is changed in place. */
  class Node {
    var value: Value

    predicate IsArray()
      reads this
    {
      value.data.Array? && IsArrayMap(value.data.entries)
    }

    /** What the operations on arrays accept: an array, or the null value, which becomes an empty one. */
    predicate ArrayOrNull()
      reads this
    {
      value.data.Null? || IsArray()
    }

    function Map(): Entries
      reads this
    {
      if value.data.Array? then value.data.entries else Nil
    }

    constructor (value: Value)
      ensures this.value == value
    {
      this.value := value;
    }

    method Size() returns (size: nat)
      requires ArrayOrNull()
      ensures size == ArraySize(Map())
    {
      size := if value.data.Array? then ArraySize(value.data.entries) else 0;
    }

    /** The subscript that may be assigned to: a missing slot is created and holds null. */
    method Subscript(index: nat)
      requires ArrayOrNull()
      modifies this
      ensures IsArray() && Slot(Map(), index) == Some(Read(old(Map()), index))
      ensures forall j: nat :: j != index ==> Slot(Map(), j) == Slot(old(Map()), j)
    {
      if value.data.Null? {
        value := Plain(Array(Nil));
      }
      var m := value.data.entries;
      SlotsAfterSet(m, index, NULL_VALUE);
      if Find(m, Index(index)) == None {
        value := value.(data := Array(Set(m, Index(index), NULL_VALUE)));
      }
    }

    /** Assignment through the subscript. */
    method Assign(index: nat, v: Value)
      requires ArrayOrNull()
      modifies this
      ensures IsArray() && Slot(Map(), index) == Some(v)
      ensures forall j: nat :: j != index ==> Slot(Map(), j) == Slot(old(Map()), j)
      ensures ArraySize(Map()) == if index < ArraySize(old(Map())) then ArraySize(old(Map())) else index + 1
      ensures Dense(old(Map())) ==> (Dense(Map()) <==> index <= ArraySize(old(Map())))
      ensures index < ArraySize(old(Map())) ==> View(Map()) == old(View(Map()))[index := v]
      ensures index == ArraySize(old(Map())) ==> View(Map()) == old(View(Map())) + [v]
    {
      ghost var before := Map();
      Subscript(index);
      ghost var m := Map();
      value := value.(data := Array(Set(value.data.entries, Index(index), v)));
      SlotsAfterSet(m, index, v);
      HighestSlot(before);
      hide Find, Sorted, KeysOfKind, ArraySize;
      SizeIs(Map(), if index < ArraySize(before) then ArraySize(before) else index + 1);
      assert index > ArraySize(before) ==> Slot(Map(), ArraySize(before)) == None;
    }

    /** `append` refines appending to the sequence read. */
    method Append(v: Value)
      requires ArrayOrNull()
      modifies this
      ensures IsArray() && View(Map()) == old(View(Map())) + [v]
      ensures Dense(old(Map())) ==> Dense(Map())
    {
      var size := Size();
      Assign(size, v);
    }

    method Clear()
      requires ArrayOrNull()
      modifies this
      ensures ArrayOrNull() && Map() == Nil && value.data.Array? == old(value).data.Array?
    {
      if value.data.Array? {
        value := Value(Array(Nil), 0, 0);
      } else {
        value := Value(value.data, 0, 0);
      }
    }

    /**
     Growing reads as padding with nulls, but only the last slot is created. Shrinking reads as cutting
     off. The size becomes the one asked for exactly when the array grows, is emptied, or still holds
     the slot that would be the last.
     */
    method Resize(newSize: nat)
      requires ArrayOrNull()
      modifies this
      ensures IsArray()
      ensures forall j: nat :: Read(Map(), j) == if j < newSize then Read(old(Map()), j) else NULL_VALUE
      ensures ArraySize(Map()) == newSize <==>
              newSize == 0 || newSize > ArraySize(old(Map())) || Slot(old(Map()), newSize - 1).Some?
      ensures Dense(old(Map())) ==> (Dense(Map()) <==> newSize <= ArraySize(old(Map())) + 1)
      ensures Dense(old(Map())) && newSize <= ArraySize(old(Map())) ==> View(Map()) == old(View(Map()))[..newSize]
    {
      ghost var before := Map();
      HighestSlot(before);
      if value.data.Null? {
        value := Plain(Array(Nil));
      }
      var oldSize := Size();
      if newSize == 0 {
        Clear();
      } else if newSize > oldSize {
        Subscript(newSize - 1);
        SizeIs(Map(), newSize);
        assert newSize > oldSize + 1 ==> Slot(Map(), oldSize) == None;
      } else {
        EraseFrom(newSize, oldSize);
        SizeIs(Map(), newSize);
      }
    }

    /** The loop of a shrinking `resize`. */
    method EraseFrom(newSize: nat, oldSize: nat)
      requires IsArray() && newSize <= oldSize == ArraySize(Map())
      modifies this
      ensures IsArray()
      ensures forall j: nat :: Slot(Map(), j) == if j < newSize then Slot(old(Map()), j) else None
    {
      HighestSlot(Map());
      for index := newSize to oldSize
        invariant IsArray()
        invariant forall j: nat :: Slot(Map(), j) == if newSize <= j < index then None else Slot(old(Map()), j)
      {
        SlotsAfterErase(Map(), index);
        value := value.(data := Array(Erase(value.data.entries, Index(index))));
      }
    }

    /**
     Removing an index: fails when the slot is missing, and changes nothing then; otherwise the array is
     without it.
     */
    method RemoveIndex(index: nat) returns (ok: bool, removed: Value)
      requires value.data.Array? ==> IsArray()
      modifies this
      ensures ok <==> old(value).data.Array? && Slot(old(Map()), index).Some?
      ensures !ok ==> value == old(value)
      ensures ok ==> IsArray() && removed == Read(old(Map()), index)
      ensures ok ==> WithoutIndex(old(Map()), Map(), index)
    {
      removed := NULL_VALUE;
      if !value.data.Array? {
        return false, removed;
      }
      match Find(value.data.entries, Index(index)) {
        case None =>
          return false, removed;
        case Some(v) =>
          removed := v;
      }
      hide Find, Sorted, KeysOfKind, ArraySize, Dense, View, WithoutIndex;
      ghost var before := Map();
      HighestSlot(before);
      assert Slot(before, index) == Some(removed);
      var oldSize := Size();
      ShiftLeft(index, oldSize);
      SlotsAfterErase(Map(), oldSize - 1);
      value := value.(data := Array(Erase(value.data.entries, Index(oldSize - 1))));
      Dropped(before, Map(), index);
      ok := true;
    }

    /** The loop of `removeIndex`: every slot takes what the next one reads, created if missing. */
    method ShiftLeft(index: nat, oldSize: nat)
      requires IsArray() && index < oldSize == ArraySize(Map())
      modifies this
      ensures IsArray()
      ensures forall j: nat ::
                Slot(Map(), j) == if index <= j < oldSize - 1 then Some(Read(old(Map()), j + 1))
                    else Slot(old(Map()), j)
    {
      ghost var before := Map();
      HighestSlot(before);
      var i := index;
      while i < oldSize - 1
        invariant index <= i <= oldSize - 1 && IsArray()
        invariant forall j: nat :: index <= j < i ==> Slot(Map(), j) == Some(Read(before, j + 1))
        invariant index < i ==> Slot(Map(), i) == Some(Read(before, i))
        invariant forall j: nat :: j < index || i < j || i == index ==> Slot(Map(), j) == Slot(before, j)
      {
        TakeNext(i);
        i := i + 1;
      }
    }

    /** The slot takes what the next one reads. */
    method TakeNext(i: nat)
      requires IsArray()
      modifies this
      ensures IsArray()
      ensures Slot(Map(), i) == Slot(Map(), i + 1) == Some(Read(old(Map()), i + 1))
      ensures forall j: nat :: j != i && j != i + 1 ==> Slot(Map(), j) == Slot(old(Map()), j)
    {
      Subscript(i + 1);
      var next := Read(value.data.entries, i + 1);
      SlotsAfterSet(Map(), i, next);
      value := value.(data := Array(Set(value.data.entries, Index(i), next)));
    }
  }
}
