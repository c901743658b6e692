// The fixed-capacity object pool: slots, a LIFO free list, in-use flags and counters.
// A pointer handed out by the pool is the index of its slot. A slot holds an object from the moment
// it is allocated until it is deallocated, and nothing outside of that time.
module ObjectPools {
  import opened Market

  class ObjectPool<T> {
    const capacity: nat
    const storage: array<Option<T>>
    const inUse: array<bool>
    var freeList: seq<nat>
    var allocations: nat
    var deallocations: nat

    // The free list has no duplicates and is exactly the complement of the slots in use, and these
    // are the slots with an object.
    ghost predicate Valid()
      reads this, inUse, storage
    {
      && storage.Length == inUse.Length == capacity
      && (storage as object) != inUse
      && (forall slot :: 0 <= slot < capacity ==> (inUse[slot] <==> storage[slot].Some?))
      && (forall i :: 0 <= i < |freeList| ==> freeList[i] < capacity && !inUse[freeList[i]])
      && (forall i, j :: 0 <= i < j < |freeList| ==> freeList[i] != freeList[j])
      && (forall slot :: 0 <= slot < capacity && !inUse[slot] ==> slot in freeList)
      && allocations - deallocations + |freeList| == capacity
    }

    constructor (capacity: nat)
      ensures Valid() && fresh(storage) && fresh(inUse)
      ensures this.capacity == capacity && |freeList| == capacity
      ensures allocations == deallocations == 0
      ensures forall slot :: 0 <= slot < capacity ==> !inUse[slot]
      ensures forall k :: 0 <= k < capacity ==> freeList[k] == capacity - 1 - k
    {
      this.capacity := capacity;
      storage := new Option<T>[capacity](_ => None);
      inUse := new bool[capacity](_ => false);
      freeList := [];
      allocations, deallocations := 0, 0;
      new;
      var index := capacity;
      while index > 0
        invariant 0 <= index <= capacity && |freeList| == capacity - index
        invariant allocations == deallocations == 0
        invariant forall k :: 0 <= k < |freeList| ==> freeList[k] == capacity - 1 - k
        invariant forall slot :: 0 <= slot < capacity ==> !inUse[slot] && storage[slot].None?
      {
        freeList := freeList + [index - 1];
        index := index - 1;
      }
      forall slot | 0 <= slot < capacity ensures slot in freeList {
        assert freeList[capacity - 1 - slot] == slot;
      }
    }

    method Allocate(x: T) returns (slot: Option<nat>)
      requires Valid()
      modifies this`freeList, this`allocations, storage, inUse
      ensures Valid() && deallocations == old(deallocations)
      ensures slot.None? <==> old(freeList) == []
      ensures slot.None? ==> freeList == old(freeList) && allocations == old(allocations)
      ensures slot.None? ==> storage[..] == old(storage[..]) && inUse[..] == old(inUse[..])
      ensures slot.Some? ==> freeList + [slot.value] == old(freeList) && allocations == old(allocations) + 1
      ensures slot.Some? ==> slot.value < capacity && !old(inUse[slot.value])
      ensures slot.Some? ==> inUse[..] == old(inUse[..])[slot.value := true]
      ensures slot.Some? ==> storage[..] == old(storage[..])[slot.value := Some(x)]
    {
      if freeList == [] {
        return None;
      }
      var index := freeList[|freeList| - 1];
      freeList := freeList[..|freeList| - 1];
      inUse[index] := true;
      allocations := allocations + 1;
      storage[index] := Some(x);
      forall s | 0 <= s < capacity && !inUse[s] ensures s in freeList {
        assert s in old(freeList);
        var k :| 0 <= k < |old(freeList)| && old(freeList)[k] == s;
        assert freeList[k] == s;
      }
      return Some(index);
    }

    // The source asks that a non-null pointer is one the pool handed out and has not taken back.
    method Deallocate(slot: Option<nat>)
      requires Valid() && (slot.Some? ==> slot.value < capacity && inUse[slot.value])
      modifies this`freeList, this`deallocations, storage, inUse
      ensures Valid()
      ensures slot.None? ==> storage[..] == old(storage[..])
      ensures slot.Some? ==> storage[..] == old(storage[..])[slot.value := None]
      ensures slot.None? ==> freeList == old(freeList) && deallocations == old(deallocations)
      ensures slot.None? ==> inUse[..] == old(inUse[..])
      ensures slot.Some? ==> freeList == old(freeList) + [slot.value] && deallocations == old(deallocations) + 1
      ensures slot.Some? ==> inUse[..] == old(inUse[..])[slot.value := false]
    {
      if slot.None? {
        return;
      }
      storage[slot.value] := None;
      inUse[slot.value] := false;
      freeList := freeList + [slot.value];
      deallocations := deallocations + 1;
      forall s | 0 <= s < capacity && !inUse[s] ensures s in freeList {
        if s == slot.value {
          assert freeList[|freeList| - 1] == s;
        } else {
          assert s in old(freeList);
        }
      }
    }

    // A dereference: only of a slot that is in use, so never before its allocation or after its
    // deallocation.
    method Load(slot: nat) returns (x: T)
      requires Valid() && slot < capacity && inUse[slot]
      ensures storage[slot] == Some(x)
    {
      x := storage[slot].value;
    }

    method Store(slot: nat, x: T)
      requires Valid() && slot < capacity && inUse[slot]
      modifies storage
      ensures Valid() && storage[..] == old(storage[..])[slot := Some(x)]
    {
      storage[slot] := Some(x);
    }

    // The destructor: every object still in use is destroyed once, and nothing else is.
    method Destroy() returns (destroyed: seq<nat>)
      requires Valid()
      ensures forall slot: nat :: slot in destroyed <==> slot < capacity && inUse[slot]
      ensures forall i, j :: 0 <= i < j < |destroyed| ==> destroyed[i] < destroyed[j]
    {
      destroyed := [];
      for index := 0 to inUse.Length
        invariant forall slot: nat :: slot in destroyed <==> slot < index && inUse[slot]
        invariant forall i :: 0 <= i < |destroyed| ==> destroyed[i] < index
        invariant forall i, j :: 0 <= i < j < |destroyed| ==> destroyed[i] < destroyed[j]
      {
        if inUse[index] {
          destroyed := destroyed + [index];
        }
      }
    }

    method Available() returns (n: nat)
      requires Valid()
      ensures n == |freeList| <= capacity && n == capacity - (allocations - deallocations)
    {
      BoundedFreeList(freeList, capacity);
      n := |freeList|;
    }
  }

  // Distinct slots below the capacity: the pigeonhole behind `in_use() = capacity - available()`.
  lemma {:induction false} BoundedFreeList(slots: seq<nat>, capacity: nat)
    requires forall i :: 0 <= i < |slots| ==> slots[i] < capacity
    requires forall i, j :: 0 <= i < j < |slots| ==> slots[i] != slots[j]
    ensures |slots| <= capacity
  {
    if slots == [] {
      return;
    }
    assert slots[0] < capacity;
    if capacity - 1 in slots {
      var k :| 0 <= k < |slots| && slots[k] == capacity - 1;
      var rest := slots[..k] + slots[k + 1..];
      assert forall i :: 0 <= i < |rest| ==> rest[i] == if i < k then slots[i] else slots[i + 1];
      BoundedFreeList(rest, capacity - 1);
    } else {
      forall i | 0 <= i < |slots| ensures slots[i] < capacity - 1 {
        assert slots[i] in slots;
      }
      BoundedFreeList(slots, capacity - 1);
    }
  }
}
