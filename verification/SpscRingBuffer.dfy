// The ring buffer's operations as they run on one thread. What an acquire-load of the other
// side's index returns is passed in: the index for some count `seen` that may be old.
module SpscRingBuffers {
  import opened Spsc

  class SpscRingBuffer<T(0)> {
    const slots: nat
    const buffer: array<T>
    var head: nat
    var tail: nat
    ghost var pushed: seq<T>
    ghost var popped: seq<T>

    ghost predicate Valid()
      reads this, buffer
    {
      && buffer.Length == slots > 0
      && head == |pushed| % slots && tail == |popped| % slots
      && popped <= pushed && |pushed| <= |popped| + slots - 1
      && forall k :: |popped| <= k < |pushed| ==> buffer[k % slots] == pushed[k]
    }

    constructor (capacity: nat)
      ensures Valid() && fresh(buffer) && slots == capacity + 1 && pushed == popped == []
    {
      slots := capacity + 1;
      buffer := new T[capacity + 1];
      head, tail, pushed, popped := 0, 0, [], [];
    }

    // A push fails exactly when the items it believes to be in the ring fill the capacity; an old
    // view can only make it fail early, never overwrite.
    method Push(item: T, tailView: nat, ghost seen: nat) returns (ok: bool)
      requires Valid() && seen <= |popped| && |pushed| <= seen + slots - 1 && tailView == seen % slots
      modifies this`head, this`pushed, buffer
      ensures Valid() && (ok <==> |old(pushed)| < seen + slots - 1)
      ensures pushed == if ok then old(pushed) + [item] else old(pushed)
    {
      var nextHead := Increment(slots, head);
      IncrementMod(|pushed|, slots);
      FullTest(|pushed|, seen, slots);
      if nextHead == tailView {
        return false;
      }
      forall k | |popped| <= k < |pushed| ensures k % slots != head {
        DistinctMod(k, |pushed|, slots);
      }
      buffer[head] := item;
      head := nextHead;
      pushed := pushed + [item];
      ok := true;
    }

    method Pop(headView: nat, ghost seen: nat) returns (ok: bool, item: T)
      requires Valid() && |popped| <= seen <= |pushed| && headView == seen % slots
      modifies this`tail, this`popped
      ensures Valid() && (ok <==> |old(popped)| < seen)
      ensures popped == if ok then old(popped) + [item] else old(popped)
    {
      EmptyTest(|popped|, seen, slots);
      item := buffer[tail];
      if tail == headView {
        return false, item;
      }
      IncrementMod(|popped|, slots);
      tail := Increment(slots, tail);
      popped := popped + [item];
      ok := true;
    }

    method Empty(headView: nat, ghost seen: nat) returns (empty: bool)
      requires Valid() && |popped| <= seen <= |pushed| && headView == seen % slots
      ensures empty <==> |popped| == seen
    {
      EmptyTest(|popped|, seen, slots);
      empty := headView == tail;
    }
  }
}
