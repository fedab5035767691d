/** The ring buffer in front of the flash (Utils/RingBuf.h): one spare slot tells full from empty. */
module RingBuffer {
  import opened Bytes

  class RingBuf {
    const size: nat
    const slots: array<Byte>
    var tail: nat
    var head: nat

    ghost predicate Valid()
      reads this
    {
      slots.Length == size + 1 && tail <= size && head <= size
    }

    /** The queued bytes, oldest first. */
    ghost function Contents(): (s: seq<Byte>)
      requires Valid()
      reads this, slots
      ensures |s| <= size
    {
      if head <= tail then slots[head..tail] else slots[head..] + slots[..tail]
    }

    constructor (size: nat)
      ensures Valid() && this.size == size && Contents() == [] && fresh(slots)
    {
      this.size := size;
      tail, head := 0, 0;
      slots := new Byte[size + 1](_ => 0);
    }

    /** The next slot, around the end. */
    function Increment(i: nat): (r: nat)
      requires i <= size
      ensures r == if i == size then 0 else i + 1
    {
      (i + 1) % (size + 1)
    }

    method IsFull() returns (full: bool)
      requires Valid()
      ensures full <==> |Contents()| == size
    {
      hide Increment;
      full := head == Increment(tail);
    }

    method Size() returns (n: nat)
      requires Valid()
      ensures n == |Contents()|
    {
      if tail >= head {
        return tail - head;
      }
      return size + 1 - (head - tail);
    }

    /** Appends a byte; a full buffer refuses it. */
    method Push(item: Byte) returns (ok: bool)
      requires Valid()
      modifies this`tail, slots
      ensures Valid()
      ensures ok == (old(|Contents()|) < size)
      ensures Contents() == if ok then old(Contents()) + [item] else old(Contents())
    {
      hide Increment;
      var full := IsFull();
      if full {
        return false;
      }
      ghost var was := Contents();
      slots[tail] := item;
      assert Contents() == was;
      tail := Increment(tail);
      return true;
    }

    /** One round of the loop below, which has counted that a byte is there. */
    method TakeFront() returns (item: Byte)
      requires Valid() && Contents() != []
      modifies this`head
      ensures Valid()
      ensures item == old(Contents())[0] && Contents() == old(Contents())[1..]
    {
      hide Increment;
      item := slots[head];
      head := Increment(head);
    }

    /** Takes up to `len` bytes from the front. */
    method Pop(len: nat) returns (items: seq<Byte>)
      requires Valid()
      modifies this`head
      ensures Valid()
      ensures var n := if len <= old(|Contents()|) then len else old(|Contents()|);
              items == old(Contents())[..n] && Contents() == old(Contents())[n..]
    {
      hide Contents;
      ghost var was := Contents();
      var available := Size();
      var n := if len <= available then len else available;
      items := [];
      for i := 0 to n
        invariant Valid()
        invariant items == was[..i] && Contents() == was[i..]
      {
        assert was[i..][0] == was[i] && was[i..][1..] == was[i + 1..];
        assert was[..i + 1] == was[..i] + [was[i]];
        var item := TakeFront();
        items := items + [item];
      }
    }
  }
}
