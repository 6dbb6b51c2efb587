/**
 * The ring-buffer abstraction behind the module's byte buffer: the FIFO
 * queue that a 64-slot buffer, a tail index and a fill count stand for,
 * and the invariant that the module's operations keep. Everything here is
 * about values; the mutable buffer itself lives in module Tool.
 */
module Ring {
  import opened ToolDefs

  /** Slot `j` lies in the occupied window that starts at `tail` and holds
      `count` bytes (which may wrap around the end of the buffer). */
  predicate InWindow(j: int, tail: int, count: int) {
    (j - tail) % Size < count
  }

  /** The queue the buffer stands for, oldest byte first:
      slot `(tail + i) % 64` holds the `i`-th oldest byte. */
  function Window(s: seq<bv8>, tail: nat, count: nat): (q: seq<bv8>)
    requires |s| == Size
    ensures |q| == count
    ensures forall i :: 0 <= i < count ==> q[i] == s[(tail + i) % Size]
  {
    seq(count, i requires 0 <= i < count => s[(tail + i) % Size])
  }

  /**
   * The ring invariant: indices in range, the head just past the newest
   * byte, at most 64 bytes, and every slot outside the occupied window
   * zero (popped slots are cleared, so no stale byte is left behind).
   */
  predicate RingInv(s: seq<bv8>, head: nat, tail: nat, count: nat) {
    && |s| == Size
    && head < Size && tail < Size && count <= Size
    && head == (tail + count) % Size
    && ZeroOutside(s, tail, count)
  }

  /** Every slot outside the occupied window holds 0. */
  predicate ZeroOutside(s: seq<bv8>, tail: nat, count: nat)
    requires |s| == Size
  {
    forall j :: 0 <= j < Size && !InWindow(j, tail, count) ==> s[j] == 0
  }

  /** An all-zero buffer of the right size. */
  function Zeros(): (s: seq<bv8>)
    ensures |s| == Size && forall j :: 0 <= j < Size ==> s[j] == 0
  {
    seq(Size, _ => 0)
  }

  /** The reset state (all indices 0, all slots 0) is a consistent empty ring. */
  lemma ResetIsEmpty(s: seq<bv8>)
    requires |s| == Size && forall j :: 0 <= j < Size ==> s[j] == 0
    ensures RingInv(s, 0, 0, 0) && Window(s, 0, 0) == []
  {
  }

  /** The `i`-th slot of a window is at offset `i` from its tail. */
  lemma SlotOffset(tail: nat, i: nat)
    requires tail < Size && i < Size
    ensures ((tail + i) % Size - tail) % Size == i
  {
  }

  /** Moving the tail one slot on lowers every other slot's offset by one. */
  lemma NextTailOffset(tail: nat, j: int)
    requires tail < Size && 0 <= j < Size && j != tail
    ensures (j - tail) % Size == (j - (tail + 1) % Size) % Size + 1
  {
    if j > tail {
      assert (j - tail) % Size == j - tail;
      assert (j - (tail + 1) % Size) % Size == j - tail - 1;
    } else if tail + 1 < Size {
      assert (j - tail) % Size == j - tail + Size;
      assert (j - (tail + 1) % Size) % Size == j - tail - 1 + Size;
    } else {
      assert (j - tail) % Size == j - tail + Size;
      assert (j - (tail + 1) % Size) % Size == j;
    }
  }

  /** Moving the tail one slot on shifts the window by one. */
  lemma NextTailSlot(tail: nat, i: nat)
    requires tail < Size
    ensures ((tail + 1) % Size + i) % Size == (tail + (i + 1)) % Size
  {
  }

  /** One slot on from a position reduced modulo 64 is one more, reduced. */
  lemma NextSlot(k: nat)
    ensures (k % Size + 1) % Size == (k + 1) % Size
  {
    var q, r := k / Size, k % Size;
    assert k == q * Size + r;
    if r + 1 == Size {
      assert k + 1 == (q + 1) * Size;
    } else {
      assert k + 1 == q * Size + (r + 1);
    }
  }

  /** Slots outside the window after a push were outside it before, and
      are not the head. */
  lemma PushKeepsZeros(s: seq<bv8>, head: nat, tail: nat, count: nat, v: bv8)
    requires RingInv(s, head, tail, count) && count < Size
    ensures ZeroOutside(s[head := v], tail, count + 1)
  {
    var s' := s[head := v];
    SlotOffset(tail, count);
    forall j | 0 <= j < Size && !InWindow(j, tail, count + 1)
      ensures s'[j] == 0
    {
      assert j != head;
      assert !InWindow(j, tail, count);
    }
  }

  /** After a push the window holds the old bytes, then the new one. */
  lemma PushWindow(s: seq<bv8>, head: nat, tail: nat, count: nat, v: bv8)
    requires |s| == Size && tail < Size && count < Size && head == (tail + count) % Size
    ensures Window(s[head := v], tail, count + 1) == Window(s, tail, count) + [v]
  {
    var w, w' := Window(s, tail, count), Window(s[head := v], tail, count + 1);
    forall i | 0 <= i < count
      ensures w'[i] == w[i]
    {
      SlotOffset(tail, i);
      SlotOffset(tail, count);
    }
    assert w' == w + [v];
  }

  /**
   * Writing the byte at the head of a ring that is not full, advancing
   * the head and counting one more byte appends the byte to the queue and
   * keeps the invariant.
   */
  lemma PushAppends(s: seq<bv8>, head: nat, tail: nat, count: nat, v: bv8)
    requires RingInv(s, head, tail, count) && count < Size
    ensures RingInv(s[head := v], (head + 1) % Size, tail, count + 1)
    ensures Window(s[head := v], tail, count + 1) == Window(s, tail, count) + [v]
  {
    PushKeepsZeros(s, head, tail, count, v);
    PushWindow(s, head, tail, count, v);
  }

  /** Slots outside the window after a pop are the popped slot, which is
      zeroed, or were outside it before. */
  lemma PopKeepsZeros(s: seq<bv8>, head: nat, tail: nat, count: nat)
    requires RingInv(s, head, tail, count) && count > 0
    ensures ZeroOutside(s[tail := 0], (tail + 1) % Size, count - 1)
  {
    var s' := s[tail := 0];
    forall j | 0 <= j < Size && !InWindow(j, (tail + 1) % Size, count - 1)
      ensures s'[j] == 0
    {
      if j != tail {
        NextTailOffset(tail, j);
        assert !InWindow(j, tail, count);
      }
    }
  }

  /** After a pop the window holds the old bytes but the first. */
  lemma PopWindow(s: seq<bv8>, tail: nat, count: nat)
    requires |s| == Size && tail < Size && 0 < count <= Size
    ensures s[tail] == Window(s, tail, count)[0]
    ensures Window(s[tail := 0], (tail + 1) % Size, count - 1) == Window(s, tail, count)[1..]
  {
    var w, w' := Window(s, tail, count), Window(s[tail := 0], (tail + 1) % Size, count - 1);
    forall i | 0 <= i < count - 1
      ensures w'[i] == w[i + 1]
    {
      NextTailSlot(tail, i);
      SlotOffset(tail, i + 1);
    }
    assert w' == w[1..];
  }

  /**
   * Reading and zeroing the byte at the tail of a non-empty ring,
   * advancing the tail and counting one byte less yields the front of the
   * queue, leaves the rest of the queue, and keeps the invariant.
   */
  lemma PopRemovesFront(s: seq<bv8>, head: nat, tail: nat, count: nat)
    requires RingInv(s, head, tail, count) && count > 0
    ensures s[tail] == Window(s, tail, count)[0]
    ensures RingInv(s[tail := 0], head, (tail + 1) % Size, count - 1)
    ensures Window(s[tail := 0], (tail + 1) % Size, count - 1) == Window(s, tail, count)[1..]
  {
    PopKeepsZeros(s, head, tail, count);
    PopWindow(s, tail, count);
  }

  /** A whole number of turns brings a slot index back to itself. */
  lemma WholeTurns(x: nat, n: nat)
    requires x < Size && n % Size == 0
    ensures (x + n) % Size == x
  {
    var q := n / Size;
    assert x + n == q * Size + x;
  }

  /** Popping the front byte of a non-empty queue and then pushing any
      byte keeps the invariant, with both indices one slot on. */
  lemma PopPushKeepsInv(s: seq<bv8>, head: nat, tail: nat, count: nat, v: bv8)
    requires RingInv(s, head, tail, count) && count > 0
    ensures RingInv(s[tail := 0][head := v], (head + 1) % Size, (tail + 1) % Size, count)
  {
    PopRemovesFront(s, head, tail, count);
    PushAppends(s[tail := 0], head, (tail + 1) % Size, count - 1, v);
  }

  /** A slot inside the window is the window's byte at its offset. */
  lemma WindowSlot(s: seq<bv8>, tail: nat, count: nat, j: nat)
    requires |s| == Size && tail < Size && j < Size && InWindow(j, tail, count)
    ensures 0 <= (j - tail) % Size < count
    ensures Window(s, tail, count)[(j - tail) % Size] == s[j]
  {
    var i := (j - tail) % Size;
    assert (tail + i) % Size == j;
  }

  /**
   * The queue is a faithful abstraction: two consistent buffers with the
   * same indices and the same queue are the same buffer.
   */
  lemma WindowDeterminesBuffer(s1: seq<bv8>, s2: seq<bv8>, head: nat, tail: nat, count: nat)
    requires RingInv(s1, head, tail, count) && RingInv(s2, head, tail, count)
    requires Window(s1, tail, count) == Window(s2, tail, count)
    ensures s1 == s2
  {
    forall j | 0 <= j < Size
      ensures s1[j] == s2[j]
    {
      if InWindow(j, tail, count) {
        WindowSlot(s1, tail, count, j);
        WindowSlot(s2, tail, count, j);
      }
    }
  }
}
