/**
 * The Tool module's state and operations. The C module keeps its state in
 * file-static variables and in the periodic step's function-static cycle
 * counter (one instance per program); here that state is the
 * object of class `ToolModule`, and every C function that reads or writes
 * it is a method or function of the class. The CRC routine touches no
 * state and lives in module Crc.
 */
module Tool {
  import opened ToolDefs
  import opened Ring
  import opened Recirculation

  /** Sum of the bytes of `s`, accumulated from the front as the
      self-test's loop does. */
  function ByteSum(s: seq<bv8>): (r: nat)
  {
    if |s| == 0 then 0 else ByteSum(s[..|s| - 1]) + s[|s| - 1] as int
  }

  /** A byte is at most 255, so the sum of `n` bytes is at most `255 * n`. */
  lemma {:induction false} ByteSumBound(s: seq<bv8>)
    ensures ByteSum(s) <= 255 * |s|
  {
    if |s| > 0 {
      ByteSumBound(s[..|s| - 1]);
    }
  }

  /** The status word after the buffer reset: the error and overflow bits
      cleared, every other bit (the initialised bit in particular) kept. */
  function ClearedFlags(st: bv32): (r: bv32)
    ensures r & (ERR | OVF) == 0
    ensures r & !(ERR | OVF) == st & !(ERR | OVF)
  {
    (st & !ERR) & !OVF
  }

  /** The reset keeps the initialised bit and the anomaly bit. */
  lemma ClearedFlagsKeeps(st: bv32)
    ensures ClearedFlags(st) & INIT == st & INIT
    ensures ClearedFlags(st) & UDF == st & UDF
  {
    ClearKeepsOthers(st, ERR, INIT);
    ClearKeepsOthers(st & !ERR, OVF, INIT);
    ClearKeepsOthers(st, ERR, UDF);
    ClearKeepsOthers(st & !ERR, OVF, UDF);
  }

  /** Resetting the flags twice is resetting them once. */
  lemma ClearedFlagsIdempotent(st: bv32)
    ensures ClearedFlags(ClearedFlags(st)) == ClearedFlags(st)
  {
  }

  /** The module's state as a value: slot contents, head, tail, fill
      count and status word (mode and call counter are not touched by
      the periodic step's loop body and are left out). */
  datatype State = State(slots: seq<bv8>, head: nat, tail: nat, count: nat, status: bv32)

  /** The buffer has its 64 slots and both indices address one of them. */
  predicate Addressable(s: State) {
    |s.slots| == Size && s.head < Size && s.tail < Size
  }

  /** The state forms a consistent ring. */
  predicate Consistent(s: State) {
    RingInv(s.slots, s.head, s.tail, s.count)
  }

  /** What a pop with a valid output pointer leaves: the new state and
      the byte stored through the pointer. */
  datatype Popped = Popped(after: State, value: bv8)

  /**
   * A pop with a valid output pointer, on values: before initialisation
   * it sets ERR and yields 0; on an empty ring it yields 0 and changes
   * nothing; otherwise it yields the tail byte, zeroes its slot, moves
   * the tail on one slot and counts one byte less.
   */
  function PopOn(s: State): (r: Popped)
    requires Addressable(s)
    ensures Addressable(r.after)
    ensures r.after.head == s.head
  {
    if s.status & INIT == 0 then Popped(s.(status := s.status | ERR), 0)
    else if s.count == 0 then Popped(s, 0)
    else Popped(s.(slots := s.slots[s.tail := 0], tail := (s.tail + 1) % Size, count := s.count - 1), s.slots[s.tail])
  }

  /** The status word a push leaves, given the status and count before:
      ERR set before initialisation, else OVF set with 64 or more bytes
      counted, else OVF cleared. Kept apart from `PushOn` because the
      solver handles bit-vector reasoning badly once it is mixed with
      `State`. */
  function PushedStatus(st: bv32, count: nat): (r: bv32) {
    if st & INIT == 0 then st | ERR else if count >= Size then st | OVF else st & !OVF
  }

  /**
   * A push, on values: before initialisation, or with 64 or more bytes
   * counted, only the status changes (see `PushedStatus`); otherwise it
   * also stores the byte at the head, moves the head on one slot and
   * counts one byte more.
   */
  function PushOn(s: State, v: bv8): (r: State)
    requires Addressable(s)
    ensures Addressable(r)
    ensures r.tail == s.tail
  {
    var st := PushedStatus(s.status, s.count);
    if s.status & INIT == 0 || s.count >= Size then s.(status := st)
    else s.(slots := s.slots[s.head := v], head := (s.head + 1) % Size, count := s.count + 1, status := st)
  }

  // The next three lemmas each unfold one branch of `PushOn` for the
  // solver; `PushOnQueues` and `ToolModule.PushOutcome` rely on them.

  /** A push before initialisation only sets ERR. */
  lemma PushOnUninit(s: State, v: bv8)
    requires Addressable(s)
    ensures s.status & INIT == 0 ==> PushOn(s, v) == s.(status := s.status | ERR)
  {
  }

  /** A push onto a full ring only sets OVF. */
  lemma PushOnFull(s: State, v: bv8)
    requires Addressable(s)
    ensures s.status & INIT != 0 && s.count >= Size ==> PushOn(s, v) == s.(status := s.status | OVF)
  {
  }

  /** A push with room stores the byte at the head. */
  lemma PushOnStores(s: State, v: bv8)
    requires Addressable(s)
    ensures s.status & INIT != 0 && s.count < Size ==>
      PushOn(s, v) == s.(slots := s.slots[s.head := v], head := (s.head + 1) % Size, count := s.count + 1, status := s.status & !OVF)
  {
  }

  /**
   * A push keeps a consistent ring consistent. When it succeeds the byte
   * joins the back of the queue; when it fails (before initialisation,
   * or with the ring full) slots, indices and count are as they were.
   */
  lemma PushOnQueues(s: State, v: bv8)
    requires Addressable(s) && Consistent(s)
    ensures Consistent(PushOn(s, v))
    ensures s.status & INIT != 0 && s.count < Size ==>
      Window(PushOn(s, v).slots, PushOn(s, v).tail, PushOn(s, v).count) == Window(s.slots, s.tail, s.count) + [v]
    ensures s.status & INIT == 0 || s.count >= Size ==>
      PushOn(s, v).slots == s.slots && PushOn(s, v).head == s.head && PushOn(s, v).count == s.count
  {
    PushOnUninit(s, v);
    PushOnFull(s, v);
    PushOnStores(s, v);
    if s.status & INIT != 0 && s.count < Size {
      PushAppends(s.slots, s.head, s.tail, s.count, v);
    }
  }

  /**
   * A pop keeps a consistent ring consistent. When it succeeds it yields
   * the front of the queue and leaves the rest; when it fails (before
   * initialisation, or with the ring empty) it yields 0 and slots,
   * indices and count are as they were.
   */
  lemma PopOnQueues(s: State)
    requires Addressable(s) && Consistent(s)
    ensures Consistent(PopOn(s).after)
    ensures s.status & INIT != 0 && s.count > 0 ==>
      && PopOn(s).value == Window(s.slots, s.tail, s.count)[0]
      && Window(PopOn(s).after.slots, PopOn(s).after.tail, PopOn(s).after.count) == Window(s.slots, s.tail, s.count)[1..]
    ensures s.status & INIT == 0 || s.count == 0 ==>
      && PopOn(s).value == 0
      && PopOn(s).after.slots == s.slots && PopOn(s).after.tail == s.tail && PopOn(s).after.count == s.count
  {
    if s.status & INIT != 0 && s.count > 0 {
      PopRemovesFront(s.slots, s.head, s.tail, s.count);
    }
  }

  /**
   * First in, first out: on an initialised consistent ring with room, a
   * push followed by a pop yields the oldest byte of the queue with the
   * pushed byte appended, and leaves the rest of that queue.
   */
  lemma PushThenPop(s: State, v: bv8)
    requires Addressable(s) && Consistent(s) && s.status & INIT != 0 && s.count < Size
    ensures PopOn(PushOn(s, v)).value == (Window(s.slots, s.tail, s.count) + [v])[0]
    ensures var r := PopOn(PushOn(s, v)).after;
      Window(r.slots, r.tail, r.count) == (Window(s.slots, s.tail, s.count) + [v])[1..]
  {
    PushOnQueues(s, v);
    var t := PushOn(s, v);
    ClearKeepsOthers(s.status, OVF, INIT);
    assert t.status & INIT != 0 && t.count > 0;
    PopOnQueues(t);
  }

  /**
   * The flags a push leaves: the initialised bit as it was, and the error
   * bit never cleared. INIT is written only by Init and DeInit; ERR is
   * cleared only by Init, DeInit, an accepted mode request and the buffer
   * reset.
   */
  lemma PushKeepsFlags(s: State, v: bv8)
    requires Addressable(s)
    ensures PushOn(s, v).status & INIT == s.status & INIT
    ensures s.status & ERR != 0 ==> PushOn(s, v).status & ERR != 0
  {
    PushOnStatus(s, v);
    PushedStatusFlags(s.status, s.count);
  }

  /** A push's status is `PushedStatus` of the old status and count. */
  lemma PushOnStatus(s: State, v: bv8)
    requires Addressable(s)
    ensures PushOn(s, v).status == PushedStatus(s.status, s.count)
  {
  }

  /** Each branch of a push keeps INIT and keeps a set ERR. */
  lemma PushedStatusFlags(st: bv32, count: nat)
    ensures PushedStatus(st, count) & INIT == st & INIT
    ensures st & ERR != 0 ==> PushedStatus(st, count) & ERR != 0
  {
    if st & INIT == 0 {
      SetKeepsOthers(st, ERR, INIT);
    } else if count >= Size {
      SetKeepsOthers(st, OVF, INIT);
      SetKeepsOthers(st, OVF, ERR);
    } else {
      ClearKeepsOthers(st, OVF, INIT);
      ClearKeepsOthers(st, OVF, ERR);
    }
  }

  /** The flags a pop leaves: INIT as it was, ERR never cleared. */
  lemma PopKeepsFlags(s: State)
    requires Addressable(s)
    ensures PopOn(s).after.status & INIT == s.status & INIT
    ensures s.status & ERR != 0 ==> PopOn(s).after.status & ERR != 0
  {
    var st := s.status;
    if st & INIT == 0 {
      assert PopOn(s).after.status == st | ERR;
      SetKeepsOthers(st, ERR, INIT);
    } else {
      assert PopOn(s).after.status == st;
    }
  }

  /** One iteration of the periodic step's loop body, on values: a pop,
      the XOR of the popped byte with the key, and a push of the result. */
  function Step(s: State, key: bv8): (r: State)
    requires Addressable(s)
    ensures Addressable(r)
  {
    var p := PopOn(s);
    PushOn(p.after, p.value ^ key)
  }

  /** The first `n` iterations of the periodic step's loop, on values:
      each one acts only in Run mode with data queued. */
  function Recirculated(s: State, key: bv8, n: nat, run: bool): (r: State)
    requires Addressable(s)
    ensures Addressable(r)
  {
    if n == 0 then s
    else
      var p := Recirculated(s, key, n - 1, run);
      if run && p.count != 0 then Step(p, key) else p
  }

  /** One iteration keeps INIT and never clears ERR. */
  lemma StepKeepsFlags(s: State, key: bv8)
    requires Addressable(s)
    ensures Step(s, key).status & INIT == s.status & INIT
    ensures s.status & ERR != 0 ==> Step(s, key).status & ERR != 0
  {
    var p := PopOn(s);
    PopKeepsFlags(s);
    PushKeepsFlags(p.after, p.value ^ key);
  }

  /** However many iterations run, in whatever mode, INIT is as it was and
      a set ERR stays set. */
  lemma {:induction false} RecirculatedKeepsFlags(s: State, key: bv8, n: nat, run: bool)
    requires Addressable(s)
    ensures Recirculated(s, key, n, run).status & INIT == s.status & INIT
    ensures s.status & ERR != 0 ==> Recirculated(s, key, n, run).status & ERR != 0
  {
    if n > 0 {
      var p := Recirculated(s, key, n - 1, run);
      RecirculatedKeepsFlags(s, key, n - 1, run);
      if run && p.count != 0 {
        StepKeepsFlags(p, key);
      }
    }
  }

  /** Outside Run mode, or with nothing queued, the loop changes nothing. */
  lemma {:induction false} IdleKeepsState(s: State, key: bv8, n: nat, run: bool)
    requires Addressable(s) && (!run || s.count == 0)
    ensures Recirculated(s, key, n, run) == s
  {
    if n > 0 {
      IdleKeepsState(s, key, n - 1, run);
    }
  }

  /** Before initialisation every iteration fails: the buffer, indices and
      count stay as they were and only ERR ends up set. */
  lemma {:induction false} UninitSetsError(s: State, key: bv8, n: nat)
    requires Addressable(s) && s.count != 0 && s.status & INIT == 0 && n > 0
    ensures Recirculated(s, key, n, true) == s.(status := s.status | ERR)
  {
    var failed := s.(status := s.status | ERR);
    if n == 1 {
      StepFailsUninit(s, key);
      SetTwice(s.status, ERR);
    } else {
      UninitSetsError(s, key, n - 1);
      SetKeepsOthers(s.status, ERR, INIT);
      UninitStepAgain(failed, key);
    }
  }

  /** Once ERR is set before initialisation, a further iteration changes
      nothing. */
  lemma UninitStepAgain(s: State, key: bv8)
    requires Addressable(s) && s.status & INIT == 0 && s.status & ERR == ERR
    ensures Step(s, key) == s
  {
    StepFailsUninit(s, key);
    assert s.status | ERR == s.status;
  }

  /** Before initialisation both calls fail and set ERR; nothing else changes. */
  lemma StepFailsUninit(s: State, key: bv8)
    requires Addressable(s) && s.status & INIT == 0
    ensures Step(s, key) == s.(status := (s.status | ERR) | ERR)
  {
    var p := PopOn(s);
    assert p.after == s.(status := s.status | ERR);
    SetKeepsOthers(s.status, ERR, INIT);
    assert p.after.status & INIT == 0;
  }

  /**
   * One successful iteration on a ring with data queued: the tail byte,
   * XORed with the key, is stored at the head slot, the tail slot is
   * otherwise zeroed, both indices move on one slot, the count stays and
   * OVF is cleared.
   */
  function Turn(s: State, key: bv8): (r: State)
    requires Addressable(s)
    ensures Addressable(r) && r.count == s.count
  {
    State(s.slots[s.tail := 0][s.head := s.slots[s.tail] ^ key],
          (s.head + 1) % Size, (s.tail + 1) % Size, s.count, s.status & !OVF)
  }

  /** The buffer after `n` turns: turn `i` (counting from 0) works on
      tail slot `(tail + i) % 64` and head slot `(head + i) % 64`. */
  function TurnedSlots(s: State, key: bv8, n: nat): (r: seq<bv8>)
    requires Addressable(s)
    ensures |r| == Size
  {
    if n == 0 then s.slots
    else
      var b := TurnedSlots(s, key, n - 1);
      var h, t := (s.head + n - 1) % Size, (s.tail + n - 1) % Size;
      b[t := 0][h := b[t] ^ key]
  }

  /** `n` turns in a row: both indices `n` slots on, the count kept, OVF
      cleared once at least one turn was taken. */
  function Turns(s: State, key: bv8, n: nat): (r: State)
    requires Addressable(s)
    ensures Addressable(r)
  {
    State(TurnedSlots(s, key, n), (s.head + n) % Size, (s.tail + n) % Size, s.count,
          TurnedStatus(s.status, n))
  }

  /** The status after `n` turns: OVF cleared once at least one was taken. */
  function TurnedStatus(st: bv32, n: nat): (r: bv32) {
    if n == 0 then st else st & !OVF
  }

  /** A turn, spelled out; a solver aid that lets later proofs reason about
      one explicit `State` value instead of unfolding `Turn`. */
  lemma TurnIs(s: State, key: bv8)
    requires Addressable(s)
    ensures Turn(s, key) == State(s.slots[s.tail := 0][s.head := s.slots[s.tail] ^ key],
                                  (s.head + 1) % Size, (s.tail + 1) % Size, s.count, s.status & !OVF)
  {
  }

  /** On an initialised ring holding between 1 and 64 bytes, the pop
      succeeds and so does the push. */
  lemma StepSucceeds(s: State, key: bv8)
    requires Addressable(s) && 0 < s.count <= Size && s.status & INIT != 0
    ensures Step(s, key) == State(s.slots[s.tail := 0][s.head := s.slots[s.tail] ^ key],
                                  (s.head + 1) % Size, (s.tail + 1) % Size, s.count, s.status & !OVF)
  {
  }

  /** On an initialised ring holding between 1 and 64 bytes, an iteration
      is a turn. */
  lemma StepIsTurn(s: State, key: bv8)
    requires Addressable(s) && 0 < s.count <= Size && s.status & INIT != 0
    ensures Step(s, key) == Turn(s, key)
  {
    StepSucceeds(s, key);
    TurnIs(s, key);
  }

  /** No turns leave the ring as it was. */
  lemma TurnsZero(s: State, key: bv8)
    requires Addressable(s)
    ensures Turns(s, key, 0) == s
  {
  }

  /** Turn `n` is one more turn after the first `n - 1`. */
  lemma TurnsStep(s: State, key: bv8, n: nat)
    requires Addressable(s) && n > 0
    ensures Turns(s, key, n) == Turn(Turns(s, key, n - 1), key)
  {
    var p := Turns(s, key, n - 1);
    TurnsStepIs(s, key, n);
    TurnIs(p, key);
  }

  /** Turn `n` spelled out from the ring after the first `n - 1`. */
  lemma TurnsStepIs(s: State, key: bv8, n: nat)
    requires Addressable(s) && n > 0
    ensures var p := Turns(s, key, n - 1);
      Turns(s, key, n) == State(p.slots[p.tail := 0][p.head := p.slots[p.tail] ^ key],
                                (p.head + 1) % Size, (p.tail + 1) % Size, p.count, p.status & !OVF)
  {
    TurnsStepSlots(s, key, n);
    TurnsStepHead(s, key, n);
    TurnsStepTail(s, key, n);
    TurnsStepStatus(s, key, n);
  }

  /** Turn `n` empties the tail slot and writes the head slot of the ring
      left by the first `n - 1`. */
  lemma TurnsStepSlots(s: State, key: bv8, n: nat)
    requires Addressable(s) && n > 0
    ensures var p := Turns(s, key, n - 1);
      Turns(s, key, n).slots == p.slots[p.tail := 0][p.head := p.slots[p.tail] ^ key]
  {
    NextSlot(s.head + n - 1);
    NextSlot(s.tail + n - 1);
  }

  /** Turn `n` moves the head on one slot. */
  lemma TurnsStepHead(s: State, key: bv8, n: nat)
    requires Addressable(s) && n > 0
    ensures Turns(s, key, n).head == (Turns(s, key, n - 1).head + 1) % Size
  {
    NextSlot(s.head + n - 1);
  }

  /** Turn `n` moves the tail on one slot. */
  lemma TurnsStepTail(s: State, key: bv8, n: nat)
    requires Addressable(s) && n > 0
    ensures Turns(s, key, n).tail == (Turns(s, key, n - 1).tail + 1) % Size
  {
    NextSlot(s.tail + n - 1);
  }

  /** Turn `n` clears OVF, which the first `n - 1` may have cleared already. */
  lemma TurnsStepStatus(s: State, key: bv8, n: nat)
    requires Addressable(s) && n > 0
    ensures Turns(s, key, n).status == Turns(s, key, n - 1).status & !OVF
  {
    if n > 1 {
      ClearTwice(s.status, OVF);
    }
  }

  /** At least one turn leaves OVF cleared and the other flags as they were
      (a solver aid for `RunClearsOverflow`). */
  lemma TurnsStatus(s: State, key: bv8, n: nat)
    requires Addressable(s) && n > 0
    ensures Turns(s, key, n).status == s.status & !OVF
  {
    TurnsStatusIs(s, key, n);
    TurnedStatusCleared(s.status, n);
  }

  /** The status after `n` turns, read off the ring. This and the next
      lemma keep the bit-vector step apart from the unfolding of `Turns`,
      which the solver handles badly together. */
  lemma TurnsStatusIs(s: State, key: bv8, n: nat)
    requires Addressable(s)
    ensures Turns(s, key, n).status == TurnedStatus(s.status, n)
  {
  }

  /** After at least one turn, OVF is cleared and nothing else changes. */
  lemma TurnedStatusCleared(st: bv32, n: nat)
    requires n > 0
    ensures TurnedStatus(st, n) == st & !OVF
  {
  }

  /** A turn of a consistent ring with data queued keeps it consistent. */
  lemma TurnKeepsInvariant(s: State, key: bv8)
    requires Addressable(s) && Consistent(s) && s.count != 0
    ensures Consistent(Turn(s, key))
  {
    PopPushKeepsInv(s.slots, s.head, s.tail, s.count, s.slots[s.tail] ^ key);
  }

  /** A turn of a consistent ring with data queued is one rotation step of
      the queue. */
  lemma TurnRotates(s: State, key: bv8)
    requires Addressable(s) && Consistent(s) && s.count != 0
    ensures Window(Turn(s, key).slots, Turn(s, key).tail, s.count) == Rotate(Window(s.slots, s.tail, s.count), key)
  {
    TurnIs(s, key);
    PopPushRotates(s.slots, s.head, s.tail, s.count, key);
  }

  /** Popping the front byte of a non-empty queue and pushing it back,
      XORed with the key, rotates the queue by one step. */
  lemma PopPushRotates(s: seq<bv8>, head: nat, tail: nat, count: nat, key: bv8)
    requires RingInv(s, head, tail, count) && count > 0
    ensures Window(s[tail := 0][head := s[tail] ^ key], (tail + 1) % Size, count) == Rotate(Window(s, tail, count), key)
  {
    var w := Window(s, tail, count);
    var popped, next := s[tail := 0], (tail + 1) % Size;
    var v := s[tail] ^ key;
    PopRemovesFront(s, head, tail, count);
    PushAppends(popped, head, next, count - 1, v);
    assert Window(popped[head := v], next, count) == w[1..] + [v];
    assert v == w[0] ^ key;
  }

  /** `n` turns of a consistent ring with data queued keep it consistent. */
  lemma {:induction false} TurnsKeepInvariant(s: State, key: bv8, n: nat)
    requires Addressable(s) && Consistent(s) && s.count != 0
    ensures Consistent(Turns(s, key, n))
  {
    if n == 0 {
      TurnsZero(s, key);
    } else {
      TurnsKeepInvariant(s, key, n - 1);
      TurnsStep(s, key, n);
      TurnKeepsInvariant(Turns(s, key, n - 1), key);
    }
  }

  /** `n` turns of a consistent ring with data queued are `n` rotation
      steps of the queue. */
  lemma {:induction false} TurnsRotate(s: State, key: bv8, n: nat)
    requires Addressable(s) && Consistent(s) && s.count != 0
    ensures Window(Turns(s, key, n).slots, Turns(s, key, n).tail, s.count)
            == Recirculate(Window(s.slots, s.tail, s.count), key, n)
  {
    if n == 0 {
      TurnsZero(s, key);
    } else {
      TurnsKeepInvariant(s, key, n - 1);
      TurnsRotate(s, key, n - 1);
      TurnsRotateStep(s, key, n);
    }
  }

  /** The inductive step of the rotation: if the first `n - 1` turns did
      `n - 1` rotation steps, the first `n` do `n`. */
  lemma TurnsRotateStep(s: State, key: bv8, n: nat)
    requires Addressable(s) && n > 0 && Consistent(Turns(s, key, n - 1)) && s.count != 0
    requires Window(Turns(s, key, n - 1).slots, Turns(s, key, n - 1).tail, s.count)
             == Recirculate(Window(s.slots, s.tail, s.count), key, n - 1)
    ensures Window(Turns(s, key, n).slots, Turns(s, key, n).tail, s.count)
            == Recirculate(Window(s.slots, s.tail, s.count), key, n)
  {
    TurnsStep(s, key, n);
    TurnRotates(Turns(s, key, n - 1), key);
  }

  /** On an initialised ring holding between 1 and 64 bytes, the first `n`
      iterations of the loop in Run mode are `n` turns. */
  lemma {:induction false} RunIsTurns(s: State, key: bv8, n: nat)
    requires Addressable(s) && 0 < s.count <= Size && s.status & INIT != 0
    ensures Recirculated(s, key, n, true) == Turns(s, key, n)
  {
    if n == 0 {
      TurnsZero(s, key);
    } else {
      RunIsTurns(s, key, n - 1);
      if n > 1 {
        ClearKeepsOthers(s.status, OVF, INIT);
      }
      StepIsTurn(Turns(s, key, n - 1), key);
      TurnsStep(s, key, n);
    }
  }

  /**
   * The net effect of a whole number of turns (64 iterations each, one
   * call of the periodic step being one turn of the ring) on a consistent
   * initialised ring with data queued: indices, count and invariant are
   * back where they were, OVF is cleared, and the queue has gone through
   * `n` rotation steps.
   */
  lemma FullCycle(s: State, key: bv8, n: nat)
    requires Addressable(s) && Consistent(s) && s.count != 0 && s.status & INIT != 0
    requires n > 0 && n % Size == 0
    ensures Consistent(Recirculated(s, key, n, true))
    ensures Recirculated(s, key, n, true).head == s.head && Recirculated(s, key, n, true).tail == s.tail
    ensures Recirculated(s, key, n, true).count == s.count
    ensures Recirculated(s, key, n, true).status == s.status & !OVF
    ensures Window(Recirculated(s, key, n, true).slots, s.tail, s.count)
            == Recirculate(Window(s.slots, s.tail, s.count), key, n)
  {
    RunKeepsConsistent(s, key, n);
    FullCyclePosition(s, key, n);
    RunClearsOverflow(s, key, n);
    FullCycleQueue(s, key, n);
  }

  /** Any number of iterations in Run mode keep a consistent ring consistent. */
  lemma RunKeepsConsistent(s: State, key: bv8, n: nat)
    requires Addressable(s) && Consistent(s) && s.count != 0 && s.status & INIT != 0
    ensures Consistent(Recirculated(s, key, n, true))
  {
    RunIsTurns(s, key, n);
    TurnsKeepInvariant(s, key, n);
  }

  /** After whole turns of the ring, head, tail and count are back. */
  lemma FullCyclePosition(s: State, key: bv8, n: nat)
    requires Addressable(s) && 0 < s.count <= Size && s.status & INIT != 0
    requires n % Size == 0
    ensures Recirculated(s, key, n, true).head == s.head && Recirculated(s, key, n, true).tail == s.tail
    ensures Recirculated(s, key, n, true).count == s.count
  {
    RunIsTurns(s, key, n);
    WholeTurns(s.head, n);
    WholeTurns(s.tail, n);
  }

  /** At least one iteration in Run mode clears OVF and keeps the other flags. */
  lemma RunClearsOverflow(s: State, key: bv8, n: nat)
    requires Addressable(s) && 0 < s.count <= Size && s.status & INIT != 0
    requires n > 0
    ensures Recirculated(s, key, n, true).status == s.status & !OVF
  {
    TurnsStatus(s, key, n);
    RunIsTurns(s, key, n);
  }

  /** After whole turns of the ring, the queue sits where it was, rotated
      `n` times. */
  lemma FullCycleQueue(s: State, key: bv8, n: nat)
    requires Addressable(s) && Consistent(s) && s.count != 0 && s.status & INIT != 0
    requires n % Size == 0
    ensures Window(Recirculated(s, key, n, true).slots, s.tail, s.count)
            == Recirculate(Window(s.slots, s.tail, s.count), key, n)
  {
    RunIsTurns(s, key, n);
    TurnsRotate(s, key, n);
    WholeTurns(s.tail, n);
  }

  class ToolModule {
    /** The 64 byte slots. */
    const buf: array<bv8>
    /** Next slot to write, next slot to read, number of queued bytes. */
    var head: u32
    var tail: u32
    var count: u32
    /** Status flags (bits INIT, ERR, OVF, UDF). */
    var status: bv32
    /** Current operating mode (a value of the mode enumeration). */
    var mode: int
    /** The periodic step's call counter (a function-static `uint32_t`). */
    var cycleCnt: bv32

    /** The buffer has its 64 slots. */
    ghost predicate Sized()
      reads this
    {
      buf.Length == Size
    }

    /** Both indices address a slot, so the push and pop paths stay in bounds. */
    ghost predicate Indexable()
      reads this
    {
      Sized() && head < Size && tail < Size
    }

    /** The buffer, indices and count form a consistent ring. */
    ghost predicate Valid()
      reads this, buf
    {
      Sized() && RingInv(buf[..], head, tail, count)
    }

    /** The bytes queued, oldest first. */
    ghost function Queue(): seq<bv8>
      reads this, buf
      requires Valid()
    {
      Window(buf[..], tail, count)
    }

    /** The state the periodic step works on, as a value. */
    ghost function Snapshot(): (s: State)
      reads this, buf
      ensures Indexable() ==> Addressable(s)
    {
      State(buf[..], head, tail, count, status)
    }

    /** The object is in state `s`. */
    ghost predicate Holds(s: State)
      reads this, buf
    {
      buf[..] == s.slots && head == s.head && tail == s.tail && count == s.count && status == s.status
    }

    /** Being in state `s` is having `s` as snapshot. */
    lemma HoldsSnapshot(s: State)
      requires Holds(s)
      ensures Snapshot() == s
    {
    }

    /** The initialised flag is set. */
    predicate IsInit()
      reads this
    {
      status & INIT != 0
    }

    /** Static storage starts zeroed: empty ring, no flags, Idle mode. */
    constructor ()
      ensures fresh(buf) && Valid() && Queue() == []
      ensures buf[..] == Zeros() && head == 0 && tail == 0 && count == 0
      ensures status == 0 && mode == Idle && cycleCnt == 0
    {
      buf := new bv8[Size](_ => 0);
      head, tail, count := 0, 0, 0;
      status, mode, cycleCnt := 0, Idle, 0;
      new;
      assert buf[..] == Zeros();
      ResetIsEmpty(buf[..]);
    }

    /** Zero every slot, one at a time. */
    method ZeroSlots()
      requires Sized()
      modifies buf
      ensures buf[..] == Zeros()
    {
      for i := 0 to Size
        invariant forall j :: 0 <= j < i ==> buf[j] == 0
      {
        buf[i] := 0;
      }
      assert buf[..] == Zeros();
    }

    /** Initialise: empty ring with zeroed slots, Idle mode, only INIT set. */
    method Init()
      requires Sized()
      modifies this, buf
      ensures buf[..] == Zeros() && head == 0 && tail == 0 && count == 0
      ensures mode == Idle && status == INIT && cycleCnt == old(cycleCnt)
      ensures Valid() && Queue() == [] && IsInit()
    {
      head, tail, count := 0, 0, 0;
      ZeroSlots();
      mode := Idle;
      status := 0;
      status := status | INIT;
      ResetIsEmpty(buf[..]);
    }

    /** De-initialise: Idle mode, every flag cleared, empty ring with zeroed slots. */
    method DeInit()
      requires Sized()
      modifies this, buf
      ensures buf[..] == Zeros() && head == 0 && tail == 0 && count == 0
      ensures mode == Idle && status == 0 && cycleCnt == old(cycleCnt)
      ensures Valid() && Queue() == [] && !IsInit()
    {
      mode := Idle;
      status := 0;
      head, tail, count := 0, 0, 0;
      ZeroSlots();
      ResetIsEmpty(buf[..]);
    }

    /** Empty the ring and zero its slots, clear ERR and OVF and keep every
        other flag and the mode; allowed whether or not initialised. */
    method Clear()
      requires Sized()
      modifies this, buf
      ensures buf[..] == Zeros() && head == 0 && tail == 0 && count == 0
      ensures status == ClearedFlags(old(status))
      ensures mode == old(mode) && cycleCnt == old(cycleCnt)
      ensures Valid() && Queue() == []
    {
      head, tail, count := 0, 0, 0;
      ZeroSlots();
      status := status & !ERR;
      status := status & !OVF;
      ResetIsEmpty(buf[..]);
    }

    /**
     * Request a mode: refused with 1 (and ERR set) before initialisation,
     * refused with 2 (and ERR set) for a value outside the enumeration,
     * otherwise taken with 0 and ERR cleared. Nothing else changes.
     */
    method SetMode(m: int) returns (rc: u8)
      modifies this
      ensures !old(IsInit()) ==> rc == 1 && mode == old(mode) && status == old(status) | ERR
      ensures old(IsInit()) && !IsMode(m) ==> rc == 2 && mode == old(mode) && status == old(status) | ERR
      ensures old(IsInit()) && IsMode(m) ==> rc == 0 && mode == m && status == old(status) & !ERR
      ensures head == old(head) && tail == old(tail) && count == old(count) && cycleCnt == old(cycleCnt)
      ensures IsMode(old(mode)) ==> IsMode(mode)
    {
      if status & INIT == 0 {
        status := status | ERR;
        rc := 1;
      } else if m != Idle && m != Run && m != Diag {
        status := status | ERR;
        rc := 2;
      } else {
        mode := m;
        status := status & !ERR;
        rc := 0;
      }
    }

    /**
     * The packed status word: the mode in bits 0-1, the flags' bits 2-15,
     * the fill level (modulo 2^16) in bits 16-31; the initialised and
     * error flags are hidden under the mode. The mode is converted to
     * `uint32_t` and masked to two bits, which keeps its residue modulo 4;
     * the count is masked to its low 16 bits.
     */
    function GetStatus(): (r: bv32)
      reads this
      ensures (r & 3) as int == mode % 4
      ensures IsMode(mode) ==> (r & 3) as int == mode
      ensures r & 0xFFFC == status & 0xFFFC
      ensures r >> 16 == ((count % 0x1_0000) as bv16) as bv32
    {
      var m: bv32 := ((mode % 4) as bv2) as bv32;
      var st := (status & 0xFFFF_FFFC) | m;
      (st & 0xFFFF) | ((((count % 0x1_0000) as bv16) as bv32) << 16)
    }

    /**
     * Append a byte: refused with 2 (ERR set) before initialisation,
     * refused with 1 (OVF set) when all 64 slots are taken, otherwise the
     * byte goes to the head slot, the head advances modulo 64, the count
     * grows and OVF is cleared.
     */
    method Push(v: bv8) returns (rc: u8)
      requires Indexable()
      modifies this, buf
      ensures Indexable() && mode == old(mode) && cycleCnt == old(cycleCnt)
      ensures !old(IsInit()) ==> Holds(old(Snapshot()).(status := old(status) | ERR))
      ensures old(IsInit()) && old(count) >= Size ==> Holds(old(Snapshot()).(status := old(status) | OVF))
      ensures old(IsInit()) && old(count) < Size ==>
        Holds(old(Snapshot()).(slots := old(buf[..])[old(head) := v], head := (old(head) as int + 1) % Size,
                               count := old(count) as int + 1, status := old(status) & !OVF))
      ensures rc == if !old(IsInit()) then 2 else if old(count) >= Size then 1 else 0
    {
      if status & INIT == 0 {
        status := status | ERR;
        rc := 2;
      } else if count >= Size as u32 {
        status := status | OVF;
        rc := 1;
      } else {
        status := status & !OVF;
        buf[head] := v;
        head, count := (head + 1) % Size as u32, count + 1;
        rc := 0;
      }
    }

    /** A push, seen on the queue: the ring stays consistent; a successful
        push appends the byte, a refused one leaves the queue as it was. */
    twostate lemma PushQueues(v: bv8)
      requires old(Indexable()) && Holds(PushOn(old(Snapshot()), v))
      ensures old(Valid()) ==> Valid()
      ensures old(Valid()) && old(IsInit()) && old(count) < Size ==> Queue() == old(Queue()) + [v]
      ensures old(Valid()) && (!old(IsInit()) || old(count) >= Size) ==> Queue() == old(Queue())
    {
      if old(Valid()) {
        var s := old(Snapshot());
        PushOnQueues(s, v);
      }
    }

    /**
     * The three outcomes `Push` states on the fields, taken together, are
     * `PushOn` applied to the state before the call.
     */
    twostate lemma PushOutcome(v: bv8)
      requires old(Indexable())
      requires !old(IsInit()) ==> Holds(old(Snapshot()).(status := old(status) | ERR))
      requires old(IsInit()) && old(count) >= Size ==> Holds(old(Snapshot()).(status := old(status) | OVF))
      requires old(IsInit()) && old(count) < Size ==>
        Holds(old(Snapshot()).(slots := old(buf[..])[old(head) := v], head := (old(head) as int + 1) % Size,
                               count := old(count) as int + 1, status := old(status) & !OVF))
      ensures Holds(PushOn(old(Snapshot()), v))
    {
      if !old(IsInit()) {
        PushOutcomeUninit(v);
      } else if old(count) >= Size {
        PushOutcomeFull(v);
      } else {
        PushOutcomeStore(v);
      }
    }

    /** The failure before initialisation is `PushOn`'s first case. */
    twostate lemma PushOutcomeUninit(v: bv8)
      requires old(Indexable())
      requires !old(IsInit()) ==> Holds(old(Snapshot()).(status := old(status) | ERR))
      ensures !old(IsInit()) ==> Holds(PushOn(old(Snapshot()), v))
    {
      PushOnUninit(old(Snapshot()), v);
    }

    /** The overflow is `PushOn`'s second case. */
    twostate lemma PushOutcomeFull(v: bv8)
      requires old(Indexable())
      requires old(IsInit()) && old(count) >= Size ==> Holds(old(Snapshot()).(status := old(status) | OVF))
      ensures old(IsInit()) && old(count) >= Size ==> Holds(PushOn(old(Snapshot()), v))
    {
      PushOnFull(old(Snapshot()), v);
    }

    /** The stored byte is `PushOn`'s third case. */
    twostate lemma PushOutcomeStore(v: bv8)
      requires old(Indexable())
      requires old(IsInit()) && old(count) < Size ==>
        Holds(old(Snapshot()).(slots := old(buf[..])[old(head) := v], head := (old(head) as int + 1) % Size,
                               count := old(count) as int + 1, status := old(status) & !OVF))
      ensures old(IsInit()) && old(count) < Size ==> Holds(PushOn(old(Snapshot()), v))
    {
      PushOnStores(old(Snapshot()), v);
    }

    /**
     * Remove the oldest byte. The caller's output pointer is modelled by
     * `isNull` and the result `written`: `None` when nothing is stored
     * through the pointer. A null pointer fails with 3 (ERR set); before
     * initialisation it fails with 2 (ERR set, 0 written); on an empty ring
     * with 1 (0 written, no flag). Otherwise the tail byte is written, its
     * slot zeroed, the tail advances modulo 64 and the count drops.
     */
    method Pop(isNull: bool) returns (rc: u8, written: Option<bv8>)
      requires Indexable()
      modifies this, buf
      ensures Indexable() && mode == old(mode) && cycleCnt == old(cycleCnt)
      ensures isNull ==> rc == 3 && written == None && Holds(old(Snapshot()).(status := old(status) | ERR))
      ensures !isNull ==> Holds(PopOn(old(Snapshot())).after) && written == Some(PopOn(old(Snapshot())).value)
      ensures !isNull ==> rc == if !old(IsInit()) then 2 else if old(count) == 0 then 1 else 0
      ensures old(Valid()) ==> Valid()
      ensures old(Valid()) && !isNull && old(IsInit()) && old(count) > 0 ==>
        written == Some(old(Queue())[0]) && Queue() == old(Queue())[1..]
      ensures old(Valid()) && (isNull || !old(IsInit()) || old(count) == 0) ==> Queue() == old(Queue())
    {
      ghost var s0 := Snapshot();
      if isNull {
        status := status | ERR;
        rc, written := 3, None;
      } else if status & INIT == 0 {
        status := status | ERR;
        rc, written := 2, Some(0);
      } else if count == 0 {
        rc, written := 1, Some(0);
      } else {
        written := Some(buf[tail]);
        buf[tail] := 0;
        tail, count := (tail + 1) % Size as u32, count - 1;
        rc := 0;
        assert buf[..] == s0.slots[s0.tail := 0];
        if RingInv(s0.slots, s0.head, s0.tail, s0.count) {
          PopRemovesFront(s0.slots, s0.head, s0.tail, s0.count);
        }
      }
    }

    /**
     * Self-test: with an impossible fill level (above 64) it fails with 1
     * (ERR set); otherwise it sums all 64 slots and fails with 2 (UDF set)
     * if the sum exceeds 255 * 64, else clears UDF and returns 0. The
     * buffer and indices are not changed.
     */
    method RunTst() returns (rc: u8)
      requires Sized()
      modifies this
      ensures head == old(head) && tail == old(tail) && count == old(count)
      ensures mode == old(mode) && cycleCnt == old(cycleCnt)
      ensures old(count) > Size ==> rc == 1 && status == old(status) | ERR
      ensures old(count) <= Size && ByteSum(buf[..]) > 255 * Size ==> rc == 2 && status == old(status) | UDF
      ensures old(count) <= Size && ByteSum(buf[..]) <= 255 * Size ==> rc == 0 && status == old(status) & !UDF
    {
      if count > Size as u32 {
        status := status | ERR;
        rc := 1;
      } else {
        var sum: nat := 0;
        for i := 0 to Size
          invariant sum == ByteSum(buf[..i])
        {
          assert buf[..i + 1][..i] == buf[..i];
          sum := sum + buf[i] as int;
        }
        assert buf[..Size] == buf[..];
        if sum > 255 * Size {
          status := status | UDF;
          rc := 2;
        } else {
          status := status & !UDF;
          rc := 0;
        }
      }
    }

    /**
     * One iteration of the periodic step with data queued: pop the oldest
     * byte, XOR it with the key, push the result back; both return codes
     * are ignored.
     */
    method PopXorPush(key: bv8)
      requires Indexable()
      modifies this, buf
      ensures Indexable() && mode == old(mode) && cycleCnt == old(cycleCnt)
      ensures Snapshot() == Step(old(Snapshot()), key)
    {
      ghost var s0 := Snapshot();
      var rc, written := Pop(false);
      HoldsSnapshot(PopOn(s0).after);
      var val := written.value ^ key;
      label BeforePush:
      rc := Push(val);
      PushOutcome@BeforePush(val);
      HoldsSnapshot(PushOn(PopOn(s0).after, val));
    }

    /**
     * The periodic step. It bumps the call counter (wrapping at 2^32) and
     * takes its low byte as the key; then, 64 times, in Run mode with data
     * queued, it pops a byte, XORs it with the key and pushes it back.
     */
    method Process()
      requires Indexable()
      modifies this, buf
      ensures Indexable() && mode == old(mode) && cycleCnt == old(cycleCnt) + 1
      ensures Snapshot() == Recirculated(old(Snapshot()), (cycleCnt & 0xFF) as bv8, Size, old(mode) == Run)
    {
      cycleCnt := cycleCnt + 1;
      var key := (cycleCnt & 0xFF) as bv8;
      ghost var run := mode == Run;
      ghost var s0 := Snapshot();
      for iter := 0 to Size
        invariant Indexable() && mode == old(mode) && cycleCnt == old(cycleCnt) + 1
        invariant Snapshot() == Recirculated(s0, key, iter, run)
      {
        if mode == Run && count != 0 {
          PopXorPush(key);
        }
      }
    }
  }
}
