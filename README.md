# Tool module: a verified Dafny model

The Tool module is a small embedded C component. It holds one process-wide
instance of the following state:

- a 64-byte ring buffer (`Buffer_u8`) with a head index, a tail index and a
  fill count;
- an operating mode (Idle = 0, Run = 1, Diag = 2);
- a 32-bit status word with the bits INIT (bit 0), ERR (bit 1), OVF (bit 2)
  and UDF (bit 3);
- a function-static cycle counter owned by the periodic step.

Its operations are:

- initialisation and de-initialisation;
- a mode request with return codes;
- push and pop with documented error precedence;
- a clear that keeps INIT;
- a packed status word;
- a self-test;
- the bounded CRC-32 routine;
- the periodic step `Tool_Process`. Each call runs 64 loop iterations. In
  Run mode with data queued, each iteration pops the oldest byte, XORs it
  with the low byte of the cycle counter and pushes the result back. With
  64 bytes queued every byte goes round once per call. With 3 bytes queued
  each goes round 21 or 22 times.

The model has five modules:

- `ToolDefs` (tool_defs.dfy) holds the header's constants, with the values of
  `Tool.h` lines 19-28 and 45. It also holds the flag-algebra lemmas.
- `Crc` (crc.dfy) holds the reflected CRC-32 of IEEE 802.3 as a recursive
  specification, and the routine's nested loop proved equal to it.
- `Ring` (ring.dfy) holds the queue abstraction. `Window(buf, tail, count)` is
  the FIFO queue `[buf[(tail + i) % 64] | i < count]`.
  - `RingInv` is the ring invariant: `head == (tail + count) % 64`,
    `count <= 64`, and every slot outside the occupied window is zero.
  - The module also proves what a push or a pop does to the window.
- `Recirculation` (recirculation.dfy) describes the periodic step's effect on
  the queue. One iteration is the rotation `q[1..] + [q[0] ^ key]`.
  - The module gives the closed form of any number of rotations.
  - It proves the 64-iteration facts: a queue of 1, 2, 4, 8, 16 or 32 bytes
    comes back unchanged, and a full queue has every byte XORed once.
- `Tool` (tool.dfy) holds the class `ToolModule`. Its fields are the C
  file-static variables `buf: array<bv8>`, `head`, `tail` and `count` (as
  `uint32_t` ranges), `status: bv32` and `mode: int`. A further field,
  `cycleCnt: bv32`, holds the function-static counter `l_CycleCnt_u32` of
  `Tool_Process` (`pltf/Tool.c` line 233).
  - Every C function that reads or writes the module state is a method of
    the class, or a function when it only reads. The CRC routine touches
    no state and is `Crc.ComputeCrc`, outside the class.
  - Beside the class are value-level definitions of one pop (`PopOn`), one
    push (`PushOn`), one loop iteration (`Step`) and `n` iterations
    (`Recirculated`). The methods are proved against them.
  - `Turn` and `Turns` give the closed form of a run of successful
    iterations. They connect the loop to the queue rotation of module
    `Recirculation`.

The extracted copies `unitTest/TEST_Tool_Process/src/Tool_Process.c` and
`unitTest/TEST_Tool_Clear/src/Tool_Clear.c` have the same bodies as
`Tool_Process` and `Tool_Clear` in `pltf/Tool.c`. One model covers both.

The CRC routine's header comment (`Tool.h` lines 286-288 and 345) says that a
NULL pointer or a zero length returns the seed `0xFFFFFFFF`. The code
(`pltf/Tool.c` lines 115-132) still applies the final XOR, so it returns 0.
The model follows the code: `Crc.ComputeCrc` ensures the result 0, and
`Crc.EmptyMessage` states it for the specification.

## Model

| member | source | states |
|---|---|---|
| `Crc.ShiftBit` | pltf/Tool.c:126 | defines one division step: shift right, XOR the polynomial 0xEDB88320 in when the bit shifted out was 1 |
| `Crc.UpdateByte` | pltf/Tool.c:124-127 | defines the byte step: XOR the byte into the register, then eight division steps |
| `Crc.Register` | pltf/Tool.c:121-128 | defines the register after the bytes of a message, fed in order from a given start value |
| `Crc.Crc32` | pltf/Tool.c:110-132 | defines the CRC of a message: the register from seed 0xFFFFFFFF over the message, XORed with 0xFFFFFFFF |
| `Crc.EffectiveLength` | pltf/Tool.c:119 | the processed length is min(length, 256): at most the cap, at most the request, and equal to one of them |
| `Crc.RegisterAppend` | pltf/Tool.c:121-128 | feeding bytes one after another into the register is feeding the whole message: the register carries across loop iterations |
| `Crc.UpdateByteUnrolled` | pltf/Tool.c:124-127 | one byte update is the XOR of the byte followed by exactly eight shift-and-conditional-XOR steps |
| `Crc.EmptyMessage` | pltf/Tool.c:114-132 | with no byte processed the seed cancels against the final XOR and the CRC is 0 |
| `Crc.CheckValue` | unitTest/TEST_Tool_Process/src/Tool.h:276-297 | the specification is the standard CRC-32: ASCII "123456789" gives 0xCBF43926 |
| `Crc.ComputeCrc` | pltf/Tool.c:109-135 | NULL pointer or zero length gives 0; otherwise the result is the CRC-32 of exactly the first min(length, 256) bytes, so later bytes cannot affect it |
| `Ring.Window` | pltf/Tool.c:178-181 | the queue has `count` bytes, the i-th oldest in slot (tail + i) % 64 |
| `Ring.ResetIsEmpty` | pltf/Tool.c:36-43 | indices 0 and all slots zero form a consistent ring with an empty queue |
| `Ring.PushKeepsZeros` | pltf/Tool.c:150-152 | storing at the head of a ring with room keeps every slot outside the grown window zero |
| `Ring.PushWindow` | pltf/Tool.c:150-152 | storing at the head slot extends the queue by the stored byte and keeps the older bytes |
| `Ring.PushAppends` | pltf/Tool.c:150-152 | a push on a consistent ring with room keeps the ring invariant and appends the byte to the queue |
| `Ring.PopKeepsZeros` | pltf/Tool.c:178-182 | zeroing the tail slot keeps every slot outside the shrunk window zero |
| `Ring.PopWindow` | pltf/Tool.c:178-182 | the tail slot holds the front of the queue; after the tail moves on the queue is the old one without its front |
| `Ring.PopRemovesFront` | pltf/Tool.c:178-182 | a pop on a consistent non-empty ring yields the front of the queue, keeps the invariant and leaves the rest of the queue |
| `Ring.PopPushKeepsInv` | unitTest/TEST_Tool_Process/src/Tool_Process.c:27-29 | a pop followed by a push of any byte keeps a consistent non-empty ring consistent with the same count |
| `Ring.WindowSlot` | pltf/Tool.c:178 | a slot inside the occupied window is the queue byte at its offset from the tail |
| `Ring.WindowDeterminesBuffer` | pltf/Tool.c:179 | because popped slots are zeroed, two consistent buffers with the same indices and the same queue are equal |
| `Recirculation.Rotate` | unitTest/TEST_Tool_Process/src/Tool_Process.c:27-29 | defines one pop/XOR/push on the queue: the front byte, XORed with the key, moves to the back, and the empty queue stays empty; the length is kept |
| `Recirculation.Recirculate` | unitTest/TEST_Tool_Process/src/Tool_Process.c:25-33 | defines `n` such steps in a row; the length is kept |
| `Recirculation.XorAll` | unitTest/TEST_Tool_Process/src/Tool_Process.c:28 | every byte XORed with the key, order and length kept |
| `Recirculation.XorAllTwice` | unitTest/TEST_Tool_Process/src/Tool_Process.c:28 | XOR with the same key twice restores every byte |
| `Recirculation.XorAllSnoc` | unitTest/TEST_Tool_Process/src/Tool_Process.c:28 | XORing a queue extended by one byte is XORing the queue, then that byte |
| `Recirculation.RecirculateAdd` | unitTest/TEST_Tool_Process/src/Tool_Process.c:25-33 | `a` iterations followed by `b` iterations are `a + b` iterations |
| `Recirculation.RotateStep` | unitTest/TEST_Tool_Process/src/Tool_Process.c:27-29 | one more iteration moves the next unprocessed byte, XORed, behind the ones already moved |
| `Recirculation.PartialPass` | unitTest/TEST_Tool_Process/src/Tool_Process.c:25-33 | after `n <= count` iterations the first `n` bytes have each been XORed once and moved to the back in order |
| `Recirculation.FullPass` | unitTest/TEST_Tool_Process/src/Tool_Process.c:25-33 | `count` iterations XOR every byte once and restore the order |
| `Recirculation.AfterPassesParity` | unitTest/TEST_Tool_Process/src/Tool_Process.c:28 | an even number of full passes gives the queue back, an odd number XORs every byte once |
| `Recirculation.FullPasses` | unitTest/TEST_Tool_Process/src/Tool_Process.c:25-33 | `m * count` iterations are `m` full passes |
| `Recirculation.OnePassMore` | unitTest/TEST_Tool_Process/src/Tool_Process.c:25-33 | `count` more iterations after `m` full passes make `m + 1` |
| `Recirculation.ClosedForm` | unitTest/TEST_Tool_Process/src/Tool_Process.c:25-33 | `m * count + r` iterations are `m` full passes, then a partial pass over the oldest `r` bytes |
| `Recirculation.SixtyFourStepsClosedForm` | unitTest/TEST_Tool_Process/src/Tool_Process.c:25-33 | the 64 iterations of one call, on any queue of 1 to 64 bytes, are `64 / count` full passes, then `64 % count` bytes XORed once more and moved to the back |
| `Recirculation.SixtyFourSteps` | unitTest/TEST_Tool_Process/src/Tool_Process.c:25-33 | one call's 64 iterations return a queue of 1, 2, 4, 8, 16 or 32 bytes unchanged and XOR every byte of a full queue once |
| `Recirculation.SingleByteUnchanged` | unitTest/TEST_Tool_Process/src/Tool_Process.c:25-29 | a single queued byte is XORed 64 times with the same key and ends unchanged |
| `Tool.ByteSum` | pltf/Tool.c:214-216 | defines the self-test's sum: the bytes added from the first slot on, as unbounded integers (the 32-bit sum of 64 bytes cannot wrap) |
| `Tool.ByteSumBound` | pltf/Tool.c:214-220 | the self-test's sum of 64 bytes is at most 255 * 64, so its anomaly test can never fire |
| `Tool.ClearedFlags` | unitTest/TEST_Tool_Clear/src/Tool_Clear.c:29-30 | after the reset ERR and OVF are clear and every other status bit is as it was |
| `Tool.ClearedFlagsKeeps` | unitTest/TEST_Tool_Clear/src/Tool_Clear.c:28-30 | the reset keeps INIT and UDF |
| `Tool.ClearedFlagsIdempotent` | pltf/Tool.c:201-202 | resetting the flags twice is resetting them once |
| `Tool.PopOn` | pltf/Tool.c:168-185 | defines a pop through a valid pointer: before initialisation ERR set and 0 yielded; on an empty ring 0 yielded and nothing changed; otherwise the tail byte yielded, its slot zeroed, the tail advanced modulo 64 and the count decreased. It never moves the head |
| `Tool.PushedStatus` | pltf/Tool.c:141-154 | defines the status a push leaves: ERR set before initialisation, else OVF set with 64 or more bytes counted, else OVF cleared |
| `Tool.PushOn` | pltf/Tool.c:141-155 | defines a push: when not initialised or with 64 or more bytes counted only the status changes; otherwise the byte is stored at the head, the head advanced modulo 64 and the count increased. It never moves the tail |
| `Tool.PushedStatusFlags` | pltf/Tool.c:141-154 | every branch of a push keeps INIT, and a set ERR stays set |
| `Tool.PushKeepsFlags` | pltf/Tool.c:137-159 | a push never changes INIT and never clears ERR |
| `Tool.PopKeepsFlags` | pltf/Tool.c:161-188 | a pop through a valid pointer never changes INIT and never clears ERR |
| `Tool.PushOnQueues` | pltf/Tool.c:137-159 | a push keeps the ring invariant; a successful push appends the byte to the queue; a refused push leaves buffer, head and count as they were |
| `Tool.PopOnQueues` | pltf/Tool.c:161-188 | a pop keeps the ring invariant; a successful pop yields the front of the queue and leaves the rest; a failed pop yields 0 and leaves buffer, tail and count as they were |
| `Tool.PushThenPop` | pltf/Tool.c:150-152 | FIFO order: a push then a pop yield the oldest byte of the queue with the pushed byte appended, and leave the rest |
| `Tool.Step` | pltf/Tool.c:240-243 | defines one loop iteration with data queued: `PopOn`, XOR of the popped byte with the key, `PushOn` of the result, both return codes ignored; the indices stay in range |
| `Tool.StepKeepsFlags` | pltf/Tool.c:240-243 | one iteration never changes INIT and never clears ERR |
| `Tool.Recirculated` | pltf/Tool.c:239-247 | defines the first `n` loop iterations: each is `Step` when the mode is Run and the count is not 0, and a no-op otherwise |
| `Tool.RecirculatedKeepsFlags` | pltf/Tool.c:239-247 | any number of iterations, in any mode, leave INIT as it was and a set ERR set: only Init and DeInit write INIT, and only Init, DeInit, an accepted SetMode and Clear clear ERR |
| `Tool.IdleKeepsState` | unitTest/TEST_Tool_Process/src/Tool_Process.c:26-32 | outside Run mode, or with nothing queued, any number of iterations change nothing |
| `Tool.UninitSetsError` | unitTest/TEST_Tool_Process/src/Tool_Process.c:26-29 | forced into Run mode with data but INIT clear, every iteration fails, and the loop only sets ERR |
| `Tool.UninitStepAgain` | pltf/Tool.c:168-171 | once ERR is set before initialisation, a further iteration changes nothing |
| `Tool.StepFailsUninit` | pltf/Tool.c:141-143 | before initialisation both the pop and the push fail and only ERR is set |
| `Tool.StepSucceeds` | unitTest/TEST_Tool_Process/src/Tool_Process.c:27-29 | on an initialised ring with 1 to 64 bytes queued, both the pop and the push succeed: the tail byte XOR the key goes to the head slot, the tail slot is otherwise zeroed, both indices advance and OVF is cleared |
| `Tool.StepIsTurn` | unitTest/TEST_Tool_Process/src/Tool_Process.c:27-29 | on such a ring one iteration is one turn |
| `Tool.TurnsStep` | unitTest/TEST_Tool_Process/src/Tool_Process.c:25-29 | `n` turns are one turn after `n - 1` turns |
| `Tool.TurnKeepsInvariant` | unitTest/TEST_Tool_Process/src/Tool_Process.c:27-29 | one turn keeps a consistent non-empty ring consistent |
| `Tool.TurnRotates` | unitTest/TEST_Tool_Process/src/Tool_Process.c:27-29 | one turn of a consistent non-empty ring is one rotation step of its queue |
| `Tool.PopPushRotates` | unitTest/TEST_Tool_Process/src/Tool_Process.c:27-29 | popping the front byte and pushing it back XORed with the key rotates the queue one step |
| `Tool.TurnsKeepInvariant` | unitTest/TEST_Tool_Process/src/Tool_Process.c:25-29 | any number of turns keep a consistent non-empty ring consistent |
| `Tool.TurnsRotate` | unitTest/TEST_Tool_Process/src/Tool_Process.c:25-29 | `n` turns rotate the queue `n` steps |
| `Tool.TurnsRotateStep` | unitTest/TEST_Tool_Process/src/Tool_Process.c:25-29 | if `n - 1` turns rotated the queue `n - 1` steps, `n` turns rotate it `n` steps |
| `Tool.RunIsTurns` | unitTest/TEST_Tool_Process/src/Tool_Process.c:25-29 | on an initialised ring with 1 to 64 bytes, `n` iterations in Run mode are exactly `n` turns |
| `Tool.RunKeepsConsistent` | unitTest/TEST_Tool_Process/src/Tool_Process.c:25-29 | iterations in Run mode keep an initialised consistent ring consistent |
| `Tool.RunClearsOverflow` | pltf/Tool.c:154 | at least one iteration in Run mode on an initialised ring with data clears OVF and keeps every other flag |
| `Tool.FullCyclePosition` | unitTest/TEST_Tool_Process/src/Tool_Process.c:25 | after a multiple of 64 iterations in Run mode, head, tail and count are what they were |
| `Tool.FullCycleQueue` | unitTest/TEST_Tool_Process/src/Tool_Process.c:25-29 | after a multiple of 64 iterations in Run mode, the queue starts at the same tail and has gone through that many rotation steps |
| `Tool.FullCycle` | unitTest/TEST_Tool_Process/src/Tool_Process.c:18-34 | one call (64 iterations) in Run mode on an initialised consistent ring with data keeps the invariant, head, tail and count, clears OVF only, and rotates the queue 64 steps |
| `Tool.ToolModule.constructor` | pltf/Tool.c:20-28 | zero-initialised static storage (the counter is the function-static of line 233): a fresh buffer with all slots zero, indices and count 0, no flag, Idle mode, counter 0; a consistent empty ring |
| `Tool.ToolModule.ZeroSlots` | pltf/Tool.c:41-43 | the bounded loop zeroes all 64 slots |
| `Tool.ToolModule.Init` | pltf/Tool.c:32-49 | indices and count 0, all slots zero, Idle mode, status exactly INIT, counter untouched; the ring is consistent and empty; the new state does not depend on the old one, so Init is idempotent |
| `Tool.ToolModule.DeInit` | pltf/Tool.c:51-67 | Idle mode, status exactly 0, indices and count 0, all slots zero, counter untouched; the ring is consistent and empty, and DeInit is idempotent |
| `Tool.ToolModule.Clear` | pltf/Tool.c:190-203 | from any state, even an inconsistent one: indices and count 0, all slots zero, ERR and OVF cleared with every other bit kept, mode and counter untouched, consistent empty ring; with `ClearedFlagsIdempotent`, Clear is idempotent |
| `Tool.ToolModule.SetMode` | pltf/Tool.c:69-88 | not initialised: 1, ERR set, mode kept; mode outside {0,1,2}: 2, ERR set, mode kept; otherwise 0, mode taken, ERR cleared; nothing else changes |
| `Tool.ToolModule.GetStatus` | pltf/Tool.c:90-107 | reads only; bits 1:0 are the mode as converted and masked (the mode itself for a valid mode), bits 15:2 are the status bits 15:2, bits 31:16 are the count modulo 2^16 |
| `Tool.ToolModule.Push` | pltf/Tool.c:137-159 | not initialised: 2, only ERR set; 64 bytes counted: 1, only OVF set; otherwise 0, byte at the head, head advanced modulo 64, count + 1, only OVF cleared; mode and counter untouched |
| `Tool.ToolModule.PushOutcome` | unitTest/TEST_Tool_Process/src/Tool.h:357-367 | the three outcomes of `Push` together are `PushOn` of the state before the call |
| `Tool.ToolModule.PushQueues` | unitTest/TEST_Tool_Process/src/Tool.h:357-367 | after a push the ring stays consistent; a successful push appends the byte to the queue and a refused one leaves the queue as it was |
| `Tool.ToolModule.Pop` | pltf/Tool.c:161-188 | NULL pointer: 3, only ERR set, nothing written; otherwise the state after is `PopOn` of the state before and the byte written is its value; codes 2 (not initialised), 1 (empty) and 0 in that precedence; a consistent ring stays consistent; a successful pop writes the front of the queue and removes it |
| `Tool.ToolModule.RunTst` | pltf/Tool.c:204-230 | count above 64: 1 and ERR set; otherwise a sum over all 64 slots above 255 * 64 gives 2 (UDF set) and any other sum 0 (UDF cleared), so by `ByteSumBound` only 0 or 1 can come back; buffer, indices, mode and counter untouched |
| `Tool.ToolModule.PopXorPush` | pltf/Tool.c:240-243 | one pop, XOR with the key and push on the object is `Step` on its state |
| `Tool.ToolModule.Process` | pltf/Tool.c:232-248 | the counter grows by exactly 1, wrapping at 2^32, and its new low byte is the key; the buffer, indices, count and status after the call are those of the 64 loop iterations (`Recirculated`), each acting only in Run mode with data queued; mode untouched |

## Left out

- The Unity, CMock and Ceedling test framework: `setUp`, `tearDown`, the mock
  expectations and the generated preprocessed copies of the tests and the
  header. The tests served only as evidence for the properties above.
- `ModuleName_FunctionEx_` (`Tool.h` line 617) is a prototype with no body
  anywhere. It is not part of this model.
- The extra `int testA` parameter of `Tool_Pop_u8` in the test header and its
  `0` argument in the extracted `Tool_Process` are a mock artifact. The model
  follows the one-parameter function of `pltf/Tool.c`.
- C linkage (`static` in the implementation, `extern` in the test header, and
  globals defined in the extracted files) is not modelled. The state is
  modelled once, as the fields of `Tool.ToolModule`.
- Concurrency and reentrancy are not modelled. The module has no locking and
  is modelled as having a single owner.
- The pop's output pointer is modelled as an `isNull` flag plus an
  `Option<bv8>` result, with `None` meaning nothing was stored. The memory it
  points to is not modelled.
- The CRC data pointer is likewise an `isNull` flag plus the byte sequence it
  designates. `Crc.ComputeCrc` requires that sequence to hold the bytes the
  routine reads, as C requires.
- Tool.ToolModule.Push, Tool.ToolModule.Pop, Tool.ToolModule.PopXorPush and
  Tool.ToolModule.Process require head and tail below 64 (`Indexable`).
  - On the paths that store or read a slot, a larger index makes the C code
    access memory outside the 64-byte array. That is undefined behaviour
    and cannot be modelled.
  - The requires also covers paths that never index the array. Those
    paths are: a push before initialisation or on a full ring; a pop with
    a NULL pointer, before initialisation or on an empty ring; a call of
    the periodic step outside Run mode or with nothing queued.
  - The model does not describe those paths from a state with an index of
    64 or more. No sequence of the module's own calls reaches such a state:
    the constructor, Init, DeInit and Clear set both indices to 0, and
    Push, Pop and Process ensure `Indexable` again. Only writing the
    variables directly does, as a test can in the extracted copies, where
    they are not `static`.
- Tool.ToolModule.Push states its effect on the queue through the separate
  two-state lemmas `PushOutcome` and `PushQueues`, not in its own ensures.
- Tool.FullCycle and the other whole-call lemmas assume INIT is set and 1 to
  64 bytes are queued. A call in Run mode with INIT set and a count above 64
  (reachable only by forcing the state) is characterised only through
  `Recirculated`, step by step.
- Tool.ToolModule.SetMode states "every other status bit is kept" as an
  explicit `| ERR` or `& !ERR` on the old status. The bit-level consequence
  (INIT, OVF and UDF unchanged) is `ToolDefs.SetKeepsOthers` and
  `ToolDefs.ClearKeepsOthers`.
- The value-level state `Tool.State` leaves out the mode and the cycle
  counter. The loop body never changes them, and `Process` states them on
  the object.
