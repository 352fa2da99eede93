# DigitalPedal delay line, modelled in Dafny

DigitalPedal is a guitar-pedal style echo built on an audio callback. Its core
is the `Delay` class. `Delay` is a circular buffer of `delayBufferSize` samples
with a read cursor and a write cursor. Both cursors start at slot 0 and advance
together modulo the buffer size. Each `process(input)` call reads the slot under
the read cursor, then overwrites the slot under the write cursor with `input`,
so every sample comes back exactly `delayBufferSize` calls after it went in. The
first `delayBufferSize` calls emit the zeros the buffer was filled with. The
audio callback feeds every frame of a block through `process` in order. It
writes each result to the left and right slots of an interleaved stereo output
and always asks the stream to continue.

The project has two modules:

- `DelaySpec` (`delay_spec.dfy`) is a value-level account of a delay line of
  length `len`. The line holds `len` pending samples, oldest first. `Feed` gives
  the samples a run of calls emits. `Advance` gives the samples left pending.
  `DelayedInput` is the reference pure delay. The lemmas prove that the line is
  a pure delay primed with silence. They also prove that running two blocks one
  after the other is the same as running their concatenation.
- `Pedal` (`delay.dfy`) holds the `Delay` class with the source's four fields:
  an `array` buffer, its size, and the two `int` cursors. It also holds a ghost
  history `Fed` of every input processed. The invariant `Valid()` says three
  things. The cursors are equal. They stay in range and equal the number of
  calls modulo the size. Slot `k` holds the pending sample that is
  `(k - cursor) mod size` calls from being emitted. `Callback` models the
  per-frame loop of `paCallback`.

Samples are `real`. The source's samples are `float`, but `process` only moves
them, so no floating-point behaviour is involved.

`main.cpp` has no feedback gain, bypass switch or run-time delay change, so
`Process` stores the raw input and does no mixing. `ImpulseEchoesOnce` states
the result: an impulse returns exactly once, at full amplitude. It does not
decay over repeated echoes.

The constructor accepts a size of 0, as the source does when
`delayTime * sampleRate < 1`. `Process` and `Callback` require a non-empty
buffer, because the source indexes the buffer and takes `% delayBufferSize` on
every call.

## Model

| member | source | states |
|---|---|---|
| `Pedal.Delay.constructor` | DigitalPedal/main.cpp:21-26 | the buffer has the requested size, every slot is 0, both cursors are 0 and nothing has been fed |
| `Pedal.Delay.Process` | DigitalPedal/main.cpp:28-36 | returns the slot under the read cursor as it was before this call's write; changes only the old write slot, to `input`; advances both cursors together modulo the size and keeps them in range; the returned sample is the input of call `i - size`, or 0 for the first `size` calls |
| `Pedal.Callback` | DigitalPedal/main.cpp:40-57 | every frame goes through `Process` once, in order; output slots `2i` and `2i+1` both hold the sample returned for frame `i`, which is the pure delay of the whole input stream; the result is always `Continue` |
| `Pedal.Delay.Pending` | DigitalPedal/main.cpp:18-23 | a line always holds exactly `delayBufferSize` pending samples |
| `Pedal.CursorStep` | DigitalPedal/main.cpp:32-33 | advancing a cursor that equals the call count modulo the size gives the next call count modulo the size |
| `DelaySpec.Feed` | DigitalPedal/main.cpp:28-36 | a run of calls emits one sample per input |
| `DelaySpec.Advance` | DigitalPedal/main.cpp:28-36 | a run of calls leaves the number of pending samples unchanged |
| `DelaySpec.StepLaw` | DigitalPedal/main.cpp:29-33 | one call emits the oldest pending sample, which the pure delay prescribes for that call, and the input joins the back of the pending samples |
| `DelaySpec.FeedShifts` | DigitalPedal/main.cpp:28-36 | the samples emitted are the pending samples followed by the inputs, cut to one per call |
| `DelaySpec.AdvanceShifts` | DigitalPedal/main.cpp:28-36 | the samples left pending are the last `len` of the pending samples followed by the inputs |
| `DelaySpec.PureDelayLaw` | DigitalPedal/main.cpp:21-36 | from construction, call `i` emits the input of call `i - len` when `i >= len`, and 0 when `i < len` |
| `DelaySpec.FeedAfter` | DigitalPedal/main.cpp:49-54 | on a line already fed `fed`, call `j` of the next block emits what call `|fed| + j` of the whole stream prescribes |
| `DelaySpec.FeedConcat` | DigitalPedal/main.cpp:49-54 | feeding two blocks in succession emits the same samples as feeding their concatenation |
| `DelaySpec.AdvanceConcat` | DigitalPedal/main.cpp:49-54 | feeding two blocks in succession leaves the same samples pending as feeding their concatenation |
| `DelaySpec.ImpulseEchoesOnce` | DigitalPedal/main.cpp:28-36 | an impulse fed to a fresh line comes back once, `len` calls later, at amplitude 1, and every other call emits 0 |

## Left out

- `main` (PortAudio initialise, open, start, stop, close and terminate, the console prompt, exit codes): device and console I/O around a library that is not part of this model.
- The conversion `static_cast<size_t>(delayTime * sampleRate)` in the constructor: it is float multiplication and truncation, so the constructor takes the resulting size as a natural number.
- The untyped pointer casts and pointer-increment reads and writes in `paCallback`: they are modelled as indexed reads of an input array and writes to an output array of twice its length. `framesPerBuffer` is the input array's length. The time-info and status-flag parameters are unused by the source and are not modelled.
- `Pedal.Delay.Process`: does not model overflow of the `int` cursors. The source adds 1 to an `int` cursor below `delayBufferSize`, and this could overflow only for a buffer of more than 2^31 - 1 slots.
- `Pedal.Callback`: does not model wrap-around of the `unsigned int` frame counter, which is compared against an `unsigned long` frame count. A block of 2^32 frames or more would make the source's loop wrap and never end, but the stream is opened with 512-frame blocks.
- The callback running on the audio driver's thread: concurrency, not logic.
