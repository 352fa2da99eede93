/** The delay effect of the pedal: a circular delay line updated in place, and
    the audio callback that runs every frame of a block through it and writes
    the result to both channels of an interleaved stereo output. */
module Pedal {
  import opened DelaySpec

  /** What the callback asks of the audio stream after a block. */
  datatype StreamResult = Continue | Complete | Abort

  /** A non-zero multiple of `len` is at least `len` away from 0. */
  lemma MultipleBounds(d: int, len: int)
    requires len > 0
    ensures d >= 1 ==> d * len >= len
    ensures d <= -1 ==> d * len <= -len
  {
  }

  /** Division with remainder has one answer: `r` is the remainder of `m`. */
  lemma ModUnique(m: int, len: int, q: int, r: int)
    requires len > 0 && m == q * len + r && 0 <= r < len
    ensures m % len == r
  {
    var q', r' := m / len, m % len;
    assert (q - q') * len == r' - r;
    MultipleBounds(q - q', len);
  }

  /** Advancing a cursor that counts calls modulo `len` by one more call. */
  lemma CursorStep(n: nat, len: nat)
    requires len > 0
    ensures (n % len + 1) % len == (n + 1) % len
  {
    var q, r := n / len, n % len;
    if r + 1 < len {
      ModUnique(n + 1, len, q, r + 1);
      ModUnique(r + 1, len, 0, r + 1);
    } else {
      ModUnique(n + 1, len, q + 1, 0);
      ModUnique(r + 1, len, 1, 0);
    }
  }

  /** A fixed-length circular delay line. Both cursors start at slot 0 and
      advance together, so each call reads a slot before overwriting it. */
  class Delay {
    const delayBufferSize: nat
    var readIndex: int
    var writeIndex: int
    const delayBuffer: array<Sample>

    /** Every input processed so far, oldest first. */
    ghost var Fed: seq<Sample>

    /** The samples the line still holds, in the order it will emit them. */
    ghost function Pending(): (p: seq<Sample>)
      reads this
      requires delayBufferSize > 0
      ensures |p| == delayBufferSize
    {
      Advance(Zeros(delayBufferSize), Fed)
    }

    /** Slot `k` holds the pending sample that is `Offset(k)` calls away. */
    ghost function Offset(k: int): int
      reads this
    {
      if k >= readIndex then k - readIndex else k - readIndex + delayBufferSize
    }

    ghost predicate Valid()
      reads this, delayBuffer
    {
      delayBuffer.Length == delayBufferSize &&
      readIndex == writeIndex &&
      (delayBufferSize == 0 ==> readIndex == 0 && Fed == []) &&
      (delayBufferSize > 0 ==>
        0 <= readIndex < delayBufferSize &&
        readIndex == |Fed| % delayBufferSize &&
        forall k :: 0 <= k < delayBufferSize ==> delayBuffer[k] == Pending()[Offset(k)])
    }

    /** A line of `size` silent slots with both cursors at slot 0. */
    constructor (size: nat)
      ensures Valid() && fresh(delayBuffer)
      ensures delayBufferSize == size && delayBuffer[..] == Zeros(size)
      ensures readIndex == 0 && writeIndex == 0 && Fed == []
    {
      delayBufferSize := size;
      delayBuffer := new Sample[size](_ => 0.0);
      readIndex := 0;
      writeIndex := 0;
      Fed := [];
      new;
      assert delayBuffer[..] == Zeros(size);
      if size > 0 {
        AdvanceShifts(Zeros(size), []);
        assert Pending() == Zeros(size);
      }
    }

    /** Emits the sample in the read slot, then stores `input` in the write
        slot and advances both cursors. */
    method Process(input: Sample) returns (delayedSample: Sample)
      requires Valid() && delayBufferSize > 0
      modifies this, delayBuffer
      ensures Valid()
      ensures delayedSample == old(delayBuffer[readIndex])
      ensures delayBuffer[..] == old(delayBuffer[..])[old(writeIndex) := input]
      ensures readIndex == writeIndex == (old(readIndex) + 1) % delayBufferSize
      ensures Fed == old(Fed) + [input]
      ensures delayedSample == old(Pending())[0] && Pending() == old(Pending())[1..] + [input]
      ensures delayedSample == DelayedInput(Fed, delayBufferSize, |old(Fed)|)
    {
      ghost var before := Pending();
      ghost var cursor := readIndex;
      StepLaw(delayBufferSize, Fed, input);
      CursorStep(|Fed|, delayBufferSize);
      delayedSample := delayBuffer[readIndex];
      delayBuffer[writeIndex] := input;

      readIndex := (readIndex + 1) % delayBufferSize;
      writeIndex := (writeIndex + 1) % delayBufferSize;
      Fed := Fed + [input];

      if cursor + 1 < delayBufferSize {
        ModUnique(cursor + 1, delayBufferSize, 0, cursor + 1);
      } else {
        ModUnique(cursor + 1, delayBufferSize, 1, 0);
      }
      ghost var after := Pending();
      assert after == before[1..] + [input];
      forall k | 0 <= k < delayBufferSize
        ensures delayBuffer[k] == after[Offset(k)]
      {
        if k == cursor {
          assert Offset(k) == delayBufferSize - 1;
        } else {
          assert old(delayBuffer[k]) == before[old(Offset(k))];
          assert Offset(k) == old(Offset(k)) - 1;
        }
      }
    }
  }

  /** The audio callback for one block: each frame of `input` goes through
      `delay` in order, and the sample it returns is written to the left and the
      right slot of that frame in the interleaved `output`. */
  method Callback(delay: Delay, input: array<Sample>, output: array<Sample>)
    returns (r: StreamResult)
    requires delay.Valid() && delay.delayBufferSize > 0
    requires output.Length == 2 * input.Length
    requires input != delay.delayBuffer && output != delay.delayBuffer && input != output
    modifies delay, delay.delayBuffer, output
    ensures delay.Valid()
    ensures delay.Fed == old(delay.Fed) + input[..]
    ensures forall k :: 0 <= k < output.Length ==>
      output[k] == Feed(old(delay.Pending()), input[..])[k / 2]
    ensures forall k :: 0 <= k < output.Length ==>
      output[k] == DelayedInput(delay.Fed, delay.delayBufferSize, |old(delay.Fed)| + k / 2)
    ensures r == Continue
  {
    ghost var fed0 := delay.Fed;
    ghost var all := fed0 + input[..];
    var o := 0;
    for i := 0 to input.Length
      invariant o == 2 * i
      invariant delay.Valid()
      invariant delay.Fed == fed0 + input[..i]
      invariant forall k :: 0 <= k < o ==>
        output[k] == DelayedInput(all, delay.delayBufferSize, |fed0| + k / 2)
    {
      var inputSample := input[i];
      var outputSample := delay.Process(inputSample);
      assert delay.Fed == all[..|fed0| + i + 1];
      output[o] := outputSample;
      o := o + 1;
      output[o] := outputSample;
      o := o + 1;
    }
    assert input[..input.Length] == input[..];
    forall k | 0 <= k < output.Length
      ensures output[k] == Feed(old(delay.Pending()), input[..])[k / 2]
    {
      FeedAfter(delay.delayBufferSize, fed0, input[..], k / 2);
    }
    r := Continue;
  }
}
