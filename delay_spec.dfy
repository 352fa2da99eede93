/** Value-level specification of a fixed-length delay line.

    A delay line of length `len` always holds `len` pending samples, oldest
    first. Each call emits the oldest pending sample and queues the new input
    behind the others. `Feed` gives the samples emitted by a run of calls and
    `Advance` the samples left pending; the lemmas below show that this is a
    pure delay of `len` samples, primed with silence. */
module DelaySpec {

  /** An audio sample. The delay line only moves samples, it never computes with them. */
  type Sample = real

  /** `n` silent samples, as a freshly constructed delay line holds. */
  function Zeros(n: nat): (z: seq<Sample>)
    ensures |z| == n
    ensures forall i :: 0 <= i < n ==> z[i] == 0.0
  {
    seq(n, _ => 0.0)
  }

  /** Reference definition of a pure delay of `len` samples: call `i` emits the
      input of call `i - len`, and silence while the line is still priming. */
  function DelayedInput(ins: seq<Sample>, len: nat, i: nat): Sample
    requires i < |ins|
  {
    if i < len then 0.0 else ins[i - len]
  }

  /** The samples emitted when `ins` is fed, one call per sample, to a delay
      line whose pending samples are `pending`. */
  function Feed(pending: seq<Sample>, ins: seq<Sample>): (outs: seq<Sample>)
    requires |pending| > 0
    ensures |outs| == |ins|
    decreases |ins|
  {
    if ins == [] then []
    else [pending[0]] + Feed(pending[1..] + [ins[0]], ins[1..])
  }

  /** The samples still pending after `ins` has been fed to a delay line whose
      pending samples are `pending`. */
  function Advance(pending: seq<Sample>, ins: seq<Sample>): (after: seq<Sample>)
    requires |pending| > 0
    ensures |after| == |pending|
    decreases |ins|
  {
    if ins == [] then pending
    else Advance(pending[1..] + [ins[0]], ins[1..])
  }

  /** The emitted samples are the pending ones followed by the inputs, cut to
      one sample per call. */
  lemma {:induction false} FeedShifts(pending: seq<Sample>, ins: seq<Sample>)
    requires |pending| > 0
    ensures Feed(pending, ins) == (pending + ins)[..|ins|]
    decreases |ins|
  {
    if ins != [] {
      var next := pending[1..] + [ins[0]];
      FeedShifts(next, ins[1..]);
      assert next + ins[1..] == (pending + ins)[1..];
    }
  }

  /** The pending samples are the last `|pending|` of the pending ones followed
      by the inputs. */
  lemma {:induction false} AdvanceShifts(pending: seq<Sample>, ins: seq<Sample>)
    requires |pending| > 0
    ensures Advance(pending, ins) == (pending + ins)[|ins|..]
    decreases |ins|
  {
    if ins != [] {
      var next := pending[1..] + [ins[0]];
      AdvanceShifts(next, ins[1..]);
      assert next + ins[1..] == (pending + ins)[1..];
    }
  }

  /** Feeding two blocks one after the other emits what feeding their
      concatenation emits: successive callbacks form one continuous stream. */
  lemma {:induction false} FeedConcat(pending: seq<Sample>, a: seq<Sample>, b: seq<Sample>)
    requires |pending| > 0
    ensures Feed(pending, a + b) == Feed(pending, a) + Feed(Advance(pending, a), b)
    decreases |a|
  {
    if a != [] {
      assert (a + b)[0] == a[0] && (a + b)[1..] == a[1..] + b;
      FeedConcat(pending[1..] + [a[0]], a[1..], b);
    } else {
      assert a + b == b;
    }
  }

  /** Feeding two blocks one after the other leaves pending what feeding their
      concatenation leaves pending. */
  lemma {:induction false} AdvanceConcat(pending: seq<Sample>, a: seq<Sample>, b: seq<Sample>)
    requires |pending| > 0
    ensures Advance(pending, a + b) == Advance(Advance(pending, a), b)
    decreases |a|
  {
    if a != [] {
      assert (a + b)[0] == a[0] && (a + b)[1..] == a[1..] + b;
      AdvanceConcat(pending[1..] + [a[0]], a[1..], b);
    } else {
      assert a + b == b;
    }
  }

  /** Pure-delay law: a freshly constructed line of length `len` emits, at
      call `i`, the input of call `i - len`, or 0 for the first `len` calls. */
  lemma PureDelayLaw(len: nat, ins: seq<Sample>, i: nat)
    requires len > 0 && i < |ins|
    ensures Feed(Zeros(len), ins)[i] == DelayedInput(ins, len, i)
  {
    FeedShifts(Zeros(len), ins);
  }

  /** The same law for a line that has already been fed `fed`: call `j` of the
      next block `ins` emits what call `|fed| + j` of the whole stream does. */
  lemma FeedAfter(len: nat, fed: seq<Sample>, ins: seq<Sample>, j: nat)
    requires len > 0 && j < |ins|
    ensures Feed(Advance(Zeros(len), fed), ins)[j] == DelayedInput(fed + ins, len, |fed| + j)
  {
    FeedConcat(Zeros(len), fed, ins);
    PureDelayLaw(len, fed + ins, |fed| + j);
  }

  /** One call on a line that has been fed `fed`: it emits the oldest pending
      sample, which the pure delay prescribes for call `|fed|`, and the new
      input joins the back of the pending samples. */
  lemma StepLaw(len: nat, fed: seq<Sample>, x: Sample)
    requires len > 0
    ensures Advance(Zeros(len), fed)[0] == DelayedInput(fed + [x], len, |fed|)
    ensures Advance(Zeros(len), fed + [x]) == Advance(Zeros(len), fed)[1..] + [x]
  {
    AdvanceConcat(Zeros(len), fed, [x]);
    AdvanceShifts(Zeros(len), fed);
    assert (Zeros(len) + fed)[|fed|] == (Zeros(len) + fed + [x])[|fed|];
  }

  /** Without feedback an impulse comes back exactly once, `len` calls later,
      at full amplitude; every other call emits silence. */
  lemma ImpulseEchoesOnce(len: nat, n: nat, i: nat)
    requires len > 0 && i <= n
    ensures Feed(Zeros(len), [1.0] + Zeros(n))[i] == if i == len then 1.0 else 0.0
  {
    PureDelayLaw(len, [1.0] + Zeros(n), i);
  }
}
