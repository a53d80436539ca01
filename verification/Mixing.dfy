/**
What the mixer is for: each output sample as a function of the queues, with no chunks in sight.  The operations on
floating values are parameters, so the results hold for exact arithmetic and for any rounding alike.
*/
module Mixing {
  import opened Limiter
  import opened RingBuffer
  import opened PeerTable

  /** The mixer's arithmetic: accumulating, scaling a sample by a volume, and the limiter with its final conversion. */
  datatype Arithmetic = Arithmetic(add: (real, real) -> real, scale: (Sample, real) -> real, limit: real -> Sample)

  /** Without rounding. */
  const EXACT := Arithmetic((a, b) => a + b, (pcm: Sample, gain) => pcm as real * gain, sum => Limit(sum))

  /** A slot's part in output sample k, added to what the slots before it gave; an empty queue adds nothing. */
  function AddSlot(f: Arithmetic, slot: Slot, k: nat, sum: real): real {
    if k < |slot.queue| then f.add(sum, f.scale(slot.queue[k], slot.volume)) else sum
  }

  function Accumulate(f: Arithmetic, t: Table, i: nat, k: nat, sum: real): real
    requires i < |t.slots|
  {
    if Audible(t, i) then AddSlot(f, t.slots[i], k, sum) else sum
  }

  /** The slot-ordered sum of the first n slots for output sample k. */
  function SumUpTo(f: Arithmetic, t: Table, n: nat, k: nat): real
    requires n <= |t.slots|
  {
    if n == 0 then 0.0 else Accumulate(f, t, n - 1, k, SumUpTo(f, t, n - 1, k))
  }

  function MixedSample(f: Arithmetic, t: Table, k: nat): Sample {
    f.limit(SumUpTo(f, t, |t.slots|, k))
  }

  /** The first n output samples. */
  function Mixed(f: Arithmetic, t: Table, n: nat): (r: seq<Sample>)
    ensures |r| == n
    ensures forall k :: 0 <= k < n ==> r[k] == MixedSample(f, t, k)
  {
    seq(n, k requires 0 <= k => MixedSample(f, t, k))
  }

  lemma DropIndex(q: seq<Sample>, n: nat, k: nat)
    ensures k < |Drop(q, n)| <==> n + k < |q|
    ensures k < |Drop(q, n)| ==> Drop(q, n)[k] == q[n + k]
  {
  }

  /** After n samples were consumed, sample k is what sample n + k was. */
  lemma {:induction false} SumOfDrained(f: Arithmetic, t: Table, a: nat, n: nat, k: nat)
    requires n <= |t.slots|
    ensures SumUpTo(f, Drained(t, a), n, k) == SumUpTo(f, t, n, a + k)
  {
    if n == 0 {
    } else {
      SumOfDrained(f, t, a, n - 1, k);
      DropIndex(t.slots[n - 1].queue, a, k);
    }
  }

  lemma DrainedTwice(t: Table, a: nat, b: nat)
    ensures Drained(Drained(t, a), b) == Drained(t, a + b)
  {
  }

  lemma DrainNothing(t: Table)
    ensures Drained(t, 0) == t
  {
  }

  /** Mixing a + b samples is mixing a and then b: the output and the queues depend on no chunk boundary. */
  lemma MixSplits(f: Arithmetic, t: Table, a: nat, b: nat)
    ensures Mixed(f, t, a + b) == Mixed(f, t, a) + Mixed(f, Drained(t, a), b)
    ensures Drained(t, a + b) == Drained(Drained(t, a), b)
  {
    DrainedTwice(t, a, b);
    forall k | 0 <= k < b ensures MixedSample(f, Drained(t, a), k) == MixedSample(f, t, a + k) {
      SumOfDrained(f, t, a, |t.slots|, k);
    }
  }

  /** Every audible queue loses exactly its first min(n, length) samples; every other slot is untouched. */
  lemma DrainExactly(t: Table, n: nat, i: nat)
    requires i < |t.slots|
    ensures var before, after := t.slots[i], Drained(t, n).slots[i];
      var lost := if !Audible(t, i) then 0 else if n < |before.queue| then n else |before.queue|;
      after.queue == before.queue[lost..] && after == before.(queue := after.queue)
  {
  }

  /** A silent table mixes to silence, and so does any stretch past the end of every audible queue. */
  lemma {:induction false} PastTheEndIsSilence(f: Arithmetic, t: Table, n: nat, k: nat)
    requires n <= |t.slots| && forall i :: 0 <= i < n && Audible(t, i) ==> |t.slots[i].queue| <= k
    ensures SumUpTo(f, t, n, k) == 0.0
  {
    if n == 0 {
    } else {
      PastTheEndIsSilence(f, t, n - 1, k);
    }
  }

  /** What slot i gives to output sample k: its volume times its k-th unread sample, if it is to be heard and has one. */
  function Part(t: Table, i: nat, k: nat): real
    requires i < |t.slots|
  {
    var slot := t.slots[i];
    if slot.active && (i == 0 ==> t.loopback) && k < |slot.queue| then slot.volume * (slot.queue[k] as real) else 0.0
  }

  function Parts(t: Table, n: nat, k: nat): (r: seq<real>)
    requires n <= |t.slots|
    ensures |r| == n && forall i :: 0 <= i < n ==> r[i] == Part(t, i, k)
  {
    seq(n, i requires 0 <= i < n => Part(t, i, k))
  }

  function Total(xs: seq<real>): real {
    if xs == [] then 0.0 else Total(xs[..|xs| - 1]) + xs[|xs| - 1]
  }

  /** With exact arithmetic the accumulated sum is the sum over the slots of volume times sample. */
  lemma {:induction false} SumIsTotal(t: Table, n: nat, k: nat)
    requires n <= |t.slots|
    ensures SumUpTo(EXACT, t, n, k) == Total(Parts(t, n, k))
  {
    if n == 0 {
    } else {
      SumIsTotal(t, n - 1, k);
      assert Parts(t, n, k)[..n - 1] == Parts(t, n - 1, k);
    }
  }

  /** With exact arithmetic each output sample lies on the limiter's curve over the weighted sum of the queued samples. */
  lemma MixOnCurve(t: Table, n: nat, k: nat)
    requires k < n
    ensures var s, sum := Mixed(EXACT, t, n)[k], Total(Parts(t, |t.slots|, k));
      if sum >= 0.0 then OnCurve(s, sum) else OnCurve(-s, -sum)
  {
    SumIsTotal(t, |t.slots|, k);
    LimitCurve(Total(Parts(t, |t.slots|, k)));
  }

  /** With exact arithmetic and the cubic limiter no mix, however loud, leaves the symmetric 16-bit range. */
  lemma ExactMixInRange(t: Table, n: nat, k: nat)
    requires k < n
    ensures -32767 <= Mixed(EXACT, t, n)[k] <= 32767
    ensures Mixed(EXACT, t, n)[k] == Limit(SumUpTo(EXACT, t, |t.slots|, k))
  {
  }

  /** The number of samples in so many frames: the product, by repeated addition. */
  ghost function Cells(frames: nat, channels: nat): nat {
    if frames == 0 then 0 else Cells(frames - 1, channels) + channels
  }

  lemma {:induction false} CellsIsProduct(frames: nat, channels: nat)
    ensures Cells(frames, channels) == frames * channels
  {
    if frames == 0 {
    } else {
      CellsIsProduct(frames - 1, channels);
      assert frames * channels == (frames - 1) * channels + channels;
    }
  }

  lemma {:induction false} CellsMonotone(a: nat, b: nat, channels: nat)
    requires a <= b
    ensures Cells(a, channels) <= Cells(b, channels)
  {
    if a == b {
    } else {
      CellsMonotone(a, b - 1, channels);
    }
  }

  function Repeat(x: Sample, n: nat): (r: seq<Sample>)
    ensures |r| == n && forall k :: 0 <= k < n ==> r[k] == x
  {
    seq(n, _ => x)
  }

  /** A device buffer of several channels: each sample once per channel. */
  function Interleaved(mono: seq<Sample>, channels: nat): seq<Sample> {
    if mono == [] then [] else Interleaved(mono[..|mono| - 1], channels) + Repeat(mono[|mono| - 1], channels)
  }

  lemma InterleavedSnoc(mono: seq<Sample>, x: Sample, channels: nat)
    ensures Interleaved(mono + [x], channels) == Interleaved(mono, channels) + Repeat(x, channels)
  {
    assert (mono + [x])[..|mono|] == mono;
  }

  lemma {:induction false} InterleavedLength(mono: seq<Sample>, channels: nat)
    ensures |Interleaved(mono, channels)| == |mono| * channels
  {
    if mono == [] {
    } else {
      InterleavedLength(mono[..|mono| - 1], channels);
      assert |mono| * channels == (|mono| - 1) * channels + channels;
    }
  }

  lemma FrameInRange(f: nat, frames: nat, channels: nat, c: nat)
    requires f < frames && c < channels
    ensures f * channels + c < (f + 1) * channels <= frames * channels
  {
  }

  /** Channel c of frame f carries sample f. */
  lemma {:induction false} InterleavedAt(mono: seq<Sample>, channels: nat, f: nat, c: nat)
    requires f < |mono| && c < channels
    ensures f * channels + c < |Interleaved(mono, channels)|
    ensures Interleaved(mono, channels)[f * channels + c] == mono[f]
  {
    FrameInRange(f, |mono|, channels, c);
    InterleavedLength(mono, channels);
    InterleavedLength(mono[..|mono| - 1], channels);
    if f < |mono| - 1 {
      FrameInRange(f, |mono| - 1, channels, c);
      InterleavedAt(mono[..|mono| - 1], channels, f, c);
    }
  }

  lemma {:induction false} InterleavedOfAppend(a: seq<Sample>, b: seq<Sample>, channels: nat)
    ensures Interleaved(a + b, channels) == Interleaved(a, channels) + Interleaved(b, channels)
  {
    if b == [] {
      assert a + b == a;
    } else {
      assert (a + b)[..|a + b| - 1] == a + b[..|b| - 1];
      InterleavedOfAppend(a, b[..|b| - 1], channels);
    }
  }

  lemma {:induction false} InterleavedMono(mono: seq<Sample>)
    ensures Interleaved(mono, 1) == mono
  {
    if mono == [] {
    } else {
      InterleavedMono(mono[..|mono| - 1]);
    }
  }

  /** Chunk independence survives the fan-out to several channels. */
  lemma InterleavedMixSplits(f: Arithmetic, t: Table, a: nat, b: nat, channels: nat)
    ensures Interleaved(Mixed(f, t, a + b), channels) ==
            Interleaved(Mixed(f, t, a), channels) + Interleaved(Mixed(f, Drained(t, a), b), channels)
    ensures Drained(t, a + b) == Drained(Drained(t, a), b)
  {
    MixSplits(f, t, a, b);
    InterleavedOfAppend(Mixed(f, t, a), Mixed(f, Drained(t, a), b), channels);
  }
}
