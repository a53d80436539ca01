/**
The sample rings of the audio engine (client/native/libvoice_engine.c): a fixed array with a read and a write index,
no fill count and no overrun check.  The capture ring and every peer's buffer use the same index arithmetic.
*/
module RingBuffer {
  import opened Limiter

  const RING_SIZE := 32768

  // ---------------------------------------------------------------------------
  // Specification: the unread samples as a queue

  /** Pushing onto a ring with one free place makes the indices meet: all unread samples, and the new one, are lost. */
  function Pushed(q: seq<Sample>, x: Sample): seq<Sample> {
    if |q| + 1 == RING_SIZE then [] else q + [x]
  }

  function PushedAll(q: seq<Sample>, xs: seq<Sample>): seq<Sample> {
    if xs == [] then q else Pushed(PushedAll(q, xs[..|xs| - 1]), xs[|xs| - 1])
  }

  /** The samples a ring still holds of all those pushed onto it: the newest, their number modulo the ring size. */
  function Survivors(s: seq<Sample>): (r: seq<Sample>)
    ensures |r| < RING_SIZE
  {
    s[|s| - |s| % RING_SIZE..]
  }

  lemma OneMoreSurvivor(s: seq<Sample>, x: Sample)
    ensures Survivors(s + [x]) == Pushed(Survivors(s), x)
  {
  }

  /** Pushing a batch keeps exactly the survivors: an overrun loses a whole multiple of the ring size, oldest first. */
  lemma {:induction false} PushedAllExactly(q: seq<Sample>, xs: seq<Sample>)
    requires |q| < RING_SIZE
    ensures PushedAll(q, xs) == Survivors(q + xs)
  {
    if xs == [] {
      assert q + xs == q;
    } else {
      var rest := xs[..|xs| - 1];
      PushedAllExactly(q, rest);
      assert q + xs == q + rest + [xs[|xs| - 1]];
      OneMoreSurvivor(q + rest, xs[|xs| - 1]);
    }
  }

  lemma PushedAllFits(q: seq<Sample>, xs: seq<Sample>)
    requires |q| < RING_SIZE
    ensures |PushedAll(q, xs)| < RING_SIZE
  {
  }

  /** An overrun's loss. */
  predicate WholeRings(n: int) {
    n >= 0 && n % RING_SIZE == 0
  }

  lemma SurvivorsCount(n: nat)
    ensures WholeRings(n - n % RING_SIZE)
    ensures n < RING_SIZE ==> n % RING_SIZE == n
    ensures n % RING_SIZE <= n && (n % RING_SIZE == n <==> n < RING_SIZE)
  {
  }

  lemma PushSkips(q: seq<Sample>, xs: seq<Sample>)
    requires |q| < RING_SIZE
    ensures WholeRings(|q| + |xs| - |PushedAll(q, xs)|)
    ensures |PushedAll(q, xs)| == |q| + |xs| <==> |q| + |xs| < RING_SIZE
  {
    PushedAllExactly(q, xs);
    SurvivorsCount(|q + xs|);
  }

  /** The queue is the end of the stream. */
  ghost predicate Latest(stream: seq<Sample>, q: seq<Sample>) {
    |q| < RING_SIZE && |q| <= |stream| && q == stream[|stream| - |q|..]
  }

  lemma LatestAfterPush(stream: seq<Sample>, q: seq<Sample>, xs: seq<Sample>)
    requires Latest(stream, q)
    ensures Latest(stream + xs, PushedAll(q, xs))
  {
    PushedAllExactly(q, xs);
    SurvivorsCount(|q + xs|);
  }

  lemma LatestAfterRead(stream: seq<Sample>, q: seq<Sample>, n: nat)
    requires Latest(stream, q) && n <= |q|
    ensures Latest(stream, q[n..])
  {
  }

  function Zeros(n: nat): (r: seq<Sample>)
    ensures |r| == n && forall k :: 0 <= k < n ==> r[k] == 0
  {
    seq(n, _ => 0)
  }

  function Drop(q: seq<Sample>, n: nat): seq<Sample> {
    if n >= |q| then [] else q[n..]
  }

  // ---------------------------------------------------------------------------
  // The code

  /** How many places lie between the two indices, going round the end. */
  function Fill(readIdx: nat, writeIdx: nat): nat
    requires readIdx < RING_SIZE && writeIdx < RING_SIZE
  {
    if writeIdx >= readIdx then writeIdx - readIdx else RING_SIZE - readIdx + writeIdx
  }

  /** The place k steps on from an index, going round the end. */
  function Place(idx: nat, k: nat): nat {
    if idx + k < RING_SIZE then idx + k else idx + k - RING_SIZE
  }

  class Ring {
    const buffer: array<Sample>
    var readIdx: nat
    var writeIdx: nat

    /** The unread samples. */
    ghost var contents: seq<Sample>

    ghost predicate Valid()
      reads this, buffer
    {
      && buffer.Length == RING_SIZE && readIdx < RING_SIZE && writeIdx < RING_SIZE
      && |contents| == Fill(readIdx, writeIdx)
      && forall k :: 0 <= k < |contents| ==> contents[k] == buffer[Place(readIdx, k)]
    }

    constructor ()
      ensures Valid() && contents == [] && fresh(buffer)
    {
      buffer := new Sample[RING_SIZE];
      readIdx, writeIdx, contents := 0, 0, [];
    }

    method Reset()
      requires Valid()
      modifies this
      ensures Valid() && contents == []
    {
      readIdx, writeIdx, contents := 0, 0, [];
    }

    method Push(x: Sample)
      requires Valid()
      modifies this`writeIdx, this`contents, buffer
      ensures Valid() && contents == Pushed(old(contents), x)
    {
      buffer[writeIdx] := x;
      writeIdx := (writeIdx + 1) % RING_SIZE;
      contents := Pushed(contents, x);
    }

    method PushAll(xs: seq<Sample>)
      requires Valid()
      modifies this`writeIdx, this`contents, buffer
      ensures Valid() && contents == PushedAll(old(contents), xs)
    {
      ghost var q := contents;
      for i := 0 to |xs|
        invariant Valid() && contents == PushedAll(q, xs[..i])
      {
        assert xs[..i + 1][..i] == xs[..i];
        Push(xs[i]);
      }
      assert xs[..|xs|] == xs;
    }

    /** Reads the oldest unread sample. */
    method Pop() returns (x: Sample)
      requires Valid() && readIdx != writeIdx
      modifies this`readIdx, this`contents
      ensures Valid() && old(contents) != []
      ensures x == old(contents)[0] && contents == old(contents)[1..]
    {
      x := buffer[readIdx];
      readIdx := (readIdx + 1) % RING_SIZE;
      contents := contents[1..];
    }

    predicate IsEmpty()
      requires Valid()
      reads this, buffer
      ensures IsEmpty() <==> contents == []
    {
      readIdx == writeIdx
    }

    /** The capture path's fill count. */
    function Available(): nat
      requires Valid()
      reads this, buffer
      ensures Available() == |contents|
    {
      Fill(readIdx, writeIdx)
    }
  }

  // ---------------------------------------------------------------------------
  // Whole runs from a reset

  datatype Op = Push(x: Sample) | Pop // a pop of an empty ring is skipped

  function Step(q: seq<Sample>, op: Op): seq<Sample> {
    match op
    case Push(x) => Pushed(q, x)
    case Pop => if q == [] then [] else q[1..]
  }

  function Run(ops: seq<Op>): seq<Sample> {
    if ops == [] then [] else Step(Run(ops[..|ops| - 1]), ops[|ops| - 1])
  }

  function PushesOf(ops: seq<Op>): seq<Sample> {
    if ops == [] then []
    else PushesOf(ops[..|ops| - 1]) + if ops[|ops| - 1].Push? then [ops[|ops| - 1].x] else []
  }

  /** Samples read so far. */
  function Reads(ops: seq<Op>): nat {
    if ops == [] then 0
    else Reads(ops[..|ops| - 1]) + if ops[|ops| - 1].Pop? && Run(ops[..|ops| - 1]) != [] then 1 else 0
  }

  /** Pushes that ran into the read index. */
  function Overruns(ops: seq<Op>): nat {
    if ops == [] then 0
    else Overruns(ops[..|ops| - 1]) + if ops[|ops| - 1].Push? && |Run(ops[..|ops| - 1])| + 1 == RING_SIZE then 1 else 0
  }

  lemma {:induction false} EveryPushCounted(ops: seq<Op>)
    ensures |Run(ops)| < RING_SIZE
    ensures |PushesOf(ops)| == Reads(ops) + |Run(ops)| + RING_SIZE * Overruns(ops)
  {
    if ops == [] {
    } else {
      EveryPushCounted(ops[..|ops| - 1]);
    }
  }

  lemma {:induction false} UnreadIsLatest(ops: seq<Op>)
    ensures Latest(PushesOf(ops), Run(ops))
  {
    if ops == [] {
    } else {
      UnreadIsLatest(ops[..|ops| - 1]);
    }
  }

  /** So many were pushed: some read, some unread, and a ring size of samples for each overrun. */
  predicate Accounted(pushed: nat, read: nat, unread: nat, overruns: nat) {
    && unread < RING_SIZE
    && pushed == read + unread + RING_SIZE * overruns
    && unread == (pushed - read) % RING_SIZE
  }

  lemma RestOfRings(pushed: nat, read: nat, unread: nat, overruns: nat)
    requires pushed == read + unread + RING_SIZE * overruns && unread < RING_SIZE
    ensures Accounted(pushed, read, unread, overruns)
  {
  }

  /**
  After any run the unread samples are the last ones pushed, in push order; their number is pushes minus reads modulo
  the ring size, and each overrun has cost exactly one ring size of samples.
  */
  lemma UnreadIsLatestPushed(ops: seq<Op>)
    ensures Accounted(|PushesOf(ops)|, Reads(ops), |Run(ops)|, Overruns(ops))
    ensures Latest(PushesOf(ops), Run(ops))
  {
    EveryPushCounted(ops);
    UnreadIsLatest(ops);
    RestOfRings(|PushesOf(ops)|, Reads(ops), |Run(ops)|, Overruns(ops));
  }
}
