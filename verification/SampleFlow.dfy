/**
A ring over a run of batches: whole packets or callbacks are written, whole frames or mixes are read.  The results say
which part of the stream each read gives back; the capture ring and the peers' rings are instances.
*/
module SampleFlow {
  import opened Limiter
  import opened RingBuffer

  datatype Batch = Write(xs: seq<Sample>) | Read(n: nat)

  /** The run of one ring: all written so far, the unread samples, and the batch that comes next. */
  datatype Lane = Lane(streams: seq<seq<Sample>>, queues: seq<seq<Sample>>, batches: seq<Batch>)

  function Brought(b: Batch): seq<Sample> {
    if b.Write? then b.xs else []
  }

  /** A read of more than there is takes what there is. */
  function Piece(q: seq<Sample>, b: Batch): seq<Sample> {
    if b.Write? then [] else if b.n < |q| then q[..b.n] else q
  }

  function QueueAfter(q: seq<Sample>, b: Batch): seq<Sample> {
    match b
    case Write(xs) => PushedAll(q, xs)
    case Read(n) => Drop(q, n)
  }

  ghost predicate Shaped(lane: Lane) {
    |lane.streams| == |lane.queues| == |lane.batches| + 1
  }

  ghost predicate Turn(lane: Lane, i: nat)
    requires Shaped(lane) && i < |lane.batches|
  {
    && lane.streams[i + 1] == lane.streams[i] + Brought(lane.batches[i])
    && lane.queues[i + 1] == QueueAfter(lane.queues[i], lane.batches[i])
  }

  /** Between two points of the run nothing but the batches touches the ring, which starts with the end of its stream. */
  ghost predicate Flow(lane: Lane, from: nat, to: nat) {
    && Shaped(lane) && from <= to <= |lane.batches|
    && Latest(lane.streams[from], lane.queues[from])
    && forall i: nat :: from <= i < to ==> Turn(lane, i)
  }

  /** Where in the stream the next unread sample stands. */
  ghost function Position(lane: Lane, i: nat): int
    requires Shaped(lane) && i <= |lane.batches|
  {
    |lane.streams[i]| - |lane.queues[i]|
  }

  // ---------------------------------------------------------------------------
  // One batch

  lemma LatestStep(stream: seq<Sample>, q: seq<Sample>, b: Batch)
    requires Latest(stream, q)
    ensures Latest(stream + Brought(b), QueueAfter(q, b))
  {
    match b
    case Write(xs) => LatestAfterPush(stream, q, xs);
    case Read(n) =>
      assert stream + [] == stream;
      LatestAfterRead(stream, q, if n < |q| then n else |q|);
  }

  /** What the position gains: a read takes its piece, an overrun skips whole multiples of the ring size. */
  ghost predicate Moved(gone: int, q: seq<Sample>, b: Batch) {
    if b.Write? then WholeRings(gone) && (gone == 0 <==> |q| + |b.xs| < RING_SIZE)
    else gone == |Piece(q, b)|
  }

  lemma MovedStep(q: seq<Sample>, b: Batch)
    requires |q| < RING_SIZE
    ensures Moved(|q| + |Brought(b)| - |QueueAfter(q, b)|, q, b)
  {
    if b.Write? {
      PushSkips(q, b.xs);
    }
  }

  // ---------------------------------------------------------------------------
  // Whole runs

  /** The unread samples are always the latest written ones. */
  lemma {:induction false} QueueIsLatest(lane: Lane, from: nat, to: nat)
    requires Flow(lane, from, to)
    ensures Latest(lane.streams[to], lane.queues[to])
  {
    if to > from {
      QueueIsLatest(lane, from, to - 1);
      assert Turn(lane, to - 1);
      LatestStep(lane.streams[to - 1], lane.queues[to - 1], lane.batches[to - 1]);
    }
  }

  lemma FlowFrom(lane: Lane, from: nat, i: nat, to: nat)
    requires Flow(lane, from, to) && from <= i <= to
    ensures Flow(lane, from, i) && Flow(lane, i, to)
  {
    QueueIsLatest(lane, from, i);
  }

  lemma PositionStep(lane: Lane, i: nat)
    requires Flow(lane, i, i + 1)
    ensures Moved(Position(lane, i + 1) - Position(lane, i), lane.queues[i], lane.batches[i])
    ensures Position(lane, i) <= Position(lane, i + 1)
  {
    assert Turn(lane, i);
    var q, b := lane.queues[i], lane.batches[i];
    var gone := |q| + |Brought(b)| - |QueueAfter(q, b)|;
    MovedStep(q, b);
    assert gone == Position(lane, i + 1) - Position(lane, i);
  }

  lemma {:induction false} PositionGrows(lane: Lane, i: nat, j: nat)
    requires Flow(lane, i, j)
    ensures Position(lane, i) <= Position(lane, j)
  {
    if i < j {
      FlowFrom(lane, i, j - 1, j);
      PositionGrows(lane, i, j - 1);
      PositionStep(lane, j - 1);
    }
  }

  lemma {:induction false} StreamGrows(lane: Lane, i: nat, j: nat)
    requires Flow(lane, i, j)
    ensures lane.streams[i] <= lane.streams[j]
  {
    if i < j {
      assert Turn(lane, j - 1);
      StreamGrows(lane, i, j - 1);
    }
  }

  /** The samples between two places of a stream. */
  ghost predicate Between(stream: seq<Sample>, p: int, q: int, xs: seq<Sample>) {
    0 <= p <= q <= |stream| && xs == stream[p..q]
  }

  lemma BetweenLater(stream: seq<Sample>, later: seq<Sample>, p: int, q: int, xs: seq<Sample>)
    requires Between(stream, p, q, xs) && stream <= later
    ensures Between(later, p, q, xs)
  {
  }

  lemma BetweenJoined(stream: seq<Sample>, p: int, q: int, r: int, xs: seq<Sample>, ys: seq<Sample>)
    requires Between(stream, p, q, xs) && Between(stream, q, r, ys)
    ensures Between(stream, p, r, xs + ys)
  {
  }

  lemma FrontOfLatest(stream: seq<Sample>, q: seq<Sample>, b: Batch)
    requires Latest(stream, q)
    ensures var p := |stream| - |q|; Between(stream, p, p + |Piece(q, b)|, Piece(q, b))
  {
  }

  /** A read gives the next samples of the stream, as it was then and as it is at any later time. */
  lemma ReadIsNextPiece(lane: Lane, i: nat, to: nat)
    requires Flow(lane, i, to) && i < to && lane.batches[i].Read?
    ensures Between(lane.streams[to], Position(lane, i), Position(lane, i + 1), Piece(lane.queues[i], lane.batches[i]))
  {
    FlowFrom(lane, i, i + 1, to);
    StreamGrows(lane, i, to);
    PositionStep(lane, i);
    FrontOfLatest(lane.streams[i], lane.queues[i], lane.batches[i]);
    BetweenLater(lane.streams[i], lane.streams[to], Position(lane, i), Position(lane, i + 1),
                 Piece(lane.queues[i], lane.batches[i]));
  }

  /** Pieces never overlap and never swap: the earlier one ends before the later one begins. */
  lemma PiecesInOrder(lane: Lane, i: nat, j: nat)
    requires Flow(lane, i, j) && i < j && lane.batches[i].Read?
    ensures Position(lane, i) + |Piece(lane.queues[i], lane.batches[i])| <= Position(lane, j)
  {
    FlowFrom(lane, i, i + 1, j);
    PositionStep(lane, i);
    PositionGrows(lane, i + 1, j);
  }

  // ---------------------------------------------------------------------------
  // What is lost

  /** All that was read in a stretch of a run. */
  ghost function Played(lane: Lane, from: nat, to: nat): seq<Sample>
    requires Shaped(lane) && from <= to <= |lane.batches|
  {
    if from == to then [] else Played(lane, from, to - 1) + Piece(lane.queues[to - 1], lane.batches[to - 1])
  }

  /** Batch i, if it writes, finds room in the ring. */
  ghost predicate Room(lane: Lane, i: nat)
    requires Shaped(lane) && i < |lane.batches|
  {
    |lane.queues[i]| + |Brought(lane.batches[i])| < RING_SIZE
  }

  ghost predicate AlwaysRoom(lane: Lane, from: nat, to: nat)
    requires Shaped(lane) && from <= to <= |lane.batches|
  {
    forall i: nat :: from <= i < to ==> Room(lane, i)
  }

  lemma WholeRingsAdd(a: int, b: int)
    requires WholeRings(a) && WholeRings(b)
    ensures WholeRings(a + b) && (a + b == 0 <==> a == 0 && b == 0)
  {
  }

  /** What the position gained and no read took. */
  ghost function Lost(lane: Lane, from: nat, to: nat): int
    requires Shaped(lane) && from <= to <= |lane.batches|
  {
    Position(lane, to) - Position(lane, from) - |Played(lane, from, to)|
  }

  lemma LostStep(lane: Lane, from: nat, i: nat)
    requires Flow(lane, from, i + 1) && from <= i
    ensures var more := Lost(lane, from, i + 1) - Lost(lane, from, i);
      WholeRings(more) && (more == 0 <==> Room(lane, i))
  {
    FlowFrom(lane, from, i, i + 1);
    PositionStep(lane, i);
    var q, b := lane.queues[i], lane.batches[i];
    var gone := Position(lane, i + 1) - Position(lane, i);
    assert Lost(lane, from, i + 1) - Lost(lane, from, i) == gone - |Piece(q, b)|;
    assert b.Read? ==> WholeRings(0);
  }

  /** Over any stretch, what was written and never read is a whole multiple of the ring size; it is none exactly when
      every batch found room. */
  lemma {:induction false} LostExactly(lane: Lane, from: nat, to: nat)
    requires Flow(lane, from, to)
    ensures WholeRings(Lost(lane, from, to))
    ensures Lost(lane, from, to) == 0 <==> AlwaysRoom(lane, from, to)
  {
    if from == to {
    } else {
      LostExactly(lane, from, to - 1);
      LostStep(lane, from, to - 1);
      WholeRingsAdd(Lost(lane, from, to - 1), Lost(lane, from, to) - Lost(lane, from, to - 1));
    }
  }

  lemma {:induction false} PlayedWithRoom(lane: Lane, from: nat, to: nat, end: nat)
    requires Flow(lane, from, end) && from <= to <= end && AlwaysRoom(lane, from, to)
    ensures Between(lane.streams[end], Position(lane, from), Position(lane, to), Played(lane, from, to))
  {
    FlowFrom(lane, from, to, end);
    if from == to {
      StreamGrows(lane, from, end);
    } else {
      var i := to - 1;
      PlayedWithRoom(lane, from, i, end);
      assert Room(lane, i);
      FlowFrom(lane, from, i, end);
      FlowFrom(lane, i, to, end);
      PositionStep(lane, i);
      if lane.batches[i].Read? {
        ReadIsNextPiece(lane, i, end);
      }
      BetweenJoined(lane.streams[end], Position(lane, from), Position(lane, i), Position(lane, to), Played(lane, from, i),
                    Piece(lane.queues[i], lane.batches[i]));
    }
  }

  /** Without gaps exactly with room: all that was read is the stretch of the stream between the two positions. */
  lemma PlayedExactly(lane: Lane, from: nat, to: nat)
    requires Flow(lane, from, to)
    ensures Between(lane.streams[to], Position(lane, from), Position(lane, to), Played(lane, from, to)) <==>
      AlwaysRoom(lane, from, to)
  {
    LostExactly(lane, from, to);
    if AlwaysRoom(lane, from, to) {
      PlayedWithRoom(lane, from, to, to);
    }
  }
}
