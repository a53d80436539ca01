/** What the microphone test plays back: the captured frames, through slot 0, from switching it on to switching it off. */
module LoopbackRuns {
  import opened Basics
  import opened Limiter
  import opened RingBuffer
  import opened PeerTable
  import opened SampleFlow
  import opened Mixing

  /** The operation ends the test. */
  predicate Ends(op: PeerTable.Op) {
    op.Clear? || op == SetLoopback(false)
  }

  function LoopedBy(t: Table, op: PeerTable.Op): seq<Sample> {
    if op.LoopFrame? && t.loopback then op.frame else []
  }

  /** All frames captured during the test that is running after n operations. */
  ghost function Stream(tables: seq<Table>, ops: seq<PeerTable.Op>, n: nat): seq<Sample>
    requires n <= |ops| < |tables|
  {
    if n == 0 || Ends(ops[n - 1]) then [] else Stream(tables, ops, n - 1) + LoopedBy(tables[n - 1], ops[n - 1])
  }

  /** The operation as slot 0 sees it. */
  function BatchOf(t: Table, op: PeerTable.Op): Batch {
    match op
    case LoopFrame(_) => Write(LoopedBy(t, op))
    case Mix(n) => Read(n)
    case _ => Read(0)
  }

  /** Slot 0 holds the end of what was captured, at full volume; it is empty until the first frame. */
  ghost predicate Kept(t: Table, stream: seq<Sample>) {
    && |t.slots| == MAX_PEERS && Latest(stream, t.slots[0].queue)
    && (if t.slots[0].active then t.slots[0].volume == 1.0 else t.slots[0].queue == [] && stream == [])
    && (t.slots[0].active ==> t.loopback)
  }

  /** What an operation makes of slot 0 and of the switch. */
  ghost predicate SlotAfter(t: Table, op: PeerTable.Op, u: Table) {
    && |t.slots| == |u.slots| == MAX_PEERS
    && u.slots[0].queue == QueueAfter(t.slots[0].queue, BatchOf(t, op))
    && (u.slots[0].active <==> t.slots[0].active || (op.LoopFrame? && t.loopback))
    && (u.slots[0].active && (!t.slots[0].active || t.slots[0].volume == 1.0) ==> u.slots[0].volume == 1.0)
    && (u.loopback <==> t.loopback || op == SetLoopback(true))
  }

  lemma SlotStep(t: Table, op: PeerTable.Op)
    requires |t.slots| == MAX_PEERS && !Ends(op)
    requires (t.slots[0].active ==> t.loopback) && (!t.slots[0].active ==> t.slots[0].queue == [])
    ensures SlotAfter(t, op, Apply(t, op))
  {
  }

  lemma StreamEnd(t: Table, op: PeerTable.Op, u: Table, stream: seq<Sample>)
    requires SlotAfter(t, op, u) && Latest(stream, t.slots[0].queue)
    ensures Latest(stream + LoopedBy(t, op), u.slots[0].queue)
  {
    LatestStep(stream, t.slots[0].queue, BatchOf(t, op));
    assert Brought(BatchOf(t, op)) == LoopedBy(t, op);
  }

  lemma RunningStep(t: Table, op: PeerTable.Op, u: Table, stream: seq<Sample>)
    requires Kept(t, stream) && SlotAfter(t, op, u)
    ensures Kept(u, stream + LoopedBy(t, op))
  {
    StreamEnd(t, op, u, stream);
    if !(op.LoopFrame? && t.loopback) {
      assert stream + LoopedBy(t, op) == stream;
    }
  }

  lemma EndStep(t: Table, op: PeerTable.Op)
    requires |t.slots| == MAX_PEERS && Ends(op)
    ensures Kept(Apply(t, op), [])
  {
  }

  lemma KeptStep(t: Table, op: PeerTable.Op, stream: seq<Sample>)
    requires Kept(t, stream)
    ensures Kept(Apply(t, op), if Ends(op) then [] else stream + LoopedBy(t, op))
  {
    if Ends(op) {
      EndStep(t, op);
    } else {
      SlotStep(t, op);
      RunningStep(t, op, Apply(t, op), stream);
    }
  }

  ghost predicate KeptAt(tables: seq<Table>, ops: seq<PeerTable.Op>, i: nat)
    requires i <= |ops| < |tables|
  {
    Kept(tables[i], Stream(tables, ops, i))
  }

  lemma StreamStep(tables: seq<Table>, ops: seq<PeerTable.Op>, i: nat, next: nat)
    requires Execution(tables, ops) && i < |ops| && next == i + 1 && KeptAt(tables, ops, i)
    ensures KeptAt(tables, ops, next)
  {
    KeptStep(tables[i], ops[i], Stream(tables, ops, i));
    assert tables[i + 1] == Apply(tables[i], ops[i]);
  }

  lemma BlankKept(tables: seq<Table>, ops: seq<PeerTable.Op>)
    requires |ops| < |tables| && tables[0] == Blank()
    ensures KeptAt(tables, ops, 0)
  {
    assert Stream(tables, ops, 0) == [];
  }

  lemma {:induction false} StreamKept(tables: seq<Table>, ops: seq<PeerTable.Op>, i: nat)
    requires Execution(tables, ops) && i <= |ops|
    ensures KeptAt(tables, ops, i)
  {
    if i == 0 {
      BlankKept(tables, ops);
    } else {
      StreamKept(tables, ops, i - 1);
      StreamStep(tables, ops, i - 1, i);
    }
  }

  // ---------------------------------------------------------------------------
  // The test as a lane

  ghost function Streams(tables: seq<Table>, ops: seq<PeerTable.Op>): (r: seq<seq<Sample>>)
    requires |tables| == |ops| + 1
    ensures |r| == |tables| && forall i :: 0 <= i < |tables| ==> r[i] == Stream(tables, ops, i)
  {
    seq(|tables|, i requires 0 <= i < |tables| => Stream(tables, ops, i))
  }

  function QueueOf(t: Table): seq<Sample> {
    if t.slots == [] then [] else t.slots[0].queue
  }

  function Queues(tables: seq<Table>): (r: seq<seq<Sample>>)
    ensures |r| == |tables| && forall i :: 0 <= i < |tables| ==> r[i] == QueueOf(tables[i])
  {
    seq(|tables|, i requires 0 <= i < |tables| => QueueOf(tables[i]))
  }

  function Batches(tables: seq<Table>, ops: seq<PeerTable.Op>): (r: seq<Batch>)
    requires |tables| == |ops| + 1
    ensures |r| == |ops| && forall i :: 0 <= i < |ops| ==> r[i] == BatchOf(tables[i], ops[i])
  {
    seq(|ops|, i requires 0 <= i < |ops| => BatchOf(tables[i], ops[i]))
  }

  ghost function LaneOf(tables: seq<Table>, ops: seq<PeerTable.Op>): Lane
    requires |tables| == |ops| + 1
  {
    Lane(Streams(tables, ops), Queues(tables), Batches(tables, ops))
  }

  /** The test runs on from one point to another. */
  ghost predicate Testing(tables: seq<Table>, ops: seq<PeerTable.Op>, from: nat, to: nat) {
    Execution(tables, ops) && from <= to <= |ops| && forall i :: from <= i < to ==> !Ends(ops[i])
  }

  lemma SlotTurn(tables: seq<Table>, ops: seq<PeerTable.Op>, i: nat)
    requires Execution(tables, ops) && i < |ops| && !Ends(ops[i])
    ensures Turn(LaneOf(tables, ops), i)
  {
    StreamKept(tables, ops, i);
    SlotStep(tables[i], ops[i]);
    assert tables[i + 1] == Apply(tables[i], ops[i]);
    assert Stream(tables, ops, i + 1) == Stream(tables, ops, i) + LoopedBy(tables[i], ops[i]);
    assert Brought(BatchOf(tables[i], ops[i])) == LoopedBy(tables[i], ops[i]);
  }

  lemma LoopFlows(tables: seq<Table>, ops: seq<PeerTable.Op>, from: nat, to: nat)
    requires Testing(tables, ops, from, to)
    ensures Flow(LaneOf(tables, ops), from, to)
  {
    StreamKept(tables, ops, from);
    forall i: nat | from <= i < to ensures Turn(LaneOf(tables, ops), i) {
      SlotTurn(tables, ops, i);
    }
  }

  /** A mix adds, for slot 0, the piece it takes from the queue at full volume, and nothing when the test is off. */
  lemma MixAddsFrame(f: Arithmetic, t: Table, stream: seq<Sample>, n: nat, k: nat, sum: real)
    requires Kept(t, stream) && k < n
    ensures var piece := Piece(QueueOf(t), Read(n));
      Accumulate(f, t, 0, k, sum) == if t.loopback && k < |piece| then f.add(sum, f.scale(piece[k], 1.0)) else sum
  {
  }

  /**
  During the test each mix plays, at full volume, the next piece of the frames captured since it began, and past them
  nothing; pieces never overlap and never swap.
  */
  lemma TestPlaysFrames(f: Arithmetic, tables: seq<Table>, ops: seq<PeerTable.Op>, i: nat, j: nat, k: nat, sum: real)
    requires Testing(tables, ops, i, j) && i < j && ops[i].Mix? && k < ops[i].samples && |tables[i].slots| == MAX_PEERS
    ensures var lane, piece := LaneOf(tables, ops), Piece(QueueOf(tables[i]), Read(ops[i].samples));
      && Between(Stream(tables, ops, j), Position(lane, i), Position(lane, i + 1), piece)
      && Position(lane, i + 1) <= Position(lane, j)
      && Accumulate(f, tables[i], 0, k, sum) ==
         if tables[i].loopback && k < |piece| then f.add(sum, f.scale(piece[k], 1.0)) else sum
  {
    var lane := LaneOf(tables, ops);
    LoopFlows(tables, ops, i, j);
    ReadIsNextPiece(lane, i, j);
    PiecesInOrder(lane, i, j);
    StreamKept(tables, ops, i);
    MixAddsFrame(f, tables[i], Stream(tables, ops, i), ops[i].samples, k, sum);
  }
}
