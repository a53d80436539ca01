/**
What the mixer plays of one user over a whole run of packets, mixes, volume and switch changes: successive pieces of
the samples the user sent.
*/
module PeerRuns {
  import opened Basics
  import opened Limiter
  import opened RingBuffer
  import opened PeerTable
  import opened SampleFlow
  import opened Mixing

  /** The samples an operation brings from the user. */
  function FedBy(op: PeerTable.Op, user: uint32): (r: seq<Sample>)
    ensures |r| <= SAMPLES_PER_FRAME
  {
    if op.Feed? && ParseInbound(op.packet).Some? && ParseInbound(op.packet).value.sender == user
    then ParseInbound(op.packet).value.samples else []
  }

  /** Everything the user sent in the first n operations, as far as no clear came after it. */
  ghost function Stream(ops: seq<PeerTable.Op>, user: uint32, n: nat): seq<Sample>
    requires n <= |ops|
  {
    if n == 0 || ops[n - 1].Clear? then [] else Stream(ops, user, n - 1) + FedBy(ops[n - 1], user)
  }

  ghost predicate Full(t: Table)
    requires |t.slots| == MAX_PEERS
  {
    forall k :: 1 <= k < MAX_PEERS ==> t.slots[k].active
  }

  ghost predicate Seated(t: Table, user: uint32) {
    exists k: nat :: Owns(t, k, user)
  }

  /** A user with a slot has the end of his stream in it; one without has sent nothing, or finds every slot taken. */
  ghost predicate Kept(t: Table, user: uint32, stream: seq<Sample>) {
    && TableOk(t)
    && (forall k: nat :: Owns(t, k, user) ==> Latest(stream, t.slots[k].queue))
    && (Seated(t, user) || stream == [] || Full(t))
  }

  // ---------------------------------------------------------------------------
  // One operation

  /** The operation as the user's slot sees it. */
  function BatchOf(op: PeerTable.Op, user: uint32): Batch {
    match op
    case Feed(_) => Write(FedBy(op, user))
    case Mix(n) => Read(n)
    case _ => Read(0)
  }

  lemma OneSlot(t: Table, k: nat, j: nat, user: uint32)
    requires TableOk(t) && Owns(t, k, user) && Owns(t, j, user)
    ensures k == j
  {
  }

  lemma QueueStep(t: Table, op: PeerTable.Op, k: nat, user: uint32)
    requires TableOk(t) && Owns(t, k, user) && !op.Clear?
    ensures Apply(t, op).slots[k].queue == QueueAfter(t.slots[k].queue, BatchOf(op, user))
  {
    if op.Feed? && ParseInbound(op.packet).Some? {
      var p := ParseInbound(op.packet).value;
      if p.sender == user {
        OneSlot(t, FindUser(t.slots, user, 1), k, user);
      }
    }
  }

  lemma FullStays(t: Table, op: PeerTable.Op)
    requires TableOk(t) && !op.Clear?
    ensures Full(t) ==> Full(Apply(t, op))
  {
  }

  lemma SeatedStep(t: Table, op: PeerTable.Op, user: uint32, stream: seq<Sample>, k: nat)
    requires Kept(t, user, stream) && !op.Clear? && Owns(t, k, user)
    ensures Kept(Apply(t, op), user, stream + FedBy(op, user))
  {
    ApplyKeepsTable(t, op);
    OwnerStep(t, op, k, user);
    QueueStep(t, op, k, user);
    LatestStep(stream, t.slots[k].queue, BatchOf(op, user));
    var u := Apply(t, op);
    forall j: nat | Owns(u, j, user) ensures Latest(stream + FedBy(op, user), u.slots[j].queue) {
      OneSlot(u, k, j, user);
    }
  }

  /** A slot that is newly a user's holds exactly what the operation brought from him, at the volume set or at 1. */
  lemma NewSlot(t: Table, op: PeerTable.Op, user: uint32, k: nat)
    requires TableOk(t) && !Seated(t, user) && Owns(Apply(t, op), k, user)
    ensures !op.Clear? && !Full(t)
    ensures Apply(t, op).slots[k].queue == PushedAll([], FedBy(op, user))
    ensures op.Feed? || op == SetVolume(user, Apply(t, op).slots[k].volume)
    ensures op.Feed? ==> Apply(t, op).slots[k].volume == 1.0
  {
    assert !Owns(t, k, user);
  }

  /** Samples that find no slot find none free. */
  lemma NoSlot(t: Table, op: PeerTable.Op, user: uint32)
    requires TableOk(t) && !Seated(t, user) && FedBy(op, user) != []
    ensures Seated(Apply(t, op), user) || Full(t)
  {
    var k := SlotFor(t.slots, user);
    if k < MAX_PEERS {
      assert FindUser(t.slots, user, 1) < MAX_PEERS ==> Owns(t, FindUser(t.slots, user, 1), user);
      assert Owns(Apply(t, op), k, user);
    }
  }

  lemma KeptStep(t: Table, op: PeerTable.Op, user: uint32, stream: seq<Sample>)
    requires Kept(t, user, stream)
    ensures Kept(Apply(t, op), user, if op.Clear? then [] else stream + FedBy(op, user))
  {
    var u := Apply(t, op);
    ApplyKeepsTable(t, op);
    if op.Clear? {
    } else if Seated(t, user) {
      var k: nat :| Owns(t, k, user);
      SeatedStep(t, op, user, stream, k);
    } else {
      FullStays(t, op);
      forall k: nat | Owns(u, k, user) ensures Latest(stream + FedBy(op, user), u.slots[k].queue) {
        NewSlot(t, op, user, k);
        LatestAfterPush([], [], FedBy(op, user));
      }
      if FedBy(op, user) != [] {
        NoSlot(t, op, user);
      }
    }
  }

  // ---------------------------------------------------------------------------
  // Whole runs

  ghost predicate KeptAt(tables: seq<Table>, ops: seq<PeerTable.Op>, user: uint32, i: nat)
    requires i <= |ops| < |tables|
  {
    Kept(tables[i], user, Stream(ops, user, i))
  }

  lemma StreamStep(tables: seq<Table>, ops: seq<PeerTable.Op>, user: uint32, i: nat)
    requires Execution(tables, ops) && i < |ops| && KeptAt(tables, ops, user, i)
    ensures KeptAt(tables, ops, user, i + 1)
  {
    KeptStep(tables[i], ops[i], user, Stream(ops, user, i));
    assert tables[i + 1] == Apply(tables[i], ops[i]);
  }

  lemma BlankKept(user: uint32)
    ensures Kept(Blank(), user, [])
  {
  }

  /** Over any run, a user's slot holds the end of what he sent since the last clear. */
  lemma {:induction false} StreamKept(tables: seq<Table>, ops: seq<PeerTable.Op>, user: uint32, i: nat)
    requires Execution(tables, ops) && i <= |ops|
    ensures KeptAt(tables, ops, user, i)
  {
    if i == 0 {
      BlankKept(user);
      assert Stream(ops, user, 0) == [];
    } else {
      StreamKept(tables, ops, user, i - 1);
      StreamStep(tables, ops, user, i - 1);
    }
  }

  /** The user owns slot k from the start to the end of a stretch of a run. */
  ghost predicate Tenure(tables: seq<Table>, ops: seq<PeerTable.Op>, user: uint32, k: nat, from: nat, to: nat) {
    && Execution(tables, ops) && from <= to <= |ops| && Owns(tables[from], k, user)
    && forall i :: from <= i < to ==> !ops[i].Clear?
  }

  function QueueIn(t: Table, k: nat): seq<Sample> {
    if k < |t.slots| then t.slots[k].queue else []
  }

  ghost function Streams(ops: seq<PeerTable.Op>, user: uint32): (r: seq<seq<Sample>>)
    ensures |r| == |ops| + 1 && forall i :: 0 <= i <= |ops| ==> r[i] == Stream(ops, user, i)
  {
    seq(|ops| + 1, i requires 0 <= i <= |ops| => Stream(ops, user, i))
  }

  function Queues(tables: seq<Table>, k: nat): (r: seq<seq<Sample>>)
    ensures |r| == |tables| && forall i :: 0 <= i < |tables| ==> r[i] == QueueIn(tables[i], k)
  {
    seq(|tables|, i requires 0 <= i < |tables| => QueueIn(tables[i], k))
  }

  function Batches(ops: seq<PeerTable.Op>, user: uint32): (r: seq<Batch>)
    ensures |r| == |ops| && forall i :: 0 <= i < |ops| ==> r[i] == BatchOf(ops[i], user)
  {
    seq(|ops|, i requires 0 <= i < |ops| => BatchOf(ops[i], user))
  }

  /** The user's stream beside the queue of slot k. */
  ghost function LaneOf(tables: seq<Table>, ops: seq<PeerTable.Op>, user: uint32, k: nat): Lane {
    Lane(Streams(ops, user), Queues(tables, k), Batches(ops, user))
  }

  lemma SlotTurn(tables: seq<Table>, ops: seq<PeerTable.Op>, user: uint32, k: nat, i: nat)
    requires Execution(tables, ops) && i < |ops| && !ops[i].Clear? && Owns(tables[i], k, user)
    ensures QueueIn(tables[i + 1], k) == QueueAfter(QueueIn(tables[i], k), BatchOf(ops[i], user))
  {
    TableHolds(tables, ops, i);
    QueueStep(tables[i], ops[i], k, user);
  }

  /** While he owns it, nothing but his packets and the mixes touches a user's slot. */
  lemma SlotFlows(tables: seq<Table>, ops: seq<PeerTable.Op>, user: uint32, k: nat, from: nat, to: nat)
    requires Tenure(tables, ops, user, k, from, to)
    ensures Flow(LaneOf(tables, ops, user, k), from, to)
  {
    var lane := LaneOf(tables, ops, user, k);
    StreamKept(tables, ops, user, from);
    assert Owns(tables[from], k, user);
    forall i: nat | from <= i < to ensures Turn(lane, i) {
      SlotAndVolumeKept(tables, ops, from, i, k, user);
      SlotTurn(tables, ops, user, k, i);
    }
  }

  /** A user is given a slot with his first packet or volume setting since the last clear: nothing he sent is skipped. */
  lemma TenureStartsAtZero(tables: seq<Table>, ops: seq<PeerTable.Op>, user: uint32, k: nat, i: nat)
    requires Execution(tables, ops) && i < |ops| && !Seated(tables[i], user) && Owns(tables[i + 1], k, user)
    ensures Position(LaneOf(tables, ops, user, k), i + 1) == 0
  {
    StreamKept(tables, ops, user, i);
    NewSlot(tables[i], ops[i], user, k);
    PushSkips([], FedBy(ops[i], user));
  }

  /** A mix adds, for slot k, the samples of the piece it takes from the slot's queue, and past them nothing. */
  lemma MixAddsPiece(f: Arithmetic, t: Table, user: uint32, k: nat, n: nat, j: nat, sum: real)
    requires Owns(t, k, user) && j < n
    ensures var slot, piece := t.slots[k], Piece(QueueIn(t, k), BatchOf(PeerTable.Mix(n), user));
      Accumulate(f, t, k, j, sum) == if j < |piece| then f.add(sum, f.scale(piece[j], slot.volume)) else sum
  {
  }

  /**
  What the mixes play of a user, as long as he keeps his slot, are successive pieces of what he sent: each stands in
  his stream where the position says, and the next one begins no earlier than it ends.
  */
  lemma PlayedInOrder(tables: seq<Table>, ops: seq<PeerTable.Op>, user: uint32, k: nat, i: nat, j: nat)
    requires Tenure(tables, ops, user, k, i, j) && i < j && ops[i].Mix?
    ensures var lane := LaneOf(tables, ops, user, k);
      var p, next, piece := Position(lane, i), Position(lane, i + 1), Piece(QueueIn(tables[i], k), BatchOf(ops[i], user));
      Between(Stream(ops, user, j), p, next, piece) && next <= Position(lane, j)
  {
    var lane := LaneOf(tables, ops, user, k);
    SlotFlows(tables, ops, user, k, i, j);
    ReadIsNextPiece(lane, i, j);
    PiecesInOrder(lane, i, j);
  }

  /** Every packet of the user finds room in slot k. */
  ghost predicate RoomForPackets(tables: seq<Table>, ops: seq<PeerTable.Op>, user: uint32, k: nat, from: nat, to: nat)
    requires from <= to <= |ops| < |tables|
  {
    forall i: nat :: from <= i < to ==> |QueueIn(tables[i], k)| + |FedBy(ops[i], user)| < RING_SIZE
  }

  lemma RoomAgrees(tables: seq<Table>, ops: seq<PeerTable.Op>, user: uint32, k: nat, from: nat, to: nat)
    requires from <= to <= |ops| && |tables| == |ops| + 1
    ensures AlwaysRoom(LaneOf(tables, ops, user, k), from, to) <==> RoomForPackets(tables, ops, user, k, from, to)
  {
    var lane := LaneOf(tables, ops, user, k);
    forall i: nat | from <= i < to
      ensures Room(lane, i) <==> |QueueIn(tables[i], k)| + |FedBy(ops[i], user)| < RING_SIZE
    {
      assert lane.batches[i] == BatchOf(ops[i], user);
    }
  }

  /**
  Over any stretch in which a user keeps his slot, what he loses is a whole multiple of the ring size, and his samples
  are played without a gap exactly when each of his packets found room in the slot's ring.
  */
  lemma PlayedGapless(tables: seq<Table>, ops: seq<PeerTable.Op>, user: uint32, k: nat, from: nat, to: nat)
    requires Tenure(tables, ops, user, k, from, to)
    ensures var lane := LaneOf(tables, ops, user, k);
      && WholeRings(Lost(lane, from, to))
      && (Between(Stream(ops, user, to), Position(lane, from), Position(lane, to), Played(lane, from, to)) <==>
           RoomForPackets(tables, ops, user, k, from, to))
  {
    var lane := LaneOf(tables, ops, user, k);
    SlotFlows(tables, ops, user, k, from, to);
    LostExactly(lane, from, to);
    PlayedExactly(lane, from, to);
    RoomAgrees(tables, ops, user, k, from, to);
  }
}
