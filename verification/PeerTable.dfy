/**
The peer slots of the audio engine and the datagram parser that feeds them (client/native/libvoice_engine.c).
Slot 0 is the microphone test loopback; slots 1 to 31 belong to users.
*/
module PeerTable {
  import opened Basics
  import opened Limiter
  import opened RingBuffer
  import PacketCodec

  const MAX_PEERS := 32
  const SAMPLES_PER_FRAME := 960
  const LOOPBACK_USER: uint32 := 999999

  datatype Slot = Slot(userId: uint32, active: bool, speaking: bool, volume: real, queue: seq<Sample>)

  const BLANK_SLOT := Slot(0, false, false, 1.0, [])

  // ---------------------------------------------------------------------------
  // The C parser

  datatype Inbound = Inbound(sender: uint32, vad: bool, energy: byte, payloadLen: uint16, samples: seq<Sample>)

  /** A little-endian 16-bit sample. */
  function SampleAt(payload: seq<byte>, s: nat): Sample
    requires 2 * s + 1 < |payload|
  {
    var lo: int, hi: int := payload[2 * s], payload[2 * s + 1];
    if hi >= 0x80 then hi * 0x100 + lo - 0x1_0000 else hi * 0x100 + lo
  }

  /** The signed value of two bytes; there is one sample with that residue. */
  ghost predicate SampleIs(x: Sample, low: byte, high: byte) {
    (x - (256 * high as int + low as int)) % 65536 == 0
  }

  function SamplesOf(payload: seq<byte>): (r: seq<Sample>)
    ensures |r| <= SAMPLES_PER_FRAME
  {
    var n := if |payload| / 2 > SAMPLES_PER_FRAME then SAMPLES_PER_FRAME else |payload| / 2;
    seq(n, s requires 0 <= s < n => SampleAt(payload, s))
  }

  lemma SamplesOfAt(payload: seq<byte>, n: nat)
    requires |payload| == 2 * n && n <= 960
    ensures |SamplesOf(payload)| == n
    ensures forall s :: 0 <= s < n ==> SamplesOf(payload)[s] == SampleAt(payload, s)
  {
  }

  /** Bytes 4 to 7, most significant first. */
  function SenderOf(d: seq<byte>): uint32
    requires |d| >= 20
  {
    var b4: int, b5: int, b6: int, b7: int := d[4], d[5], d[6], d[7];
    b4 * 0x100_0000 + b5 * 0x1_0000 + b6 * 0x100 + b7
  }

  /** Bytes 14 and 15, likewise. */
  function PayloadLenOf(d: seq<byte>): uint16
    requires |d| >= 20
  {
    var b14: int, b15: int := d[14], d[15];
    b14 * 0x100 + b15
  }

  /** The header checks of voice_engine_feed_inbound_packet; it looks at neither version nor type. */
  function ParseInbound(d: seq<byte>): Option<Inbound> {
    if |d| < 20 then None
    else if d[0] != 0x56 then None
    else
      var sender := SenderOf(d);
      var len := PayloadLenOf(d);
      if sender == 0 || |d| < 20 + len then None
      else Some(Inbound(sender, d[3] % 2 == 1, d[3] / 0x10, len, SamplesOf(d[20..20 + len])))
  }

  /**
  The two parsers of the wire format agree: a datagram with a sender that the server accepts is accepted by the client
  with the same sender, speaking bit, energy and payload length, and the client's acceptance falls short of the
  server's exactly by the version, the type and the size limit.
  */
  lemma ParsersAgree(d: seq<byte>)
    requires |d| >= 20 && PacketCodec.Get32(d[4..8]) != 0
    ensures PacketCodec.DecodeError(d).None? <==>
      ParseInbound(d).Some? && d[1] == PacketCodec.PROTOCOL_VERSION && PacketCodec.IsValidPacketType(d[2]) &&
      ParseInbound(d).value.payloadLen <= PacketCodec.MAX_PAYLOAD_SIZE
    ensures PacketCodec.DecodeError(d).None? ==>
      var p, q := PacketCodec.Decoded(d), ParseInbound(d).value;
      q.sender == p.senderId && q.vad == p.vad && q.energy == p.energy && q.payloadLen == p.payloadLen &&
      q.samples == SamplesOf(p.payload)
  {
  }

  /**
  An accepted packet carries as many samples as its payload has whole ones, up to a frame; sample s is the 16-bit
  signed value whose low byte is payload byte 2s and whose high byte is payload byte 2s + 1.
  */
  lemma SamplesExactly(d: seq<byte>)
    requires ParseInbound(d).Some?
    ensures var p := ParseInbound(d).value;
      && |p.samples| == (if p.payloadLen / 2 < 960 then p.payloadLen / 2 else 960)
      && 20 + p.payloadLen <= |d|
      && forall s :: 0 <= s < |p.samples| ==> SampleIs(p.samples[s], d[20 + 2 * s], d[21 + 2 * s])
  {
    var p := ParseInbound(d).value;
    var payload := d[20..20 + p.payloadLen];
    forall s | 0 <= s < |p.samples| ensures SampleIs(p.samples[s], d[20 + 2 * s], d[21 + 2 * s]) {
      assert payload[2 * s] == d[20 + 2 * s] && payload[2 * s + 1] == d[21 + 2 * s];
    }
  }

  /** A zero sender is dropped by the client whatever else the datagram says. */
  lemma AnonymousDropped(d: seq<byte>)
    requires |d| >= 20 && PacketCodec.Get32(d[4..8]) == 0
    ensures ParseInbound(d).None?
  {
  }

  // ---------------------------------------------------------------------------
  // Slots

  /** The first slot from i on that is active for the user, or the number of slots. */
  function FindUser(slots: seq<Slot>, user: uint32, i: nat): (k: nat)
    requires i <= |slots|
    ensures i <= k <= |slots|
    ensures k < |slots| ==> slots[k].active && slots[k].userId == user
    ensures forall j :: i <= j < k ==> !(slots[j].active && slots[j].userId == user)
    decreases |slots| - i
  {
    if i == |slots| || (slots[i].active && slots[i].userId == user) then i else FindUser(slots, user, i + 1)
  }

  /** The first inactive slot from i on, or the number of slots. */
  function FindFree(slots: seq<Slot>, i: nat): (k: nat)
    requires i <= |slots|
    ensures i <= k <= |slots|
    ensures k < |slots| ==> !slots[k].active
    ensures forall j :: i <= j < k ==> slots[j].active
    decreases |slots| - i
  {
    if i == |slots| || !slots[i].active then i else FindFree(slots, i + 1)
  }

  function SlotFor(slots: seq<Slot>, user: uint32): (k: nat)
    requires |slots| >= 1
    ensures 1 <= k <= |slots|
  {
    var k := FindUser(slots, user, 1);
    if k < |slots| then k else FindFree(slots, 1)
  }

  /** The slot, taken over by the user if it was free. */
  function Claimed(slot: Slot, user: uint32, volume: real): Slot {
    if slot.active then slot else Slot(user, true, slot.speaking, volume, [])
  }

  function FedSlot(slot: Slot, p: Inbound): Slot {
    var claimed := Claimed(slot, p.sender, 1.0);
    claimed.(speaking := p.vad, queue := PushedAll(claimed.queue, p.samples))
  }

  function AfterFeed(slots: seq<Slot>, p: Inbound): seq<Slot>
    requires |slots| >= 1
  {
    var k := SlotFor(slots, p.sender);
    if k == |slots| then slots else slots[k := FedSlot(slots[k], p)]
  }

  function AfterSetVolume(slots: seq<Slot>, user: uint32, volume: real): seq<Slot>
    requires |slots| >= 1
  {
    if user == 0 then slots
    else
      var k := SlotFor(slots, user);
      if k == |slots| then slots else slots[k := Claimed(slots[k], user, volume).(volume := volume)]
  }

  function AfterLoopFrame(slots: seq<Slot>, frame: seq<Sample>): seq<Slot>
    requires |slots| >= 1
  {
    slots[0 := slots[0].(userId := LOOPBACK_USER, active := true, volume := 1.0, queue := PushedAll(slots[0].queue, frame))]
  }

  // ---------------------------------------------------------------------------
  // Runs

  datatype Table = Table(slots: seq<Slot>, loopback: bool)

  datatype Op =
    | Feed(packet: seq<byte>)
    | SetVolume(user: uint32, volume: real)
    | Clear
    | SetLoopback(enabled: bool)
    | LoopFrame(frame: seq<Sample>) // a captured frame while loopback is on
    | Mix(samples: nat)

  function Blank(): Table {
    Table(seq(MAX_PEERS, _ => BLANK_SLOT), false)
  }

  /** A slot takes part in the mix if it is active and, for slot 0, the loopback is on. */
  predicate Audible(t: Table, i: nat)
    requires i < |t.slots|
  {
    t.slots[i].active && (i != 0 || t.loopback)
  }

  function DrainedSlot(t: Table, n: nat, i: nat): Slot
    requires i < |t.slots|
  {
    if Audible(t, i) then t.slots[i].(queue := Drop(t.slots[i].queue, n)) else t.slots[i]
  }

  function DrainedSlots(t: Table, n: nat, count: nat): (r: seq<Slot>)
    requires count <= |t.slots|
    ensures |r| == count
    ensures forall i :: 0 <= i < count ==> r[i] == DrainedSlot(t, n, i)
  {
    seq(count, i requires 0 <= i < count => DrainedSlot(t, n, i))
  }

  /** Mixing n samples consumes the first n samples of every audible queue. */
  function Drained(t: Table, n: nat): (r: Table)
    ensures |r.slots| == |t.slots|
  {
    t.(slots := DrainedSlots(t, n, |t.slots|))
  }

  function Apply(t: Table, op: Op): (r: Table)
    requires |t.slots| == MAX_PEERS
    ensures |r.slots| == MAX_PEERS
  {
    match op
    case Feed(packet) =>
      if ParseInbound(packet).None? then t else t.(slots := AfterFeed(t.slots, ParseInbound(packet).value))
    case SetVolume(user, volume) => t.(slots := AfterSetVolume(t.slots, user, volume))
    case Clear => Blank()
    case SetLoopback(enabled) => if enabled then t.(loopback := true) else Table(t.slots[0 := BLANK_SLOT], false)
    case LoopFrame(frame) => if t.loopback then t.(slots := AfterLoopFrame(t.slots, frame)) else t
    case Mix(samples) => Drained(t, samples)
  }

  ghost predicate Execution(tables: seq<Table>, ops: seq<Op>) {
    && |tables| == |ops| + 1
    && tables[0] == Blank()
    && forall i :: 0 <= i < |ops| ==> |tables[i].slots| == MAX_PEERS && tables[i + 1] == Apply(tables[i], ops[i])
  }

  /** Active user slots hold distinct non-zero users; slot 0 is the loopback's, used only while loopback is on. */
  ghost predicate TableOk(t: Table) {
    && |t.slots| == MAX_PEERS
    && (forall i, j :: 1 <= i < j < MAX_PEERS && t.slots[i].active && t.slots[j].active ==>
         t.slots[i].userId != t.slots[j].userId)
    && (forall i :: 1 <= i < MAX_PEERS && t.slots[i].active ==> t.slots[i].userId != 0)
    && (t.slots[0].active ==> t.loopback && t.slots[0].userId == LOOPBACK_USER)
    && (forall i :: 0 <= i < MAX_PEERS ==> |t.slots[i].queue| < RING_SIZE)
  }

  /** Giving a slot found for a user a new content for that user keeps the slots distinct. */
  lemma PlaceKeeps(t: Table, user: uint32, slot: Slot)
    requires TableOk(t) && user != 0 && SlotFor(t.slots, user) < MAX_PEERS
    requires slot.active && slot.userId == user && |slot.queue| < RING_SIZE
    ensures TableOk(t.(slots := t.slots[SlotFor(t.slots, user) := slot]))
  {
  }

  lemma DrainKeeps(t: Table, n: nat)
    requires TableOk(t)
    ensures TableOk(Drained(t, n))
  {
  }

  lemma ApplyKeepsTable(t: Table, op: Op)
    requires TableOk(t)
    ensures TableOk(Apply(t, op))
  {
    match op
    case Feed(packet) =>
      if ParseInbound(packet).Some? {
        var p := ParseInbound(packet).value;
        var k := SlotFor(t.slots, p.sender);
        if k < MAX_PEERS {
          PushedAllFits(Claimed(t.slots[k], p.sender, 1.0).queue, p.samples);
          PlaceKeeps(t, p.sender, FedSlot(t.slots[k], p));
        }
      }
    case SetVolume(user, volume) =>
      if user != 0 && SlotFor(t.slots, user) < MAX_PEERS {
        PlaceKeeps(t, user, Claimed(t.slots[SlotFor(t.slots, user)], user, volume).(volume := volume));
      }
    case LoopFrame(frame) => PushedAllFits(t.slots[0].queue, frame);
    case Mix(samples) => DrainKeeps(t, samples);
    case _ =>
  }

  /** Slot k belongs to the user. */
  ghost predicate Owns(t: Table, k: nat, user: uint32) {
    1 <= k < MAX_PEERS <= |t.slots| && t.slots[k].active && t.slots[k].userId == user
  }

  /** The volume last set for the user, or the one he started with. */
  function VolumeAfter(ops: seq<Op>, user: uint32, initial: real): real {
    if ops == [] then initial
    else
      var last := ops[|ops| - 1];
      if last.SetVolume? && last.user == user && user != 0 then last.volume
      else VolumeAfter(ops[..|ops| - 1], user, initial)
  }

  lemma {:induction false} VolumeAfterAppend(ops: seq<Op>, op: Op, user: uint32, initial: real)
    ensures VolumeAfter(ops + [op], user, initial) == VolumeAfter([op], user, VolumeAfter(ops, user, initial))
  {
    assert (ops + [op])[..|ops|] == ops;
    assert [op][..0] == [];
  }

  lemma VolumeNext(ops: seq<Op>, from: nat, to: nat, user: uint32, initial: real)
    requires from < to <= |ops|
    ensures VolumeAfter(ops[from..to], user, initial) ==
      VolumeAfter([ops[to - 1]], user, VolumeAfter(ops[from..to - 1], user, initial))
  {
    assert ops[from..to] == ops[from..to - 1] + [ops[to - 1]];
    VolumeAfterAppend(ops[from..to - 1], ops[to - 1], user, initial);
  }

  lemma OwnerStep(t: Table, op: Op, k: nat, user: uint32)
    requires TableOk(t) && Owns(t, k, user) && !op.Clear?
    ensures Owns(Apply(t, op), k, user)
    ensures Apply(t, op).slots[k].volume == VolumeAfter([op], user, t.slots[k].volume)
  {
    assert [op][..0] == [];
    assert FindUser(t.slots, user, 1) == k;
  }

  /** The user's speaking mark is that of his latest packet; nothing else changes it while he keeps his slot. */
  lemma SpeakingStep(t: Table, op: Op, k: nat, user: uint32)
    requires TableOk(t) && Owns(t, k, user) && !op.Clear?
    ensures var packet := if op.Feed? then ParseInbound(op.packet) else None;
      Apply(t, op).slots[k].speaking ==
      if packet.Some? && packet.value.sender == user then op.packet[3] % 2 == 1 else t.slots[k].speaking
  {
    assert FindUser(t.slots, user, 1) == k;
  }

  lemma {:induction false} TableHolds(tables: seq<Table>, ops: seq<Op>, i: nat)
    requires Execution(tables, ops) && i <= |ops|
    ensures TableOk(tables[i])
  {
    if i == 0 {
    } else {
      TableHolds(tables, ops, i - 1);
      ApplyKeepsTable(tables[i - 1], ops[i - 1]);
    }
  }

  lemma OwnerNext(tables: seq<Table>, ops: seq<Op>, i: nat, k: nat, user: uint32)
    requires Execution(tables, ops) && i < |ops| && Owns(tables[i], k, user) && !ops[i].Clear?
    ensures Owns(tables[i + 1], k, user)
    ensures tables[i + 1].slots[k].volume == VolumeAfter([ops[i]], user, tables[i].slots[k].volume)
  {
    TableHolds(tables, ops, i);
    OwnerStep(tables[i], ops[i], k, user);
  }

  ghost predicate Held(tables: seq<Table>, ops: seq<Op>, from: nat, i: nat, k: nat, user: uint32)
    requires from <= i <= |ops| < |tables| && k < |tables[from].slots|
  {
    && Owns(tables[i], k, user)
    && tables[i].slots[k].volume == VolumeAfter(ops[from..i], user, tables[from].slots[k].volume)
  }

  lemma HeldNext(tables: seq<Table>, ops: seq<Op>, from: nat, i: nat, next: nat, k: nat, user: uint32)
    requires Execution(tables, ops) && from <= i < |ops| && next == i + 1 && !ops[i].Clear? && k < |tables[from].slots|
    requires Held(tables, ops, from, i, k, user)
    ensures Held(tables, ops, from, next, k, user)
  {
    OwnerNext(tables, ops, i, k, user);
    VolumeNext(ops, from, next, user, tables[from].slots[k].volume);
  }

  lemma {:induction false} StaysHeld(tables: seq<Table>, ops: seq<Op>, from: nat, to: nat, k: nat, user: uint32)
    requires Execution(tables, ops) && from <= to <= |ops| && Owns(tables[from], k, user)
    requires forall i :: from <= i < to ==> !ops[i].Clear?
    ensures Held(tables, ops, from, to, k, user)
  {
    if to == from {
      assert ops[from..from] == [];
    } else {
      StaysHeld(tables, ops, from, to - 1, k, user);
      HeldNext(tables, ops, from, to - 1, to, k, user);
    }
  }

  /**
  Over any run, from the moment a user owns a slot he keeps that slot, and the volume last set for him, until the
  next clear.
  */
  lemma SlotAndVolumeKept(tables: seq<Table>, ops: seq<Op>, from: nat, to: nat, k: nat, user: uint32)
    requires Execution(tables, ops) && from <= to <= |ops| && Owns(tables[from], k, user)
    requires forall i :: from <= i < to ==> !ops[i].Clear?
    ensures Owns(tables[to], k, user)
    ensures tables[to].slots[k].volume == VolumeAfter(ops[from..to], user, tables[from].slots[k].volume)
  {
    StaysHeld(tables, ops, from, to, k, user);
  }

  /** A user's packet is heard exactly when he has a slot or one is free; it never touches slot 0 or other users. */
  lemma FeedReaches(t: Table, p: Inbound)
    requires TableOk(t) && p.sender != 0
    ensures var s := AfterFeed(t.slots, p);
      && ((exists k :: Owns(t.(slots := s), k, p.sender)) <==>
           exists k :: 1 <= k < MAX_PEERS && (!t.slots[k].active || t.slots[k].userId == p.sender))
      && s[0] == t.slots[0]
      && forall j :: 1 <= j < MAX_PEERS && t.slots[j].active && t.slots[j].userId != p.sender ==> s[j] == t.slots[j]
  {
    var k := SlotFor(t.slots, p.sender);
    if k < MAX_PEERS {
      assert Owns(t.(slots := AfterFeed(t.slots, p)), k, p.sender);
    }
  }
}
