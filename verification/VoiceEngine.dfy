/** The audio engine's global state and its entry points (client/native/libvoice_engine.c). */
module VoiceEngine {
  import opened Basics
  import opened Limiter
  import opened RingBuffer
  import opened PeerTable
  import opened Mixing
  import Capture
  import Hangover

  class PeerStream {
    var userId: uint32
    var isActive: bool
    var isSpeaking: bool
    var userVolume: real
    const ring: Ring

    ghost function View(): Slot
      reads this, ring
    {
      Slot(userId, isActive, isSpeaking, userVolume, ring.contents)
    }

    constructor ()
      ensures ring.Valid() && View() == BLANK_SLOT
      ensures fresh(ring) && fresh(ring.buffer)
    {
      userId, isActive, isSpeaking, userVolume := 0, false, false, 1.0;
      ring := new Ring();
    }

    /** Adds up to `chunk` queued samples, scaled by the peer's volume, to the accumulator. */
    method MixInto(f: Arithmetic, acc: array<real>, chunk: nat)
      requires ring.Valid() && chunk <= acc.Length
      modifies ring`readIdx, ring`contents, acc
      ensures ring.Valid() && View() == old(View()).(queue := Drop(old(View()).queue, chunk))
      ensures forall s :: 0 <= s < chunk ==> acc[s] == AddSlot(f, old(View()), s, old(acc[s]))
    {
      ghost var slot := View();
      var gain := userVolume;
      for s := 0 to chunk
        invariant ring.Valid() && ring.contents == Drop(slot.queue, s)
        invariant forall k :: 0 <= k < s ==> acc[k] == AddSlot(f, slot, k, old(acc[k]))
        invariant forall k :: s <= k < chunk ==> acc[k] == old(acc[k])
      {
        DropIndex(slot.queue, s, 0);
        if !ring.IsEmpty() {
          var pcm := ring.Pop();
          acc[s] := f.add(acc[s], f.scale(pcm, gain));
        }
      }
    }
  }

  class VoiceEngine {
    const peers: seq<PeerStream>
    const captureRing: Ring
    const arith: Arithmetic
    const meter: Capture.Meter
    var micTestLoopback: bool
    var playing: bool
    var localDeafened: bool
    var capturing: bool
    var localMuted: bool
    var pttPressed: bool
    var vadMode: bool
    var vadThreshold: real
    var hangoverMsLeft: uint32

    /** The slots and their unread samples, as the specification sees them. */
    ghost var table: Table

    /** The storage of the peers' rings, for frames. */
    ghost const rings: set<Ring>
    ghost const buffers: set<array<Sample>>

    /** No two peers share any storage, and none shares the capture ring's. */
    ghost predicate Separate() {
      && |peers| == MAX_PEERS
      && captureRing !in rings && captureRing.buffer !in buffers
      && (forall i :: 0 <= i < MAX_PEERS ==> peers[i].ring in rings && peers[i].ring.buffer in buffers)
      && forall i, j :: 0 <= i < j < MAX_PEERS ==>
           peers[i] != peers[j] && peers[i].ring != peers[j].ring && peers[i].ring.buffer != peers[j].ring.buffer
    }

    /** The storage is laid out as it must be and every index is in range. */
    ghost predicate Linked()
      reads rings, buffers, captureRing, captureRing.buffer
    {
      Separate() && captureRing.Valid() && forall i :: 0 <= i < MAX_PEERS ==> peers[i].ring.Valid()
    }

    ghost predicate Valid()
      reads this, peers, rings, buffers, captureRing, captureRing.buffer
    {
      && Linked()
      && |table.slots| == MAX_PEERS && table.loopback == micTestLoopback
      && forall i :: 0 <= i < MAX_PEERS ==> peers[i].View() == table.slots[i]
    }

    /** The microphone side, as the specification sees it. */
    ghost function MicView(): Capture.Mic
      reads this, captureRing
    {
      Capture.Mic(capturing, localMuted, vadMode, vadThreshold, pttPressed, hangoverMsLeft, captureRing.contents)
    }

    /** A started program after voice_engine_init: blank slots, empty rings, loopback off, default switches. */
    constructor (arith: Arithmetic, vadHangoverMs: uint32, decibels: nat -> real)
      ensures this.arith == arith
      ensures meter == Capture.Meter(if vadHangoverMs == 0 then 200 else vadHangoverMs, decibels)
      ensures Valid() && table == Blank() && MicView() == Capture.FIRST
      ensures !capturing && !localMuted && vadMode && vadThreshold == -45.0 && !pttPressed && hangoverMsLeft == 0
      ensures !playing && !localDeafened
    {
      var streams: seq<PeerStream> := [];
      ghost var rs: set<Ring>, bs: set<array<Sample>> := {}, {};
      while |streams| < MAX_PEERS
        invariant |streams| <= MAX_PEERS
        invariant forall i :: 0 <= i < |streams| ==>
          streams[i].ring.Valid() && streams[i].View() == BLANK_SLOT && streams[i].ring in rs && streams[i].ring.buffer in bs
        invariant forall i, j :: 0 <= i < j < |streams| ==>
          streams[i] != streams[j] && streams[i].ring != streams[j].ring && streams[i].ring.buffer != streams[j].ring.buffer
      {
        var p := new PeerStream();
        streams, rs, bs := streams + [p], rs + {p.ring}, bs + {p.ring.buffer};
      }
      peers, rings, buffers := streams, rs, bs;
      this.arith := arith;
      captureRing := new Ring();
      meter := Capture.Meter(if vadHangoverMs == 0 then 200 else vadHangoverMs, decibels);
      micTestLoopback, playing, localDeafened := false, false, false;
      capturing, localMuted, vadMode, vadThreshold, pttPressed, hangoverMsLeft := false, false, true, -45.0, false, 0;
      table := Blank();
    }

    /** The inner part of the mixer: one chunk of sums over all audible peers. */
    method SumChunk(acc: array<real>, chunk: nat)
      requires Valid() && chunk <= acc.Length
      modifies rings, acc, this`table
      ensures Valid() && table == Drained(old(table), chunk)
      ensures forall s :: 0 <= s < chunk ==> acc[s] == SumUpTo(arith, old(table), MAX_PEERS, s)
    {
      ghost var t := table;
      ZeroSums(acc, chunk);
      for i := 0 to MAX_PEERS
        invariant Linked() && micTestLoopback == t.loopback && table == t
        invariant forall j :: 0 <= j < i ==> peers[j].View() == DrainedSlot(t, chunk, j)
        invariant forall j :: i <= j < MAX_PEERS ==> peers[j].View() == t.slots[j]
        invariant forall s :: 0 <= s < chunk ==> acc[s] == SumUpTo(arith, t, i, s)
      {
        SumPeer(t, i, acc, chunk);
      }
      table := Drained(t, chunk);
    }

    method ZeroSums(acc: array<real>, chunk: nat)
      requires chunk <= acc.Length
      modifies acc
      ensures forall s :: 0 <= s < chunk ==> acc[s] == 0.0
    {
      for s := 0 to chunk
        invariant forall k :: 0 <= k < s ==> acc[k] == 0.0
      {
        acc[s] := 0.0;
      }
    }

    /** The turn of one slot in that loop; t is the table before the chunk. */
    method SumPeer(ghost t: Table, i: nat, acc: array<real>, chunk: nat)
      requires Linked() && i < MAX_PEERS && chunk <= acc.Length
      requires |t.slots| == MAX_PEERS && micTestLoopback == t.loopback && peers[i].View() == t.slots[i]
      modifies peers[i].ring`readIdx, peers[i].ring`contents, acc
      ensures Linked()
      ensures forall j :: 0 <= j < MAX_PEERS && j != i ==> peers[j].View() == old(peers[j].View())
      ensures peers[i].View() == DrainedSlot(t, chunk, i)
      ensures forall s :: 0 <= s < chunk ==> acc[s] == Accumulate(arith, t, i, s, old(acc[s]))
    {
      var peer := peers[i];
      if peer.isActive && (i != 0 || micTestLoopback) {
        peer.MixInto(arith, acc, chunk);
      }
    }

    /** The buffer is the caller's own: it overlaps none of the engine's rings. */
    ghost predicate Outside(out: array<Sample>) {
      out !in buffers && out != captureRing.buffer
    }

    /** The first k samples of t's queues are consumed, and out begins with their mix. */
    ghost predicate MixedSoFar(t: Table, out: array<Sample>, k: nat)
      reads this`table, out
    {
      table == Drained(t, k) && k <= out.Length && out[..k] == Mixed(arith, t, k)
    }

    /** Likewise for a device buffer of several channels. */
    ghost predicate FannedSoFar(t: Table, out: array<Sample>, k: nat, channels: nat)
      reads this`table, out
    {
      && table == Drained(t, k)
      && Cells(k, channels) <= out.Length
      && out[..Cells(k, channels)] == Interleaved(Mixed(arith, t, k), channels)
    }

    /** mix_audio_streams: in chunks of a frame, or silence when deafened. */
    method MixAudioStreams(out: array<Sample>, n: nat)
      requires Valid() && Outside(out) && n <= out.Length
      modifies rings, out, this`table
      ensures Valid()
      ensures table == if localDeafened then old(table) else Drained(old(table), n)
      ensures out[..n] == if localDeafened then Zeros(n) else Mixed(arith, old(table), n)
      ensures out[n..] == old(out[n..])
    {
      if n == 0 || localDeafened {
        Silence(out, n);
        DrainNothing(table);
        return;
      }
      ghost var t := table;
      DrainNothing(t);
      var remaining, offset := n, 0;
      while remaining > 0
        invariant offset + remaining == n && offset <= n && !localDeafened
        invariant Valid() && MixedSoFar(t, out, offset)
        invariant out[n..] == old(out[n..])
      {
        var chunk := if remaining > SAMPLES_PER_FRAME then SAMPLES_PER_FRAME else remaining;
        MixChunk(t, out, offset, chunk);
        offset := offset + chunk;
        remaining := remaining - chunk;
      }
    }

    /** memset(out, 0, ...) */
    method Silence(out: array<Sample>, n: nat)
      requires n <= out.Length
      modifies out
      ensures out[..n] == Zeros(n)
      ensures out[n..] == old(out[n..])
    {
      for i := 0 to n
        invariant forall k :: 0 <= k < i ==> out[k] == 0
        invariant forall k :: i <= k < out.Length ==> out[k] == old(out[k])
      {
        out[i] := 0;
      }
    }

    /** One turn of the chunk loop, `offset` samples into the request that found the table as t: sums, then the limiter. */
    method MixChunk(ghost t: Table, out: array<Sample>, offset: nat, chunk: nat)
      requires Valid() && Outside(out) && offset + chunk <= out.Length && chunk <= SAMPLES_PER_FRAME
      requires MixedSoFar(t, out, offset)
      modifies rings, out, this`table
      ensures Valid() && MixedSoFar(t, out, offset + chunk)
      ensures out[offset + chunk..] == old(out[offset + chunk..])
    {
      ghost var now := table;
      var acc := new real[SAMPLES_PER_FRAME];
      SumChunk(acc, chunk);
      LimitChunk(now, acc, out, offset, chunk);
      MixSplits(arith, t, offset, chunk);
    }

    /** The limiter loop over a chunk's sums; t is the table the sums were taken of. */
    method LimitChunk(ghost t: Table, acc: array<real>, out: array<Sample>, offset: nat, chunk: nat)
      requires chunk <= acc.Length && offset + chunk <= out.Length
      requires forall s :: 0 <= s < chunk ==> acc[s] == SumUpTo(arith, t, |t.slots|, s)
      modifies out
      ensures out[..offset + chunk] == old(out[..offset]) + Mixed(arith, t, chunk)
      ensures out[offset + chunk..] == old(out[offset + chunk..])
    {
      for s := 0 to chunk
        invariant forall k :: 0 <= k < s ==> out[offset + k] == MixedSample(arith, t, k)
        invariant forall k :: 0 <= k < offset || offset + s <= k < out.Length ==> out[k] == old(out[k])
      {
        out[offset + s] := arith.limit(acc[s]);
      }
      ghost var mixed := Mixed(arith, t, chunk);
      assert forall k :: 0 <= k < chunk ==> out[offset + k] == mixed[k];
      assert out[offset..offset + chunk] == mixed;
    }

    /**
    ma_playback_callback: fills a device buffer of any number of channels, every channel of every frame with the
    sample one mono mix of the whole request would give.
    */
    method Playback(out: array<Sample>, frames: nat, deviceChannels: nat)
      requires Valid() && Outside(out)
      requires out.Length == frames * (if deviceChannels > 0 then deviceChannels else 1)
      modifies rings, out, this`table
      ensures Valid()
      ensures !playing || localDeafened ==> table == old(table) && out[..] == Zeros(out.Length)
      ensures playing && !localDeafened ==>
        table == Drained(old(table), frames) &&
        out[..] == Interleaved(Mixed(arith, old(table), frames), if deviceChannels > 0 then deviceChannels else 1)
    {
      ghost var t := table;
      var channels := if deviceChannels > 0 then deviceChannels else 1;
      if frames == 0 {
        DrainNothing(t);
        return;
      }
      if !playing || localDeafened {
        Silence(out, out.Length);
        assert out[..out.Length] == out[..];
        return;
      }
      if channels <= 1 {
        MixAudioStreams(out, frames);
        InterleavedMono(Mixed(arith, t, frames));
        assert out[..frames] == out[..];
      } else {
        CellsIsProduct(frames, channels);
        Fan(out, frames, channels);
      }
    }

    /** The multi-channel branch: mixes mono frames into a temporary and copies each to all channels. */
    method Fan(out: array<Sample>, frames: nat, channels: nat)
      requires Valid() && Outside(out) && out.Length == Cells(frames, channels) && !localDeafened
      modifies rings, out, this`table
      ensures Valid() && table == Drained(old(table), frames)
      ensures out[..] == Interleaved(Mixed(arith, old(table), frames), channels)
    {
      var mono := new Sample[SAMPLES_PER_FRAME];
      FanThrough(mono, out, frames, channels);
      assert out[..out.Length] == out[..];
    }

    /** The loop over that temporary. */
    method FanThrough(mono: array<Sample>, out: array<Sample>, frames: nat, channels: nat)
      requires Valid() && Outside(out) && out.Length == Cells(frames, channels) && !localDeafened
      requires Outside(mono) && mono != out && mono.Length == SAMPLES_PER_FRAME
      modifies rings, mono, out, this`table
      ensures Valid() && FannedSoFar(old(table), out, frames, channels)
    {
      ghost var t := table;
      var remaining, offset := frames, 0;
      DrainNothing(t);
      while remaining > 0
        invariant offset + remaining == frames && offset <= frames
        invariant Valid() && !localDeafened
        invariant FannedSoFar(t, out, offset, channels)
      {
        var chunk := if remaining > SAMPLES_PER_FRAME then SAMPLES_PER_FRAME else remaining;
        FanChunk(t, mono, chunk, out, offset, frames, channels);
        offset := offset + chunk;
        remaining := remaining - chunk;
      }
    }

    /** One turn of that loop, `offset` frames into the request that found the table as t. */
    method FanChunk(ghost t: Table, mono: array<Sample>, chunk: nat, out: array<Sample>, offset: nat, ghost frames: nat,
                    channels: nat)
      requires Valid() && Outside(out) && Outside(mono) && !localDeafened
      requires mono != out && chunk <= mono.Length && offset + chunk <= frames && out.Length == Cells(frames, channels)
      requires FannedSoFar(t, out, offset, channels)
      modifies rings, mono, out, this`table
      ensures Valid() && FannedSoFar(t, out, offset + chunk, channels)
    {
      MixAudioStreams(mono, chunk);
      Spread(mono, chunk, out, offset, frames, channels);
      InterleavedMixSplits(arith, t, offset, chunk, channels);
    }

    /** Copies the temporary's frames to every channel of the device buffer. */
    method Spread(mono: array<Sample>, chunk: nat, out: array<Sample>, offset: nat, ghost frames: nat, channels: nat)
      requires mono != out && chunk <= mono.Length && offset + chunk <= frames && out.Length == Cells(frames, channels)
      requires Cells(offset, channels) <= out.Length
      modifies out
      ensures Cells(offset + chunk, channels) <= out.Length
      ensures out[..Cells(offset + chunk, channels)] ==
              old(out[..Cells(offset, channels)]) + Interleaved(mono[..chunk], channels)
    {
      for f := 0 to chunk
        invariant Cells(offset + f, channels) <= out.Length
        invariant out[..Cells(offset + f, channels)] == old(out[..Cells(offset, channels)]) + Interleaved(mono[..f], channels)
        invariant mono[..] == old(mono[..])
      {
        CellsMonotone(offset + f + 1, frames, channels);
        CellsIsProduct(offset + f, channels);
        WriteFrame(out, (offset + f) * channels, channels, mono[f]);
        assert mono[..f + 1][..f] == mono[..f];
      }
    }

    /** One frame: the same sample on every channel. */
    method WriteFrame(out: array<Sample>, base: nat, channels: nat, sample: Sample)
      requires base + channels <= out.Length
      modifies out
      ensures out[..base + channels] == old(out[..base]) + Repeat(sample, channels)
    {
      for c := 0 to channels
        invariant forall k :: base <= k < base + c ==> out[k] == sample
        invariant forall k :: 0 <= k < base ==> out[k] == old(out[k])
      {
        out[base + c] := sample;
      }
    }

    // -------------------------------------------------------------------------
    // The slot table

    /** The two searches shared by the packet and volume entry points: the user's slot, or else a free one. */
    method FindSlot(user: uint32) returns (k: nat)
      requires Valid()
      ensures k == SlotFor(table.slots, user)
    {
      ghost var slots := table.slots;
      k := 1;
      while k < MAX_PEERS && !(peers[k].isActive && peers[k].userId == user)
        invariant 1 <= k <= MAX_PEERS && FindUser(slots, user, 1) == FindUser(slots, user, k)
      {
        assert peers[k].View() == slots[k];
        k := k + 1;
      }
      if k < MAX_PEERS {
        assert peers[k].View() == slots[k];
        return;
      }
      k := 1;
      while k < MAX_PEERS && peers[k].isActive
        invariant 1 <= k <= MAX_PEERS && FindFree(slots, 1) == FindFree(slots, k)
      {
        assert peers[k].View() == slots[k];
        k := k + 1;
      }
      assert k < MAX_PEERS ==> peers[k].View() == slots[k];
    }

    /** Only slot k's storage may differ from before. */
    twostate predicate OnlySlot(k: nat)
      reads this, peers, rings, buffers, captureRing, captureRing.buffer
    {
      old(Linked()) && Linked() && captureRing.contents == old(captureRing.contents) &&
      forall j :: 0 <= j < MAX_PEERS && j != k ==> peers[j].View() == old(peers[j].View())
    }

    /** Takes a free slot over for a user, with empty indices. */
    method Claim(k: nat, user: uint32, volume: real)
      requires Linked() && k < MAX_PEERS
      modifies peers[k], peers[k].ring
      ensures OnlySlot(k)
      ensures peers[k].View() == Claimed(old(peers[k].View()), user, volume)
    {
      var peer := peers[k];
      if !peer.isActive {
        peer.userId := user;
        peer.isActive := true;
        peer.userVolume := volume;
        peer.ring.Reset();
      }
    }

    method Fill(k: nat, samples: seq<Sample>)
      requires Linked() && k < MAX_PEERS
      modifies peers[k].ring, peers[k].ring.buffer
      ensures OnlySlot(k)
      ensures peers[k].View() == old(peers[k].View()).(queue := PushedAll(old(peers[k].View()).queue, samples))
    {
      peers[k].ring.PushAll(samples);
    }

    /** A packet's effect on the slot found for it. */
    method FeedSlot(k: nat, p: Inbound)
      requires Linked() && k < MAX_PEERS
      modifies peers[k], peers[k].ring, peers[k].ring.buffer
      ensures OnlySlot(k)
      ensures peers[k].View() == FedSlot(old(peers[k].View()), p)
    {
      Claim(k, p.sender, 1.0);
      peers[k].isSpeaking := p.vad;
      Fill(k, p.samples);
    }

    /** voice_engine_feed_inbound_packet; `heard` is what the speaking callback, if one is registered, is told. */
    method FeedInboundPacket(packet: seq<byte>) returns (heard: Option<Inbound>)
      requires Valid()
      modifies peers, rings, buffers, this`table
      ensures Valid() && table == PeerTable.Apply(old(table), PeerTable.Op.Feed(packet))
      ensures captureRing.contents == old(captureRing.contents)
      ensures heard == ParseInbound(packet)
    {
      heard := ParseInbound(packet);
      if heard.Some? {
        Deliver(heard.value);
      }
    }

    /** Buffers the samples of a parsed packet in its sender's slot. */
    method Deliver(p: Inbound)
      requires Valid()
      modifies peers, rings, buffers, this`table
      ensures Valid() && table == old(table).(slots := AfterFeed(old(table).slots, p))
      ensures captureRing.contents == old(captureRing.contents)
    {
      var k := FindSlot(p.sender);
      if k < MAX_PEERS {
        ghost var slots := table.slots[k := FedSlot(table.slots[k], p)];
        FeedSlot(k, p);
        table := table.(slots := slots);
      }
    }

    method AdjustSlot(k: nat, user: uint32, volume: real)
      requires Linked() && k < MAX_PEERS
      modifies peers[k], peers[k].ring
      ensures OnlySlot(k)
      ensures peers[k].View() == Claimed(old(peers[k].View()), user, volume).(volume := volume)
    {
      Claim(k, user, volume);
      peers[k].userVolume := volume;
    }

    /** voice_engine_set_user_volume */
    method SetUserVolume(user: uint32, volume: real)
      requires Valid()
      modifies peers, rings, this`table
      ensures Valid() && table == PeerTable.Apply(old(table), PeerTable.Op.SetVolume(user, volume))
      ensures captureRing.contents == old(captureRing.contents)
    {
      if user != 0 {
        var k := FindSlot(user);
        if k < MAX_PEERS {
          ghost var slots := table.slots[k := Claimed(table.slots[k], user, volume).(volume := volume)];
          AdjustSlot(k, user, volume);
          table := table.(slots := slots);
        }
      }
    }

    method ResetSlot(k: nat)
      requires Linked() && k < MAX_PEERS
      modifies peers[k], peers[k].ring
      ensures OnlySlot(k) && peers[k].View() == BLANK_SLOT
    {
      var peer := peers[k];
      peer.userId, peer.isActive, peer.isSpeaking, peer.userVolume := 0, false, false, 1.0;
      peer.ring.Reset();
    }

    /** voice_engine_clear_peers */
    method ClearPeers()
      requires Valid()
      modifies peers, rings, this`table, this`micTestLoopback
      ensures Valid() && table == Apply(old(table), PeerTable.Op.Clear)
      ensures captureRing.contents == old(captureRing.contents)
    {
      micTestLoopback := false;
      for i := 0 to MAX_PEERS
        invariant Linked() && captureRing.contents == old(captureRing.contents) && !micTestLoopback
        invariant forall j :: 0 <= j < i ==> peers[j].View() == BLANK_SLOT
      {
        ResetSlot(i);
      }
      table := Blank();
    }

    /** voice_engine_set_mic_test_loopback; switching it on starts capture and playback. */
    method SetMicTestLoopback(enabled: bool)
      requires Valid()
      modifies peers, rings, this`table, this`micTestLoopback, this`capturing, this`playing
      ensures Valid() && table == Apply(old(table), PeerTable.Op.SetLoopback(enabled))
      ensures MicView() == if enabled then Capture.Apply(meter, old(MicView()), Capture.SetCapturing(true)) else old(MicView())
      ensures playing == (old(playing) || enabled)
    {
      micTestLoopback := enabled;
      if enabled {
        capturing, playing := true, true;
        table := table.(loopback := true);
      } else {
        table := table.(loopback := false);
        ClearLoopback();
      }
    }

    /** The loopback slot's fields back to those of a blank slot. */
    method ClearLoopback()
      requires Valid()
      modifies peers[0], peers[0].ring, this`table
      ensures Valid() && table == old(table).(slots := old(table).slots[0 := BLANK_SLOT])
      ensures captureRing.contents == old(captureRing.contents)
    {
      ghost var slots := table.slots[0 := BLANK_SLOT];
      ResetSlot(0);
      table := table.(slots := slots);
    }

    // -------------------------------------------------------------------------
    // The microphone

    /** ma_capture_callback: one sample of the ring for each frame of the device buffer. */
    method CaptureCallback(input: seq<Sample>, frames: nat, deviceChannels: nat)
      requires Valid()
      requires |input| == Cells(frames, if deviceChannels > 0 then deviceChannels else 1)
      modifies captureRing`writeIdx, captureRing`contents, captureRing.buffer
      ensures Valid()
      ensures var mono := Capture.Downmix(input, if deviceChannels > 0 then deviceChannels else 1);
        MicView() == Capture.Apply(meter, old(MicView()), Capture.Deliver(mono))
    {
      var channels := if deviceChannels > 0 then deviceChannels else 1;
      if !capturing {
        return;
      }
      DownmixInto(captureRing, input, frames, channels);
    }

    /** The loop of the callback. */
    method DownmixInto(ring: Ring, input: seq<Sample>, frames: nat, channels: nat)
      requires ring.Valid() && channels > 0 && |input| == Cells(frames, channels)
      modifies ring`writeIdx, ring`contents, ring.buffer
      ensures ring.Valid() && ring.contents == PushedAll(old(ring.contents), Capture.Downmix(input, channels))
    {
      for i := 0 to frames
        invariant ring.Valid() && Cells(i, channels) <= |input|
        invariant ring.contents == PushedAll(old(ring.contents), Capture.Downmix(input[..Cells(i, channels)], channels))
      {
        CellsMonotone(i + 1, frames, channels);
        CellsIsProduct(i, channels);
        var sample := Average(input, i * channels, channels);
        ring.Push(sample);
        AppendFrame(old(ring.contents), input, Cells(i, channels), channels);
      }
      assert input[..|input|] == input;
    }

    /** The mono and the multi-channel branch for one frame of the device buffer. */
    method Average(input: seq<Sample>, base: nat, channels: nat) returns (sample: Sample)
      requires channels > 0 && base + channels <= |input|
      ensures sample == Capture.DownmixFrame(input[base..base + channels])
    {
      if channels == 1 {
        sample := input[base];
        assert input[base..base + 1] == [sample];
        Capture.AverageBetween([sample], sample, sample);
      } else {
        var mixed: int := 0;
        for c := 0 to channels
          invariant mixed == Capture.SumOf(input[base..base + c])
        {
          assert input[base..base + c + 1][..c] == input[base..base + c];
          mixed := mixed + input[base + c];
        }
        sample := Capture.ToSample(Capture.Quotient(mixed, channels));
      }
    }

    static lemma AppendFrame(q: seq<Sample>, input: seq<Sample>, base: nat, channels: nat)
      requires channels > 0 && base + channels <= |input|
      ensures PushedAll(q, Capture.Downmix(input[..base + channels], channels)) ==
              Pushed(PushedAll(q, Capture.Downmix(input[..base], channels)), Capture.DownmixFrame(input[base..base + channels]))
    {
      assert input[..base + channels] == input[..base] + input[base..base + channels];
      Capture.DownmixAppend(input[..base], input[base..base + channels], channels);
    }

    /** voice_engine_capture_frame: the next 20 ms of the microphone with its level, speech mark and energy. */
    method CaptureFrame(out: array<Sample>, maxLen: nat) returns (written: nat, level: real, speaking: bool, energy: byte)
      requires Valid() && Outside(out) && maxLen <= 2 * out.Length
      modifies out, captureRing`readIdx, captureRing`contents, this`hangoverMsLeft
      modifies peers[0], peers[0].ring, peers[0].ring.buffer, this`table
      ensures Valid()
      ensures maxLen < 2 * SAMPLES_PER_FRAME ==>
        written == 0 && table == old(table) && MicView() == old(MicView()) && out[..] == old(out[..])
      ensures maxLen >= 2 * SAMPLES_PER_FRAME ==>
        var before, loopback := old(MicView()), micTestLoopback;
        && written == 2 * SAMPLES_PER_FRAME
        && MicView() == Capture.Apply(meter, before, Capture.Take(loopback))
        && Capture.Frame(out[..SAMPLES_PER_FRAME], level, speaking, energy) == Capture.FrameOf(meter, before, loopback)
        && out[SAMPLES_PER_FRAME..] == old(out[SAMPLES_PER_FRAME..])
        && table == if Capture.Voiced(before, loopback) then Apply(old(table), LoopFrame(out[..SAMPLES_PER_FRAME]))
                    else old(table)
    {
      written, level, speaking, energy := 0, Capture.SILENT_DB, false, 0;
      if maxLen < 2 * SAMPLES_PER_FRAME {
        return;
      }
      written := 2 * SAMPLES_PER_FRAME;
      if (!capturing && !micTestLoopback) || localMuted || captureRing.Available() < SAMPLES_PER_FRAME {
        level, speaking, energy := AnswerSilence(out);
      } else {
        level, speaking, energy := AnswerVoice(out);
      }
    }

    /** The answers without hardware samples: idle, muted, or short of samples, which also ends the hangover. */
    method AnswerSilence(out: array<Sample>) returns (level: real, speaking: bool, energy: byte)
      requires Valid() && Outside(out) && out.Length >= SAMPLES_PER_FRAME && !Capture.Voiced(MicView(), micTestLoopback)
      modifies out, this`hangoverMsLeft
      ensures Valid()
      ensures MicView() == Capture.Apply(meter, old(MicView()), Capture.Take(micTestLoopback))
      ensures Capture.Frame(out[..SAMPLES_PER_FRAME], level, speaking, energy) ==
              Capture.FrameOf(meter, old(MicView()), micTestLoopback)
      ensures out[SAMPLES_PER_FRAME..] == old(out[SAMPLES_PER_FRAME..])
    {
      Silence(out, SAMPLES_PER_FRAME);
      level, speaking, energy := Capture.SILENT_DB, false, 0;
      if (capturing || micTestLoopback) && !localMuted {
        hangoverMsLeft := 0;
      }
    }

    /** The answer with hardware samples, routed to slot 0 as well during the microphone test. */
    method AnswerVoice(out: array<Sample>) returns (level: real, speaking: bool, energy: byte)
      requires Valid() && Outside(out) && out.Length >= SAMPLES_PER_FRAME && Capture.Voiced(MicView(), micTestLoopback)
      modifies out, captureRing`readIdx, captureRing`contents, this`hangoverMsLeft
      modifies peers[0], peers[0].ring, peers[0].ring.buffer, this`table
      ensures Valid()
      ensures MicView() == Capture.Apply(meter, old(MicView()), Capture.Take(micTestLoopback))
      ensures Capture.Frame(out[..SAMPLES_PER_FRAME], level, speaking, energy) ==
              Capture.FrameOf(meter, old(MicView()), micTestLoopback)
      ensures out[SAMPLES_PER_FRAME..] == old(out[SAMPLES_PER_FRAME..])
      ensures table == Apply(old(table), LoopFrame(out[..SAMPLES_PER_FRAME]))
    {
      level, speaking, energy := Analyse(out);
      if micTestLoopback {
        LoopBack(out);
      }
    }

    /** Takes a frame of hardware samples and determines its level, speech mark and energy. */
    method Analyse(out: array<Sample>) returns (level: real, speaking: bool, energy: byte)
      requires Valid() && Outside(out) && out.Length >= SAMPLES_PER_FRAME && Capture.Voiced(MicView(), micTestLoopback)
      modifies out, captureRing`readIdx, captureRing`contents, this`hangoverMsLeft
      ensures Valid()
      ensures MicView() == Capture.Apply(meter, old(MicView()), Capture.Take(micTestLoopback))
      ensures Capture.Frame(out[..SAMPLES_PER_FRAME], level, speaking, energy) ==
              Capture.FrameOf(meter, old(MicView()), micTestLoopback)
      ensures out[SAMPLES_PER_FRAME..] == old(out[SAMPLES_PER_FRAME..])
    {
      PopFrame(captureRing, out);
      var power := Power(out);
      level := Capture.Level(meter, power);
      speaking := Detect(level);
      energy := Capture.Energy(level);
    }

    /** Moves one frame from the ring to the buffer. */
    method PopFrame(ring: Ring, out: array<Sample>)
      requires ring.Valid() && |ring.contents| >= SAMPLES_PER_FRAME && out.Length >= SAMPLES_PER_FRAME && out != ring.buffer
      modifies out, ring`readIdx, ring`contents
      ensures ring.Valid() && ring.contents == old(ring.contents)[SAMPLES_PER_FRAME..]
      ensures out[..SAMPLES_PER_FRAME] == old(ring.contents)[..SAMPLES_PER_FRAME]
      ensures out[SAMPLES_PER_FRAME..] == old(out[SAMPLES_PER_FRAME..])
    {
      ghost var q := ring.contents;
      for i := 0 to SAMPLES_PER_FRAME
        invariant ring.Valid() && ring.contents == q[i..]
        invariant forall k :: 0 <= k < i ==> out[k] == q[k]
        invariant forall k :: SAMPLES_PER_FRAME <= k < out.Length ==> out[k] == old(out[k])
      {
        var x := ring.Pop();
        out[i] := x;
      }
    }

    /** The sum of squares of a frame. */
    method Power(out: array<Sample>) returns (sum: nat)
      requires out.Length >= SAMPLES_PER_FRAME
      ensures sum == Capture.SumOfSquares(out[..SAMPLES_PER_FRAME])
    {
      sum := 0;
      for i := 0 to SAMPLES_PER_FRAME
        invariant sum == Capture.SumOfSquares(out[..i])
      {
        assert out[..i + 1][..i] == out[..i];
        sum := sum + Capture.Square(out[i]);
      }
    }

    /** Voice activation with hangover, or push to talk. */
    method Detect(level: real) returns (speaking: bool)
      modifies this`hangoverMsLeft
      ensures var e := if vadMode then Hangover.Detect(level >= vadThreshold) else Hangover.Skip;
        hangoverMsLeft == Hangover.Step(meter.hangover, old(hangoverMsLeft), e).0 &&
        speaking == if vadMode then Hangover.Step(meter.hangover, old(hangoverMsLeft), e).1 else pttPressed
    {
      if vadMode {
        if level >= vadThreshold {
          speaking, hangoverMsLeft := true, meter.hangover;
        } else if hangoverMsLeft >= 20 {
          speaking, hangoverMsLeft := true, hangoverMsLeft - 20;
        } else {
          speaking, hangoverMsLeft := false, 0;
        }
      } else {
        speaking := pttPressed;
      }
    }

    /** Routes the captured frame to slot 0. */
    method LoopBack(out: array<Sample>)
      requires Valid() && Outside(out) && out.Length >= SAMPLES_PER_FRAME && micTestLoopback
      modifies peers[0], peers[0].ring, peers[0].ring.buffer, this`table
      ensures Valid() && table == Apply(old(table), LoopFrame(out[..SAMPLES_PER_FRAME]))
      ensures captureRing.contents == old(captureRing.contents)
    {
      ghost var slots := AfterLoopFrame(table.slots, out[..SAMPLES_PER_FRAME]);
      FillLoopback(out[..SAMPLES_PER_FRAME]);
      table := table.(slots := slots);
    }

    method FillLoopback(samples: seq<Sample>)
      requires Linked()
      modifies peers[0], peers[0].ring, peers[0].ring.buffer
      ensures OnlySlot(0)
      ensures peers[0].View() ==
        old(peers[0].View()).(userId := LOOPBACK_USER, active := true, volume := 1.0,
                              queue := PushedAll(old(peers[0].View()).queue, samples))
    {
      peers[0].userId, peers[0].isActive, peers[0].userVolume := LOOPBACK_USER, true, 1.0;
      Fill(0, samples);
    }

    /** voice_engine_start_capture and voice_engine_stop_capture, without the device. */
    method SetCapturing(on: bool)
      modifies this`capturing
      ensures MicView() == Capture.Apply(meter, old(MicView()), Capture.SetCapturing(on))
    {
      capturing := on;
    }

    /** voice_engine_start_playback and voice_engine_stop_playback, without the device. */
    method SetPlaying(on: bool)
      modifies this`playing
      ensures playing == on && MicView() == old(MicView())
    {
      playing := on;
    }

    /** voice_engine_set_local_deafen */
    method SetLocalDeafen(on: bool)
      modifies this`localDeafened
      ensures localDeafened == on && MicView() == old(MicView())
    {
      localDeafened := on;
    }

    /** voice_engine_set_local_mute */
    method SetLocalMute(on: bool)
      modifies this`localMuted
      ensures MicView() == Capture.Apply(meter, old(MicView()), Capture.SetMuted(on))
    {
      localMuted := on;
    }

    /** voice_engine_set_ptt_state */
    method SetPttState(pressed: bool)
      modifies this`pttPressed
      ensures MicView() == Capture.Apply(meter, old(MicView()), Capture.SetPressed(pressed))
    {
      pttPressed := pressed;
    }

    /** voice_engine_set_vad_mode */
    method SetVadMode(enabled: bool, thresholdDb: real)
      modifies this`vadMode, this`vadThreshold
      ensures MicView() == Capture.Apply(meter, old(MicView()), Capture.SetVad(enabled, thresholdDb))
    {
      vadMode, vadThreshold := enabled, thresholdDb;
    }
  }
}
