/**
One frame of speech from microphone to loudspeaker: written out as PCM bytes, encoded, forwarded byte for byte, parsed
by the receiving client and queued as the same samples.
*/
module WireAudio {
  import opened Basics
  import opened Limiter
  import opened RingBuffer
  import opened PeerTable
  import Capture
  import PacketCodec
  import PeerRuns

  /** A sample in memory: two's complement, low byte first. */
  function Pcm(x: Sample): seq<byte> {
    [x % 0x100, x % 0x1_0000 / 0x100]
  }

  function PcmOf(xs: seq<Sample>): (r: seq<byte>)
    ensures |r| == 2 * |xs|
  {
    if xs == [] then [] else PcmOf(xs[..|xs| - 1]) + Pcm(xs[|xs| - 1])
  }

  lemma {:induction false} PcmAt(xs: seq<Sample>, s: nat)
    requires s < |xs|
    ensures [PcmOf(xs)[2 * s], PcmOf(xs)[2 * s + 1]] == Pcm(xs[s])
  {
    if s < |xs| - 1 {
      PcmAt(xs[..|xs| - 1], s);
    }
  }

  /** A sample is read back from its two bytes. */
  lemma SampleRoundTrip(x: Sample, payload: seq<byte>, s: nat)
    requires 2 * s + 1 < |payload| && [payload[2 * s], payload[2 * s + 1]] == Pcm(x)
    ensures SampleAt(payload, s) == x
  {
    assert payload[2 * s] == x % 0x100 && payload[2 * s + 1] == x % 0x1_0000 / 0x100;
  }

  lemma SampleBack(xs: seq<Sample>, s: nat)
    requires s < |xs|
    ensures SampleAt(PcmOf(xs), s) == xs[s]
  {
    PcmAt(xs, s);
    SampleRoundTrip(xs[s], PcmOf(xs), s);
  }

  lemma SamplesRoundTrip(xs: seq<Sample>)
    requires |xs| <= 960
    ensures SamplesOf(PcmOf(xs)) == xs
  {
    var payload := PcmOf(xs);
    SamplesOfAt(payload, |xs|);
    forall s | 0 <= s < |xs| ensures SampleAt(payload, s) == xs[s] {
      SampleBack(xs, s);
    }
  }

  /** The voice packet that carries a captured frame. */
  function VoicePacket(sender: uint32, channel: uint32, sequence: uint16, timestamp: uint32, f: Capture.Frame)
    : PacketCodec.Fields
  {
    PacketCodec.BLANK.(ptype := PacketCodec.TYPE_VOICE, vad := f.speaking, energy := f.energy, senderId := sender,
                       channelId := channel, sequence := sequence, timestamp := timestamp, payload := PcmOf(f.samples))
  }

  lemma VoicePacketDecodes(sender: uint32, channel: uint32, sequence: uint16, timestamp: uint32, f: Capture.Frame)
    requires sender != 0 && |f.samples| <= 960 && f.energy <= 15
    ensures var d := PacketCodec.Encoding(VoicePacket(sender, channel, sequence, timestamp, f));
      && PacketCodec.DecodeError(d).None?
      && var p := PacketCodec.Decoded(d);
      && p.ptype == 0x01 && p.senderId == sender && p.channelId == channel && p.sequence == sequence
      && p.timestamp == timestamp && p.vad == f.speaking && p.energy == f.energy && p.payload == PcmOf(f.samples)
  {
    var p := VoicePacket(sender, channel, sequence, timestamp, f);
    PacketCodec.DecodeOfEncoding(p);
    assert p.payload[..|p.payload|] == p.payload;
  }

  /** The receiving client's reading of the packet. */
  lemma VoicePacketParsed(sender: uint32, channel: uint32, sequence: uint16, timestamp: uint32, f: Capture.Frame)
    requires sender != 0 && |f.samples| <= 960 && f.energy <= 15
    ensures ParseInbound(PacketCodec.Encoding(VoicePacket(sender, channel, sequence, timestamp, f))) ==
            Some(Inbound(sender, f.speaking, f.energy, 2 * |f.samples|, f.samples))
  {
    var d := PacketCodec.Encoding(VoicePacket(sender, channel, sequence, timestamp, f));
    VoicePacketDecodes(sender, channel, sequence, timestamp, f);
    ParsersAgree(d);
    SamplesRoundTrip(f.samples);
    assert PacketCodec.Decoded(d).payloadLen == |PacketCodec.Decoded(d).payload|;
  }

  /**
  Speech goes through unchanged: the datagram that carries a captured frame is accepted by the server, which forwards
  its bytes as they are, and a client that is fed those bytes takes from them the frame's samples and speaking mark.
  */
  lemma FrameHeardUnchanged(sender: uint32, channel: uint32, sequence: uint16, timestamp: uint32, meter: Capture.Meter,
                            m: Capture.Mic, loopback: bool)
    requires sender != 0
    ensures var f := Capture.FrameOf(meter, m, loopback);
      var d := PacketCodec.Encoding(VoicePacket(sender, channel, sequence, timestamp, f));
      && PacketCodec.DecodeError(d).None?
      && ParseInbound(d) == Some(Inbound(sender, f.speaking, f.energy, 1920, f.samples))
      && PeerRuns.FedBy(Feed(d), sender) == f.samples
  {
    var f := Capture.FrameOf(meter, m, loopback);
    Capture.EnergyShape(f.level, f.level);
    VoicePacketDecodes(sender, channel, sequence, timestamp, f);
    VoicePacketParsed(sender, channel, sequence, timestamp, f);
  }
}
