/**
The datagram router (backend/internal/audio/router.go) over the mutable session table.  The calls a handler makes to
the packet writer and to the speaking-state notifier are returned, in order, as `sent` and `notices`.
*/
module Router {
  import opened Basics
  import opened SessionIndex
  import opened Handlers
  import opened PacketCodec
  import opened SessionManager

  /** One call of the packet writer. */
  datatype Sent = Sent(addr: Address, bytes: seq<byte>)

  /** One speaking-state notice to the control plane. */
  datatype Notice = Notice(channel: uint32, user: uint32, speaking: bool, energy: byte)

  ghost function AddressOf(s: State<Session>, r: Session): Address {
    if Get(s, r).addr.Some? then Get(s, r).addr.value else ""
  }

  /** The writes of a datagram to a list of sessions. */
  ghost function Deliveries(s: State<Session>, targets: seq<Session>, raw: seq<byte>): seq<Sent> {
    seq(|targets|, i requires 0 <= i < |targets| => Sent(AddressOf(s, targets[i]), raw))
  }

  /** Each target gets one copy of the bytes at the address it has. */
  lemma DeliveredExactly(s: State<Session>, targets: seq<Session>, raw: seq<byte>)
    ensures var sent := Deliveries(s, targets, raw);
      && |sent| == |targets|
      && forall i :: 0 <= i < |targets| ==>
           sent[i].bytes == raw && (Get(s, targets[i]).addr.Some? ==> Get(s, targets[i]).addr == Some(sent[i].addr))
  {
  }

  /** The control plane is told when the speaking bit flips or the level moves by three steps or more. */
  function NoticeOf(before: Info, p: Fields): seq<Notice> {
    if before.isSpeaking != p.vad || p.energy >= before.energyLevel + 3 || p.energy + 3 <= before.energyLevel
    then [Notice(p.channelId, p.senderId, p.vad, p.energy)] else []
  }

  function VoiceOf(p: Fields, src: Address): Voice {
    Voice(p.senderId, p.channelId, p.vad, p.energy, src)
  }

  class Router {
    const sessions: SessionManager
    const hasWriter: bool
    const hasNotifier: bool

    /** strings.TrimSpace(string(payload)) */
    const tokenText: seq<byte> -> string

    constructor (sessions: SessionManager, hasWriter: bool, hasNotifier: bool, tokenText: seq<byte> -> string)
      ensures this.sessions == sessions && this.hasWriter == hasWriter && this.hasNotifier == hasNotifier
      ensures this.tokenText == tokenText
    {
      this.sessions := sessions;
      this.hasWriter := hasWriter;
      this.hasNotifier := hasNotifier;
      this.tokenText := tokenText;
    }

    /**
    Forwards a voice datagram.  When it is accepted, `targets` lists the recipients, each once, and every one of them
    gets the bytes as received; otherwise nothing is written.
    */
    method HandleVoice(p: Fields, raw: seq<byte>, src: Address, now: int)
      returns (err: Option<AudioError>, sent: seq<Sent>, notices: seq<Notice>, ghost targets: seq<Session>)
      requires sessions.Valid()
      modifies sessions`byAddr, sessions.Live(p.senderId)
      ensures sessions.Valid()
      ensures err == VoiceError(old(sessions.Abs()), VoiceOf(p, src))
      ensures sessions.Abs() == AfterVoice(old(sessions.Abs()), VoiceOf(p, src), now)
      ensures err.Some? || !hasWriter ==> targets == []
      ensures err.None? && hasWriter ==> Enumerates(targets, Recipients(sessions.Abs(), p.channelId, p.senderId))
      ensures err.None? && hasWriter && Partition(old(sessions.Abs())) ==>
        Enumerates(targets, FlatScan(old(sessions.Abs()), p.channelId, p.senderId))
      ensures sent == Deliveries(sessions.Abs(), targets, raw)
      ensures notices ==
        if err.None? && hasNotifier then NoticeOf(InfoOf(old(sessions.Abs()), p.senderId), p) else []
    {
      ghost var s, v := sessions.Abs(), VoiceOf(p, src);
      sent, notices, targets := [], [], [];
      err := Admit(p, src, now);
      if err.None? {
        sent, notices, targets := Relay(p, raw, now);
        if Partition(s) {
          VoiceReachesFlatScan(s, v, now);
        }
      }
    }

    /** The accepted part of the voice path: speaking state, then one write per recipient. */
    method Relay(p: Fields, raw: seq<byte>, now: int)
      returns (sent: seq<Sent>, notices: seq<Notice>, ghost targets: seq<Session>)
      requires sessions.Valid() && p.senderId in sessions.byUser
      modifies sessions.Live(p.senderId)
      ensures sessions.Valid()
      ensures sessions.Abs() ==
        Apply(old(sessions.Abs()), UpdateSpeakingState(old(sessions.byUser[p.senderId]), p.vad, p.energy, now))
      ensures hasWriter ==> Enumerates(targets, Recipients(sessions.Abs(), p.channelId, p.senderId))
      ensures !hasWriter ==> targets == []
      ensures sent == Deliveries(sessions.Abs(), targets, raw)
      ensures notices == if hasNotifier then NoticeOf(InfoOf(old(sessions.Abs()), p.senderId), p) else []
    {
      sent, notices, targets := [], [], [];
      var session := sessions.byUser[p.senderId];
      assert session in sessions.known by { assert p.senderId in sessions.Abs().byUser; }
      assert InfoOf(sessions.Abs(), p.senderId) == session.View();
      var changed := sessions.Speak(session, p.vad, p.energy, now);
      if changed {
        if hasNotifier {
          notices := [Notice(p.channelId, p.senderId, p.vad, p.energy)];
        }
      }
      var peers := sessions.GetChannelPeers(p.channelId, p.senderId);
      if |peers| != 0 && hasWriter {
        sent, targets := Forward(peers, raw);
      }
      assert forall r :: r in peers ==> Get(sessions.Abs(), r) == r.View();
    }

    /** The loop over peers: skips the deafened, writes to the others. */
    method Forward(peers: seq<Session>, raw: seq<byte>) returns (sent: seq<Sent>, ghost targets: seq<Session>)
      requires Distinct(peers) && forall r :: r in peers ==> r in sessions.known && r.addr.Some?
      ensures Distinct(targets)
      ensures forall r :: r in targets <==> r in peers && !r.serverDeafened
      ensures sent == Deliveries(sessions.Abs(), targets, raw)
    {
      sent, targets := [], [];
      for i := 0 to |peers|
        invariant Distinct(targets)
        invariant forall r :: r in targets <==> r in peers[..i] && !r.serverDeafened
        invariant sent == Deliveries(sessions.Abs(), targets, raw)
      {
        var peer := peers[i];
        assert peers[..i + 1] == peers[..i] + [peer];
        if !peer.serverDeafened {
          if peer.addr.Some? {
            sent := sent + [Sent(peer.addr.value, raw)];
            targets := targets + [peer];
            assert Get(sessions.Abs(), peer) == peer.View();
          }
        }
      }
      assert peers[..|peers|] == peers;
    }

    /** The gates of the voice path: known sender, right channel, address change, server mute. */
    method Admit(p: Fields, src: Address, now: int) returns (err: Option<AudioError>)
      requires sessions.Valid()
      modifies sessions`byAddr, sessions.Live(p.senderId)
      ensures sessions.Valid()
      ensures err == VoiceError(old(sessions.Abs()), VoiceOf(p, src))
      ensures sessions.Abs() == Roamed(old(sessions.Abs()), VoiceOf(p, src), now)
    {
      ghost var s := sessions.Abs();
      if p.senderId !in sessions.byUser {
        AddressNeverRescues(s, p.senderId, src);
        if src in sessions.byAddr && sessions.byAddr[src].userId == p.senderId {
          // The second lookup, by address, cannot find a sender whom the first one missed.
          assert false;
        }
        return Some(SessionNotFound);
      }
      var session := sessions.byUser[p.senderId];
      assert session in s.heap && s.heap[session] == session.View() by { assert p.senderId in s.byUser; }
      if session.channelId != p.channelId {
        return Some(ChannelMismatch);
      }
      if session.addr.None? || session.addr.value != src {
        sessions.UpdateAddr(p.senderId, Some(src), now);
        assert Get(sessions.Abs(), session) == session.View();
      }
      if session.serverMuted {
        return Some(UserServerMuted);
      }
      return None;
    }

    /** Refreshes the pinging session and answers with a pong; `broken` is whether the writer fails on it. */
    method HandlePing(p: Fields, src: Address, now: int, broken: bool) returns (err: Option<AudioError>, sent: seq<Sent>)
      requires sessions.Valid()
      modifies sessions`byAddr, sessions.known
      ensures sessions.Valid()
      ensures sessions.Abs() == AfterPing(old(sessions.Abs()), p.senderId, src, now)
      ensures sent == if hasWriter && HEADER_SIZE + |p.payload| <= MAX_PACKET_SIZE then [Sent(src, Encoding(Pong(p)))] else []
      ensures err == if sent != [] && broken then Some(WriteFailed) else None
    {
      RefreshTarget(p.senderId, src, now);
      err, sent := None, [];
      if hasWriter {
        err, sent := AnswerPing(p, src, broken);
      }
    }

    /** The pong, encoded into a buffer from the pool, and what the writer says to it. */
    method AnswerPing(p: Fields, src: Address, broken: bool) returns (err: Option<AudioError>, sent: seq<Sent>)
      ensures sent == if HEADER_SIZE + |p.payload| <= MAX_PACKET_SIZE then [Sent(src, Encoding(Pong(p)))] else []
      ensures err == if sent != [] && broken then Some(WriteFailed) else None
    {
      var buf := new byte[MAX_PACKET_SIZE];
      var pong := new Packet();
      pong.magic, pong.version, pong.ptype := MAGIC_BYTE, PROTOCOL_VERSION, TYPE_PONG;
      pong.channelId, pong.sequence, pong.timestamp := p.channelId, p.sequence, p.timestamp;
      pong.payloadLen, pong.payload := |p.payload| % 0x1_0000, p.payload;
      assert pong.View() == Pong(p);
      var written := pong.EncodeInto(buf);
      if written > 0 {
        return if broken then Some(WriteFailed) else None, [Sent(src, buf[..written])];
      }
      return None, [];
    }

    method RefreshTarget(sender: uint32, src: Address, now: int)
      requires sessions.Valid()
      modifies sessions`byAddr, sessions.known
      ensures sessions.Valid()
      ensures sessions.Abs() == AfterPing(old(sessions.Abs()), sender, src, now)
    {
      ghost var s := sessions.Abs();
      var session: Session;
      if sender in sessions.byUser {
        session := sessions.byUser[sender];
      } else if src in sessions.byAddr {
        session := sessions.byAddr[src];
      } else {
        return;
      }
      assert session in s.heap && s.byUser[session.userId] == session by {
        assert sender in s.byUser || src in s.byAddr;
      }
      assert Get(s, session) == session.View();
      if session.addr.None? || session.addr.value != src {
        sessions.UpdateAddr(session.userId, Some(src), now);
      } else {
        sessions.TouchSession(session, now);
      }
    }

    /** Token authentication of an endpoint; `stored` is what the token store answers, if there is one. */
    method HandleHandshake(p: Fields, src: Address, now: int, stored: Option<StoredToken>)
      requires sessions.Valid()
      modifies sessions, sessions.Live(p.senderId)
      ensures sessions.Valid() && p.senderId in sessions.byUser
      ensures sessions.Abs() == AfterHandshake(old(sessions.Abs()), HandshakeOf(p, src, stored), now,
                                               sessions.byUser[p.senderId])
      ensures sessions.byUser[p.senderId] !in old(sessions.known) || sessions.known == old(sessions.known)
    {
      var token := tokenText(p.payload);
      var activated := sessions.ActivatePending(token, p.senderId, p.channelId, Some(src), now);
      if activated.Ok? {
        return;
      }
      if token != "" && stored.Some? {
        if stored.value.userId == p.senderId && stored.value.channelId == p.channelId {
          var session := new Session(p.senderId, p.channelId, stored.value.ssrc, Some(src), now);
          sessions.RegisterSession(session);
          return;
        }
      }
      SeatWithoutToken(p, src, now);
    }

    /** The fallback: moves the session the sender has, or else builds one without an ssrc. */
    method SeatWithoutToken(p: Fields, src: Address, now: int)
      requires sessions.Valid()
      modifies sessions, sessions.Live(p.senderId)
      ensures sessions.Valid() && p.senderId in sessions.byUser
      ensures var s, r := old(sessions.Abs()), sessions.byUser[p.senderId];
        sessions.Abs() ==
          if p.senderId in s.byUser
          then Apply(Apply(s, WriteChannel(s.byUser[p.senderId], p.channelId)), UpdateAddr(p.senderId, Some(src), now))
          else Apply(s, RegisterSession(r, NewInfo(p.senderId, p.channelId, 0, Some(src), now)))
      ensures p.senderId in old(sessions.byUser) ==>
        sessions.byUser == old(sessions.byUser) && sessions.known == old(sessions.known)
      ensures p.senderId !in old(sessions.byUser) ==> sessions.byUser[p.senderId] !in old(sessions.known)
    {
      if p.senderId in sessions.byUser {
        var existing := sessions.byUser[p.senderId];
        assert existing in sessions.known by { assert p.senderId in sessions.Abs().byUser; }
        sessions.AssignChannel(existing, p.channelId);
        sessions.UpdateAddr(p.senderId, Some(src), now);
        return;
      }
      var session := new Session(p.senderId, p.channelId, 0, Some(src), now);
      sessions.RegisterSession(session);
    }

    function HandshakeOf(p: Fields, src: Address, stored: Option<StoredToken>): Handshake {
      Handshake(tokenText(p.payload), p.senderId, p.channelId, src, stored)
    }

    /** Decodes a datagram and hands it to its handler; `broken` is whether the writer fails on a pong. */
    method HandlePacket(data: seq<byte>, src: Address, now: int, stored: Option<StoredToken>, broken: bool)
      returns (err: Option<AudioError>, sent: seq<Sent>, notices: seq<Notice>, ghost targets: seq<Session>)
      requires sessions.Valid()
      modifies sessions, sessions.known
      ensures sessions.Valid()
      ensures DecodeError(data).Some? ==>
        err == DecodeError(data) && sent == [] && notices == [] && sessions.Abs() == old(sessions.Abs())
      ensures DecodeError(data).None? && Decoded(data).ptype == TYPE_VOICE ==>
        var p := Decoded(data); var v := VoiceOf(p, src);
        && err == VoiceError(old(sessions.Abs()), v)
        && sessions.Abs() == AfterVoice(old(sessions.Abs()), v, now)
        && sent == Deliveries(sessions.Abs(), targets, data)
        && (err.Some? || !hasWriter ==> targets == [])
        && (err.None? && hasWriter ==> Enumerates(targets, Recipients(sessions.Abs(), p.channelId, p.senderId)))
        && (err.None? && hasWriter && Partition(old(sessions.Abs())) ==>
             Enumerates(targets, FlatScan(old(sessions.Abs()), p.channelId, p.senderId)))
        && notices == if err.None? && hasNotifier then NoticeOf(InfoOf(old(sessions.Abs()), p.senderId), p) else []
      ensures DecodeError(data).None? && Decoded(data).ptype == TYPE_PING ==>
        && err == (if hasWriter && broken then Some(WriteFailed) else None) && notices == []
        && sent == (if hasWriter then [Sent(src, Encoding(Pong(Decoded(data))))] else [])
        && sessions.Abs() == AfterPing(old(sessions.Abs()), Decoded(data).senderId, src, now)
      ensures DecodeError(data).None? && Decoded(data).ptype == TYPE_PONG ==>
        err == None && sent == [] && notices == [] && sessions.Abs() == old(sessions.Abs())
      ensures DecodeError(data).None? && Decoded(data).ptype == TYPE_HANDSHAKE ==>
        && err == None && sent == [] && notices == [] && Decoded(data).senderId in sessions.byUser
        && sessions.Abs() == AfterHandshake(old(sessions.Abs()), HandshakeOf(Decoded(data), src, stored), now,
                                            sessions.byUser[Decoded(data).senderId])
    {
      sent, notices, targets := [], [], [];
      var pkt := new Packet();
      err := DecodeInto(data, pkt);
      if err.Some? {
        return;
      }
      var p := pkt.View();
      if p.ptype == TYPE_VOICE {
        err, sent, notices, targets := HandleVoice(p, data, src, now);
      } else if p.ptype == TYPE_PING {
        err, sent := HandlePing(p, src, now, broken);
      } else if p.ptype == TYPE_HANDSHAKE {
        HandleHandshake(p, src, now, stored);
      }
    }
  }
}
