/**
The datagram handlers of backend/internal/audio/router.go as functions on the session index, for a handler that runs
undisturbed.  Interleaving.dfy takes the voice handler apart again into its lock sections.
*/
module Handlers {
  import opened Basics
  import opened SessionIndex

  // ---------------------------------------------------------------------------
  // Forwarding: the bucket lookup against a scan of all sessions

  /** The sessions GetChannelPeers returns. */
  ghost function ChannelPeers<R>(s: State<R>, ch: uint32, exclude: uint32): set<R> {
    set u | u in Bucket(s, ch) && u != exclude && Get(s, Bucket(s, ch)[u]).addr.Some? :: Bucket(s, ch)[u]
  }

  /** The destinations of a datagram: the peers that are not deafened. */
  ghost function Recipients<R>(s: State<R>, ch: uint32, sender: uint32): set<R> {
    set r | r in ChannelPeers(s, ch, sender) && !Get(s, r).serverDeafened
  }

  /** The same destinations by looking at every live session in turn. */
  ghost function FlatScan<R>(s: State<R>, ch: uint32, sender: uint32): set<R> {
    set u | u in s.byUser && u != sender && Get(s, s.byUser[u]).channelId == ch &&
            Get(s, s.byUser[u]).addr.Some? && !Get(s, s.byUser[u]).serverDeafened :: s.byUser[u]
  }

  lemma IndexedForwardingIsFlatScan<R>(s: State<R>, ch: uint32, sender: uint32)
    requires Sound(s) && Partition(s)
    ensures Recipients(s, ch, sender) == FlatScan(s, ch, sender)
  {
    forall r ensures r in Recipients(s, ch, sender) <==> r in FlatScan(s, ch, sender) {
      if r in Recipients(s, ch, sender) {
        var u :| u in Bucket(s, ch) && u != sender && Bucket(s, ch)[u] == r;
        assert InBucket(s, ch, u) && LiveIn(s, ch, u);
      }
      if r in FlatScan(s, ch, sender) {
        var u :| u in s.byUser && u != sender && s.byUser[u] == r && Get(s, r).channelId == ch;
        assert LiveIn(s, ch, u) && InBucket(s, ch, u);
      }
    }
  }

  // ---------------------------------------------------------------------------
  // Voice

  datatype Voice = Voice(user: uint32, channel: uint32, speaking: bool, energy: byte, src: Address)

  /** A sender missing from byUser is never found again through his address. */
  lemma AddressNeverRescues<R>(s: State<R>, user: uint32, addr: Address)
    requires Sound(s)
    ensures addr in s.byAddr && Get(s, s.byAddr[addr]).userId == user ==>
              user in s.byUser && s.byUser[user] == s.byAddr[addr]
  {
  }

  /** Why a voice datagram is dropped. */
  ghost function VoiceError<R>(s: State<R>, v: Voice): Option<AudioError> {
    if v.user !in s.byUser then Some(SessionNotFound)
    else if InfoOf(s, v.user).channelId != v.channel then Some(ChannelMismatch)
    else if InfoOf(s, v.user).serverMuted then Some(UserServerMuted)
    else None
  }

  /** The sender follows his new address, muted or not. */
  ghost function Roamed<R>(s: State<R>, v: Voice, now: int): State<R> {
    if LiveIn(s, v.channel, v.user) && InfoOf(s, v.user).addr != Some(v.src) then Readdress(s, v.user, Some(v.src), now)
    else s
  }

  /** The index after a voice datagram: an accepted one also sets the sender's speaking state. */
  ghost function AfterVoice<R>(s: State<R>, v: Voice, now: int): State<R> {
    if VoiceError(s, v).None? then
      Apply(Roamed(s, v, now), UpdateSpeakingState(s.byUser[v.user], v.speaking, v.energy, now))
    else Roamed(s, v, now)
  }

  /** The later state has the same live sessions, and all but one user's are unchanged. */
  ghost predicate OnlyTouches<R>(s: State<R>, t: State<R>, user: uint32) {
    t.byUser == s.byUser && forall u :: u in s.byUser && u != user ==> InfoOf(t, u) == InfoOf(s, u)
  }

  lemma RoamedLocal<R>(s: State<R>, v: Voice, now: int)
    requires Sound(s)
    ensures var t := Roamed(s, v, now); Sound(t) && (Partition(s) ==> Partition(t)) && OnlyTouches(s, t, v.user)
  {
    ReaddressKeeps(s, v.user, Some(v.src), now);
  }

  lemma SpeakingLocal<R>(s: State<R>, v: Voice, now: int)
    requires Sound(s) && v.user in s.byUser
    ensures var t := Apply(s, UpdateSpeakingState(s.byUser[v.user], v.speaking, v.energy, now));
      Sound(t) && (Partition(s) ==> Partition(t)) && OnlyTouches(s, t, v.user)
  {
    ApplyKeeps(s, UpdateSpeakingState(s.byUser[v.user], v.speaking, v.energy, now));
  }

  /** The handler touches nothing but the sender's own session. */
  lemma AfterVoiceLocal<R>(s: State<R>, v: Voice, now: int)
    requires Sound(s)
    ensures var t := AfterVoice(s, v, now);
      Sound(t) && (Partition(s) ==> Partition(t)) && OnlyTouches(s, t, v.user)
  {
    RoamedLocal(s, v, now);
    if VoiceError(s, v).None? {
      SpeakingLocal(Roamed(s, v, now), v, now);
    }
  }

  /**
  In an index whose buckets match, a voice datagram is accepted exactly from an unmuted sender who is live in its
  channel, and goes to exactly the sessions the flat scan of the state before would pick, at their addresses then.
  */
  lemma VoiceReachesFlatScan<R>(s: State<R>, v: Voice, now: int)
    requires Sound(s) && Partition(s)
    ensures VoiceError(s, v).None? <==> LiveIn(s, v.channel, v.user) && !InfoOf(s, v.user).serverMuted
    ensures Recipients(AfterVoice(s, v, now), v.channel, v.user) == FlatScan(s, v.channel, v.user)
    ensures forall r :: r in FlatScan(s, v.channel, v.user) ==> Get(AfterVoice(s, v, now), r) == Get(s, r)
  {
    var t := AfterVoice(s, v, now);
    AfterVoiceLocal(s, v, now);
    IndexedForwardingIsFlatScan(t, v.channel, v.user);
    forall u | u in s.byUser && u != v.user ensures Get(t, s.byUser[u]) == Get(s, s.byUser[u]) {
      assert InfoOf(t, u) == InfoOf(s, u);
    }
  }

  /** Which gate stops a datagram. */
  lemma VoiceRefusals<R>(s: State<R>, v: Voice)
    ensures VoiceError(s, v) == Some(SessionNotFound) <==> v.user !in s.byUser
    ensures VoiceError(s, v) == Some(ChannelMismatch) <==> v.user in s.byUser && !LiveIn(s, v.channel, v.user)
    ensures VoiceError(s, v) == Some(UserServerMuted) <==>
      LiveIn(s, v.channel, v.user) && Get(s, s.byUser[v.user]).serverMuted
    ensures VoiceError(s, v) == None <==> LiveIn(s, v.channel, v.user) && !Get(s, s.byUser[v.user]).serverMuted
  {
  }

  /**
  What a datagram does to its sender: one in the right channel moves him to its source address, even if he is muted;
  an accepted one also records what it says about his speech.  Any other changes nothing.
  */
  lemma VoiceRecorded<R>(s: State<R>, v: Voice, now: int)
    requires Sound(s)
    ensures var t := AfterVoice(s, v, now);
      if !LiveIn(s, v.channel, v.user) then t == s
      else
        var r := s.byUser[v.user];
        && Get(t, r).addr == Some(v.src)
        && (Get(s, r).addr == Some(v.src) || (v.src in t.byAddr && t.byAddr[v.src] == r))
        && Get(t, r) ==
             if Get(s, r).serverMuted then
               if Get(s, r).addr == Some(v.src) then Get(s, r) else Get(s, r).(addr := Some(v.src), lastSeen := now)
             else Get(s, r).(addr := Some(v.src), lastSeen := now, isSpeaking := v.speaking, energyLevel := v.energy)
  {
  }

  // ---------------------------------------------------------------------------
  // Ping

  /** The session a ping refreshes: the sender's, or else the one registered at the source address. */
  ghost function PingTarget<R>(s: State<R>, sender: uint32, src: Address): Option<R> {
    if sender in s.byUser then Some(s.byUser[sender])
    else if src in s.byAddr then Some(s.byAddr[src])
    else None
  }

  /** The lock section by which handlePing refreshes its target, if there is one. */
  ghost function PingOp<R>(s: State<R>, sender: uint32, src: Address, now: int): Option<Op<R>> {
    match PingTarget(s, sender, src)
    case None => None
    case Some(r) =>
      if Get(s, r).addr != Some(src) then Some(UpdateAddr(Get(s, r).userId, Some(src), now)) else Some(Touch(r, now))
  }

  ghost function AfterPing<R>(s: State<R>, sender: uint32, src: Address, now: int): State<R> {
    match PingOp(s, sender, src, now)
    case None => s
    case Some(op) => Apply(s, op)
  }

  /** A ping leaves its target live, stamped now and reachable at the source address, and nobody else changed. */
  lemma PingRefreshes<R>(s: State<R>, sender: uint32, src: Address, now: int)
    requires Sound(s) && PingTarget(s, sender, src).Some?
    ensures var r := PingTarget(s, sender, src).value; var t := AfterPing(s, sender, src, now);
      && Get(t, r) == Get(s, r).(addr := Some(src), lastSeen := now)
      && t.byUser == s.byUser && s.byUser[Get(s, r).userId] == r
      && (Partition(s) ==> Partition(t)) && Sound(t)
      && forall q :: q != r ==> Get(t, q) == Get(s, q)
  {
    ApplyKeeps(s, PingOp(s, sender, src, now).value);
  }

  /** A ping refreshes its sender's session if he has one, or else whichever is registered at the source address. */
  lemma PingReaches<R>(s: State<R>, sender: uint32, src: Address, now: int)
    requires Sound(s)
    ensures var t := AfterPing(s, sender, src, now);
      if sender in s.byUser then InfoOf(t, sender) == InfoOf(s, sender).(addr := Some(src), lastSeen := now)
      else if src in s.byAddr then Get(t, s.byAddr[src]) == Get(s, s.byAddr[src]).(lastSeen := now) && t.byAddr == s.byAddr
      else t == s
  {
  }

  // ---------------------------------------------------------------------------
  // Handshake

  datatype StoredToken = StoredToken(userId: uint32, channelId: uint32, ssrc: uint32)

  datatype Handshake = Handshake(token: string, user: uint32, channel: uint32, src: Address, stored: Option<StoredToken>)

  ghost predicate StoredMatches(h: Handshake) {
    h.token != "" && h.stored.Some? && h.stored.value.userId == h.user && h.stored.value.channelId == h.channel
  }

  /** The three ways a handshake ends: pending token, stored token, or the fallback; obj is the object it may build. */
  ghost function AfterHandshake<R>(s: State<R>, h: Handshake, now: int, obj: R): State<R> {
    if Refusal(s, h.token, h.user, h.channel, now).None? then
      Apply(s, ActivatePending(h.token, h.user, h.channel, Some(h.src), obj, now))
    else
      var t := Refused(s, h.token, now);
      if StoredMatches(h) then
        Apply(t, RegisterSession(obj, NewInfo(h.user, h.channel, h.stored.value.ssrc, Some(h.src), now)))
      else if h.user in t.byUser then
        Apply(Apply(t, WriteChannel(t.byUser[h.user], h.channel)), UpdateAddr(h.user, Some(h.src), now))
      else
        Apply(t, RegisterSession(obj, NewInfo(h.user, h.channel, 0, Some(h.src), now)))
  }

  /** The handshake takes the branch that writes the channel of an existing session directly. */
  ghost predicate FallsBack<R>(s: State<R>, h: Handshake, now: int) {
    Refusal(s, h.token, h.user, h.channel, now).Some? && !StoredMatches(h) && h.user in s.byUser
  }

  /** Changing an address neither repairs nor breaks the buckets. */
  lemma ReaddressBack<R>(s: State<R>, user: uint32, addr: Option<Address>, now: int)
    requires Sound(s)
    ensures Partition(Readdress(s, user, addr, now)) <==> Partition(s)
  {
    var t := Readdress(s, user, addr, now);
    forall ch, u ensures InBucket(t, ch, u) == InBucket(s, ch, u) && LiveIn(t, ch, u) == LiveIn(s, ch, u) {
    }
    assert t.byUser == s.byUser && t.byChannel == s.byChannel;
  }

  /**
  Every handshake leaves its sender live in the channel and at the address it names; it keeps the buckets matching
  exactly when it does not fall back to an existing session of another channel.
  */
  lemma HandshakeSeats<R>(s: State<R>, h: Handshake, now: int, obj: R)
    requires Sound(s) && obj !in s.heap
    ensures var t := AfterHandshake(s, h, now, obj);
      && Sound(t) && LiveIn(t, h.channel, h.user) && InfoOf(t, h.user).addr == Some(h.src)
      && h.src in t.byAddr && t.byAddr[h.src] == t.byUser[h.user]
      && (Partition(s) ==> (Partition(t) <==> FallsBack(s, h, now) ==> InfoOf(s, h.user).channelId == h.channel))
  {
    if Refusal(s, h.token, h.user, h.channel, now).None? {
      ApplyKeeps(s, ActivatePending(h.token, h.user, h.channel, Some(h.src), obj, now));
    } else {
      var t := Refused(s, h.token, now);
      SameIndexes(s, t);
      if StoredMatches(h) {
        ApplyKeeps(t, RegisterSession(obj, NewInfo(h.user, h.channel, h.stored.value.ssrc, Some(h.src), now)));
      } else if h.user in t.byUser {
        var w := Apply(t, WriteChannel(t.byUser[h.user], h.channel));
        ApplyKeeps(t, WriteChannel(t.byUser[h.user], h.channel));
        ApplyKeeps(w, UpdateAddr(h.user, Some(h.src), now));
        ReaddressBack(w, h.user, Some(h.src), now);
      } else {
        ApplyKeeps(t, RegisterSession(obj, NewInfo(h.user, h.channel, 0, Some(h.src), now)));
      }
    }
  }

  /** The token was registered for this user and channel and is still good. */
  ghost predicate PendingGood<R>(s: State<R>, h: Handshake, now: int) {
    && h.token in s.pending && now <= s.pending[h.token].expiresAt
    && s.pending[h.token].userId == h.user && s.pending[h.token].channelId == h.channel
  }

  /** A session that has just been built: nothing muted, nothing said. */
  ghost predicate Fresh(info: Info, user: uint32, channel: uint32, ssrc: uint32, src: Address, now: int) {
    && info.userId == user && info.channelId == channel && info.ssrc == ssrc
    && info.addr == Some(src) && info.lastSeen == now
    && !info.serverMuted && !info.serverDeafened && !info.isSpeaking && info.energyLevel == 0
  }

  lemma Registered<R>(s: State<R>, obj: R, info: Info)
    ensures var t := Attach(DropOld(s, info.userId), obj, info);
      && info.userId in t.byUser && t.byUser[info.userId] == obj && t.heap[obj] == info && t.pending == s.pending
  {
  }

  lemma FellBack<R>(s: State<R>, h: Handshake, now: int)
    requires Sound(s) && h.user in s.byUser
    ensures var t := Apply(Apply(s, WriteChannel(s.byUser[h.user], h.channel)), UpdateAddr(h.user, Some(h.src), now));
      && t.byUser == s.byUser && t.pending == s.pending
      && InfoOf(t, h.user) == InfoOf(s, h.user).(channelId := h.channel, addr := Some(h.src), lastSeen := now)
  {
  }

  /**
  How a handshake ends: with a good token, pending before stored, or without any session the sender gets a new one, with
  the token's ssrc; otherwise his session keeps its flags and only its channel, address and time change.  A pending
  token is used up by success and by expiry alone.
  */
  lemma HandshakeOutcome<R>(s: State<R>, h: Handshake, now: int, obj: R)
    requires Sound(s) && obj !in s.heap
    ensures var t, pending := AfterHandshake(s, h, now, obj), PendingGood(s, h, now);
      var stored := h.token != "" && h.stored.Some? &&
        h.stored.value.userId == h.user && h.stored.value.channelId == h.channel;
      && h.user in t.byUser
      && (if pending || stored || h.user !in s.byUser then
           t.byUser[h.user] == obj && Fresh(t.heap[obj], h.user, h.channel,
             if pending then s.pending[h.token].ssrc else if stored then h.stored.value.ssrc else 0, h.src, now)
         else
           t.byUser[h.user] == s.byUser[h.user] &&
           InfoOf(t, h.user) == InfoOf(s, h.user).(channelId := h.channel, addr := Some(h.src), lastSeen := now))
      && t.pending ==
           (if pending || (h.token in s.pending && now > s.pending[h.token].expiresAt) then s.pending - {h.token}
            else s.pending)
  {
    if PendingGood(s, h, now) {
      var pt := s.pending[h.token];
      Registered(s.(pending := s.pending - {h.token}), obj, NewInfo(h.user, h.channel, pt.ssrc, Some(h.src), now));
    } else {
      var u := Refused(s, h.token, now);
      SameIndexes(s, u);
      if StoredMatches(h) {
        Registered(u, obj, NewInfo(h.user, h.channel, h.stored.value.ssrc, Some(h.src), now));
      } else if h.user in s.byUser {
        FellBack(u, h, now);
      } else {
        Registered(u, obj, NewInfo(h.user, h.channel, 0, Some(h.src), now));
      }
    }
  }

  /**
  After a handshake that built a session, the sender's voice in that channel is accepted, and he is among those whom
  everybody else's voice there reaches.
  */
  lemma HandshakeAdmits<R>(s: State<R>, h: Handshake, now: int, obj: R, v: Voice, other: uint32)
    requires Sound(s) && obj !in s.heap && (PendingGood(s, h, now) || StoredMatches(h) || h.user !in s.byUser)
    requires v.user == h.user && v.channel == h.channel && other != h.user
    ensures var t := AfterHandshake(s, h, now, obj);
      VoiceError(t, v) == None && t.byUser[h.user] in FlatScan(t, h.channel, other)
  {
    HandshakeOutcome(s, h, now, obj);
  }

  /** The token that an accepted join registers admits its user with its ssrc, until it expires. */
  lemma IssuedTokenAdmits<R>(s: State<R>, h: Handshake, ssrc: uint32, expiresAt: int, now: int, obj: R)
    requires Sound(s) && obj !in s.heap && now <= expiresAt
    ensures var issued := Apply(s, RegisterPending(h.token, h.user, h.channel, ssrc, expiresAt));
      var t := AfterHandshake(issued, h, now, obj);
      && t.byUser[h.user] == obj && Fresh(t.heap[obj], h.user, h.channel, ssrc, h.src, now) && h.token !in t.pending
  {
    HandshakeOutcome(Apply(s, RegisterPending(h.token, h.user, h.channel, ssrc, expiresAt)), h, now, obj);
  }
}
