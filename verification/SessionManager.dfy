/**
The session table (backend/internal/audio/session.go) as it is written: session objects shared by three mutable maps.
Each method is one critical section and is proved to perform the matching step of SessionIndex.
*/
module SessionManager {
  import opened Basics
  import opened SessionIndex
  import Handlers

  class Session {
    const userId: uint32
    const ssrc: uint32
    var channelId: uint32
    var addr: Option<Address>
    var lastSeen: int
    var serverMuted: bool
    var serverDeafened: bool
    var isSpeaking: bool
    var energyLevel: byte

    constructor (user: uint32, channel: uint32, ssrc: uint32, addr: Option<Address>, now: int)
      ensures View() == NewInfo(user, channel, ssrc, addr, now)
    {
      this.userId := user;
      this.ssrc := ssrc;
      channelId := channel;
      this.addr := addr;
      lastSeen := now;
      serverMuted, serverDeafened, isSpeaking, energyLevel := false, false, false, 0;
    }

    function View(): Info
      reads this
    {
      Info(userId, channelId, ssrc, addr, lastSeen, serverMuted, serverDeafened, isSpeaking, energyLevel)
    }

    method SetAddr(a: Option<Address>, now: int)
      modifies this
      ensures View() == old(View()).(addr := a, lastSeen := now)
    {
      addr := a;
      lastSeen := now;
    }

    method Touch(now: int)
      modifies this
      ensures View() == old(View()).(lastSeen := now)
    {
      lastSeen := now;
    }

    method SetServerMute(muted: bool)
      modifies this
      ensures View() == old(View()).(serverMuted := muted)
    {
      serverMuted := muted;
    }

    method SetServerDeafen(deafened: bool)
      modifies this
      ensures View() == old(View()).(serverDeafened := deafened)
    {
      serverDeafened := deafened;
    }

    /** Reports whether listeners must be told: speaking flipped, or the level moved by three steps or more. */
    method UpdateSpeakingState(speaking: bool, energy: byte, now: int) returns (changed: bool)
      modifies this
      ensures View() == old(View()).(isSpeaking := speaking, energyLevel := energy, lastSeen := now)
      ensures changed <==> old(isSpeaking) != speaking || energy >= old(energyLevel) + 3 || energy + 3 <= old(energyLevel)
    {
      var diff := energy - energyLevel;
      if diff < 0 {
        diff := -diff;
      }
      changed := isSpeaking != speaking || diff >= 3;
      isSpeaking := speaking;
      energyLevel := energy;
      lastSeen := now;
    }
  }

  /** The fields of a set of session objects. */
  ghost function Views(objects: set<Session>): map<Session, Info>
    reads objects
  {
    map r | r in objects :: r.View()
  }

  class SessionManager {
    var byUser: map<uint32, Session>
    var byAddr: map<Address, Session>
    var byChannel: map<uint32, map<uint32, Session>>
    var pendingTokens: map<string, PendingToken>

    /** Every session object this manager has ever held: handlers may still be using removed ones. */
    ghost var known: set<Session>

    ghost function Abs(): State<Session>
      reads this, known
    {
      State(Views(known), byUser, byAddr, byChannel, pendingTokens)
    }

    ghost predicate Valid()
      reads this, known
    {
      Sound(Abs())
    }

    /** The session object of a live user, as a frame. */
    ghost function Live(user: uint32): set<Session>
      reads this
    {
      if user in byUser then {byUser[user]} else {}
    }

    constructor ()
      ensures Valid() && Abs() == Empty() && known == {}
    {
      byUser, byAddr, byChannel, pendingTokens := map[], map[], map[], map[];
      known := {};
    }

    method RegisterPending(token: string, user: uint32, channel: uint32, ssrc: uint32, expiresAt: int)
      requires Valid()
      modifies this`pendingTokens
      ensures Valid() && Abs() == Apply(old(Abs()), Op.RegisterPending(token, user, channel, ssrc, expiresAt))
    {
      ghost var s := Abs();
      pendingTokens := pendingTokens[token := PendingToken(user, channel, ssrc, expiresAt)];
      ApplyKeeps(s, Op.RegisterPending(token, user, channel, ssrc, expiresAt));
    }

    method ActivatePending(token: string, user: uint32, channel: uint32, addr: Option<Address>, now: int)
      returns (r: Result<Session, AudioError>)
      requires Valid()
      modifies this
      ensures Valid()
      ensures match Refusal(old(Abs()), token, user, channel, now)
        case Some(e) => r == Err(e) && known == old(known) && Abs() == Refused(old(Abs()), token, now)
        case None =>
          && r.Ok? && fresh(r.value) && known == old(known) + {r.value}
          && Abs() == Apply(old(Abs()), Op.ActivatePending(token, user, channel, addr, r.value, now))
    {
      ghost var s := Abs();
      if token !in pendingTokens {
        return Err(UnauthorizedSession);
      }
      var pt := pendingTokens[token];
      if now > pt.expiresAt {
        pendingTokens := pendingTokens - {token};
        SameIndexes(s, Abs());
        return Err(UnauthorizedSession);
      }
      if pt.userId != user || pt.channelId != channel {
        return Err(ChannelMismatch);
      }
      var session := Redeem(token, user, channel, addr, now);
      return Ok(session);
    }

    /** The accepted part: consumes the token and installs the session it stands for. */
    method Redeem(token: string, user: uint32, channel: uint32, addr: Option<Address>, now: int) returns (session: Session)
      requires Valid() && Refusal(Abs(), token, user, channel, now).None?
      modifies this
      ensures Valid() && fresh(session) && known == old(known) + {session}
      ensures Abs() == Apply(old(Abs()), Op.ActivatePending(token, user, channel, addr, session, now))
    {
      ghost var s := Abs();
      var ssrc := pendingTokens[token].ssrc;
      pendingTokens := pendingTokens - {token};
      SameIndexes(s, Abs());
      session := new Session(user, channel, ssrc, addr, now);
      Install(session);
      ApplyKeeps(s, Op.ActivatePending(token, user, channel, addr, session, now));
    }

    /** Registers a session object: one its caller has just built, or one the table holds already. */
    method RegisterSession(session: Session)
      requires Valid()
      modifies this
      ensures Valid() && known == old(known) + {session}
      ensures Abs() == Apply(old(Abs()), Op.RegisterSession(session, session.View()))
    {
      ghost var s := Abs();
      Install(session);
      ApplyKeeps(s, Op.RegisterSession(session, session.View()));
    }

    /** Replaces whatever session the user had: common to both ways of registering. */
    method Install(session: Session)
      requires Valid()
      modifies this`byUser, this`byAddr, this`byChannel, this`known
      ensures known == old(known) + {session}
      ensures Abs() == Attach(DropOld(old(Abs()), session.userId), session, session.View())
    {
      forall u | u in byUser ensures byUser[u] in known { assert u in Abs().byUser; }
      UnlinkPrevious(session.userId);
      Enter(session);
    }

    /** The replacement step shared by both registrations: drops the address and bucket entries of the old session. */
    method UnlinkPrevious(user: uint32)
      requires forall u :: u in byUser ==> byUser[u] in known
      modifies this`byAddr, this`byChannel
      ensures Abs() == DropOld(old(Abs()), user)
    {
      if user in byUser {
        var prev := byUser[user];
        if prev.addr.Some? {
          byAddr := byAddr - {prev.addr.value};
        }
        if prev.channelId in byChannel {
          byChannel := byChannel[prev.channelId := byChannel[prev.channelId] - {user}];
        }
      }
    }

    /** The other half: enters a new session object into the three maps. */
    method Enter(session: Session)
      modifies this`byUser, this`byAddr, this`byChannel, this`known
      ensures known == old(known) + {session}
      ensures Abs() == Attach(old(Abs()), session, session.View())
    {
      ghost var before := Views(known);
      known := known + {session};
      OneEntryDiffers(before, Views(known), session);
      byUser := byUser[session.userId := session];
      if session.addr.Some? {
        byAddr := byAddr[session.addr.value := session];
      }
      AddToBucket(session, session.channelId);
    }

    method AddToBucket(session: Session, channel: uint32)
      modifies this`byChannel
      ensures byChannel == old(byChannel)[channel := BucketIn(old(byChannel), channel)[session.userId := session]]
    {
      ghost var m := byChannel;
      if channel !in byChannel {
        byChannel := byChannel[channel := map[]];
      }
      var bucket: map<uint32, Session> := byChannel[channel];
      byChannel := byChannel[channel := bucket[session.userId := session]];
      UpdateTwice(m, channel, map[], bucket[session.userId := session]);
    }

    /** Takes a user out of a bucket and drops the bucket if that emptied it. */
    method LeaveBucket(user: uint32, channel: uint32)
      modifies this`byChannel
      ensures byChannel == Without(old(byChannel), channel, user)
    {
      if channel in byChannel {
        var bucket: map<uint32, Session> := byChannel[channel];
        bucket := bucket - {user};
        if |bucket| == 0 {
          byChannel := byChannel - {channel};
        } else {
          byChannel := byChannel[channel := bucket];
        }
      }
    }

    method UpdateAddr(user: uint32, addr: Option<Address>, now: int)
      requires Valid()
      modifies this`byAddr, Live(user)
      ensures Valid() && Abs() == Apply(old(Abs()), Op.UpdateAddr(user, addr, now))
    {
      ghost var s := Abs();
      if user in byUser {
        assert byUser[user] in known by { assert user in s.byUser; }
        Rekey(byUser[user], addr, now);
        assert Abs() == Readdress(s, user, addr, now);
      }
      ApplyKeeps(s, Op.UpdateAddr(user, addr, now));
    }

    /** Its critical section for a session that was found: the old key goes, the new one comes. */
    method Rekey(sess: Session, addr: Option<Address>, now: int)
      requires sess in known
      modifies this`byAddr, sess
      ensures var s := old(Abs());
        var trimmed := if s.heap[sess].addr.Some? then s.byAddr - {s.heap[sess].addr.value} else s.byAddr;
        Abs() == s.(heap := s.heap[sess := s.heap[sess].(addr := addr, lastSeen := now)],
                    byAddr := if addr.Some? then trimmed[addr.value := sess] else trimmed)
    {
      ghost var before := Views(known);
      if sess.addr.Some? {
        byAddr := byAddr - {sess.addr.value};
      }
      sess.SetAddr(addr, now);
      if addr.Some? {
        byAddr := byAddr[addr.value := sess];
      }
      OneEntryDiffers(before, Views(known), sess);
    }

    method SetServerMute(user: uint32, muted: bool)
      requires Valid()
      modifies Live(user)
      ensures Valid()
      ensures Abs() == if user in old(Abs()).byUser
        then Apply(old(Abs()), Op.SetServerMute(byUser[user], muted)) else old(Abs())
    {
      ghost var s := Abs();
      if user in byUser {
        var sess := byUser[user];
        assert sess in known by { assert user in s.byUser; }
        sess.SetServerMute(muted);
        OneEntryDiffers(s.heap, Views(known), sess);
        ApplyKeeps(s, Op.SetServerMute(sess, muted));
      }
    }

    method SetServerDeafen(user: uint32, deafened: bool)
      requires Valid()
      modifies Live(user)
      ensures Valid()
      ensures Abs() == if user in old(Abs()).byUser
        then Apply(old(Abs()), Op.SetServerDeafen(byUser[user], deafened)) else old(Abs())
    {
      ghost var s := Abs();
      if user in byUser {
        var sess := byUser[user];
        assert sess in known by { assert user in s.byUser; }
        sess.SetServerDeafen(deafened);
        OneEntryDiffers(s.heap, Views(known), sess);
        ApplyKeeps(s, Op.SetServerDeafen(sess, deafened));
      }
    }

    /** Session.UpdateSpeakingState on a session object a handler holds. */
    method Speak(session: Session, speaking: bool, energy: byte, now: int) returns (changed: bool)
      requires Valid() && session in known
      modifies session
      ensures Valid() && Abs() == Apply(old(Abs()), Op.UpdateSpeakingState(session, speaking, energy, now))
      ensures var prev := old(session.View());
        changed <==> prev.isSpeaking != speaking || energy >= prev.energyLevel + 3 || energy + 3 <= prev.energyLevel
    {
      ghost var s := Abs();
      changed := session.UpdateSpeakingState(speaking, energy, now);
      OneEntryDiffers(s.heap, Views(known), session);
      ApplyKeeps(s, Op.UpdateSpeakingState(session, speaking, energy, now));
    }

    /** Session.Touch on a session object a handler holds. */
    method TouchSession(session: Session, now: int)
      requires Valid() && session in known
      modifies session
      ensures Valid() && Abs() == Apply(old(Abs()), Op.Touch(session, now))
    {
      ghost var s := Abs();
      session.Touch(now);
      OneEntryDiffers(s.heap, Views(known), session);
      ApplyKeeps(s, Op.Touch(session, now));
    }

    /** The handshake fallback's assignment to a session's channel field, which bypasses the buckets. */
    method AssignChannel(session: Session, channel: uint32)
      requires Valid() && session in known
      modifies session`channelId
      ensures Valid() && Abs() == Apply(old(Abs()), Op.WriteChannel(session, channel))
    {
      ghost var s := Abs();
      session.channelId := channel;
      OneEntryDiffers(s.heap, Views(known), session);
      ApplyKeeps(s, Op.WriteChannel(session, channel));
    }

    method MoveMember(user: uint32, toChannel: uint32)
      requires Valid()
      modifies this`byChannel, Live(user)
      ensures Valid() && Abs() == Apply(old(Abs()), Op.MoveMember(user, toChannel))
    {
      ghost var s := Abs();
      if user in byUser {
        Transfer(user, toChannel);
      }
      ApplyKeeps(s, Op.MoveMember(user, toChannel));
    }

    /** Moves a live session from its bucket to another and rewrites its channel. */
    method Transfer(user: uint32, toChannel: uint32)
      requires UserSound(Abs()) && user in byUser
      modifies this`byChannel, Live(user)
      ensures Abs() == Move(old(Abs()), user, toChannel)
    {
      ghost var s := Abs();
      var sess := byUser[user];
      assert sess in known && sess.userId == user by { assert user in s.byUser; }
      LeaveBucket(user, sess.channelId);
      AddToBucket(sess, toChannel);
      sess.channelId := toChannel;
      OneEntryDiffers(s.heap, Views(known), sess);
    }

    method RevokePending(user: uint32)
      requires Valid()
      modifies this`pendingTokens
      ensures Valid() && Abs() == Apply(old(Abs()), Op.RevokePending(user))
    {
      ghost var s := Abs();
      DropTokensOf(user);
      ApplyKeeps(s, Op.RevokePending(user));
    }

    /** The loop over the pending tokens, deleting as it goes. */
    method DropTokensOf(user: uint32)
      modifies this`pendingTokens
      ensures Abs() == Revoke(old(Abs()), user)
    {
      ghost var s := Abs();
      var todo := pendingTokens.Keys;
      while todo != {}
        invariant todo <= s.pending.Keys
        invariant Abs() == s.(pending := pendingTokens)
        invariant forall t :: t in pendingTokens <==> t in s.pending && (t in todo || s.pending[t].userId != user)
        invariant forall t :: t in pendingTokens ==> pendingTokens[t] == s.pending[t]
      {
        var tok :| tok in todo;
        if pendingTokens[tok].userId == user {
          pendingTokens := pendingTokens - {tok};
        }
        todo := todo - {tok};
      }
    }

    /** Takes a live session out of the three maps. */
    method Unlink(user: uint32)
      requires UserSound(Abs()) && user in byUser
      modifies this`byUser, this`byAddr, this`byChannel
      ensures Abs() == Evict(old(Abs()), {user})
    {
      ghost var s := Abs();
      var sess := byUser[user];
      assert sess in known by { assert user in s.byUser; }
      byUser := byUser - {user};
      if sess.addr.Some? {
        byAddr := byAddr - {sess.addr.value};
      }
      LeaveBucket(user, sess.channelId);
      EvictLive(s, user);
    }

    /** Leaving voice or disconnecting: forgets the user's tokens, then his session. */
    method RemoveSession(user: uint32)
      requires Valid()
      modifies this`pendingTokens, this`byUser, this`byAddr, this`byChannel
      ensures Valid() && Abs() == Apply(old(Abs()), Op.RemoveSession(user))
    {
      ghost var s := Abs();
      RevokePending(user);
      ghost var m := Abs();
      assert m == Revoke(s, user);
      if user in byUser {
        Unlink(user);
      } else {
        EvictLive(m, user);
      }
      assert Abs() == Evict(m, {user});
      ApplyKeeps(s, Op.RemoveSession(user));
    }

    /** The destinations of a channel other than one user, each once, in no particular order. */
    method GetChannelPeers(channel: uint32, exclude: uint32) returns (peers: seq<Session>)
      requires Valid()
      ensures (set r | r in peers) == Handlers.ChannelPeers(Abs(), channel, exclude)
      ensures forall r :: r in peers ==> r in known && r.addr.Some?
      ensures forall i, j :: 0 <= i < j < |peers| ==> peers[i] != peers[j]
    {
      peers := [];
      var bucket: map<uint32, Session> := map[];
      if channel in byChannel {
        bucket := byChannel[channel];
      }
      assert forall u :: u in bucket ==> InBucket(Abs(), channel, u) && bucket[u].userId == u;
      ghost var uids: seq<uint32> := [];
      var todo := bucket.Keys;
      while todo != {}
        invariant todo <= bucket.Keys && |uids| == |peers|
        invariant forall i :: 0 <= i < |uids| ==> uids[i] in bucket && uids[i] !in todo && bucket[uids[i]] == peers[i]
        invariant forall i :: 0 <= i < |uids| ==> uids[i] != exclude && peers[i].addr.Some?
        invariant forall u :: u in bucket && u !in todo && u != exclude && bucket[u].addr.Some? ==> u in uids
        invariant forall i, j :: 0 <= i < j < |peers| ==> peers[i] != peers[j]
      {
        var uid :| uid in todo;
        var sess := bucket[uid];
        if uid != exclude && sess.addr.Some? {
          peers := peers + [sess];
          uids := uids + [uid];
        }
        todo := todo - {uid};
      }
      assert bucket == Bucket(Abs(), channel);
      forall r ensures r in peers <==> r in Handlers.ChannelPeers(Abs(), channel, exclude) {
        if r in Handlers.ChannelPeers(Abs(), channel, exclude) {
          var u :| u in bucket && u != exclude && bucket[u] == r && Get(Abs(), r).addr.Some?;
          var i :| 0 <= i < |uids| && uids[i] == u;
          assert peers[i] == r;
        }
      }
    }

    /** Drops every session idle for more than maxIdle and every expired token; returns the dropped users. */
    method CleanStaleSessions(now: int, maxIdle: int) returns (removed: seq<uint32>)
      requires Valid()
      modifies this`pendingTokens, this`byUser, this`byAddr, this`byChannel
      ensures Valid() && Abs() == Apply(old(Abs()), Op.CleanStale(now, maxIdle))
      ensures (set u | u in removed) == StaleUsers(old(Abs()), now, maxIdle)
      ensures forall i, j :: 0 <= i < j < |removed| ==> removed[i] != removed[j]
    {
      ghost var s := Abs();
      removed := DropStale(now, maxIdle);
      DropExpiredTokens(now);
      ApplyKeeps(s, Op.CleanStale(now, maxIdle));
    }

    method DropStale(now: int, maxIdle: int) returns (removed: seq<uint32>)
      requires Valid()
      modifies this`byUser, this`byAddr, this`byChannel
      ensures Abs() == Evict(old(Abs()), StaleUsers(old(Abs()), now, maxIdle))
      ensures (set u | u in removed) == StaleUsers(old(Abs()), now, maxIdle)
      ensures forall i, j :: 0 <= i < j < |removed| ==> removed[i] != removed[j]
    {
      ghost var s, done := Abs(), {};
      EvictNobody(s, {});
      removed := [];
      var todo := byUser.Keys;
      while todo != {}
        invariant todo <= byUser.Keys <= s.byUser.Keys
        invariant done == StaleUsers(s, now, maxIdle) - todo
        invariant forall u :: u in removed <==> u in done
        invariant Abs() == Evict(s, done)
        invariant forall i, j :: 0 <= i < j < |removed| ==> removed[i] != removed[j]
      {
        var uid :| uid in todo;
        var sess := byUser[uid];
        assert uid in StaleUsers(s, now, maxIdle) <==> now - sess.lastSeen > maxIdle by {
          assert uid in s.byUser && sess == s.byUser[uid] && sess in s.heap;
          assert Views(known) == s.heap && sess.View() == s.heap[sess];
        }
        if now - sess.lastSeen > maxIdle {
          removed := removed + [uid];
          Unlink(uid);
          EvictTwice(s, done, uid);
          done := done + {uid};
        }
        todo := todo - {uid};
      }
      assert done == StaleUsers(s, now, maxIdle);
    }

    method DropExpiredTokens(now: int)
      modifies this`pendingTokens
      ensures Abs() == DropExpired(old(Abs()), now)
    {
      ghost var s := Abs();
      var todo := pendingTokens.Keys;
      while todo != {}
        invariant todo <= s.pending.Keys
        invariant Abs() == s.(pending := pendingTokens)
        invariant forall t :: t in pendingTokens <==> t in s.pending && (t in todo || !(now > s.pending[t].expiresAt))
        invariant forall t :: t in pendingTokens ==> pendingTokens[t] == s.pending[t]
      {
        var tok :| tok in todo;
        if now > pendingTokens[tok].expiresAt {
          pendingTokens := pendingTokens - {tok};
        }
        todo := todo - {tok};
      }
    }
  }
}
