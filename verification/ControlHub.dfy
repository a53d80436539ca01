/**
The hub and its voice and moderation handlers over mutable maps and connection objects
(backend/internal/control/hub.go and handler.go), with the audio router attached.
*/
module ControlHub {
  import opened Basics
  import opened HubState
  import HubRuns
  import SI = SessionIndex
  import SM = SessionManager

  /** What the auth service issues for a join; None if it fails. */
  datatype IssuedToken = IssuedToken(token: string, ssrc: uint32, expiresAt: int)

  class Client {
    var userId: uint32
    var isAuthenticated: bool
    var activeVoiceChannel: uint32
    var closed: bool

    constructor ()
      ensures View() == Conn(0, false, 0, false)
    {
      userId, isAuthenticated, activeVoiceChannel, closed := 0, false, 0, false;
    }

    function View(): Conn
      reads this
    {
      Conn(userId, isAuthenticated, activeVoiceChannel, closed)
    }

    method Close()
      modifies this`closed
      ensures closed
    {
      if !closed {
        closed := true;
      }
    }
  }

  /** The fields of a set of connection objects. */
  ghost function Views(objects: set<Client>): map<Client, Conn>
    reads objects
  {
    map c | c in objects :: c.View()
  }

  method AddTo(m: map<uint32, set<Client>>, key: uint32, c: Client) returns (r: map<uint32, set<Client>>)
    ensures r == Insert(m, key, c)
  {
    r := m;
    if key !in r {
      r := r[key := {}];
    }
    var members: set<Client> := r[key];
    UpdateTwice(m, key, {}, members + {c});
    r := r[key := members + {c}];
  }

  method RemoveFrom(m: map<uint32, set<Client>>, key: uint32, c: Client) returns (r: map<uint32, set<Client>>)
    ensures r == Delete(m, key, c)
  {
    r := m;
    if key in r {
      var members: set<Client> := r[key];
      r := r[key := members - {c}];
    }
  }

  method RemoveAndPrune(m: map<uint32, set<Client>>, key: uint32, c: Client) returns (r: map<uint32, set<Client>>)
    ensures r == DeletePruned(m, key, c)
  {
    r := m;
    if key in r {
      var members: set<Client> := r[key] - {c};
      if |members| == 0 {
        r := r - {key};
      } else {
        r := r[key := members];
      }
    }
  }

  class Hub {
    var clients: set<Client>
    var userClients: map<uint32, set<Client>>
    var voiceChannels: map<uint32, set<Client>>
    var voiceStates: map<uint32, VoiceState>
    const audio: SM.SessionManager

    /** Every connection object ever served. */
    ghost var known: set<Client>

    ghost function Abs(): HubState.Hub<Client>
      reads this, known
    {
      HubState.Hub(Views(known), clients, userClients, voiceChannels, voiceStates)
    }

    /** The maps refer to connections that were served. */
    ghost predicate Valid()
      reads this, audio, audio.known
    {
      clients <= known && (forall u :: u in userClients ==> userClients[u] <= known) && audio.Valid()
    }

    constructor (audio: SM.SessionManager)
      requires audio.Valid()
      ensures Valid() && Abs() == Empty() && this.audio == audio
    {
      clients, userClients, voiceChannels, voiceStates := {}, map[], map[], map[];
      this.audio := audio;
      known := {};
    }

    /** ServeWs: a new connection is built and registered. */
    method Connect() returns (c: Client)
      requires Valid()
      modifies this`clients, this`known
      ensures Valid() && fresh(c) && known == old(known) + {c}
      ensures Abs() == Apply(old(Abs()), map[], Op.Connect(c))
    {
      c := new Client();
      ghost var before := Views(known);
      known := known + {c};
      OneEntryDiffers(before, Views(known), c);
      if !c.closed {
        clients := clients + {c};
      }
    }

    /** The map update shared by the register, login and auth handlers once the credentials are accepted. */
    method Authenticate(c: Client, user: uint32)
      requires Valid() && c in clients
      modifies c, this`userClients
      ensures Valid() && Abs() == Apply(old(Abs()), map[], Op.Authenticate(c, user))
    {
      Identify(c, user);
    }

    method Identify(c: Client, user: uint32)
      requires c in known && forall u :: u in userClients ==> userClients[u] <= known
      modifies c, this`userClients
      ensures forall u :: u in userClients ==> userClients[u] <= known
      ensures Abs() == Apply(old(Abs()), map[], Op.Authenticate(c, user))
    {
      ghost var s := Abs();
      c.userId := user;
      c.isAuthenticated := true;
      OneEntryDiffers(s.conns, Views(known), c);
      userClients := AddTo(userClients, user, c);
      assert forall u :: u in userClients && u != user ==> u in s.userClients && userClients[u] == s.userClients[u];
    }

    /** Whether a join is accepted, or else why not. */
    method Verdict(c: Client, catalog: map<uint32, Channel>, permitted: bool, channel: uint32) returns (reply: Reply)
      requires c in known
      ensures reply == JoinReply(Abs(), catalog, c, permitted, channel)
    {
      if !permitted {
        return Forbidden;
      }
      if channel == 0 {
        return InvalidParams;
      }
      if channel !in catalog {
        return ChannelNotFound;
      }
      if !catalog[channel].isVoice {
        return InvalidChannelType;
      }
      if c !in clients || c.closed {
        return Silent;
      }
      var occupants: set<Client> := {};
      if channel in voiceChannels {
        occupants := voiceChannels[channel];
      }
      var limit := catalog[channel].userLimit;
      if limit == 0 {
        limit := DEFAULT_LIMIT;
      }
      if |occupants| >= limit && c !in occupants {
        return ChannelFull;
      }
      return Accepted;
    }

    method JoinVoice(c: Client, catalog: map<uint32, Channel>, permitted: bool, channel: uint32, selfMuted: bool,
                     selfDeafened: bool, issued: Option<IssuedToken>) returns (reply: Reply)
      requires Valid() && c in known
      modifies c`activeVoiceChannel, this`voiceChannels, this`voiceStates, audio`pendingTokens
      ensures Valid()
      ensures var verdict := JoinReply(old(Abs()), catalog, c, permitted, channel);
        reply == if verdict == Accepted && issued.None? then InternalError else verdict
      ensures Abs() ==
        if reply in {Accepted, InternalError} then AfterJoin(old(Abs()), c, channel, selfMuted, selfDeafened) else old(Abs())
      ensures audio.Abs() ==
        if reply == Accepted
        then SI.Apply(old(audio.Abs()), SI.RegisterPending(issued.value.token, c.userId, channel, issued.value.ssrc,
                                                           issued.value.expiresAt))
        else old(audio.Abs())
    {
      reply := Verdict(c, catalog, permitted, channel);
      if reply != Accepted {
        return;
      }
      reply := Admit(c, channel, selfMuted, selfDeafened, issued);
    }

    /** An accepted join: takes the seat, then has a voice token issued. */
    method Admit(c: Client, channel: uint32, selfMuted: bool, selfDeafened: bool, issued: Option<IssuedToken>)
      returns (reply: Reply)
      requires Valid() && c in known
      modifies c`activeVoiceChannel, this`voiceChannels, this`voiceStates, audio`pendingTokens
      ensures Valid() && reply == if issued.None? then InternalError else Accepted
      ensures Abs() == AfterJoin(old(Abs()), c, channel, selfMuted, selfDeafened)
      ensures audio.Abs() ==
        if issued.None? then old(audio.Abs())
        else SI.Apply(old(audio.Abs()), SI.RegisterPending(issued.value.token, c.userId, channel, issued.value.ssrc,
                                                           issued.value.expiresAt))
    {
      Sit(c, channel, selfMuted, selfDeafened);
      assert Valid() && audio.Abs() == old(audio.Abs());
      if issued.None? {
        return InternalError;
      }
      audio.RegisterPending(issued.value.token, c.userId, channel, issued.value.ssrc, issued.value.expiresAt);
      return Accepted;
    }

    /** The critical section of an accepted join. */
    method Sit(c: Client, channel: uint32, selfMuted: bool, selfDeafened: bool)
      requires c in known
      modifies c`activeVoiceChannel, this`voiceChannels, this`voiceStates
      ensures Abs() == AfterJoin(old(Abs()), c, channel, selfMuted, selfDeafened)
    {
      ghost var s := Abs();
      assert Get(s, c) == c.View();
      Reseat(c, c.activeVoiceChannel, channel);
      c.activeVoiceChannel := channel;
      OneEntryDiffers(s.conns, Views(known), c);
      voiceStates := voiceStates[c.userId := VoiceState(channel, selfMuted, selfDeafened, false, false, false)];
    }

    /** Leaves the old channel's set when switching, and enters the new one's. */
    method Reseat(c: Client, from: uint32, to: uint32)
      modifies this`voiceChannels
      ensures voiceChannels == Reseated(old(voiceChannels), from, to, c)
    {
      if from > 0 && from != to {
        voiceChannels := RemoveFrom(voiceChannels, from, c);
      }
      voiceChannels := AddTo(voiceChannels, to, c);
    }

    method LeaveVoice(c: Client)
      requires Valid() && c in known
      modifies c`activeVoiceChannel, this`voiceChannels, this`voiceStates
      modifies audio`pendingTokens, audio`byUser, audio`byAddr, audio`byChannel
      ensures Valid()
      ensures Abs() == AfterLeave(old(Abs()), c)
      ensures audio.Abs() == SI.Apply(old(audio.Abs()), SI.RemoveSession(c.userId))
    {
      Stand(c);
      audio.RemoveSession(c.userId);
    }

    /** The critical section of a leave. */
    method Stand(c: Client)
      requires c in known
      modifies c`activeVoiceChannel, this`voiceChannels, this`voiceStates
      ensures Abs() == AfterLeave(old(Abs()), c)
    {
      ghost var s := Abs();
      assert Get(s, c) == c.View();
      var ch := c.activeVoiceChannel;
      if ch > 0 {
        voiceChannels := RemoveFrom(voiceChannels, ch, c);
        c.activeVoiceChannel := 0;
        OneEntryDiffers(s.conns, Views(known), c);
        voiceStates := voiceStates - {c.userId};
      }
    }

    /** handleClientDisconnect: a second call for the same connection does nothing. */
    method UnregisterClient(c: Client)
      requires Valid() && c in known
      modifies c`closed, this`clients, this`userClients, this`voiceChannels, this`voiceStates
      modifies audio`pendingTokens, audio`byUser, audio`byAddr, audio`byChannel
      ensures Valid()
      ensures Abs() == AfterDisconnect(old(Abs()), c)
      ensures audio.Abs() == HubRuns.DisconnectAudio(old(Abs()), old(audio.Abs()), c)
    {
      assert Get(Abs(), c) == c.View();
      if c !in clients {
        return;
      }
      Drop(c);
      assert Valid() && audio.Abs() == old(audio.Abs());
      if c.isAuthenticated && c.activeVoiceChannel > 0 {
        audio.RemoveSession(c.userId);
      }
    }

    /** The critical section of a disconnect. */
    method Drop(c: Client)
      requires c in clients && clients <= known
      modifies c`closed, this`clients, this`userClients, this`voiceChannels, this`voiceStates
      ensures Abs() == AfterDisconnect(old(Abs()), c)
    {
      ghost var s := Abs();
      assert Get(s, c) == c.View();
      clients := clients - {c};
      c.Close();
      OneEntryDiffers(s.conns, Views(known), c);
      if c.isAuthenticated {
        Unlist(c, c.userId, c.activeVoiceChannel);
      }
    }

    /** Its part for an authenticated connection. */
    method Unlist(c: Client, user: uint32, departed: uint32)
      modifies this`userClients, this`voiceChannels, this`voiceStates
      ensures Abs() == Unlisted(old(Abs()), c, user, departed)
    {
      userClients := RemoveAndPrune(userClients, user, c);
      if departed > 0 {
        voiceChannels := RemoveAndPrune(voiceChannels, departed, c);
      }
      ForgetState(user, departed);
    }

    /** The voice state goes with a connection in voice, and with the last connection. */
    method ForgetState(user: uint32, departed: uint32)
      modifies this`voiceStates
      ensures voiceStates == if departed > 0 || At(userClients, user) == {} then old(voiceStates) - {user} else old(voiceStates)
    {
      if departed > 0 || user !in userClients || |userClients[user]| == 0 {
        voiceStates := voiceStates - {user};
      }
    }

    /** handleSetVoiceState */
    method SetVoiceState(c: Client, selfMuted: bool, selfDeafened: bool, speaking: bool)
      requires Valid() && c in known
      modifies this`voiceStates
      ensures Valid()
      ensures Abs() == AfterMark(old(Abs()), c.userId, SelfMarks(selfMuted, selfDeafened, speaking))
    {
      if c.userId in voiceStates {
        voiceStates := voiceStates[c.userId := voiceStates[c.userId].(selfMuted := selfMuted,
                                                                      selfDeafened := selfDeafened,
                                                                      isSpeaking := speaking)];
      }
    }

    /** handleSetServerMute: marks the voice state and mutes the audio session, as far as there are any. */
    method SetServerMute(permitted: bool, target: uint32, muted: bool) returns (reply: Reply)
      requires Valid()
      modifies this`voiceStates, audio.Live(target)
      ensures Valid() && reply == if permitted then Accepted else Forbidden
      ensures Abs() == if permitted then AfterMark(old(Abs()), target, ServerMute(muted)) else old(Abs())
      ensures audio.Abs() ==
        if permitted && target in old(audio.Abs()).byUser
        then SI.Apply(old(audio.Abs()), SI.SetServerMute(audio.byUser[target], muted)) else old(audio.Abs())
    {
      if !permitted {
        return Forbidden;
      }
      MarkMuted(target, muted);
      audio.SetServerMute(target, muted);
      return Accepted;
    }

    /** Its critical section. */
    method MarkMuted(target: uint32, muted: bool)
      modifies this`voiceStates
      ensures Abs() == AfterMark(old(Abs()), target, ServerMute(muted))
    {
      if target in voiceStates {
        voiceStates := voiceStates[target := voiceStates[target].(serverMuted := muted)];
      }
    }

    method MarkDeafened(target: uint32, deafened: bool)
      modifies this`voiceStates
      ensures Abs() == AfterMark(old(Abs()), target, ServerDeafen(deafened))
    {
      if target in voiceStates {
        voiceStates := voiceStates[target := voiceStates[target].(serverDeafened := deafened)];
      }
    }

    /** handleSetServerDeafen, likewise. */
    method SetServerDeafen(permitted: bool, target: uint32, deafened: bool) returns (reply: Reply)
      requires Valid()
      modifies this`voiceStates, audio.Live(target)
      ensures Valid() && reply == if permitted then Accepted else Forbidden
      ensures Abs() == if permitted then AfterMark(old(Abs()), target, ServerDeafen(deafened)) else old(Abs())
      ensures audio.Abs() ==
        if permitted && target in old(audio.Abs()).byUser
        then SI.Apply(old(audio.Abs()), SI.SetServerDeafen(audio.byUser[target], deafened)) else old(audio.Abs())
    {
      if !permitted {
        return Forbidden;
      }
      MarkDeafened(target, deafened);
      audio.SetServerDeafen(target, deafened);
      return Accepted;
    }

    /** Moves every connection of the target to another channel, in the maps and in the audio plane. */
    method MoveMember(permitted: bool, target: uint32, to: uint32) returns (reply: Reply)
      requires Valid()
      modifies this`voiceChannels, this`voiceStates, known
      modifies audio`byChannel, audio.Live(target)
      ensures Valid()
      ensures reply == MoveReply(old(Abs()), permitted, target)
      ensures Abs() == if reply == Accepted then AfterMove(old(Abs()), target, to) else old(Abs())
      ensures audio.Abs() ==
        if reply == Accepted then SI.Apply(old(audio.Abs()), SI.MoveMember(target, to)) else old(audio.Abs())
    {
      if !permitted {
        return Forbidden;
      }
      if target !in voiceStates || voiceStates[target].channelId == 0 {
        return InvalidParams;
      }
      Relocate(target, to);
      assert Valid() && audio.Abs() == old(audio.Abs());
      audio.MoveMember(target, to);
      return Accepted;
    }

    /** The critical section of a move. */
    method Relocate(target: uint32, to: uint32)
      requires target in voiceStates && forall u :: u in userClients ==> userClients[u] <= known
      modifies this`voiceChannels, this`voiceStates, known
      ensures Abs() == AfterMove(old(Abs()), target, to)
    {
      ghost var s := Abs();
      var from := voiceStates[target].channelId;
      var moving: set<Client> := {};
      if target in userClients {
        moving := userClients[target];
      }
      voiceStates := voiceStates[target := voiceStates[target].(channelId := to)];
      BringAll(moving, from, to);
      assert Views(known) == AfterMove(s, target, to).conns;
    }

    /** The loop over the target's connections. */
    method BringAll(moving: set<Client>, from: uint32, to: uint32)
      requires moving <= known
      modifies this`voiceChannels, known
      ensures voiceChannels == MovedChannels(old(voiceChannels), moving, from, to)
      ensures forall c :: c in known ==>
        c.View() == if c in moving then old(c.View()).(activeVoice := to) else old(c.View())
    {
      ghost var m := voiceChannels;
      var todo := moving;
      while todo != {}
        invariant todo <= moving
        invariant voiceChannels == MovedChannels(m, moving - todo, from, to)
        invariant forall c :: c in known ==>
          c.View() == if c in moving - todo then old(c.View()).(activeVoice := to) else old(c.View())
      {
        var c :| c in todo;
        Bring(c, from, to);
        MovedOneMore(m, moving - todo, from, to, c);
        assert moving - (todo - {c}) == (moving - todo) + {c};
        todo := todo - {c};
      }
      assert moving - todo == moving;
    }

    /** One turn of that loop. */
    method Bring(c: Client, from: uint32, to: uint32)
      modifies this`voiceChannels, c`activeVoiceChannel
      ensures voiceChannels == Insert(Delete(old(voiceChannels), from, c), to, c)
      ensures c.View() == old(c.View()).(activeVoice := to)
    {
      voiceChannels := RemoveFrom(voiceChannels, from, c);
      voiceChannels := AddTo(voiceChannels, to, c);
      c.activeVoiceChannel := to;
    }

    /**
    Kicks a user: his voice state and places, his audio session and tokens, then every connection.  `order` is the
    order in which his connections were visited.
    */
    method KickMember(permitted: bool, target: uint32) returns (reply: Reply, ghost order: seq<Client>)
      requires Valid()
      modifies this`clients, this`userClients, this`voiceChannels, this`voiceStates, known
      modifies audio`pendingTokens, audio`byUser, audio`byAddr, audio`byChannel
      ensures Valid()
      ensures reply == KickReply(permitted, target)
      ensures Enumerates(order, old(At(userClients, target)))
      ensures Abs() == if reply == Accepted then AfterKick(old(Abs()), target, order) else old(Abs())
      ensures audio.Abs() ==
        if reply == Accepted then HubRuns.KickAudio(old(Abs()), old(audio.Abs()), target, order) else old(audio.Abs())
    {
      var closing := Connections(target);
      order := closing;
      if !permitted {
        return Forbidden, order;
      }
      if target == CREATOR {
        return ImmutableCreatorRole, order;
      }
      Expel(target, closing);
      return Accepted, order;
    }

    method Expel(target: uint32, closing: seq<Client>)
      requires Valid() && forall c :: c in closing ==> c in known
      modifies this`clients, this`userClients, this`voiceChannels, this`voiceStates, known
      modifies audio`pendingTokens, audio`byUser, audio`byAddr, audio`byChannel
      ensures Valid()
      ensures Abs() == AfterKick(old(Abs()), target, closing)
      ensures audio.Abs() == HubRuns.KickAudio(old(Abs()), old(audio.Abs()), target, closing)
    {
      ghost var s, plane := Abs(), audio.Abs();
      Evacuate(target);
      audio.RemoveSession(target);
      assert Abs() == Unseat(s, target) && audio.Abs() == SI.Apply(plane, SI.RemoveSession(target));
      CloseAll(closing);
    }

    /** The loop of a kick over the target's connections. */
    method CloseAll(closing: seq<Client>)
      requires Valid() && forall c :: c in closing ==> c in known
      modifies this`clients, this`userClients, this`voiceChannels, this`voiceStates, known
      modifies audio`pendingTokens, audio`byUser, audio`byAddr, audio`byChannel
      ensures Valid()
      ensures Abs() == DisconnectAll(old(Abs()), closing)
      ensures audio.Abs() == HubRuns.DisconnectAllAudio(old(Abs()), old(audio.Abs()), closing)
    {
      ghost var u, plane := Abs(), audio.Abs();
      for i := 0 to |closing|
        invariant Valid()
        invariant Abs() == DisconnectAll(u, closing[..i])
        invariant audio.Abs() == HubRuns.DisconnectAllAudio(u, plane, closing[..i])
      {
        assert closing[..i + 1] == closing[..i] + [closing[i]];
        UnregisterClient(closing[i]);
      }
      assert closing[..|closing|] == closing;
    }

    /** The target's connections, in map order. */
    method Connections(target: uint32) returns (list: seq<Client>)
      requires Valid()
      ensures Enumerates(list, At(userClients, target))
      ensures forall c :: c in list ==> c in known
    {
      list := [];
      if target in userClients {
        var todo := userClients[target];
        while todo != {}
          invariant todo <= userClients[target]
          invariant Distinct(list) && forall c :: c in list <==> c in userClients[target] && c !in todo
        {
          var c :| c in todo;
          list := list + [c];
          todo := todo - {c};
        }
      }
    }

    /** The critical section of a kick. */
    method Evacuate(target: uint32)
      modifies this`voiceChannels, this`voiceStates
      ensures Abs() == Unseat(old(Abs()), target)
    {
      if target in voiceStates {
        var ch := voiceStates[target].channelId;
        assert ch in voiceChannels ==> voiceChannels[ch] - {} == voiceChannels[ch];
        if ch in voiceChannels && target in userClients {
          var members: set<Client> := voiceChannels[ch];
          voiceChannels := voiceChannels[ch := members - userClients[target]];
        }
        voiceStates := voiceStates - {target};
      }
    }
  }
}
