/** What joins, moves and kicks may do, and whose flags a voice state shows, over whole runs of the hub. */
module HubVoice {
  import opened Basics
  import opened HubState
  import opened HubRuns
  import SI = SessionIndex

  // ---------------------------------------------------------------------------
  // The marks of a voice state

  /** The parts of a voice state that are written together. */
  datatype Part = SelfPart | MutePart | DeafenPart

  /** An accepted join by a connection of the user. */
  ghost predicate JoinsAs<C>(s: Hub<C>, catalog: map<uint32, Channel>, op: Op<C>, user: uint32) {
    op.Join? && JoinReply(s, catalog, op.c, op.permitted, op.channel) == Accepted && Get(s, op.c).userId == user
  }

  /** The handler writes that part of the user's voice state. */
  ghost predicate Writes<C>(s: Hub<C>, catalog: map<uint32, Channel>, op: Op<C>, user: uint32, part: Part) {
    || JoinsAs(s, catalog, op, user)
    || (part == SelfPart && op.SetVoiceState? && Get(s, op.c).userId == user)
    || (part == MutePart && op.SetServerMute? && op.permitted && op.target == user)
    || (part == DeafenPart && op.SetServerDeafen? && op.permitted && op.target == user)
  }

  /** The part as that handler writes it: a join takes its own two flags and clears the rest. */
  ghost predicate Shows<C>(state: VoiceState, op: Op<C>, part: Part)
    requires part == SelfPart ==> op.Join? || op.SetVoiceState?
  {
    match part
    case SelfPart =>
      && state.selfMuted == op.selfMuted && state.selfDeafened == op.selfDeafened
      && state.isSpeaking == (op.SetVoiceState? && op.speaking)
    case MutePart => state.serverMuted == (op.SetServerMute? && op.muted)
    case DeafenPart => state.serverDeafened == (op.SetServerDeafen? && op.deafened)
  }

  ghost predicate SamePart(before: VoiceState, after: VoiceState, part: Part) {
    match part
    case SelfPart =>
      before.selfMuted == after.selfMuted && before.selfDeafened == after.selfDeafened && before.isSpeaking == after.isSpeaking
    case MutePart => before.serverMuted == after.serverMuted
    case DeafenPart => before.serverDeafened == after.serverDeafened
  }

  lemma {:induction false} DisconnectAllStates<C>(s: Hub<C>, order: seq<C>, user: uint32)
    requires user in DisconnectAll(s, order).voiceStates
    ensures user in s.voiceStates && DisconnectAll(s, order).voiceStates[user] == s.voiceStates[user]
  {
    if order == [] {
    } else {
      DisconnectAllStates(s, order[..|order| - 1], user);
    }
  }

  /** Handlers that are neither joins nor marks leave a voice state alone, but for its channel, or drop it. */
  lemma OthersKeepMarks<C>(s: Hub<C>, catalog: map<uint32, Channel>, op: Op<C>, user: uint32)
    requires !op.Join? && !op.SetVoiceState? && !op.SetServerMute? && !op.SetServerDeafen?
    requires user in Apply(s, catalog, op).voiceStates
    ensures var after := Apply(s, catalog, op).voiceStates[user];
      user in s.voiceStates && after == s.voiceStates[user].(channelId := after.channelId)
  {
    if op.Kick? && Apply(s, catalog, op) != s {
      DisconnectAllStates(Unseat(s, op.target), op.order, user);
    }
  }

  /** A mark is for one user. */
  lemma MarkStep<C>(s: Hub<C>, target: uint32, mark: MarkOp, user: uint32)
    requires user in AfterMark(s, target, mark).voiceStates
    ensures var t := AfterMark(s, target, mark);
      && user in s.voiceStates
      && (user != target ==> t.voiceStates[user] == s.voiceStates[user])
      && (user == target ==> t.voiceStates[user] == Marked(s.voiceStates[user], mark))
  {
  }

  /** The part of the user's voice state in t is what the handler wrote, or as it was. */
  ghost predicate PartFollows<C>(s: Hub<C>, catalog: map<uint32, Channel>, op: Op<C>, t: Hub<C>, user: uint32, part: Part)
    requires user in t.voiceStates
  {
    if Writes(s, catalog, op, user, part) then Shows(t.voiceStates[user], op, part)
    else user in s.voiceStates && SamePart(s.voiceStates[user], t.voiceStates[user], part)
  }

  lemma JoinMarks<C>(s: Hub<C>, catalog: map<uint32, Channel>, op: Op<C>, user: uint32, part: Part)
    requires op.Join? && user in Apply(s, catalog, op).voiceStates
    ensures PartFollows(s, catalog, op, Apply(s, catalog, op), user, part)
  {
  }

  lemma HandlerMarks<C>(s: Hub<C>, catalog: map<uint32, Channel>, op: Op<C>, user: uint32, part: Part)
    requires op.SetVoiceState? || op.SetServerMute? || op.SetServerDeafen?
    requires user in Apply(s, catalog, op).voiceStates
    ensures PartFollows(s, catalog, op, Apply(s, catalog, op), user, part)
  {
    if op.SetVoiceState? {
      MarkStep(s, Get(s, op.c).userId, SelfMarks(op.selfMuted, op.selfDeafened, op.speaking), user);
    } else if op.permitted {
      MarkStep(s, op.target, if op.SetServerMute? then ServerMute(op.muted) else ServerDeafen(op.deafened), user);
    }
  }

  /** A handler that does not write a part of a voice state leaves it alone; moves write none. */
  lemma MarksStep<C>(s: Hub<C>, catalog: map<uint32, Channel>, op: Op<C>, user: uint32, part: Part)
    requires user in Apply(s, catalog, op).voiceStates
    ensures PartFollows(s, catalog, op, Apply(s, catalog, op), user, part)
  {
    if op.Join? {
      JoinMarks(s, catalog, op, user, part);
    } else if op.SetVoiceState? || op.SetServerMute? || op.SetServerDeafen? {
      HandlerMarks(s, catalog, op, user, part);
    } else {
      OthersKeepMarks(s, catalog, op, user);
    }
  }

  /** Handler j is the latest before state i that wrote the part. */
  ghost predicate LatestWrite<C>(states: seq<Hub<C>>, catalog: map<uint32, Channel>, ops: seq<Op<C>>, user: uint32,
                                 part: Part, j: nat, i: nat)
    requires j < i <= |ops| < |states|
  {
    && Writes(states[j], catalog, ops[j], user, part)
    && forall k :: j < k < i ==> !Writes(states[k], catalog, ops[k], user, part)
  }

  /**
  Over any run a user's voice state, if he has one, shows the self flags of the latest accepted join or change of state
  by a connection of his, and of each server flag what the latest permitted moderator set since his latest accepted
  join, or else nothing; moves, refusals and other users' handlers leave them alone.
  */
  lemma {:induction false} MarksOfLatest<C>(states: seq<Hub<C>>, catalog: map<uint32, Channel>, ops: seq<Op<C>>,
                                            user: uint32, part: Part, i: nat) returns (j: nat)
    requires Execution(states, catalog, ops) && states[0] == Empty() && i <= |ops| && user in states[i].voiceStates
    ensures j < i && LatestWrite(states, catalog, ops, user, part, j, i)
    ensures Shows(states[i].voiceStates[user], ops[j], part)
  {
    j := i - 1;
    MarksStep(states[j], catalog, ops[j], user, part);
    if !Writes(states[j], catalog, ops[j], user, part) {
      j := MarksOfLatest(states, catalog, ops, user, part, j);
    }
  }

  // ---------------------------------------------------------------------------
  // What each handler brings about

  /** Every connection but those of `moved` stands where it stood. */
  ghost predicate OthersStay<C>(s: Hub<C>, t: Hub<C>, moved: set<C>) {
    && t.clients - moved == s.clients - moved
    && (forall d :: d in s.conns && d !in moved ==> Get(t, d) == Get(s, d))
    && forall ch :: At(t.voiceChannels, ch) - moved == At(s.voiceChannels, ch) - moved
  }

  /** Every user but one has the voice state he had. */
  ghost predicate OtherStatesStay<C>(s: Hub<C>, t: Hub<C>, user: uint32) {
    forall u :: u != user ==>
      (u in t.voiceStates <==> u in s.voiceStates) && (u in s.voiceStates ==> t.voiceStates[u] == s.voiceStates[u])
  }

  lemma SeatTaken<C>(s: Hub<C>, c: C, channel: uint32, selfMuted: bool, selfDeafened: bool)
    requires Linked(s)
    ensures var t := AfterJoin(s, c, channel, selfMuted, selfDeafened);
      forall ch :: c in At(t.voiceChannels, ch) <==> ch == channel
  {
  }

  lemma OthersKeepSeats<C>(s: Hub<C>, c: C, channel: uint32, selfMuted: bool, selfDeafened: bool)
    ensures OthersStay(s, AfterJoin(s, c, channel, selfMuted, selfDeafened), {c})
  {
  }

  /** An accepted join seats its connection in the channel, and nowhere else, and moves nobody. */
  lemma JoinTakesSeat<C>(s: Hub<C>, catalog: map<uint32, Channel>, op: Op<C>)
    requires Linked(s) && Enabled(s, op) && op.Join?
    requires JoinReply(s, catalog, op.c, op.permitted, op.channel) == Accepted
    ensures var t := Apply(s, catalog, op); var user := Get(s, op.c).userId;
      && Get(t, op.c) == Get(s, op.c).(activeVoice := op.channel)
      && (forall ch :: op.c in At(t.voiceChannels, ch) <==> ch == op.channel)
      && user in t.voiceStates && t.voiceStates[user].channelId == op.channel
      && OthersStay(s, t, {op.c}) && OtherStatesStay(s, t, user) && t.userClients == s.userClients
  {
    SeatTaken(s, op.c, op.channel, op.selfMuted, op.selfDeafened);
    OthersKeepSeats(s, op.c, op.channel, op.selfMuted, op.selfDeafened);
  }

  /** A leave vacates the seat and drops the voice state, if there was a seat, and moves nobody else. */
  lemma LeaveVacatesSeat<C>(s: Hub<C>, c: C)
    requires Linked(s) && c in s.clients
    ensures var t := AfterLeave(s, c); var user := Get(s, c).userId;
      && Get(t, c) == Get(s, c).(activeVoice := 0) && (forall ch :: c !in At(t.voiceChannels, ch))
      && (user in t.voiceStates <==> user in s.voiceStates && Get(s, c).activeVoice == 0)
      && OthersStay(s, t, {c}) && OtherStatesStay(s, t, user) && t.userClients == s.userClients
  {
  }

  /** An accepted move brings all of the target's connections, and his voice state, to the channel, and nobody else. */
  lemma MoveBringsTarget<C>(s: Hub<C>, catalog: map<uint32, Channel>, op: Op<C>)
    requires Linked(s) && op.Move? && MoveReply(s, op.permitted, op.target) == Accepted
    ensures var t, moved := Apply(s, catalog, op), At(s.userClients, op.target);
      && (forall c :: c in moved ==> Get(t, c) == Get(s, c).(activeVoice := op.to) && c in At(t.voiceChannels, op.to))
      && op.target in t.voiceStates && t.voiceStates[op.target].channelId == op.to
      && (op.to != s.voiceStates[op.target].channelId ==>
           forall c :: c in moved ==> c !in At(t.voiceChannels, s.voiceStates[op.target].channelId))
      && OthersStay(s, t, moved) && OtherStatesStay(s, t, op.target) && t.userClients == s.userClients
  {
  }

  /** A disconnect closes the connection and takes it out of every set; nobody else moves. */
  lemma DisconnectForgets<C>(s: Hub<C>, c: C)
    requires Linked(s) && c in s.clients
    ensures var t := AfterDisconnect(s, c);
      && c !in t.clients && Get(t, c) == Get(s, c).(closed := true)
      && (forall ch :: c !in At(t.voiceChannels, ch)) && (forall u :: c !in At(t.userClients, u))
      && OthersStay(s, t, {c}) && OtherStatesStay(s, t, Get(s, c).userId)
  {
  }

  /** A new connection is open and nobody's; a login makes it the user's, beside those he has. */
  lemma EntryMakesClient<C>(s: Hub<C>, catalog: map<uint32, Channel>, c: C, user: uint32)
    requires Linked(s)
    ensures c !in s.conns ==> var t := Apply(s, catalog, Connect(c));
      c in t.clients && !Get(t, c).authenticated && !Get(t, c).closed && Get(t, c).activeVoice == 0 && OthersStay(s, t, {c})
    ensures c in s.clients ==> var t := Apply(s, catalog, Authenticate(c, user));
      ConnectedAs(t, c, user) && At(t.userClients, user) == At(s.userClients, user) + {c} && OthersStay(s, t, {c})
      && t.voiceStates == s.voiceStates
  {
  }

  lemma OthersStayTwice<C>(s: Hub<C>, t: Hub<C>, u: Hub<C>, moved: set<C>, more: set<C>)
    requires OthersStay(s, t, moved) && OthersStay(t, u, more) && s.conns.Keys <= t.conns.Keys
    ensures OthersStay(s, u, moved + more)
  {
    assert u.clients - (moved + more) == (u.clients - more) - moved == (s.clients - moved) - more;
    forall ch ensures At(u.voiceChannels, ch) - (moved + more) == At(s.voiceChannels, ch) - (moved + more) {
      assert At(u.voiceChannels, ch) - (moved + more) == (At(u.voiceChannels, ch) - more) - moved;
      assert At(s.voiceChannels, ch) - (moved + more) == (At(s.voiceChannels, ch) - moved) - more;
    }
  }

  lemma DisconnectSparesOthers<C>(s: Hub<C>, c: C)
    ensures var t := AfterDisconnect(s, c);
      OthersStay(s, t, {c}) && OtherStatesStay(s, t, Get(s, c).userId) && s.conns.Keys <= t.conns.Keys
  {
  }

  lemma {:induction false} DisconnectAllSparesOthers<C>(s: Hub<C>, order: seq<C>, user: uint32)
    requires forall c :: c in order ==> Get(s, c).userId == user
    ensures var t := DisconnectAll(s, order);
      OthersStay(s, t, Elements(order)) && OtherStatesStay(s, t, user) && s.conns.Keys <= t.conns.Keys
  {
    if order == [] {
    } else {
      var front, last := order[..|order| - 1], order[|order| - 1];
      var m := DisconnectAll(s, front);
      DisconnectAllSparesOthers(s, front, user);
      DisconnectSparesOthers(m, last);
      DisconnectAllSameUser(s, front, last);
      OthersStayTwice(s, m, AfterDisconnect(m, last), Elements(front), {last});
      assert Elements(order) == Elements(front) + {last};
      assert last in order;
    }
  }

  /** A kick touches no other user's connections, seats and voice state. */
  lemma KickSparesOthers<C>(s: Hub<C>, target: uint32, order: seq<C>)
    requires Linked(s) && Enumerates(order, At(s.userClients, target))
    ensures var t := AfterKick(s, target, order);
      OthersStay(s, t, At(s.userClients, target)) && OtherStatesStay(s, t, target)
  {
    var u, kicked := Unseat(s, target), At(s.userClients, target);
    assert Elements(order) == kicked;
    assert OthersStay(s, u, kicked) && OtherStatesStay(s, u, target);
    DisconnectAllSparesOthers(u, order, target);
    OthersStayTwice(s, u, AfterKick(s, target, order), kicked, kicked);
    assert kicked + kicked == kicked;
  }

  // ---------------------------------------------------------------------------
  // Permissions and refusals

  /** Without permission nothing changes, and nobody kicks the creator. */
  lemma RefusedChangesNothing<C>(s: Hub<C>, catalog: map<uint32, Channel>, op: Op<C>)
    requires
      || ((op.Join? || op.Move? || op.Kick? || op.SetServerMute? || op.SetServerDeafen?) && !op.permitted)
      || (op.Kick? && op.target == 1)
    ensures Apply(s, catalog, op) == s
    ensures op.Join? ==> JoinReply(s, catalog, op.c, op.permitted, op.channel) == Forbidden
    ensures op.Move? ==> MoveReply(s, op.permitted, op.target) == Forbidden
    ensures op.Kick? ==> KickReply(op.permitted, op.target) == if op.permitted then ImmutableCreatorRole else Forbidden
  {
  }

  ghost predicate IsVoice(catalog: map<uint32, Channel>, channel: uint32) {
    channel in catalog && catalog[channel].isVoice
  }

  /** A join is accepted exactly with permission, into a voice channel with room, by a connection that is still open. */
  lemma JoinAcceptedExactly<C>(s: Hub<C>, catalog: map<uint32, Channel>, c: C, permitted: bool, channel: uint32)
    ensures JoinReply(s, catalog, c, permitted, channel) == Accepted <==>
      && permitted && channel > 0 && channel in catalog && catalog[channel].isVoice
      && c in s.clients && !Get(s, c).closed
      && (c in At(s.voiceChannels, channel) ||
          |At(s.voiceChannels, channel)| < if catalog[channel].userLimit == 0 then 15 else catalog[channel].userLimit)
    ensures permitted && IsVoice(catalog, channel) && channel > 0 ==>
      (JoinReply(s, catalog, c, permitted, channel) == Silent <==> c !in s.clients || Get(s, c).closed)
    ensures permitted ==>
      && (JoinReply(s, catalog, c, permitted, channel) == InvalidParams <==> channel == 0)
      && (JoinReply(s, catalog, c, permitted, channel) == ChannelNotFound <==> channel > 0 && channel !in catalog)
      && (JoinReply(s, catalog, c, permitted, channel) == InvalidChannelType <==>
           channel > 0 && channel in catalog && !catalog[channel].isVoice)
  {
  }

  // ---------------------------------------------------------------------------
  // Seats stand in voice channels

  /** Every registered connection that is in voice is in a voice channel. */
  ghost predicate SeatsInVoice<C>(s: Hub<C>, catalog: map<uint32, Channel>) {
    forall c :: c in s.clients && Get(s, c).activeVoice > 0 ==> IsVoice(catalog, Get(s, c).activeVoice)
  }

  /** An accepted move that takes no registered connection into a channel that is no voice channel. */
  ghost predicate MovesIntoVoice<C>(s: Hub<C>, catalog: map<uint32, Channel>, op: Op<C>) {
    op.Move? && op.permitted && op.target in s.voiceStates && s.voiceStates[op.target].channelId > 0 && op.to > 0 &&
    (exists c :: c in s.clients && c in s.conns && c in At(s.userClients, op.target)) ==>
      IsVoice(catalog, op.to)
  }

  /** A move is accepted exactly with permission and for a user who is in voice. */
  lemma MoveAcceptedExactly<C>(s: Hub<C>, permitted: bool, target: uint32)
    requires Linked(s)
    ensures MoveReply(s, permitted, target) ==
      if !permitted then Forbidden else if target in s.voiceStates then Accepted else InvalidParams
  {
    if target in s.voiceStates {
      var c :| c in s.clients && SpeaksFor(s, c, target, s.voiceStates[target].channelId);
    }
  }

  lemma {:induction false} DisconnectAllSeats<C>(s: Hub<C>, order: seq<C>)
    ensures var t := DisconnectAll(s, order);
      t.clients <= s.clients && forall c :: c in t.clients ==> Get(t, c).activeVoice == Get(s, c).activeVoice
  {
    if order == [] {
    } else {
      DisconnectAllSeats(s, order[..|order| - 1]);
    }
  }

  /** The handlers that take nobody anywhere new but out of voice. */
  ghost predicate OnlyStands<C>(s: Hub<C>, t: Hub<C>) {
    forall c :: c in t.clients && Get(t, c).activeVoice > 0 ==>
      c in s.clients && Get(t, c).activeVoice == Get(s, c).activeVoice
  }

  lemma OthersOnlyStand<C>(s: Hub<C>, catalog: map<uint32, Channel>, op: Op<C>)
    requires Enabled(s, op) && !op.Join? && !op.Move?
    ensures OnlyStands(s, Apply(s, catalog, op))
  {
    if op.Kick? {
      DisconnectAllSeats(Unseat(s, op.target), op.order);
    }
  }

  /** A handler keeps seats in voice channels if and only if it is not an accepted move elsewhere. */
  lemma SeatsKeptExactly<C>(s: Hub<C>, catalog: map<uint32, Channel>, op: Op<C>)
    requires Enabled(s, op) && SeatsInVoice(s, catalog)
    ensures SeatsInVoice(Apply(s, catalog, op), catalog) <==> MovesIntoVoice(s, catalog, op)
  {
    var t := Apply(s, catalog, op);
    if op.Move? {
      if !MovesIntoVoice(s, catalog, op) {
        var c :| c in s.clients && c in s.conns && c in At(s.userClients, op.target);
        assert Get(t, c).activeVoice == op.to;
      }
    } else if op.Join? {
      JoinAcceptedExactly(s, catalog, op.c, op.permitted, op.channel);
    } else {
      OthersOnlyStand(s, catalog, op);
    }
  }

  /** Over any run, seats stand in voice channels until the first accepted move elsewhere, which breaks it. */
  lemma {:induction false} SeatsHold<C>(states: seq<Hub<C>>, catalog: map<uint32, Channel>, ops: seq<Op<C>>, i: nat)
    requires Execution(states, catalog, ops) && states[0] == Empty() && i <= |ops|
    requires forall k :: 0 <= k < i ==> MovesIntoVoice(states[k], catalog, ops[k])
    ensures SeatsInVoice(states[i], catalog)
    ensures i < |ops| ==> (SeatsInVoice(states[i + 1], catalog) <==> MovesIntoVoice(states[i], catalog, ops[i]))
  {
    if i > 0 {
      SeatsHold(states, catalog, ops, i - 1);
    }
    if i < |ops| {
      SeatsKeptExactly(states[i], catalog, ops[i]);
    }
  }

  // ---------------------------------------------------------------------------
  // The audio plane

  /** A connection that drops out of voice takes its user's audio session and tokens along; any other leaves them. */
  lemma DisconnectSilences<C, R>(s: Hub<C>, audio: SI.State<R>, c: C)
    requires Linked(s) && c in s.clients && SI.Sound(audio)
    ensures if exists ch :: c in At(s.voiceChannels, ch) then Gone(DisconnectAudio(s, audio, c), Get(s, c).userId)
            else DisconnectAudio(s, audio, c) == audio
  {
    RemoveSessionForgets(audio, Get(s, c).userId);
    assert Get(s, c).activeVoice > 0 ==> c in At(s.voiceChannels, Get(s, c).activeVoice);
  }
}
