/** Whole runs of the control plane: links, voice states, occupancy, and what a kick does to the audio plane. */
module HubRuns {
  import opened Basics
  import opened HubState
  import SI = SessionIndex

  ghost predicate Execution<C>(states: seq<Hub<C>>, catalog: map<uint32, Channel>, ops: seq<Op<C>>) {
    && |states| == |ops| + 1
    && forall i :: 0 <= i < |ops| ==> Enabled(states[i], ops[i]) && states[i + 1] == Apply(states[i], catalog, ops[i])
  }

  lemma ExecutionAppend<C>(states: seq<Hub<C>>, catalog: map<uint32, Channel>, ops: seq<Op<C>>, op: Op<C>, t: Hub<C>)
    requires Execution(states, catalog, ops) && Enabled(states[|ops|], op) && t == Apply(states[|ops|], catalog, op)
    ensures Execution(states + [t], catalog, ops + [op])
  {
    forall i | 0 <= i < |ops + [op]|
      ensures Enabled((states + [t])[i], (ops + [op])[i])
      ensures (states + [t])[i + 1] == Apply((states + [t])[i], catalog, (ops + [op])[i])
    {
      if i < |ops| {
        assert (states + [t])[i + 1] == states[i + 1];
      }
    }
  }

  /** After any run that keeps the links, a registered connection is in a channel's set exactly when it says so itself. */
  lemma {:induction false} LinksHold<C>(states: seq<Hub<C>>, catalog: map<uint32, Channel>, ops: seq<Op<C>>, i: nat)
    requires Execution(states, catalog, ops) && states[0] == Empty() && i <= |ops|
    requires forall k :: 0 <= k < i ==> KeepsLinks(states[k], ops[k])
    ensures Linked(states[i])
    ensures forall c, ch :: c in states[i].clients ==>
      (c in At(states[i].voiceChannels, ch) <==> Get(states[i], c).activeVoice == ch && ch > 0)
  {
    if i == 0 {
    } else {
      LinksHold(states, catalog, ops, i - 1);
      ApplyKeepsLinks(states[i - 1], catalog, ops[i - 1]);
    }
  }

  // ---------------------------------------------------------------------------
  // Voice states

  ghost predicate InVoice<C>(s: Hub<C>, c: C, user: uint32) {
    ConnectedAs(s, c, user) && Get(s, c).activeVoice > 0
  }

  /** The user has a voice state exactly when a connection of his is in voice, and both name the same channel. */
  ghost predicate StateExact<C>(s: Hub<C>, user: uint32) {
    && (user in s.voiceStates <==> exists c :: c in s.clients && InVoice(s, c, user))
    && (forall c :: c in s.clients && InVoice(s, c, user) && user in s.voiceStates ==>
         s.voiceStates[user].channelId == Get(s, c).activeVoice)
  }

  /** No other connection of the user stays in voice where the voice state will not show it. */
  ghost predicate LeavesNobodyBehind<C>(s: Hub<C>, catalog: map<uint32, Channel>, op: Op<C>, user: uint32) {
    match op
    case Join(c, permitted, channel, _, _) =>
      JoinReply(s, catalog, c, permitted, channel) == Accepted && ConnectedAs(s, c, user) ==>
        forall d :: d in s.clients && d != c && InVoice(s, d, user) ==> Get(s, d).activeVoice == channel
    case Leave(c) => InVoice(s, c, user) ==> forall d :: d in s.clients && d != c ==> !InVoice(s, d, user)
    case Disconnect(c) => InVoice(s, c, user) ==> forall d :: d in s.clients && d != c ==> !InVoice(s, d, user)
    case _ => true
  }

  /** Every connection of the user in voice is shown by his voice state, in the channel it is in. */
  ghost predicate Covered<C>(s: Hub<C>, user: uint32) {
    forall c :: c in s.clients && InVoice(s, c, user) ==>
      user in s.voiceStates && s.voiceStates[user].channelId == Get(s, c).activeVoice
  }

  /** With the links in place, an exact voice state only ever has to cover the connections in voice. */
  lemma CoverIsExact<C>(s: Hub<C>, user: uint32)
    requires Linked(s)
    ensures StateExact(s, user) <==> Covered(s, user)
  {
  }

  lemma JoinCovers<C>(s: Hub<C>, c: C, channel: uint32, selfMuted: bool, selfDeafened: bool, user: uint32)
    requires Covered(s, user) && c in s.clients && Get(s, c).authenticated && channel > 0
    ensures Covered(AfterJoin(s, c, channel, selfMuted, selfDeafened), user) <==>
      (ConnectedAs(s, c, user) ==>
        forall d :: d in s.clients && d != c && InVoice(s, d, user) ==> Get(s, d).activeVoice == channel)
  {
    var t := AfterJoin(s, c, channel, selfMuted, selfDeafened);
    forall d | d in s.clients && d != c ensures InVoice(t, d, user) == InVoice(s, d, user) && Get(t, d) == Get(s, d) {
    }
  }

  lemma JoinExact<C>(s: Hub<C>, catalog: map<uint32, Channel>, op: Op<C>, user: uint32)
    requires Linked(s) && Enabled(s, op) && op.Join? && StateExact(s, user)
    ensures StateExact(Apply(s, catalog, op), user) <==> LeavesNobodyBehind(s, catalog, op, user)
  {
    if JoinReply(s, catalog, op.c, op.permitted, op.channel) == Accepted {
      var t := AfterJoin(s, op.c, op.channel, op.selfMuted, op.selfDeafened);
      JoinKeepsMembers(s, op.c, op.channel, op.selfMuted, op.selfDeafened);
      JoinKeepsStates(s, op.c, op.channel, op.selfMuted, op.selfDeafened);
      CoverIsExact(s, user);
      CoverIsExact(t, user);
      JoinCovers(s, op.c, op.channel, op.selfMuted, op.selfDeafened, user);
    }
  }

  lemma LeaveCovers<C>(s: Hub<C>, c: C, user: uint32)
    requires Linked(s) && Covered(s, user) && c in s.clients
    ensures Covered(AfterLeave(s, c), user) <==>
      (InVoice(s, c, user) ==> forall d :: d in s.clients && d != c ==> !InVoice(s, d, user))
  {
    var t := AfterLeave(s, c);
    forall d | d in s.clients && d != c ensures InVoice(t, d, user) == InVoice(s, d, user) && Get(t, d) == Get(s, d) {
    }
  }

  lemma LeaveExact<C>(s: Hub<C>, catalog: map<uint32, Channel>, op: Op<C>, user: uint32)
    requires Linked(s) && Enabled(s, op) && op.Leave? && StateExact(s, user)
    ensures StateExact(Apply(s, catalog, op), user) <==> LeavesNobodyBehind(s, catalog, op, user)
  {
    LeaveKeeps(s, op.c);
    CoverIsExact(s, user);
    CoverIsExact(AfterLeave(s, op.c), user);
    LeaveCovers(s, op.c, user);
  }

  lemma DisconnectEffect<C>(s: Hub<C>, c: C, user: uint32, d: C)
    requires Linked(s) && d in AfterDisconnect(s, c).clients && InVoice(s, d, user)
    ensures var t := AfterDisconnect(s, c);
      && d in s.clients && InVoice(t, d, user) && Get(t, d) == Get(s, d)
      && (d != c && InVoice(s, c, user) && c in s.clients ==> user !in t.voiceStates)
      && (!InVoice(s, c, user) && user in s.voiceStates ==> user in t.voiceStates && t.voiceStates[user] == s.voiceStates[user])
  {
  }

  /** The user's connections in voice that a disconnect of c leaves, with his voice state unless c was in voice itself. */
  ghost predicate SparesOthers<C>(s: Hub<C>, t: Hub<C>, c: C, user: uint32) {
    && t.clients == s.clients - {c}
    && (forall d :: d in t.clients ==> InVoice(t, d, user) == InVoice(s, d, user) && Get(t, d) == Get(s, d))
    && forall d :: d in t.clients && InVoice(s, d, user) ==>
         if InVoice(s, c, user) then user !in t.voiceStates
         else user in s.voiceStates ==> user in t.voiceStates && t.voiceStates[user] == s.voiceStates[user]
  }

  lemma DisconnectSpares<C>(s: Hub<C>, c: C, user: uint32)
    requires Linked(s)
    ensures SparesOthers(s, AfterDisconnect(s, c), c, user)
  {
    forall d | d in AfterDisconnect(s, c).clients && InVoice(s, d, user) ensures d in s.clients {
      DisconnectEffect(s, c, user, d);
    }
  }

  lemma DisconnectCovers<C>(s: Hub<C>, t: Hub<C>, c: C, user: uint32)
    requires Covered(s, user) && SparesOthers(s, t, c, user)
    ensures Covered(t, user) <==> (InVoice(s, c, user) ==> forall d :: d in s.clients && d != c ==> !InVoice(s, d, user))
  {
  }

  lemma DisconnectExact<C>(s: Hub<C>, c: C, user: uint32)
    requires Linked(s) && StateExact(s, user)
    ensures StateExact(AfterDisconnect(s, c), user) <==>
      (InVoice(s, c, user) ==> forall d :: d in s.clients && d != c ==> !InVoice(s, d, user))
  {
    DisconnectKeeps(s, c, {});
    assert {} - {c} == {};
    CoverIsExact(s, user);
    CoverIsExact(AfterDisconnect(s, c), user);
    DisconnectSpares(s, c, user);
    DisconnectCovers(s, AfterDisconnect(s, c), c, user);
  }

  lemma MoveCovers<C>(s: Hub<C>, target: uint32, to: uint32, user: uint32)
    requires Linked(s) && Covered(s, user) && target in s.voiceStates
    ensures Covered(AfterMove(s, target, to), user)
  {
    var t := AfterMove(s, target, to);
    forall d | d in s.clients && InVoice(t, d, user)
      ensures user in t.voiceStates && t.voiceStates[user].channelId == Get(t, d).activeVoice
    {
      assert d in At(s.userClients, user);
    }
  }

  lemma MoveExactState<C>(s: Hub<C>, catalog: map<uint32, Channel>, op: Op<C>, user: uint32)
    requires Linked(s) && Enabled(s, op) && op.Move? && KeepsLinks(s, op) && StateExact(s, user)
    ensures StateExact(Apply(s, catalog, op), user)
  {
    if MoveReply(s, op.permitted, op.target) == Accepted {
      MoveExact(s, op.target, op.to);
      CoverIsExact(s, user);
      CoverIsExact(AfterMove(s, op.target, op.to), user);
      MoveCovers(s, op.target, op.to, user);
    }
  }

  /** Unregistering connections of one user leaves other users' voice states alone. */
  lemma {:induction false} DisconnectAllOthers<C>(s: Hub<C>, order: seq<C>, user: uint32, target: uint32)
    requires user != target ==> forall c :: c in order ==> Get(s, c).userId == target
    ensures user != target ==>
      var t := DisconnectAll(s, order);
      (user in t.voiceStates <==> user in s.voiceStates) &&
      (user in s.voiceStates ==> t.voiceStates[user] == s.voiceStates[user])
  {
    if order != [] && user != target {
      var front, last := order[..|order| - 1], order[|order| - 1];
      DisconnectAllOthers(s, front, user, target);
      DisconnectAllSameUser(s, front, last);
      assert last in order;
    }
  }

  lemma {:induction false} DisconnectAllSame<C>(s: Hub<C>, order: seq<C>, c: C)
    ensures Get(DisconnectAll(s, order), c).activeVoice == Get(s, c).activeVoice
    ensures Get(DisconnectAll(s, order), c).userId == Get(s, c).userId
    ensures Get(DisconnectAll(s, order), c).authenticated == Get(s, c).authenticated
  {
    if order == [] {
    } else {
      DisconnectAllSame(s, order[..|order| - 1], c);
    }
  }

  /** A connection in voice after a kick is another user's, in voice before, and his voice state is the same. */
  lemma KickSpares<C>(s: Hub<C>, target: uint32, order: seq<C>, user: uint32, d: C)
    requires Linked(s) && Enumerates(order, At(s.userClients, target))
    requires var t := AfterKick(s, target, order); d in t.clients && InVoice(t, d, user)
    ensures var t := AfterKick(s, target, order);
      && d in s.clients && InVoice(s, d, user) && Get(t, d).activeVoice == Get(s, d).activeVoice
      && (user in s.voiceStates ==> user in t.voiceStates && t.voiceStates[user] == s.voiceStates[user])
  {
    var u := Unseat(s, target);
    UnseatKeeps(s, target);
    DisconnectAllKeeps(u, order, At(s.userClients, target));
    DisconnectAllSame(u, order, d);
    assert d !in order;
    DisconnectAllOthers(u, order, user, target);
  }

  lemma KickExactState<C>(s: Hub<C>, catalog: map<uint32, Channel>, op: Op<C>, user: uint32)
    requires Linked(s) && Enabled(s, op) && op.Kick? && StateExact(s, user)
    ensures StateExact(Apply(s, catalog, op), user)
  {
    if KickReply(op.permitted, op.target) == Accepted {
      var t := AfterKick(s, op.target, op.order);
      KickKeeps(s, op.target, op.order);
      CoverIsExact(s, user);
      CoverIsExact(t, user);
      forall d | d in t.clients && InVoice(t, d, user)
        ensures user in t.voiceStates && t.voiceStates[user].channelId == Get(t, d).activeVoice
      {
        KickSpares(s, op.target, op.order, user, d);
      }
    }
  }

  lemma EntryExactState<C>(s: Hub<C>, catalog: map<uint32, Channel>, op: Op<C>, user: uint32)
    requires Linked(s) && Enabled(s, op) && (op.Connect? || op.Authenticate?) && KeepsLinks(s, op) && StateExact(s, user)
    ensures StateExact(Apply(s, catalog, op), user)
  {
    var t := Apply(s, catalog, op);
    ApplyKeepsLinks(s, catalog, op);
    CoverIsExact(s, user);
    CoverIsExact(t, user);
    forall d | d in t.clients && InVoice(t, d, user) ensures d in s.clients && InVoice(s, d, user) {
    }
  }

  lemma MarkExactState<C>(s: Hub<C>, target: uint32, mark: MarkOp, user: uint32)
    requires Linked(s) && StateExact(s, user)
    ensures StateExact(AfterMark(s, target, mark), user)
  {
    var t := AfterMark(s, target, mark);
    MarkKeeps(s, target, mark);
    CoverIsExact(s, user);
    CoverIsExact(t, user);
    forall c | c in t.clients && InVoice(t, c, user) ensures InVoice(s, c, user) && Get(t, c) == Get(s, c) {
    }
  }

  /**
  A link-keeping handler keeps a user's voice state exact if and only if it leaves no other connection of the user
  behind in voice; with one connection per user that always holds.
  */
  lemma StateStaysExact<C>(s: Hub<C>, catalog: map<uint32, Channel>, op: Op<C>, user: uint32)
    requires Linked(s) && Enabled(s, op) && KeepsLinks(s, op) && StateExact(s, user)
    ensures StateExact(Apply(s, catalog, op), user) <==> LeavesNobodyBehind(s, catalog, op, user)
  {
    match op
    case Join(_, _, _, _, _) => JoinExact(s, catalog, op, user);
    case Leave(_) => LeaveExact(s, catalog, op, user);
    case Disconnect(c) => DisconnectExact(s, c, user);
    case Move(_, _, _) => MoveExactState(s, catalog, op, user);
    case SetVoiceState(c, muted, deafened, speaking) =>
      MarkExactState(s, Get(s, c).userId, SelfMarks(muted, deafened, speaking), user);
    case SetServerMute(_, target, muted) => MarkExactState(s, target, ServerMute(muted), user);
    case SetServerDeafen(_, target, deafened) => MarkExactState(s, target, ServerDeafen(deafened), user);
    case Kick(_, _, _) => KickExactState(s, catalog, op, user);
    case Connect(_) => EntryExactState(s, catalog, op, user);
    case Authenticate(_, _) => EntryExactState(s, catalog, op, user);
  }

  ghost predicate SingleConnection<C>(s: Hub<C>, user: uint32) {
    forall c, d :: c in At(s.userClients, user) && d in At(s.userClients, user) ==> c == d
  }

  lemma {:induction false} SingleConnectionStatesExact<C>(states: seq<Hub<C>>, catalog: map<uint32, Channel>, ops: seq<Op<C>>,
                                                         user: uint32, i: nat)
    requires Execution(states, catalog, ops) && states[0] == Empty() && i <= |ops|
    requires forall k :: 0 <= k < i ==> KeepsLinks(states[k], ops[k]) && SingleConnection(states[k], user)
    ensures Linked(states[i]) && StateExact(states[i], user)
  {
    if i == 0 {
    } else {
      SingleConnectionStatesExact(states, catalog, ops, user, i - 1);
      var s, op := states[i - 1], ops[i - 1];
      ApplyKeepsLinks(s, catalog, op);
      assert forall c, d :: c in s.clients && d in s.clients && ConnectedAs(s, c, user) && ConnectedAs(s, d, user) ==> c == d;
      StateStaysExact(s, catalog, op, user);
    }
  }

  // ---------------------------------------------------------------------------
  // Occupancy

  lemma {:induction false} SubsetSize<T>(a: set<T>, b: set<T>)
    requires a <= b
    ensures |a| <= |b|
  {
    if a == {} {
    } else {
      var x :| x in a;
      SubsetSize(a - {x}, b - {x});
    }
  }

  ghost function Occupancy<C>(s: Hub<C>, ch: uint32): nat {
    |At(s.voiceChannels, ch)|
  }

  /** The connections a handler may add to a channel. */
  ghost function Entering<C>(s: Hub<C>, op: Op<C>, ch: uint32): set<C> {
    match op
    case Join(c, _, channel, _, _) => if ch == channel then {c} else {}
    case Move(_, target, to) => if ch == to then At(s.userClients, target) else {}
    case _ => {}
  }

  lemma {:induction false} DisconnectAllShrinks<C>(s: Hub<C>, order: seq<C>, ch: uint32)
    ensures At(DisconnectAll(s, order).voiceChannels, ch) <= At(s.voiceChannels, ch)
  {
    if order == [] {
    } else {
      DisconnectAllShrinks(s, order[..|order| - 1], ch);
    }
  }

  lemma OnlyEntering<C>(s: Hub<C>, catalog: map<uint32, Channel>, op: Op<C>, ch: uint32)
    ensures At(Apply(s, catalog, op).voiceChannels, ch) <= At(s.voiceChannels, ch) + Entering(s, op, ch)
  {
    if op.Kick? {
      DisconnectAllShrinks(Unseat(s, op.target), op.order, ch);
    }
  }

  /** A move adds at most the target's connections; any other handler adds none to a channel that is already full. */
  lemma OccupancyStep<C>(s: Hub<C>, catalog: map<uint32, Channel>, op: Op<C>, ch: uint32)
    ensures var t := Apply(s, catalog, op);
      if op.Move? then Occupancy(t, ch) <= Occupancy(s, ch) + |Entering(s, op, ch)|
      else Occupancy(t, ch) <= Occupancy(s, ch) || Occupancy(t, ch) <= Capacity(catalog, ch)
  {
    var before, after, entering := At(s.voiceChannels, ch), At(Apply(s, catalog, op).voiceChannels, ch), Entering(s, op, ch);
    OnlyEntering(s, catalog, op, ch);
    SubsetSize(after, before + entering);
    if entering <= before {
      assert before + entering == before;
    }
  }

  /** An accepted move into the channel finds room there for all connections it brings. */
  ghost predicate HasRoomIn<C>(s: Hub<C>, catalog: map<uint32, Channel>, op: Op<C>, ch: uint32) {
    op.Move? && MoveReply(s, op.permitted, op.target) == Accepted && op.to == ch ==>
      |At(s.voiceChannels, ch) + At(s.userClients, op.target)| <= Capacity(catalog, ch)
  }

  ghost predicate HasRoom<C>(s: Hub<C>, catalog: map<uint32, Channel>, op: Op<C>) {
    op.Move? ==> HasRoomIn(s, catalog, op, op.to)
  }

  ghost predicate WithinLimits<C>(s: Hub<C>, catalog: map<uint32, Channel>) {
    forall ch :: Occupancy(s, ch) <= Capacity(catalog, ch)
  }

  lemma MovedOccupancy<C>(s: Hub<C>, target: uint32, to: uint32, ch: uint32)
    requires target in s.voiceStates
    ensures var t := AfterMove(s, target, to);
      if ch == to then At(t.voiceChannels, ch) == At(s.voiceChannels, ch) + At(s.userClients, target)
      else At(t.voiceChannels, ch) <= At(s.voiceChannels, ch)
  {
  }

  /** A handler keeps a channel's limit if and only if it is not an accepted move into it without room. */
  lemma LimitKeptExactly<C>(s: Hub<C>, catalog: map<uint32, Channel>, op: Op<C>, ch: uint32)
    requires Occupancy(s, ch) <= Capacity(catalog, ch)
    ensures Occupancy(Apply(s, catalog, op), ch) <= Capacity(catalog, ch) <==> HasRoomIn(s, catalog, op, ch)
  {
    if op.Move? && MoveReply(s, op.permitted, op.target) == Accepted {
      MovedOccupancy(s, op.target, op.to, ch);
      if op.to != ch {
        SubsetSize(At(Apply(s, catalog, op).voiceChannels, ch), At(s.voiceChannels, ch));
      }
    } else {
      OccupancyStep(s, catalog, op, ch);
    }
  }

  /** The same for all channels at once. */
  lemma LimitsKeptExactly<C>(s: Hub<C>, catalog: map<uint32, Channel>, op: Op<C>)
    requires WithinLimits(s, catalog)
    ensures WithinLimits(Apply(s, catalog, op), catalog) <==> HasRoom(s, catalog, op)
  {
    var t := Apply(s, catalog, op);
    forall ch ensures Occupancy(t, ch) <= Capacity(catalog, ch) <==> HasRoomIn(s, catalog, op, ch) {
      LimitKeptExactly(s, catalog, op, ch);
    }
    if op.Move? {
      assert Occupancy(t, op.to) <= Capacity(catalog, op.to) <==> HasRoomIn(s, catalog, op, op.to);
    }
  }

  /**
  Over any run, moves included, a channel holds no more connections than its limit as long as every accepted move into
  it found room, and the first one that does not find room is the step that breaks the limit.
  */
  lemma {:induction false} OccupancyBounded<C>(states: seq<Hub<C>>, catalog: map<uint32, Channel>, ops: seq<Op<C>>,
                                              ch: uint32, i: nat)
    requires Execution(states, catalog, ops) && states[0] == Empty() && i <= |ops|
    requires forall k :: k in catalog ==> catalog[k].userLimit >= 0
    requires forall k :: 0 <= k < i ==> HasRoomIn(states[k], catalog, ops[k], ch)
    ensures Occupancy(states[i], ch) <= Capacity(catalog, ch)
    ensures i < |ops| ==>
      (Occupancy(states[i + 1], ch) <= Capacity(catalog, ch) <==> HasRoomIn(states[i], catalog, ops[i], ch))
  {
    if i == 0 {
    } else {
      OccupancyBounded(states, catalog, ops, ch, i - 1);
    }
    if i < |ops| {
      LimitKeptExactly(states[i], catalog, ops[i], ch);
    }
  }

  /** The same for all channels at once. */
  lemma {:induction false} LimitsHold<C>(states: seq<Hub<C>>, catalog: map<uint32, Channel>, ops: seq<Op<C>>, i: nat)
    requires Execution(states, catalog, ops) && states[0] == Empty() && i <= |ops|
    requires forall k :: k in catalog ==> catalog[k].userLimit >= 0
    requires forall k :: 0 <= k < i ==> HasRoom(states[k], catalog, ops[k])
    ensures WithinLimits(states[i], catalog)
    ensures i < |ops| ==> (WithinLimits(states[i + 1], catalog) <==> HasRoom(states[i], catalog, ops[i]))
  {
    if i == 0 {
    } else {
      LimitsHold(states, catalog, ops, i - 1);
    }
    if i < |ops| {
      LimitsKeptExactly(states[i], catalog, ops[i]);
    }
  }

  // ---------------------------------------------------------------------------
  // The audio plane after a kick

  /** Neither a session nor a pending token of the user is left. */
  ghost predicate Gone<R>(audio: SI.State<R>, user: uint32) {
    && user !in audio.byUser
    && (forall t :: t in audio.pending ==> audio.pending[t].userId != user)
    && (forall a :: a in audio.byAddr ==> SI.Get(audio, audio.byAddr[a]).userId != user)
  }

  lemma RemoveSessionForgets<R>(audio: SI.State<R>, user: uint32)
    requires SI.Sound(audio)
    ensures Gone(SI.Apply(audio, SI.RemoveSession(user)), user)
    ensures SI.Partition(audio) ==> forall ch :: !SI.InBucket(SI.Apply(audio, SI.RemoveSession(user)), ch, user)
  {
    var op: SI.Op<R> := SI.RemoveSession(user);
    SI.ApplyKeeps(audio, op);
    var t := SI.Apply(audio, op);
    if SI.Partition(audio) {
      assert SI.KeepsChannel(audio, op) && SI.Partition(t);
      forall ch ensures !SI.InBucket(t, ch, user) {
        assert SI.InBucket(t, ch, user) <==> SI.LiveIn(t, ch, user);
      }
    }
  }

  /** The repeated removals of a kick, one for each connection in voice, change nothing more. */
  lemma RemoveTwice<R>(audio: SI.State<R>, user: uint32)
    ensures var t := SI.Apply(audio, SI.RemoveSession(user)); SI.Apply(t, SI.RemoveSession(user)) == t
  {
    var t := SI.Apply(audio, SI.RemoveSession(user));
    assert SI.Revoke(t, user) == t;
    SI.EvictNobody(t, {user});
  }

  /** The audio side of a disconnect: a connection in voice takes its user's session along. */
  ghost function DisconnectAudio<C, R>(s: Hub<C>, audio: SI.State<R>, c: C): SI.State<R> {
    if c in s.clients && Get(s, c).authenticated && Get(s, c).activeVoice > 0
    then SI.Apply(audio, SI.RemoveSession(Get(s, c).userId)) else audio
  }

  ghost function DisconnectAllAudio<C, R>(s: Hub<C>, audio: SI.State<R>, order: seq<C>): SI.State<R> {
    if order == [] then audio else
      var front, last := order[..|order| - 1], order[|order| - 1];
      DisconnectAudio(DisconnectAll(s, front), DisconnectAllAudio(s, audio, front), last)
  }

  ghost function KickAudio<C, R>(s: Hub<C>, audio: SI.State<R>, target: uint32, order: seq<C>): SI.State<R> {
    DisconnectAllAudio(Unseat(s, target), SI.Apply(audio, SI.RemoveSession(target)), order)
  }

  lemma {:induction false} DisconnectAllAudioSame<C, R>(s: Hub<C>, audio: SI.State<R>, target: uint32, order: seq<C>)
    requires forall c :: c in order ==> Get(s, c).userId == target
    requires SI.Apply(audio, SI.RemoveSession(target)) == audio
    ensures DisconnectAllAudio(s, audio, order) == audio
  {
    if order == [] {
    } else {
      var front, last := order[..|order| - 1], order[|order| - 1];
      DisconnectAllAudioSame(s, audio, target, front);
      DisconnectAllSameUser(s, front, last);
      assert last in order;
    }
  }

  /** In a linked hub a completed kick leaves the target no audio session and no pending token, and touches no one else's. */
  lemma KickSilences<C, R>(s: Hub<C>, audio: SI.State<R>, target: uint32, order: seq<C>)
    requires Linked(s) && SI.Sound(audio) && Enumerates(order, At(s.userClients, target))
    ensures KickAudio(s, audio, target, order) == SI.Apply(audio, SI.RemoveSession(target))
    ensures Gone(KickAudio(s, audio, target, order), target)
  {
    RemoveSessionForgets(audio, target);
    RemoveTwice(audio, target);
    DisconnectAllAudioSame(Unseat(s, target), SI.Apply(audio, SI.RemoveSession(target)), target, order);
  }
}
