/**
The control plane's connection maps as a state machine (backend/internal/control/hub.go and handler.go).  `Apply` is
one complete handler, run for a registered connection.  C is the type of connection references.
*/
module HubState {
  import opened Basics

  datatype Conn = Conn(userId: uint32, authenticated: bool, activeVoice: uint32, closed: bool)

  datatype VoiceState = VoiceState(
    channelId: uint32,
    selfMuted: bool,
    selfDeafened: bool,
    isSpeaking: bool,
    serverMuted: bool,
    serverDeafened: bool)

  /** A channel row: the limit 0 stands for DEFAULT_LIMIT. */
  datatype Channel = Channel(isVoice: bool, userLimit: int)

  const DEFAULT_LIMIT := 15
  const CREATOR: uint32 := 1

  datatype Hub<C(==)> = Hub(
    conns: map<C, Conn>, // every connection object ever made
    clients: set<C>,
    userClients: map<uint32, set<C>>,
    voiceChannels: map<uint32, set<C>>,
    voiceStates: map<uint32, VoiceState>)

  ghost function Empty<C>(): Hub<C> {
    Hub(map[], {}, map[], map[], map[])
  }

  /** A Go map lookup of a set: nil and empty are the same. */
  ghost function At<C>(m: map<uint32, set<C>>, key: uint32): set<C> {
    if key in m then m[key] else {}
  }

  ghost function Insert<C>(m: map<uint32, set<C>>, key: uint32, c: C): (r: map<uint32, set<C>>)
    ensures forall k :: At(r, k) == if k == key then At(m, k) + {c} else At(m, k)
  {
    m[key := At(m, key) + {c}]
  }

  /** delete(m[key], c), leaving an emptied set behind. */
  ghost function Delete<C>(m: map<uint32, set<C>>, key: uint32, c: C): (r: map<uint32, set<C>>)
    ensures forall k :: At(r, k) == if k == key then At(m, k) - {c} else At(m, k)
  {
    if key in m then m[key := m[key] - {c}] else m
  }

  ghost function DeleteAll<C>(m: map<uint32, set<C>>, key: uint32, cs: set<C>): (r: map<uint32, set<C>>)
    ensures forall k :: At(r, k) == if k == key then At(m, k) - cs else At(m, k)
  {
    if key in m then m[key := m[key] - cs] else m
  }

  /** The same as Delete, dropping the key when the set empties. */
  ghost function DeletePruned<C>(m: map<uint32, set<C>>, key: uint32, c: C): (r: map<uint32, set<C>>)
    ensures forall k :: At(r, k) == if k == key then At(m, k) - {c} else At(m, k)
  {
    if key !in m then m else if m[key] - {c} == {} then m - {key} else m[key := m[key] - {c}]
  }

  // ---------------------------------------------------------------------------
  // Handlers

  datatype MarkOp =
    | SelfMarks(muted: bool, deafened: bool, speaking: bool)
    | ServerMute(muted: bool)
    | ServerDeafen(deafened: bool)

  datatype Op<C> =
    | Connect(c: C)
    | Authenticate(c: C, user: uint32)
    | Join(c: C, permitted: bool, channel: uint32, selfMuted: bool, selfDeafened: bool)
    | Leave(c: C)
    | SetVoiceState(c: C, selfMuted: bool, selfDeafened: bool, speaking: bool)
    | Move(permitted: bool, target: uint32, to: uint32)
    | SetServerMute(permitted: bool, target: uint32, muted: bool)
    | SetServerDeafen(permitted: bool, target: uint32, deafened: bool)
    | Kick(permitted: bool, target: uint32, order: seq<C>) // order: how the map of the target's connections iterates
    | Disconnect(c: C)

  datatype Reply =
    | Accepted
    | Forbidden
    | InvalidParams
    | ChannelNotFound
    | InvalidChannelType
    | ChannelFull
    | ImmutableCreatorRole
    | InternalError // no voice token could be issued
    | Silent // the connection is gone: no answer

  ghost function Get<C>(s: Hub<C>, c: C): Conn {
    if c in s.conns then s.conns[c] else Conn(0, false, 0, false)
  }

  ghost predicate Enabled<C>(s: Hub<C>, op: Op<C>) {
    match op
    case Connect(c) => c !in s.conns
    case Authenticate(c, _) => c in s.clients
    case Join(c, _, _, _, _) => c in s.clients && Get(s, c).authenticated
    case Leave(c) => c in s.clients && Get(s, c).authenticated
    case SetVoiceState(c, _, _, _) => c in s.clients && Get(s, c).authenticated
    case Move(_, _, _) => true
    case SetServerMute(_, _, _) => true
    case SetServerDeafen(_, _, _) => true
    case Kick(_, target, order) => Enumerates(order, At(s.userClients, target))
    case Disconnect(c) => c in s.conns
  }

  ghost function Elements<C>(order: seq<C>): set<C> {
    set c | c in order
  }

  ghost function Capacity(catalog: map<uint32, Channel>, channel: uint32): int {
    if channel !in catalog then 0
    else if catalog[channel].userLimit == 0 then DEFAULT_LIMIT
    else catalog[channel].userLimit
  }

  ghost function JoinReply<C>(s: Hub<C>, catalog: map<uint32, Channel>, c: C, permitted: bool, channel: uint32): Reply {
    if !permitted then Forbidden
    else if channel == 0 then InvalidParams
    else if channel !in catalog then ChannelNotFound
    else if !catalog[channel].isVoice then InvalidChannelType
    else if c !in s.clients || Get(s, c).closed then Silent
    else if |At(s.voiceChannels, channel)| >= Capacity(catalog, channel) && c !in At(s.voiceChannels, channel) then ChannelFull
    else Accepted
  }

  ghost function Reseated<C>(m: map<uint32, set<C>>, from: uint32, to: uint32, c: C): (r: map<uint32, set<C>>)
    ensures forall k :: At(r, k) == (if k == from && from > 0 then At(m, k) - {c} else At(m, k)) + (if k == to then {c} else {})
  {
    Insert(if from > 0 && from != to then Delete(m, from, c) else m, to, c)
  }

  /** The voice state of a connection that has just joined. */
  function NewState(channel: uint32, selfMuted: bool, selfDeafened: bool): VoiceState {
    VoiceState(channel, selfMuted, selfDeafened, false, false, false)
  }

  ghost function AfterJoin<C>(s: Hub<C>, c: C, channel: uint32, selfMuted: bool, selfDeafened: bool): Hub<C> {
    s.(conns := s.conns[c := Get(s, c).(activeVoice := channel)],
       voiceChannels := Reseated(s.voiceChannels, Get(s, c).activeVoice, channel, c),
       voiceStates := s.voiceStates[Get(s, c).userId := NewState(channel, selfMuted, selfDeafened)])
  }

  ghost function AfterLeave<C>(s: Hub<C>, c: C): Hub<C> {
    var from := Get(s, c).activeVoice;
    if from == 0 then s else
      s.(conns := s.conns[c := Get(s, c).(activeVoice := 0)],
         voiceChannels := Delete(s.voiceChannels, from, c),
         voiceStates := s.voiceStates - {Get(s, c).userId})
  }

  ghost function MoveReply<C>(s: Hub<C>, permitted: bool, target: uint32): Reply {
    if !permitted then Forbidden
    else if target !in s.voiceStates || s.voiceStates[target].channelId == 0 then InvalidParams
    else Accepted
  }

  ghost function MovedChannels<C>(m: map<uint32, set<C>>, moved: set<C>, from: uint32, to: uint32)
    : (r: map<uint32, set<C>>)
    ensures forall k :: At(r, k) == (if k == from then At(m, k) - moved else At(m, k)) + (if k == to then moved else {})
  {
    if moved == {} then m else
      var left := DeleteAll(m, from, moved);
      left[to := At(left, to) + moved]
  }

  /** All of the target's connections go to the new channel; they leave only the channel of the voice state. */
  ghost function AfterMove<C>(s: Hub<C>, target: uint32, to: uint32): Hub<C>
    requires target in s.voiceStates
  {
    var from := s.voiceStates[target].channelId;
    var moved := At(s.userClients, target);
    s.(conns := map c | c in s.conns :: if c in moved then s.conns[c].(activeVoice := to) else s.conns[c],
       voiceChannels := MovedChannels(s.voiceChannels, moved, from, to),
       voiceStates := s.voiceStates[target := s.voiceStates[target].(channelId := to)])
  }

  /** What the three handlers that only mark a voice state make of it. */
  ghost function Marked(state: VoiceState, op: MarkOp): VoiceState {
    match op
    case SelfMarks(muted, deafened, speaking) =>
      state.(selfMuted := muted, selfDeafened := deafened, isSpeaking := speaking)
    case ServerMute(muted) => state.(serverMuted := muted)
    case ServerDeafen(deafened) => state.(serverDeafened := deafened)
  }

  /** A user who is not in voice has nothing to mark. */
  ghost function AfterMark<C>(s: Hub<C>, user: uint32, op: MarkOp): Hub<C> {
    if user in s.voiceStates then s.(voiceStates := s.voiceStates[user := Marked(s.voiceStates[user], op)]) else s
  }

  ghost function KickReply(permitted: bool, target: uint32): Reply {
    if !permitted then Forbidden else if target == CREATOR then ImmutableCreatorRole else Accepted
  }

  /** The first critical section of a kick: the voice state goes, and with it the places in its channel. */
  ghost function Unseat<C>(s: Hub<C>, target: uint32): Hub<C> {
    if target !in s.voiceStates then s else
      s.(voiceChannels := DeleteAll(s.voiceChannels, s.voiceStates[target].channelId, At(s.userClients, target)),
         voiceStates := s.voiceStates - {target})
  }

  /** Takes an authenticated connection out of the maps, pruning what that empties. */
  ghost function Unlisted<C>(s: Hub<C>, c: C, user: uint32, active: uint32): Hub<C> {
    var users := DeletePruned(s.userClients, user, c);
    s.(userClients := users,
       voiceChannels := if active > 0 then DeletePruned(s.voiceChannels, active, c) else s.voiceChannels,
       voiceStates := if active > 0 || At(users, user) == {} then s.voiceStates - {user} else s.voiceStates)
  }

  ghost function AfterDisconnect<C>(s: Hub<C>, c: C): Hub<C> {
    if c !in s.clients then s else
      var conn := Get(s, c);
      var t := s.(conns := s.conns[c := conn.(closed := true)], clients := s.clients - {c});
      if conn.authenticated then Unlisted(t, c, conn.userId, conn.activeVoice) else t
  }

  ghost function DisconnectAll<C>(s: Hub<C>, order: seq<C>): Hub<C> {
    if order == [] then s else AfterDisconnect(DisconnectAll(s, order[..|order| - 1]), order[|order| - 1])
  }

  /** Then each of the target's connections is unregistered in turn. */
  ghost function AfterKick<C>(s: Hub<C>, target: uint32, order: seq<C>): Hub<C> {
    DisconnectAll(Unseat(s, target), order)
  }

  ghost function Apply<C>(s: Hub<C>, catalog: map<uint32, Channel>, op: Op<C>): Hub<C> {
    match op
    case Connect(c) => s.(conns := s.conns[c := Conn(0, false, 0, false)], clients := s.clients + {c})
    case Authenticate(c, user) =>
      s.(conns := s.conns[c := Get(s, c).(userId := user, authenticated := true)],
         userClients := Insert(s.userClients, user, c))
    case Join(c, permitted, channel, selfMuted, selfDeafened) =>
      if JoinReply(s, catalog, c, permitted, channel) == Accepted then AfterJoin(s, c, channel, selfMuted, selfDeafened) else s
    case Leave(c) => AfterLeave(s, c)
    case SetVoiceState(c, muted, deafened, speaking) => AfterMark(s, Get(s, c).userId, SelfMarks(muted, deafened, speaking))
    case SetServerMute(permitted, target, muted) => if permitted then AfterMark(s, target, ServerMute(muted)) else s
    case SetServerDeafen(permitted, target, deafened) => if permitted then AfterMark(s, target, ServerDeafen(deafened)) else s
    case Move(permitted, target, to) => if MoveReply(s, permitted, target) == Accepted then AfterMove(s, target, to) else s
    case Kick(permitted, target, order) => if KickReply(permitted, target) == Accepted then AfterKick(s, target, order) else s
    case Disconnect(c) => AfterDisconnect(s, c)
  }

  /** Moving one more connection is one turn of the code's loop. */
  lemma MovedOneMore<C>(m: map<uint32, set<C>>, moved: set<C>, from: uint32, to: uint32, c: C)
    requires c !in moved
    ensures Insert(Delete(MovedChannels(m, moved, from, to), from, c), to, c) == MovedChannels(m, moved + {c}, from, to)
  {
    var l, r := Insert(Delete(MovedChannels(m, moved, from, to), from, c), to, c), MovedChannels(m, moved + {c}, from, to);
    assert l.Keys == r.Keys;
    forall k | k in l ensures l[k] == r[k] {
      var base := At(m, k);
      assert base - (moved + {c}) == (base - moved) - {c};
      assert ((base - moved) + moved) - {c} + {c} == (base - (moved + {c})) + (moved + {c});
      assert l[k] == At(l, k) && r[k] == At(r, k);
    }
  }

  // ---------------------------------------------------------------------------
  // The links between the maps

  /** A registered connection is open, known, and authenticated before it enters voice. */
  ghost predicate ClientsSound<C>(s: Hub<C>) {
    forall c :: c in s.clients ==>
      c in s.conns && !s.conns[c].closed && (s.conns[c].activeVoice > 0 ==> s.conns[c].authenticated)
  }

  ghost predicate ConnectedAs<C>(s: Hub<C>, c: C, user: uint32) {
    c in s.clients && Get(s, c).authenticated && Get(s, c).userId == user
  }

  ghost predicate Seated<C>(s: Hub<C>, c: C, ch: uint32) {
    c in s.clients && Get(s, c).activeVoice == ch && ch > 0
  }

  ghost predicate UserLink<C>(s: Hub<C>) {
    && (forall u, c :: c in At(s.userClients, u) ==> ConnectedAs(s, c, u))
    && (forall c :: c in s.clients && Get(s, c).authenticated ==> c in At(s.userClients, Get(s, c).userId))
  }

  /** A registered connection is in voiceChannels[ch] exactly when its active voice channel is ch > 0; `doomed`
      connections, about to be unregistered, may be missing. */
  ghost predicate MemberLinkExcept<C>(s: Hub<C>, doomed: set<C>) {
    && (forall ch, c :: c in At(s.voiceChannels, ch) ==> Seated(s, c, ch))
    && (forall c :: c in s.clients && c !in doomed && Get(s, c).activeVoice > 0 ==>
         c in At(s.voiceChannels, Get(s, c).activeVoice))
  }

  ghost predicate MemberLink<C>(s: Hub<C>) {
    MemberLinkExcept(s, {})
  }

  /** The connection that a voice state stands for. */
  ghost predicate SpeaksFor<C>(s: Hub<C>, c: C, user: uint32, ch: uint32) {
    ConnectedAs(s, c, user) && Seated(s, c, ch)
  }

  /** A voice state names the channel some connection of its user sits in. */
  ghost predicate StateSound<C>(s: Hub<C>) {
    forall u :: u in s.voiceStates ==> exists c :: c in s.clients && SpeaksFor(s, c, u, s.voiceStates[u].channelId)
  }

  ghost predicate LinkedExcept<C>(s: Hub<C>, doomed: set<C>) {
    ClientsSound(s) && UserLink(s) && MemberLinkExcept(s, doomed) && StateSound(s)
  }

  ghost predicate Linked<C>(s: Hub<C>) {
    LinkedExcept(s, {})
  }

  /**
  The two restrictions the code relies on: a connection authenticates only as the user it is, and a move goes to a
  real channel and finds each of the target's connections out of voice, in the channel of the voice state, or already
  at the destination.
  */
  ghost predicate KeepsLinks<C>(s: Hub<C>, op: Op<C>) {
    match op
    case Authenticate(c, user) => Get(s, c).authenticated ==> Get(s, c).userId == user
    case Move(permitted, target, to) => MoveReply(s, permitted, target) == Accepted ==>
      to > 0 && forall c :: c in At(s.userClients, target) ==> Get(s, c).activeVoice in {0, s.voiceStates[target].channelId, to}
    case _ => true
  }

  // ---------------------------------------------------------------------------
  // Each handler and the links

  lemma ConnectKeeps<C>(s: Hub<C>, c: C)
    requires Linked(s) && c !in s.conns
    ensures Linked(Apply(s, map[], Connect(c)))
  {
  }

  lemma AuthenticateKeepsStates<C>(s: Hub<C>, c: C, user: uint32)
    requires Linked(s) && c in s.clients && KeepsLinks(s, Authenticate(c, user))
    ensures StateSound(Apply(s, map[], Authenticate(c, user)))
  {
    var t := Apply(s, map[], Authenticate(c, user));
    forall u | u in t.voiceStates ensures exists d :: d in t.clients && SpeaksFor(t, d, u, t.voiceStates[u].channelId) {
      var d :| d in s.clients && SpeaksFor(s, d, u, s.voiceStates[u].channelId);
      assert SpeaksFor(t, d, u, t.voiceStates[u].channelId);
    }
  }

  lemma AuthenticateExact<C>(s: Hub<C>, c: C, user: uint32)
    requires Linked(s) && c in s.clients
    ensures Linked(Apply(s, map[], Authenticate(c, user))) <==> KeepsLinks(s, Authenticate(c, user))
  {
    var t := Apply(s, map[], Authenticate(c, user));
    if KeepsLinks(s, Authenticate(c, user)) {
      AuthenticateKeepsStates(s, c, user);
    } else {
      assert c in At(t.userClients, s.conns[c].userId);
    }
  }

  lemma JoinKeepsMembers<C>(s: Hub<C>, c: C, channel: uint32, selfMuted: bool, selfDeafened: bool)
    requires Linked(s) && c in s.clients && Get(s, c).authenticated && channel > 0
    ensures var t := AfterJoin(s, c, channel, selfMuted, selfDeafened); ClientsSound(t) && UserLink(t) && MemberLink(t)
  {
  }

  lemma JoinKeepsStates<C>(s: Hub<C>, c: C, channel: uint32, selfMuted: bool, selfDeafened: bool)
    requires Linked(s) && c in s.clients && Get(s, c).authenticated && channel > 0
    ensures StateSound(AfterJoin(s, c, channel, selfMuted, selfDeafened))
  {
    var t, user := AfterJoin(s, c, channel, selfMuted, selfDeafened), Get(s, c).userId;
    forall u | u in t.voiceStates ensures exists d :: d in t.clients && SpeaksFor(t, d, u, t.voiceStates[u].channelId) {
      if u == user {
        assert SpeaksFor(t, c, u, channel);
      } else {
        var d :| d in s.clients && SpeaksFor(s, d, u, s.voiceStates[u].channelId);
        assert SpeaksFor(t, d, u, t.voiceStates[u].channelId);
      }
    }
  }

  lemma LeaveKeeps<C>(s: Hub<C>, c: C)
    requires Linked(s) && c in s.clients
    ensures Linked(AfterLeave(s, c))
  {
  }

  /** Marking a voice state moves nobody. */
  lemma MarkKeeps<C>(s: Hub<C>, user: uint32, op: MarkOp)
    requires Linked(s)
    ensures Linked(AfterMark(s, user, op))
  {
    var t := AfterMark(s, user, op);
    forall u | u in t.voiceStates ensures exists d :: d in t.clients && SpeaksFor(t, d, u, t.voiceStates[u].channelId) {
      var d :| d in s.clients && SpeaksFor(s, d, u, s.voiceStates[u].channelId);
      assert SpeaksFor(t, d, u, t.voiceStates[u].channelId);
    }
  }

  lemma DisconnectKeepsUsers<C>(s: Hub<C>, c: C, doomed: set<C>)
    requires LinkedExcept(s, doomed)
    ensures var t := AfterDisconnect(s, c); ClientsSound(t) && UserLink(t)
  {
  }

  lemma DisconnectKeepsMembers<C>(s: Hub<C>, c: C, doomed: set<C>)
    requires LinkedExcept(s, doomed)
    ensures MemberLinkExcept(AfterDisconnect(s, c), doomed - {c})
  {
  }

  lemma DisconnectKeepsStates<C>(s: Hub<C>, c: C, doomed: set<C>)
    requires LinkedExcept(s, doomed)
    ensures StateSound(AfterDisconnect(s, c))
  {
    var t := AfterDisconnect(s, c);
    forall u | u in t.voiceStates ensures exists d :: d in t.clients && SpeaksFor(t, d, u, t.voiceStates[u].channelId) {
      var d :| d in s.clients && SpeaksFor(s, d, u, s.voiceStates[u].channelId);
      assert SpeaksFor(t, d, u, t.voiceStates[u].channelId);
    }
  }

  lemma DisconnectKeeps<C>(s: Hub<C>, c: C, doomed: set<C>)
    requires LinkedExcept(s, doomed)
    ensures LinkedExcept(AfterDisconnect(s, c), doomed - {c})
  {
    DisconnectKeepsUsers(s, c, doomed);
    DisconnectKeepsMembers(s, c, doomed);
    DisconnectKeepsStates(s, c, doomed);
  }

  lemma MoveKeepsUsers<C>(s: Hub<C>, target: uint32, to: uint32)
    requires Linked(s) && target in s.voiceStates
    ensures var t := AfterMove(s, target, to); ClientsSound(t) && UserLink(t)
  {
  }

  lemma MoveSeats<C>(s: Hub<C>, target: uint32, to: uint32)
    requires Linked(s) && target in s.voiceStates && to > 0
    requires forall c :: c in At(s.userClients, target) ==>
      Get(s, c).activeVoice in {0, s.voiceStates[target].channelId, to}
    ensures var t := AfterMove(s, target, to); forall ch, c :: c in At(t.voiceChannels, ch) ==> Seated(t, c, ch)
  {
    var t, moved := AfterMove(s, target, to), At(s.userClients, target);
    forall ch, c | c in At(t.voiceChannels, ch) ensures Seated(t, c, ch) {
      if c in moved {
        assert c in At(s.voiceChannels, ch) ==> Seated(s, c, ch);
      } else {
        assert c in At(s.voiceChannels, ch);
      }
    }
  }

  lemma MoveLists<C>(s: Hub<C>, target: uint32, to: uint32)
    requires Linked(s) && target in s.voiceStates
    ensures var t := AfterMove(s, target, to);
      forall c :: c in t.clients && Get(t, c).activeVoice > 0 ==> c in At(t.voiceChannels, Get(t, c).activeVoice)
  {
  }

  lemma MoveKeepsMembers<C>(s: Hub<C>, target: uint32, to: uint32)
    requires Linked(s) && target in s.voiceStates && to > 0
    requires forall c :: c in At(s.userClients, target) ==>
      Get(s, c).activeVoice in {0, s.voiceStates[target].channelId, to}
    ensures MemberLink(AfterMove(s, target, to))
  {
    MoveSeats(s, target, to);
    MoveLists(s, target, to);
  }

  lemma MoveKeepsStates<C>(s: Hub<C>, target: uint32, to: uint32)
    requires Linked(s) && target in s.voiceStates && to > 0
    ensures StateSound(AfterMove(s, target, to))
  {
    var t := AfterMove(s, target, to);
    forall u | u in t.voiceStates ensures exists d :: d in t.clients && SpeaksFor(t, d, u, t.voiceStates[u].channelId) {
      var d :| d in s.clients && SpeaksFor(s, d, u, s.voiceStates[u].channelId);
      assert d in At(s.userClients, u);
      assert SpeaksFor(t, d, u, t.voiceStates[u].channelId);
    }
  }

  lemma MoveExact<C>(s: Hub<C>, target: uint32, to: uint32)
    requires Linked(s) && target in s.voiceStates
    ensures Linked(AfterMove(s, target, to)) <==> KeepsLinks(s, Move(true, target, to))
  {
    var t, moved, from := AfterMove(s, target, to), At(s.userClients, target), s.voiceStates[target].channelId;
    var w :| w in s.clients && SpeaksFor(s, w, target, from);
    assert w in moved && from > 0;
    if KeepsLinks(s, Move(true, target, to)) {
      MoveKeepsUsers(s, target, to);
      MoveKeepsMembers(s, target, to);
      MoveKeepsStates(s, target, to);
    } else if to == 0 {
      assert w in At(t.voiceChannels, to) && !Seated(t, w, to);
    } else {
      var c :| c in moved && Get(s, c).activeVoice !in {0, from, to};
      var stray := Get(s, c).activeVoice;
      assert c in At(s.voiceChannels, stray);
      assert c in At(t.voiceChannels, stray) && !Seated(t, c, stray);
    }
  }

  lemma UnseatKeeps<C>(s: Hub<C>, target: uint32)
    requires Linked(s)
    ensures LinkedExcept(Unseat(s, target), At(s.userClients, target))
    ensures target !in Unseat(s, target).voiceStates
  {
  }

  /** The loop over disconnects: the listed connections go, and no links but theirs were missing. */
  lemma {:induction false} DisconnectAllKeeps<C>(s: Hub<C>, order: seq<C>, doomed: set<C>)
    requires LinkedExcept(s, doomed)
    ensures var t := DisconnectAll(s, order);
      && LinkedExcept(t, doomed - Elements(order))
      && t.clients == s.clients - Elements(order)
      && (forall u :: u !in s.voiceStates ==> u !in t.voiceStates)
  {
    if order == [] {
    } else {
      var front, last := order[..|order| - 1], order[|order| - 1];
      DisconnectAllKeeps(s, front, doomed);
      DisconnectKeeps(DisconnectAll(s, front), last, doomed - Elements(front));
      assert Elements(order) == Elements(front) + {last};
      var m := DisconnectAll(s, front);
      assert AfterDisconnect(m, last).clients == m.clients - {last};
      assert s.clients - Elements(order) == (s.clients - Elements(front)) - {last};
      assert doomed - Elements(order) == (doomed - Elements(front)) - {last};
    }
  }

  lemma KickKeeps<C>(s: Hub<C>, target: uint32, order: seq<C>)
    requires Linked(s) && Enumerates(order, At(s.userClients, target))
    ensures Linked(AfterKick(s, target, order))
  {
    UnseatKeeps(s, target);
    DisconnectAllKeeps(Unseat(s, target), order, At(s.userClients, target));
    assert At(s.userClients, target) - Elements(order) == {};
  }

  /**
  Every handler keeps the links between connections, user sets, channel sets and voice states, except, exactly, a
  second authentication as someone else and a move that breaks its restrictions.
  */
  lemma ApplyKeepsLinks<C>(s: Hub<C>, catalog: map<uint32, Channel>, op: Op<C>)
    requires Linked(s) && Enabled(s, op)
    ensures Linked(Apply(s, catalog, op)) <==> KeepsLinks(s, op)
  {
    match op
    case Connect(c) => ConnectKeeps(s, c);
    case Authenticate(c, user) => AuthenticateExact(s, c, user);
    case Join(c, permitted, channel, selfMuted, selfDeafened) =>
      if JoinReply(s, catalog, c, permitted, channel) == Accepted {
        JoinKeepsMembers(s, c, channel, selfMuted, selfDeafened);
        JoinKeepsStates(s, c, channel, selfMuted, selfDeafened);
      }
    case Leave(c) => LeaveKeeps(s, c);
    case SetVoiceState(c, muted, deafened, speaking) => MarkKeeps(s, Get(s, c).userId, SelfMarks(muted, deafened, speaking));
    case SetServerMute(_, target, muted) => MarkKeeps(s, target, ServerMute(muted));
    case SetServerDeafen(_, target, deafened) => MarkKeeps(s, target, ServerDeafen(deafened));
    case Move(permitted, target, to) =>
      if MoveReply(s, permitted, target) == Accepted { MoveExact(s, target, to); }
    case Kick(permitted, target, order) =>
      if KickReply(permitted, target) == Accepted { KickKeeps(s, target, order); }
    case Disconnect(c) =>
      DisconnectKeeps(s, c, {});
      assert {} - {c} == {};
  }

  /** Unregistering connections changes nobody's identity. */
  lemma {:induction false} DisconnectAllSameUser<C>(s: Hub<C>, order: seq<C>, c: C)
    ensures Get(DisconnectAll(s, order), c).userId == Get(s, c).userId
    ensures Get(DisconnectAll(s, order), c).authenticated == Get(s, c).authenticated
  {
    if order == [] {
    } else {
      DisconnectAllSameUser(s, order[..|order| - 1], c);
    }
  }

  /** A completed kick leaves no trace of the target, however many connections he had. */
  lemma KickLeavesNothing<C>(s: Hub<C>, catalog: map<uint32, Channel>, target: uint32, order: seq<C>)
    requires Linked(s) && Enabled(s, Kick(true, target, order)) && target != CREATOR
    ensures var t := Apply(s, catalog, Kick(true, target, order));
      && (forall c :: c in s.clients && ConnectedAs(s, c, target) ==> c !in t.clients)
      && At(t.userClients, target) == {}
      && (forall c, ch :: c in At(s.userClients, target) ==> c !in At(t.voiceChannels, ch))
      && target !in t.voiceStates
  {
    var t := Apply(s, catalog, Kick(true, target, order));
    KickKeeps(s, target, order);
    UnseatKeeps(s, target);
    DisconnectAllKeeps(Unseat(s, target), order, At(s.userClients, target));
    assert forall c :: c in s.clients && ConnectedAs(s, c, target) ==> c in order;
    forall c ensures c !in At(t.userClients, target) {
      DisconnectAllSameUser(Unseat(s, target), order, c);
      assert ConnectedAs(t, c, target) ==> c in t.clients && ConnectedAs(s, c, target);
    }
  }
}
