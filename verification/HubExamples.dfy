/** Runs from the empty hub in which a step outside the restrictions of HubState and HubRuns does its damage. */
module HubExamples {
  import opened Basics
  import opened HubState
  import opened HubRuns
  import HubVoice

  /** Three voice channels with the default limit, and two with room for one connection. */
  const ROOMS: map<uint32, Channel> := map[1 := Channel(true, 0), 2 := Channel(true, 0), 3 := Channel(true, 0)]
  const BOOTHS: map<uint32, Channel> := map[1 := Channel(true, 1), 2 := Channel(true, 1)]

  /** The states of the run that performs the operations one after the other. */
  ghost function Replay<C>(catalog: map<uint32, Channel>, ops: seq<Op<C>>): (states: seq<Hub<C>>)
    ensures |states| == |ops| + 1
  {
    if ops == [] then [Empty()]
    else
      var before := Replay(catalog, ops[..|ops| - 1]);
      before + [Apply(before[|ops| - 1], catalog, ops[|ops| - 1])]
  }

  /** The operations make up a run that ends in s. */
  ghost predicate Reaches<C>(catalog: map<uint32, Channel>, ops: seq<Op<C>>, s: Hub<C>) {
    var states := Replay(catalog, ops);
    Execution(states, catalog, ops) && states[0] == Empty() && states[|ops|] == s
  }

  lemma Reach<C>(catalog: map<uint32, Channel>, ops: seq<Op<C>>, s: Hub<C>, op: Op<C>, t: Hub<C>)
    requires Reaches(catalog, ops, s) && Enabled(s, op) && t == Apply(s, catalog, op)
    ensures Reaches(catalog, ops + [op], t)
  {
    var states := Replay(catalog, ops);
    assert (ops + [op])[..|ops|] == ops;
    assert Replay(catalog, ops + [op]) == states + [t];
    ExecutionAppend(states, catalog, ops, op, t);
  }

  // ---------------------------------------------------------------------------
  // One connection, and then two

  ghost function In(user: uint32, ch: uint32): Conn {
    Conn(user, true, ch, false)
  }

  /** The operations by which a connection gets from nothing to a voice channel. */
  ghost function Entry<C>(c: C, user: uint32, ch: uint32): seq<Op<C>> {
    [Connect(c), Authenticate(c, user), Join(c, true, ch, false, false)]
  }

  ghost function Alone<C>(a: C, user: uint32, ch: uint32): Hub<C> {
    Hub(map[a := In(user, ch)], {a}, map[user := {a}], map[ch := {a}], map[user := NewState(ch, false, false)])
  }

  /** A second connection, b of user v, has entered channel k. */
  ghost function Joined<C>(a: C, u: uint32, ch: uint32, b: C, v: uint32, k: uint32): Hub<C> {
    Hub(map[a := In(u, ch), b := In(v, k)], {a, b},
        if u == v then map[u := {a, b}] else map[u := {a}, v := {b}],
        if ch == k then map[ch := {a, b}] else map[ch := {a}, k := {b}],
        map[u := NewState(ch, false, false)][v := NewState(k, false, false)])
  }

  /** A connection that has just been opened. */
  ghost function Opened<C>(a: C): Hub<C> {
    Hub(map[a := Conn(0, false, 0, false)], {a}, map[], map[], map[])
  }

  /** The same connection after its login. */
  ghost function LoggedIn<C>(a: C, user: uint32): Hub<C> {
    Hub(map[a := In(user, 0)], {a}, map[user := {a}], map[], map[])
  }

  lemma Opens<C>(a: C, catalog: map<uint32, Channel>)
    ensures Reaches(catalog, [Connect(a)], Opened(a))
  {
    assert Reaches<C>(catalog, [], Empty());
    Reach(catalog, [], Empty(), Connect(a), Opened(a));
    assert [] + [Connect(a)] == [Connect(a)];
  }

  lemma Login<C>(a: C, user: uint32, catalog: map<uint32, Channel>)
    ensures Enabled(Opened(a), Authenticate(a, user))
    ensures Apply(Opened(a), catalog, Authenticate(a, user)) == LoggedIn(a, user)
  {
    assert At(Opened(a).userClients, user) + {a} == {a};
  }

  lemma LogsIn<C>(a: C, user: uint32, catalog: map<uint32, Channel>)
    ensures Reaches(catalog, [Connect(a), Authenticate(a, user)], LoggedIn(a, user))
  {
    Opens(a, catalog);
    Login(a, user, catalog);
    Reach(catalog, [Connect(a)], Opened(a), Authenticate(a, user), LoggedIn(a, user));
    assert [Connect(a)] + [Authenticate(a, user)] == [Connect(a), Authenticate(a, user)];
  }

  lemma FirstJoins<C>(a: C, user: uint32, ch: uint32, catalog: map<uint32, Channel>)
    requires ch > 0 && ch in catalog && catalog[ch].isVoice && Capacity(catalog, ch) >= 1
    ensures var op := Join(a, true, ch, false, false);
      Enabled(LoggedIn(a, user), op) && Apply(LoggedIn(a, user), catalog, op) == Alone(a, user, ch)
  {
    var s := LoggedIn(a, user);
    assert At(s.voiceChannels, ch) + {a} == {a};
    assert JoinReply(s, catalog, a, true, ch) == Accepted;
  }

  lemma Enters<C>(a: C, user: uint32, ch: uint32, catalog: map<uint32, Channel>)
    requires ch > 0 && ch in catalog && catalog[ch].isVoice && Capacity(catalog, ch) >= 1
    ensures Reaches(catalog, Entry(a, user, ch), Alone(a, user, ch))
  {
    LogsIn(a, user, catalog);
    FirstJoins(a, user, ch, catalog);
    var op := Join(a, true, ch, false, false);
    Reach(catalog, [Connect(a), Authenticate(a, user)], LoggedIn(a, user), op, Alone(a, user, ch));
    assert [Connect(a), Authenticate(a, user)] + [op] == Entry(a, user, ch);
  }

  /** The second connection just before its join. */
  ghost function AlmostJoined<C>(a: C, u: uint32, ch: uint32, b: C, v: uint32): Hub<C> {
    Hub(map[a := In(u, ch), b := In(v, 0)], {a, b}, if u == v then map[u := {a, b}] else map[u := {a}, v := {b}],
        map[ch := {a}], map[u := NewState(ch, false, false)])
  }

  lemma SecondLogsIn<C>(a: C, u: uint32, ch: uint32, b: C, v: uint32, catalog: map<uint32, Channel>)
    requires a != b && ch > 0 && ch in catalog && catalog[ch].isVoice && Capacity(catalog, ch) >= 1
    ensures Reaches(catalog, Entry(a, u, ch) + [Connect(b)] + [Authenticate(b, v)], AlmostJoined(a, u, ch, b, v))
  {
    Enters(a, u, ch, catalog);
    var s := Alone(a, u, ch);
    var s1 := s.(conns := map[a := In(u, ch), b := Conn(0, false, 0, false)], clients := {a, b});
    Reach(catalog, Entry(a, u, ch), s, Connect(b), s1);
    assert At(s1.userClients, v) + {b} == if u == v then {a, b} else {b};
    Reach(catalog, Entry(a, u, ch) + [Connect(b)], s1, Authenticate(b, v), AlmostJoined(a, u, ch, b, v));
  }

  /** The last step of a second connection's entry. */
  lemma SecondJoins<C>(a: C, u: uint32, ch: uint32, b: C, v: uint32, k: uint32, catalog: map<uint32, Channel>)
    requires a != b && k > 0 && k in catalog && catalog[k].isVoice
    requires Capacity(catalog, k) >= if ch == k then 2 else 1
    ensures Apply(AlmostJoined(a, u, ch, b, v), catalog, Join(b, true, k, false, false)) == Joined(a, u, ch, b, v, k)
  {
    var s := AlmostJoined(a, u, ch, b, v);
    assert |At(s.voiceChannels, k)| == if ch == k then 1 else 0;
    assert JoinReply(s, catalog, b, true, k) == Accepted;
    assert At(s.voiceChannels, k) + {b} == if ch == k then {a, b} else {b};
  }

  lemma BothEnter<C>(a: C, u: uint32, ch: uint32, b: C, v: uint32, k: uint32, catalog: map<uint32, Channel>)
    requires a != b && ch > 0 && ch in catalog && catalog[ch].isVoice && Capacity(catalog, ch) >= 1
    requires k > 0 && k in catalog && catalog[k].isVoice && Capacity(catalog, k) >= if ch == k then 2 else 1
    ensures Reaches(catalog, Entry(a, u, ch) + Entry(b, v, k), Joined(a, u, ch, b, v, k))
  {
    SecondLogsIn(a, u, ch, b, v, catalog);
    SecondJoins(a, u, ch, b, v, k, catalog);
    Reach(catalog, Entry(a, u, ch) + [Connect(b)] + [Authenticate(b, v)], AlmostJoined(a, u, ch, b, v),
          Join(b, true, k, false, false), Joined(a, u, ch, b, v, k));
    assert Entry(a, u, ch) + [Connect(b)] + [Authenticate(b, v)] + [Join(b, true, k, false, false)] ==
           Entry(a, u, ch) + Entry(b, v, k);
  }

  // ---------------------------------------------------------------------------
  // What goes wrong

  /** Logging in a second time, as somebody else, leaves the connection in the first user's set. */
  lemma SecondLoginExample<C>(a: C)
    ensures var t := Hub(map[a := In(6, 0)], {a}, map[5 := {a}, 6 := {a}], map[], map[]);
      Reaches(ROOMS, [Connect(a), Authenticate(a, 5)] + [Authenticate(a, 6)], t) && !Linked(t)
  {
    LogsIn(a, 5, ROOMS);
    var s: Hub<C> := Hub(map[a := In(5, 0)], {a}, map[5 := {a}], map[], map[]);
    var t := Hub(map[a := In(6, 0)], {a}, map[5 := {a}, 6 := {a}], map[], map[]);
    assert At(s.userClients, 6) + {a} == {a};
    Reach(ROOMS, [Connect(a), Authenticate(a, 5)], s, Authenticate(a, 6), t);
    assert a in At(t.userClients, 5);
  }

  /** A move to channel 0 leaves the connection in a set for no channel, out of voice, with a voice state. */
  lemma MoveToNowhereExample<C>(a: C)
    ensures var t := AfterMove(Alone(a, 5, 1), 5, 0);
      Reaches(ROOMS, Entry(a, 5, 1) + [Move(true, 5, 0)], t) && !Linked(t) && a in At(t.voiceChannels, 0) && 5 in t.voiceStates
  {
    Enters(a, 5, 1, ROOMS);
    Reach(ROOMS, Entry(a, 5, 1), Alone(a, 5, 1), Move(true, 5, 0), AfterMove(Alone(a, 5, 1), 5, 0));
    assert a in At(AfterMove(Alone(a, 5, 1), 5, 0).voiceChannels, 0);
  }

  /** A move to a channel that is no voice channel is accepted and keeps every link. */
  lemma MoveOutOfVoiceExample<C>(a: C)
    ensures var t := AfterMove(Alone(a, 5, 1), 5, 9);
      Reaches(ROOMS, Entry(a, 5, 1) + [Move(true, 5, 9)], t) && Linked(t) && !HubVoice.SeatsInVoice(t, ROOMS)
  {
    var s := Alone(a, 5, 1);
    Enters(a, 5, 1, ROOMS);
    Reach(ROOMS, Entry(a, 5, 1), s, Move(true, 5, 9), AfterMove(s, 5, 9));
    assert SpeaksFor(s, a, 5, 1) && Linked(s);
    MoveExact(s, 5, 9);
    assert Get(AfterMove(s, 5, 9), a).activeVoice == 9;
  }

  /** A move of a user with a connection in a third channel leaves that connection in the third channel's set as well. */
  lemma MoveOfScatteredUserExample<C>(a: C, b: C)
    requires a != b
    ensures var s := Joined(a, 5, 1, b, 5, 2); var t := AfterMove(s, 5, 3);
      && Reaches(ROOMS, Entry(a, 5, 1) + Entry(b, 5, 2) + [Move(true, 5, 3)], t)
      && !StateExact(s, 5) && !Linked(t) && a in At(t.voiceChannels, 1) && a in At(t.voiceChannels, 3)
  {
    BothEnter(a, 5, 1, b, 5, 2, ROOMS);
    var s := Joined(a, 5, 1, b, 5, 2);
    Reach(ROOMS, Entry(a, 5, 1) + Entry(b, 5, 2), s, Move(true, 5, 3), AfterMove(s, 5, 3));
    assert InVoice(s, a, 5) && Get(s, a).activeVoice != s.voiceStates[5].channelId;
    assert a in At(AfterMove(s, 5, 3).voiceChannels, 1) && !Seated(AfterMove(s, 5, 3), a, 1);
  }

  /** A leave of one of two connections in voice drops the voice state of both. */
  lemma LeaveBehindExample<C>(a: C, b: C)
    requires a != b
    ensures var s := Joined(a, 5, 1, b, 5, 1); var t := AfterLeave(s, b);
      && Reaches(ROOMS, Entry(a, 5, 1) + Entry(b, 5, 1) + [Leave(b)], t)
      && StateExact(s, 5) && !StateExact(t, 5) && InVoice(t, a, 5) && 5 !in t.voiceStates
  {
    BothEnter(a, 5, 1, b, 5, 1, ROOMS);
    var s := Joined(a, 5, 1, b, 5, 1);
    Reach(ROOMS, Entry(a, 5, 1) + Entry(b, 5, 1), s, Leave(b), AfterLeave(s, b));
    assert InVoice(s, a, 5);
    assert InVoice(AfterLeave(s, b), a, 5);
  }

  lemma BoothsLinked<C>(a: C, b: C)
    requires a != b
    ensures Linked(Joined(a, 5, 1, b, 6, 2))
  {
    var s := Joined(a, 5, 1, b, 6, 2);
    assert SpeaksFor(s, a, 5, 1) && SpeaksFor(s, b, 6, 2);
  }

  lemma FullChannelStaysLinked<C>(a: C, b: C)
    requires a != b
    ensures Linked(AfterMove(Joined(a, 5, 1, b, 6, 2), 5, 2))
  {
    BoothsLinked(a, b);
    MoveExact(Joined(a, 5, 1, b, 6, 2), 5, 2);
  }

  /** A move into a full channel: two connections in a channel for one, with all links intact. */
  lemma MoveIntoFullChannelExample<C>(a: C, b: C)
    requires a != b
    ensures var s := Joined(a, 5, 1, b, 6, 2); var t := AfterMove(s, 5, 2);
      && Reaches(BOOTHS, Entry(a, 5, 1) + Entry(b, 6, 2) + [Move(true, 5, 2)], t)
      && Occupancy(s, 1) == Occupancy(s, 2) == Capacity(BOOTHS, 1) == Capacity(BOOTHS, 2) == 1
      && Occupancy(t, 2) == 2 && !WithinLimits(t, BOOTHS) && Linked(t)
  {
    BothEnter(a, 5, 1, b, 6, 2, BOOTHS);
    var s := Joined(a, 5, 1, b, 6, 2);
    var t := AfterMove(s, 5, 2);
    Reach(BOOTHS, Entry(a, 5, 1) + Entry(b, 6, 2), s, Move(true, 5, 2), t);
    assert At(t.voiceChannels, 2) == {a, b};
    assert Occupancy(t, 2) > Capacity(BOOTHS, 2);
    FullChannelStaysLinked(a, b);
  }
}
