/**
The voice session index as a state machine over lock sections.

`State<R>` is the content of a SessionManager: the three indexes, the pending tokens, and `heap`, the fields of every
session object ever created (index entries are references of type R into it).  `Apply` is the effect of one critical
section; handlers are sequences of such sections.  The class in SessionManager.dfy is proved against these functions.
*/
module SessionIndex {
  import opened Basics

  datatype Info = Info(
    userId: uint32,
    channelId: uint32,
    ssrc: uint32,
    addr: Option<Address>,
    lastSeen: int,
    serverMuted: bool,
    serverDeafened: bool,
    isSpeaking: bool,
    energyLevel: byte)

  datatype PendingToken = PendingToken(userId: uint32, channelId: uint32, ssrc: uint32, expiresAt: int)

  datatype State<R(==)> = State(
    heap: map<R, Info>,
    byUser: map<uint32, R>,
    byAddr: map<Address, R>,
    byChannel: map<uint32, map<uint32, R>>,
    pending: map<string, PendingToken>)

  ghost function Empty<R>(): State<R> {
    State(map[], map[], map[], map[], map[])
  }

  /** The fields of a newly built session. */
  function NewInfo(user: uint32, channel: uint32, ssrc: uint32, addr: Option<Address>, now: int): Info {
    Info(user, channel, ssrc, addr, now, false, false, false, 0)
  }

  const NO_INFO := NewInfo(0, 0, 0, None, 0)

  /** Reads through a reference.  Every reference held by an index is in the heap (see Sound). */
  ghost function Get<R>(s: State<R>, r: R): Info {
    if r in s.heap then s.heap[r] else NO_INFO
  }

  ghost function InfoOf<R>(s: State<R>, user: uint32): Info {
    if user in s.byUser then Get(s, s.byUser[user]) else NO_INFO
  }

  ghost predicate InBucket<R>(s: State<R>, ch: uint32, user: uint32) {
    ch in s.byChannel && user in s.byChannel[ch]
  }

  /** User has a live session that names channel ch. */
  ghost predicate LiveIn<R>(s: State<R>, ch: uint32, user: uint32) {
    user in s.byUser && Get(s, s.byUser[user]).channelId == ch
  }

  // ---------------------------------------------------------------------------
  // Lock sections

  datatype Op<R> =
    | RegisterPending(token: string, user: uint32, channel: uint32, ssrc: uint32, expiresAt: int)
    | ActivatePending(token: string, user: uint32, channel: uint32, addr: Option<Address>, obj: R, now: int)
    | RegisterSession(obj: R, info: Info)
    | UpdateAddr(user: uint32, addr: Option<Address>, now: int)
    | Touch(ref: R, now: int)
    | SetServerMute(ref: R, muted: bool)
    | SetServerDeafen(ref: R, deafened: bool)
    | UpdateSpeakingState(ref: R, speaking: bool, energy: byte, now: int)
    | WriteChannel(ref: R, channel: uint32) // the handshake fallback's direct field write
    | MoveMember(user: uint32, channel: uint32)
    | RemoveSession(user: uint32)
    | RevokePending(user: uint32)
    | CleanStale(now: int, maxIdle: int)

  /**
  An activation allocates a new session object; RegisterSession takes a new one, or one the table already holds, with
  the fields it has; a handler only touches objects it looked up.
  */
  ghost predicate Enabled<R>(s: State<R>, op: Op<R>) {
    match op
    case ActivatePending(_, _, _, _, obj, _) => obj !in s.heap
    case RegisterSession(obj, info) => obj !in s.heap || s.heap[obj] == info
    case Touch(ref, _) => ref in s.heap
    case SetServerMute(ref, _) => ref in s.heap
    case SetServerDeafen(ref, _) => ref in s.heap
    case UpdateSpeakingState(ref, _, _, _) => ref in s.heap
    case WriteChannel(ref, _) => ref in s.heap
    case _ => true
  }

  ghost function Put<R>(s: State<R>, r: R, info: Info): State<R> {
    s.(heap := s.heap[r := info])
  }

  /** Unlinks the address and bucket entries of a session about to be replaced; an emptied bucket is kept. */
  ghost function DropOld<R>(s: State<R>, user: uint32): State<R> {
    if user !in s.byUser then s else
      var prev := InfoOf(s, user);
      s.(byAddr := if prev.addr.Some? then s.byAddr - {prev.addr.value} else s.byAddr,
         byChannel := if prev.channelId in s.byChannel
           then s.byChannel[prev.channelId := s.byChannel[prev.channelId] - {user}] else s.byChannel)
  }

  ghost function BucketIn<R>(m: map<uint32, map<uint32, R>>, ch: uint32): map<uint32, R> {
    if ch in m then m[ch] else map[]
  }

  ghost function Bucket<R>(s: State<R>, ch: uint32): map<uint32, R> {
    BucketIn(s.byChannel, ch)
  }

  /** Enters a session into all three indexes. */
  ghost function Attach<R>(s: State<R>, r: R, info: Info): State<R> {
    s.(heap := s.heap[r := info],
       byUser := s.byUser[info.userId := r],
       byAddr := if info.addr.Some? then s.byAddr[info.addr.value := r] else s.byAddr,
       byChannel := s.byChannel[info.channelId := Bucket(s, info.channelId)[info.userId := r]])
  }

  /** Why an activation is refused, in the order the code tests. */
  ghost function Refusal<R>(s: State<R>, token: string, user: uint32, channel: uint32, now: int): Option<AudioError> {
    if token !in s.pending then Some(UnauthorizedSession)
    else if now > s.pending[token].expiresAt then Some(UnauthorizedSession)
    else if s.pending[token].userId != user || s.pending[token].channelId != channel then Some(ChannelMismatch)
    else None
  }

  /** A refused activation leaves the token, unless the token has expired. */
  ghost function Refused<R>(s: State<R>, token: string, now: int): State<R> {
    if token in s.pending && now > s.pending[token].expiresAt then s.(pending := s.pending - {token}) else s
  }

  ghost function Activate<R>(s: State<R>, token: string, user: uint32, channel: uint32, addr: Option<Address>, obj: R,
                             now: int): State<R> {
    if Refusal(s, token, user, channel, now).Some? then Refused(s, token, now) else
      Attach(DropOld(s.(pending := s.pending - {token}), user), obj,
             NewInfo(user, channel, s.pending[token].ssrc, addr, now))
  }

  ghost function Readdress<R>(s: State<R>, user: uint32, addr: Option<Address>, now: int): State<R> {
    if user !in s.byUser then s else
      var r := s.byUser[user];
      var prev := Get(s, r);
      var trimmed := if prev.addr.Some? then s.byAddr - {prev.addr.value} else s.byAddr;
      s.(heap := s.heap[r := prev.(addr := addr, lastSeen := now)],
         byAddr := if addr.Some? then trimmed[addr.value := r] else trimmed)
  }

  /** Takes a user out of a bucket; a bucket emptied by it goes away. */
  ghost function Without<R>(m: map<uint32, map<uint32, R>>, ch: uint32, user: uint32)
    : (r: map<uint32, map<uint32, R>>)
    ensures r.Keys <= m.Keys
  {
    if ch !in m then m
    else if m[ch] - {user} == map[] then m - {ch}
    else m[ch := m[ch] - {user}]
  }

  ghost function Move<R>(s: State<R>, user: uint32, channel: uint32): State<R> {
    if user !in s.byUser then s else
      var r := s.byUser[user];
      var left := Without(s.byChannel, Get(s, r).channelId, user);
      s.(heap := s.heap[r := Get(s, r).(channelId := channel)],
         byChannel := left[channel := BucketIn(left, channel)[user := r]])
  }

  /** The users of `users` whose session names channel ch. */
  ghost function Leaving<R>(s: State<R>, users: set<uint32>, ch: uint32): set<uint32> {
    set u | u in users && u in s.byUser && Get(s, s.byUser[u]).channelId == ch
  }

  /** What is left of a bucket when some users leave it; None if they emptied it. */
  ghost function Shrunk<R>(bucket: map<uint32, R>, gone: set<uint32>): Option<map<uint32, R>> {
    if gone == {} then Some(bucket) else if bucket - gone == map[] then None else Some(bucket - gone)
  }

  ghost function AddressesOf<R>(s: State<R>, users: set<uint32>): set<Address> {
    set u | u in users && u in s.byUser && Get(s, s.byUser[u]).addr.Some? :: Get(s, s.byUser[u]).addr.value
  }

  /** Removes sessions from all indexes; a bucket emptied by it goes away. */
  ghost function Evict<R>(s: State<R>, users: set<uint32>): State<R> {
    s.(byUser := s.byUser - users,
       byAddr := s.byAddr - AddressesOf(s, users),
       byChannel := map ch | ch in s.byChannel && Shrunk(s.byChannel[ch], Leaving(s, users, ch)).Some? ::
         Shrunk(s.byChannel[ch], Leaving(s, users, ch)).value)
  }

  ghost function StaleUsers<R>(s: State<R>, now: int, maxIdle: int): set<uint32> {
    set u | u in s.byUser && now - Get(s, s.byUser[u]).lastSeen > maxIdle
  }

  ghost function Revoke<R>(s: State<R>, user: uint32): State<R> {
    s.(pending := map t | t in s.pending && s.pending[t].userId != user :: s.pending[t])
  }

  ghost function DropExpired<R>(s: State<R>, now: int): State<R> {
    s.(pending := map t | t in s.pending && !(now > s.pending[t].expiresAt) :: s.pending[t])
  }

  ghost function Apply<R>(s: State<R>, op: Op<R>): State<R> {
    match op
    case RegisterPending(token, user, channel, ssrc, expiresAt) =>
      s.(pending := s.pending[token := PendingToken(user, channel, ssrc, expiresAt)])
    case ActivatePending(token, user, channel, addr, obj, now) =>
      Activate(s, token, user, channel, addr, obj, now)
    case RegisterSession(obj, info) =>
      Attach(DropOld(s, info.userId), obj, info)
    case UpdateAddr(user, addr, now) =>
      Readdress(s, user, addr, now)
    case Touch(ref, now) =>
      Put(s, ref, Get(s, ref).(lastSeen := now))
    case SetServerMute(ref, muted) =>
      Put(s, ref, Get(s, ref).(serverMuted := muted))
    case SetServerDeafen(ref, deafened) =>
      Put(s, ref, Get(s, ref).(serverDeafened := deafened))
    case UpdateSpeakingState(ref, speaking, energy, now) =>
      Put(s, ref, Get(s, ref).(isSpeaking := speaking, energyLevel := energy, lastSeen := now))
    case WriteChannel(ref, channel) =>
      Put(s, ref, Get(s, ref).(channelId := channel))
    case MoveMember(user, channel) =>
      Move(s, user, channel)
    case RemoveSession(user) =>
      Evict(Revoke(s, user), {user})
    case RevokePending(user) =>
      Revoke(s, user)
    case CleanStale(now, maxIdle) =>
      DropExpired(Evict(s, StaleUsers(s, now, maxIdle)), now)
  }

  // ---------------------------------------------------------------------------
  // Invariants

  ghost predicate UserSound<R>(s: State<R>) {
    forall u :: u in s.byUser ==> s.byUser[u] in s.heap && s.heap[s.byUser[u]].userId == u
  }

  /** Each address entry is the live session of its user, at that address. */
  ghost predicate AddrSound<R>(s: State<R>) {
    forall a :: a in s.byAddr ==>
      var r := s.byAddr[a];
      r in s.heap && s.heap[r].addr == Some(a) && s.heap[r].userId in s.byUser && s.byUser[s.heap[r].userId] == r
  }

  ghost predicate BucketSound<R>(s: State<R>) {
    forall ch, u :: InBucket(s, ch, u) ==>
      s.byChannel[ch][u] in s.heap && s.heap[s.byChannel[ch][u]].userId == u
  }

  ghost predicate Sound<R>(s: State<R>) {
    UserSound(s) && AddrSound(s) && BucketSound(s)
  }

  /** byChannel splits byUser by the channel each live session names, and holds the same objects. */
  ghost predicate Partition<R>(s: State<R>) {
    && (forall ch, u :: InBucket(s, ch, u) <==> LiveIn(s, ch, u))
    && (forall ch, u :: InBucket(s, ch, u) ==> s.byChannel[ch][u] == s.byUser[u])
  }

  /** The direct write of the handshake fallback keeps the channel of a live session. */
  ghost predicate KeepsChannel<R>(s: State<R>, op: Op<R>) {
    op.WriteChannel? && Get(s, op.ref).userId in s.byUser && s.byUser[Get(s, op.ref).userId] == op.ref ==>
      Get(s, op.ref).channelId == op.channel
  }

  // ---------------------------------------------------------------------------
  // Every lock section keeps the invariants

  // Where each index operation leaves the bucket entries.

  lemma DropOldBuckets<R>(s: State<R>, user: uint32)
    ensures var t := DropOld(s, user);
      && (forall ch, u :: InBucket(t, ch, u) <==> InBucket(s, ch, u) && !(u == user && LiveIn(s, ch, user)))
      && (forall ch, u :: InBucket(t, ch, u) ==> t.byChannel[ch][u] == s.byChannel[ch][u])
  {
  }

  lemma AttachBuckets<R>(s: State<R>, r: R, info: Info)
    ensures var t := Attach(s, r, info);
      && (forall ch, u :: InBucket(t, ch, u) <==> InBucket(s, ch, u) || (ch == info.channelId && u == info.userId))
      && (forall ch, u :: InBucket(t, ch, u) ==>
           t.byChannel[ch][u] == if ch == info.channelId && u == info.userId then r else s.byChannel[ch][u])
  {
  }

  lemma MoveBuckets<R>(s: State<R>, user: uint32, channel: uint32)
    requires user in s.byUser
    ensures var t := Move(s, user, channel);
      && (forall ch, u :: InBucket(t, ch, u) <==>
           (InBucket(s, ch, u) && !(u == user && LiveIn(s, ch, user))) || (ch == channel && u == user))
      && (forall ch, u :: InBucket(t, ch, u) ==>
           t.byChannel[ch][u] == if ch == channel && u == user then s.byUser[user] else s.byChannel[ch][u])
  {
    forall ch, u | ch in s.byChannel && u in s.byChannel[ch] - {user}
      ensures s.byChannel[ch] - {user} != map[] && InBucket(Move(s, user, channel), ch, u)
    {
    }
  }

  lemma EvictBuckets<R>(s: State<R>, users: set<uint32>)
    ensures var t := Evict(s, users);
      && (forall ch, u :: InBucket(t, ch, u) <==> InBucket(s, ch, u) && !(u in users && LiveIn(s, ch, u)))
      && (forall ch, u :: InBucket(t, ch, u) ==> t.byChannel[ch][u] == s.byChannel[ch][u])
  {
    forall ch, u | InBucket(s, ch, u)
      ensures InBucket(Evict(s, users), ch, u) <==> !(u in users && LiveIn(s, ch, u))
    {
      assert u in Leaving(s, users, ch) <==> u in users && LiveIn(s, ch, u);
      assert u in s.byChannel[ch] - Leaving(s, users, ch) <==> u !in Leaving(s, users, ch);
    }
  }

  lemma EvictNobody<R>(s: State<R>, users: set<uint32>)
    requires users !! s.byUser.Keys
    ensures Evict(s, users) == s
  {
  }

  lemma ShrunkOneMore<R>(bucket: map<uint32, R>, gone: set<uint32>, user: uint32)
    ensures Shrunk(bucket, gone + {user}) ==
      if Shrunk(bucket, gone).None? then None else Shrunk(Shrunk(bucket, gone).value, {user})
  {
    assert bucket - (gone + {user}) == (bucket - gone) - {user};
    if gone == {} {
      assert gone + {user} == {user};
    }
  }

  ghost function BucketAt<R>(m: map<uint32, map<uint32, R>>, ch: uint32): Option<map<uint32, R>> {
    if ch in m then Some(m[ch]) else None
  }

  lemma EvictAt<R>(s: State<R>, users: set<uint32>, ch: uint32)
    ensures BucketAt(Evict(s, users).byChannel, ch) ==
      if ch in s.byChannel then Shrunk(s.byChannel[ch], Leaving(s, users, ch)) else None
  {
  }

  lemma WithoutAt<R>(m: map<uint32, map<uint32, R>>, from: uint32, user: uint32, ch: uint32)
    ensures BucketAt(Without(m, from, user), ch) == if ch == from && ch in m then Shrunk(m[ch], {user}) else BucketAt(m, ch)
  {
  }

  lemma EvictBucketOneMore<R>(s: State<R>, done: set<uint32>, user: uint32, ch: uint32)
    requires user in s.byUser && user !in done
    ensures BucketAt(Evict(s, done + {user}).byChannel, ch) ==
            BucketAt(Without(Evict(s, done).byChannel, Get(s, s.byUser[user]).channelId, user), ch)
  {
    EvictAt(s, done, ch);
    EvictAt(s, done + {user}, ch);
    WithoutAt(Evict(s, done).byChannel, Get(s, s.byUser[user]).channelId, user, ch);
    if ch in s.byChannel {
      if ch == Get(s, s.byUser[user]).channelId {
        assert Leaving(s, done + {user}, ch) == Leaving(s, done, ch) + {user};
        ShrunkOneMore(s.byChannel[ch], Leaving(s, done, ch), user);
      } else {
        assert Leaving(s, done + {user}, ch) == Leaving(s, done, ch);
      }
    }
  }

  lemma SameBuckets<R>(m: map<uint32, map<uint32, R>>, n: map<uint32, map<uint32, R>>)
    requires forall ch :: BucketAt(m, ch) == BucketAt(n, ch)
    ensures m == n
  {
    forall ch ensures ch in m <==> ch in n {
      assert BucketAt(m, ch) == BucketAt(n, ch);
    }
    forall ch | ch in m ensures m[ch] == n[ch] {
      assert BucketAt(m, ch) == BucketAt(n, ch);
    }
  }

  /** Evicting one more user is the single-user removal the code performs. */
  lemma EvictOneMore<R>(s: State<R>, done: set<uint32>, user: uint32)
    requires user in s.byUser && user !in done
    ensures var t := Evict(s, done); var info := Get(s, s.byUser[user]);
      Evict(s, done + {user}) ==
        t.(byUser := t.byUser - {user},
           byAddr := if info.addr.Some? then t.byAddr - {info.addr.value} else t.byAddr,
           byChannel := Without(t.byChannel, info.channelId, user))
  {
    var t, t', info := Evict(s, done), Evict(s, done + {user}), Get(s, s.byUser[user]);
    assert AddressesOf(s, done + {user}) ==
      AddressesOf(s, done) + if info.addr.Some? then {info.addr.value} else {};
    assert t'.byAddr == if info.addr.Some? then t.byAddr - {info.addr.value} else t.byAddr;
    var expected := Without(t.byChannel, info.channelId, user);
    assert t'.byChannel == expected by {
      forall ch ensures BucketAt(t'.byChannel, ch) == BucketAt(expected, ch) {
        EvictBucketOneMore(s, done, user, ch);
      }
      SameBuckets(t'.byChannel, expected);
    }
  }

  lemma EvictLive<R>(s: State<R>, user: uint32)
    ensures user !in s.byUser ==> Evict(s, {user}) == s
    ensures user in s.byUser ==> var info := Get(s, s.byUser[user]);
      Evict(s, {user}) ==
        s.(byUser := s.byUser - {user},
           byAddr := if info.addr.Some? then s.byAddr - {info.addr.value} else s.byAddr,
           byChannel := Without(s.byChannel, info.channelId, user))
  {
    if user in s.byUser {
      EvictOneMore(s, {}, user);
      EvictNobody(s, {});
      assert {} + {user} == {user};
    } else {
      EvictNobody(s, {user});
    }
  }

  lemma EvictTwice<R>(s: State<R>, done: set<uint32>, user: uint32)
    requires user in s.byUser && user !in done
    ensures Evict(Evict(s, done), {user}) == Evict(s, done + {user})
  {
    EvictOneMore(s, done, user);
    EvictLive(Evict(s, done), user);
  }

  /** What DropOld establishes: nothing but byUser refers to the user's session any more. */
  ghost predicate Vacated<R>(s: State<R>, user: uint32) {
    && (forall a :: a in s.byAddr ==> Get(s, s.byAddr[a]).userId != user)
    && (forall ch :: LiveIn(s, ch, user) ==> !InBucket(s, ch, user))
  }

  ghost predicate PartitionExcept<R>(s: State<R>, user: uint32) {
    && (forall ch, u :: InBucket(s, ch, u) <==> LiveIn(s, ch, u) && u != user)
    && (forall ch, u :: InBucket(s, ch, u) ==> s.byChannel[ch][u] == s.byUser[u])
  }

  lemma DropOldKeeps<R>(s: State<R>, user: uint32)
    requires Sound(s)
    ensures Sound(DropOld(s, user)) && Vacated(DropOld(s, user), user)
    ensures Partition(s) ==> PartitionExcept(DropOld(s, user), user)
  {
    DropOldBuckets(s, user);
  }

  lemma AttachKeeps<R>(s: State<R>, r: R, info: Info)
    requires Sound(s) && Vacated(s, info.userId) && (r !in s.heap || s.heap[r] == info)
    ensures Sound(Attach(s, r, info))
    ensures PartitionExcept(s, info.userId) ==> Partition(Attach(s, r, info))
  {
    AttachBuckets(s, r, info);
    if PartitionExcept(s, info.userId) {
      var t := Attach(s, r, info);
      forall ch, u ensures InBucket(t, ch, u) <==> LiveIn(t, ch, u) {
        assert InBucket(s, ch, u) <==> LiveIn(s, ch, u) && u != info.userId;
      }
    }
  }

  lemma ReaddressKeeps<R>(s: State<R>, user: uint32, addr: Option<Address>, now: int)
    requires Sound(s)
    ensures Sound(Readdress(s, user, addr, now))
    ensures Partition(s) ==> Partition(Readdress(s, user, addr, now))
  {
    var t := Readdress(s, user, addr, now);
    forall ch, u ensures InBucket(t, ch, u) == InBucket(s, ch, u) && LiveIn(t, ch, u) == LiveIn(s, ch, u) {
    }
  }

  lemma MoveKeeps<R>(s: State<R>, user: uint32, channel: uint32)
    requires Sound(s)
    ensures Sound(Move(s, user, channel))
    ensures Partition(s) ==> Partition(Move(s, user, channel))
  {
    if user in s.byUser {
      MoveBuckets(s, user, channel);
      var t := Move(s, user, channel);
      forall ch, u ensures LiveIn(t, ch, u) <==> if u == user then ch == channel else LiveIn(s, ch, u) {
      }
    }
  }

  lemma EvictKeeps<R>(s: State<R>, users: set<uint32>)
    requires Sound(s)
    ensures Sound(Evict(s, users))
    ensures Partition(s) ==> Partition(Evict(s, users))
  {
    EvictBuckets(s, users);
    var t := Evict(s, users);
    forall ch, u ensures LiveIn(t, ch, u) <==> LiveIn(s, ch, u) && u !in users {
    }
  }

  /** Field writes that touch neither user, channel nor address. */
  lemma PutKeeps<R>(s: State<R>, r: R, info: Info)
    requires Sound(s) && r in s.heap
    requires info.userId == s.heap[r].userId && info.addr == s.heap[r].addr
    ensures Sound(Put(s, r, info))
    ensures info.channelId == s.heap[r].channelId && Partition(s) ==> Partition(Put(s, r, info))
  {
    if info.channelId == s.heap[r].channelId {
      var t := Put(s, r, info);
      forall ch, u ensures InBucket(t, ch, u) == InBucket(s, ch, u) && LiveIn(t, ch, u) == LiveIn(s, ch, u) {
      }
    }
  }

  /** The fallback's direct write keeps the partition exactly when it keeps the channel of a live session. */
  lemma WriteChannelExact<R>(s: State<R>, r: R, channel: uint32)
    requires Sound(s) && Partition(s) && r in s.heap
    ensures Partition(Apply(s, WriteChannel(r, channel))) <==> KeepsChannel(s, WriteChannel(r, channel))
  {
    var t := Apply(s, WriteChannel(r, channel));
    var u := s.heap[r].userId;
    if KeepsChannel(s, WriteChannel(r, channel)) {
      forall ch, v ensures InBucket(t, ch, v) == InBucket(s, ch, v) && LiveIn(t, ch, v) == LiveIn(s, ch, v) {
      }
    } else {
      assert LiveIn(t, channel, u) && !LiveIn(s, channel, u);
      assert !InBucket(t, channel, u);
    }
  }

  lemma SameIndexes<R>(s: State<R>, t: State<R>)
    requires s == t.(pending := s.pending)
    ensures Sound(s) == Sound(t) && Partition(s) == Partition(t)
  {
    forall ch, u ensures InBucket(t, ch, u) == InBucket(s, ch, u) && LiveIn(t, ch, u) == LiveIn(s, ch, u) {
    }
  }

  /**
  Every lock section keeps the index sound, and keeps the channel partition if and only if it is not a fallback
  write that changes the channel of a live session.
  */
  lemma ApplyKeeps<R>(s: State<R>, op: Op<R>)
    requires Sound(s) && Enabled(s, op)
    ensures Sound(Apply(s, op))
    ensures Partition(s) ==> (Partition(Apply(s, op)) <==> KeepsChannel(s, op))
  {
    match op
    case RegisterPending(token, user, channel, ssrc, expiresAt) =>
      SameIndexes(s, Apply(s, op));
    case ActivatePending(token, user, channel, addr, obj, now) =>
      if Refusal(s, token, user, channel, now).None? {
        var m := s.(pending := s.pending - {token});
        SameIndexes(s, m);
        DropOldKeeps(m, user);
        AttachKeeps(DropOld(m, user), obj, NewInfo(user, channel, s.pending[token].ssrc, addr, now));
      } else {
        SameIndexes(s, Apply(s, op));
      }
    case RegisterSession(obj, info) =>
      DropOldKeeps(s, info.userId);
      AttachKeeps(DropOld(s, info.userId), obj, info);
    case UpdateAddr(user, addr, now) => ReaddressKeeps(s, user, addr, now);
    case Touch(ref, now) => PutKeeps(s, ref, Get(s, ref).(lastSeen := now));
    case SetServerMute(ref, muted) => PutKeeps(s, ref, Get(s, ref).(serverMuted := muted));
    case SetServerDeafen(ref, deafened) => PutKeeps(s, ref, Get(s, ref).(serverDeafened := deafened));
    case UpdateSpeakingState(ref, speaking, energy, now) =>
      PutKeeps(s, ref, Get(s, ref).(isSpeaking := speaking, energyLevel := energy, lastSeen := now));
    case WriteChannel(ref, channel) =>
      PutKeeps(s, ref, Get(s, ref).(channelId := channel));
      if Partition(s) { WriteChannelExact(s, ref, channel); }
    case MoveMember(user, channel) => MoveKeeps(s, user, channel);
    case RemoveSession(user) =>
      SameIndexes(s, Revoke(s, user));
      EvictKeeps(Revoke(s, user), {user});
    case RevokePending(user) => SameIndexes(s, Apply(s, op));
    case CleanStale(now, maxIdle) =>
      EvictKeeps(s, StaleUsers(s, now, maxIdle));
      SameIndexes(Evict(s, StaleUsers(s, now, maxIdle)), Apply(s, op));
  }
}
