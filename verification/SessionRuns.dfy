/** Whole runs of the session index: what holds after any number of lock sections, in any interleaving. */
module SessionRuns {
  import opened Basics
  import opened SessionIndex
  import opened Handlers

  /** states[i + 1] is states[i] after the lock section ops[i]. */
  ghost predicate Execution<R>(states: seq<State<R>>, ops: seq<Op<R>>) {
    && |states| == |ops| + 1
    && forall i :: 0 <= i < |ops| ==> Enabled(states[i], ops[i]) && states[i + 1] == Apply(states[i], ops[i])
  }

  // ---------------------------------------------------------------------------
  // The index invariant

  lemma {:induction false} IndexInvariant<R>(states: seq<State<R>>, ops: seq<Op<R>>, i: nat)
    requires Execution(states, ops) && states[0] == Empty() && i <= |ops|
    ensures Sound(states[i])
    ensures (forall k :: 0 <= k < i ==> KeepsChannel(states[k], ops[k])) ==> Partition(states[i])
  {
    if i == 0 {
    } else {
      IndexInvariant(states, ops, i - 1);
      ApplyKeeps(states[i - 1], ops[i - 1]);
    }
  }

  /** After the first fallback write that changes a live session's channel, the buckets no longer match. */
  lemma FirstChannelChangeBreaks<R>(states: seq<State<R>>, ops: seq<Op<R>>, i: nat)
    requires Execution(states, ops) && states[0] == Empty() && i < |ops|
    requires forall k :: 0 <= k < i ==> KeepsChannel(states[k], ops[k])
    ensures Partition(states[i + 1]) <==> KeepsChannel(states[i], ops[i])
  {
    IndexInvariant(states, ops, i);
    ApplyKeeps(states[i], ops[i]);
  }

  /**
  In every state reached by channel-keeping sections, a voice datagram is accepted exactly from an unmuted sender live
  in its channel, and its recipients are exactly those of the flat scan.
  */
  lemma ReachableForwarding<R>(states: seq<State<R>>, ops: seq<Op<R>>, i: nat, v: Voice, now: int)
    requires Execution(states, ops) && states[0] == Empty() && i <= |ops|
    requires forall k :: 0 <= k < i ==> KeepsChannel(states[k], ops[k])
    ensures VoiceError(states[i], v).None? <==> LiveIn(states[i], v.channel, v.user) && !InfoOf(states[i], v.user).serverMuted
    ensures Recipients(AfterVoice(states[i], v, now), v.channel, v.user) == FlatScan(states[i], v.channel, v.user)
  {
    IndexInvariant(states, ops, i);
    VoiceReachesFlatScan(states[i], v, now);
  }

  /** The index with the one session r, of user 7 at address "a", entered under channel 1. */
  ghost function Single<R>(heap: map<R, Info>, r: R): State<R> {
    State(heap, map[7 := r], map["a" := r], map[1 := map[7 := r]], map[])
  }

  ghost function Seven(channel: uint32, lastSeen: int): Info {
    NewInfo(7, channel, 0, Some("a"), lastSeen)
  }

  lemma FirstRegistration<R>(r: R, lastSeen: int)
    ensures Apply(Empty(), RegisterSession(r, Seven(1, lastSeen))) == Single(map[r := Seven(1, lastSeen)], r)
  {
  }

  /** A concrete run in which a fallback write loses the partition and the two ways of forwarding part. */
  lemma FallbackChannelChangeExample<R>(r: R)
    ensures var s1, s2 := Single(map[r := Seven(1, 0)], r), Single(map[r := Seven(2, 0)], r);
      && Execution([Empty(), s1, s2], [RegisterSession(r, Seven(1, 0)), WriteChannel(r, 2)])
      && Partition(s1) && !Partition(s2)
      && Recipients(s2, 1, 8) == {r} && FlatScan(s2, 1, 8) == {} && Recipients(s2, 2, 8) == {} && FlatScan(s2, 2, 8) == {r}
  {
    FirstRegistration(r, 0);
    var s2 := Single(map[r := Seven(2, 0)], r);
    assert InBucket(s2, 1, 7) && !LiveIn(s2, 1, 7);
    assert ChannelPeers(s2, 1, 8) == {r};
    assert 7 in s2.byUser && r in FlatScan(s2, 2, 8);
  }

  // ---------------------------------------------------------------------------
  // Who is live

  ghost predicate Adds<R>(s: State<R>, op: Op<R>, user: uint32) {
    match op
    case ActivatePending(token, u, channel, _, _, now) => u == user && Refusal(s, token, u, channel, now).None?
    case RegisterSession(_, info) => info.userId == user
    case _ => false
  }

  ghost predicate Drops<R>(s: State<R>, op: Op<R>, user: uint32) {
    match op
    case RemoveSession(u) => u == user
    case CleanStale(now, maxIdle) => user in s.byUser && now - InfoOf(s, user).lastSeen > maxIdle
    case _ => false
  }

  /** Only registrations bring a user in; only removal and a scavenge past maxIdle take him out. */
  lemma LiveExactly<R>(s: State<R>, op: Op<R>, user: uint32)
    ensures user in Apply(s, op).byUser <==> Adds(s, op, user) || (user in s.byUser && !Drops(s, op, user))
  {
  }

  /** A scavenge drops exactly the sessions idle for longer than maxIdle, from all three indexes. */
  lemma ScavengeExact<R>(s: State<R>, now: int, maxIdle: int, user: uint32)
    requires Sound(s) && Partition(s)
    ensures var t := Apply(s, CleanStale(now, maxIdle));
      && (user in t.byUser <==> user in s.byUser && now - InfoOf(s, user).lastSeen <= maxIdle)
      && (user in t.byUser ==> t.byUser[user] == s.byUser[user] && InfoOf(t, user) == InfoOf(s, user))
      && (user !in t.byUser ==> forall ch :: !InBucket(t, ch, user))
      && (user !in t.byUser ==> forall a :: a in t.byAddr ==> Get(t, t.byAddr[a]).userId != user)
  {
    var op: Op<R> := CleanStale(now, maxIdle);
    ApplyKeeps(s, op);
    assert KeepsChannel(s, op);
    var t := Apply(s, op);
    forall ch ensures InBucket(t, ch, user) ==> user in t.byUser {
      assert InBucket(t, ch, user) <==> LiveIn(t, ch, user);
    }
  }

  // ---------------------------------------------------------------------------
  // Pending tokens

  ghost predicate Issues<R>(op: Op<R>, token: string, pt: PendingToken) {
    op == RegisterPending(token, pt.userId, pt.channelId, pt.ssrc, pt.expiresAt)
  }

  /** The lock sections that end the life of a pending registration. */
  ghost predicate Voids<R>(op: Op<R>, token: string, pt: PendingToken) {
    match op
    case RegisterPending(t, _, _, _, _) => t == token
    case ActivatePending(t, user, channel, _, _, now) =>
      t == token && (now > pt.expiresAt || (user == pt.userId && channel == pt.channelId))
    case RemoveSession(user) => user == pt.userId
    case RevokePending(user) => user == pt.userId
    case CleanStale(now, _) => now > pt.expiresAt
    case _ => false
  }

  /** Registered at some earlier section, and untouched by any voiding section since. */
  ghost predicate IssuedAndIntact<R>(ops: seq<Op<R>>, i: nat, token: string, pt: PendingToken)
    requires i <= |ops|
  {
    exists j :: 0 <= j < i && Issues(ops[j], token, pt) && forall k :: j < k < i ==> !Voids(ops[k], token, pt)
  }

  ghost predicate Stored<R>(s: State<R>, token: string, pt: PendingToken) {
    token in s.pending && s.pending[token] == pt
  }

  /** The part of a section that concerns the token store. */
  ghost function PendingAfter<R>(s: State<R>, op: Op<R>): map<string, PendingToken> {
    match op
    case RegisterPending(token, user, channel, ssrc, expiresAt) =>
      s.pending[token := PendingToken(user, channel, ssrc, expiresAt)]
    case ActivatePending(token, user, channel, _, _, now) =>
      if Refusal(s, token, user, channel, now).None? then s.pending - {token} else Refused(s, token, now).pending
    case RemoveSession(user) => Revoke(s, user).pending
    case RevokePending(user) => Revoke(s, user).pending
    case CleanStale(now, _) => DropExpired(s, now).pending
    case _ => s.pending
  }

  lemma PendingStep<R>(s: State<R>, op: Op<R>)
    ensures Apply(s, op).pending == PendingAfter(s, op)
  {
  }

  lemma TokenStep<R>(s: State<R>, op: Op<R>, t: State<R>, token: string, pt: PendingToken)
    requires t.pending == PendingAfter(s, op)
    ensures Stored(t, token, pt) <==> Issues(op, token, pt) || (Stored(s, token, pt) && !Voids(op, token, pt))
  {
  }

  lemma IntactStep<R>(ops: seq<Op<R>>, i: nat, token: string, pt: PendingToken)
    requires i < |ops|
    ensures IssuedAndIntact(ops, i + 1, token, pt) <==>
      Issues(ops[i], token, pt) || (IssuedAndIntact(ops, i, token, pt) && !Voids(ops[i], token, pt))
  {
  }

  /** The token store is exactly the set of intact registrations. */
  lemma {:induction false} TokenHistory<R>(states: seq<State<R>>, ops: seq<Op<R>>, i: nat, token: string, pt: PendingToken)
    requires Execution(states, ops) && states[0] == Empty() && i <= |ops|
    ensures Stored(states[i], token, pt) <==> IssuedAndIntact(ops, i, token, pt)
  {
    if i == 0 {
    } else {
      TokenHistory(states, ops, i - 1, token, pt);
      PendingStep(states[i - 1], ops[i - 1]);
      TokenStep(states[i - 1], ops[i - 1], states[i], token, pt);
      IntactStep(ops, i - 1, token, pt);
    }
  }

  ghost predicate ActivatesAt<R>(states: seq<State<R>>, ops: seq<Op<R>>, i: nat)
    requires |states| == |ops| + 1 && i < |ops|
  {
    ops[i].ActivatePending? && Adds(states[i], ops[i], ops[i].user)
  }

  /**
  An activation succeeds exactly when its token has an intact registration for the same user and channel that has
  not expired.
  */
  lemma ActivationExactly<R>(states: seq<State<R>>, ops: seq<Op<R>>, i: nat)
    requires Execution(states, ops) && states[0] == Empty() && i < |ops| && ops[i].ActivatePending?
    ensures ActivatesAt(states, ops, i) <==>
      exists pt :: IssuedAndIntact(ops, i, ops[i].token, pt) &&
        pt.userId == ops[i].user && pt.channelId == ops[i].channel && ops[i].now <= pt.expiresAt
  {
    var token := ops[i].token;
    forall pt ensures Stored(states[i], token, pt) <==> IssuedAndIntact(ops, i, token, pt) {
      TokenHistory(states, ops, i, token, pt);
    }
    if token in states[i].pending {
      assert Stored(states[i], token, states[i].pending[token]);
      assert IssuedAndIntact(ops, i, token, states[i].pending[token]);
    }
  }

  /** A token comes into the store only by being registered. */
  lemma {:induction false} ComesFromRegistration<R>(states: seq<State<R>>, ops: seq<Op<R>>, i: nat, k: nat, token: string)
    requires Execution(states, ops) && i <= k <= |ops|
    requires token !in states[i].pending && token in states[k].pending
    ensures exists j :: i <= j < k && ops[j].RegisterPending? && ops[j].token == token
  {
    if token in states[k - 1].pending {
      ComesFromRegistration(states, ops, i, k - 1, token);
    } else {
      PendingStep(states[k - 1], ops[k - 1]);
      TokenStep(states[k - 1], ops[k - 1], states[k], token, states[k].pending[token]);
    }
  }

  lemma ActivationConsumes<R>(s: State<R>, op: Op<R>)
    requires op.ActivatePending? && Adds(s, op, op.user)
    ensures op.token in s.pending && op.token !in Apply(s, op).pending
  {
  }

  /** Single use: between two activations of a token there is a new registration of it. */
  lemma ActivatesOncePerRegistration<R>(states: seq<State<R>>, ops: seq<Op<R>>, i: nat, k: nat)
    requires Execution(states, ops) && i < k < |ops|
    requires ActivatesAt(states, ops, i) && ActivatesAt(states, ops, k) && ops[i].token == ops[k].token
    ensures exists j :: i < j < k && ops[j].RegisterPending? && ops[j].token == ops[k].token
  {
    ActivationConsumes(states[i], ops[i]);
    ActivationConsumes(states[k], ops[k]);
    ComesFromRegistration(states, ops, i + 1, k, ops[k].token);
  }

  /** After RemoveSession or RevokePending a user activates only through a later registration of his own. */
  lemma RevokedTokensStayDead<R>(states: seq<State<R>>, ops: seq<Op<R>>, i: nat, k: nat)
    requires Execution(states, ops) && states[0] == Empty() && i < k < |ops|
    requires ActivatesAt(states, ops, k)
    requires ops[i] == RemoveSession(ops[k].user) || ops[i] == RevokePending(ops[k].user)
    ensures exists j :: i < j < k && ops[j].RegisterPending? && ops[j].token == ops[k].token && ops[j].user == ops[k].user
  {
    ActivationExactly(states, ops, k);
    var pt :| IssuedAndIntact(ops, k, ops[k].token, pt) && pt.userId == ops[k].user && pt.channelId == ops[k].channel;
    var j :| 0 <= j < k && Issues(ops[j], ops[k].token, pt) && forall m :: j < m < k ==> !Voids(ops[m], ops[k].token, pt);
    assert Voids(ops[i], ops[k].token, pt);
  }
}
