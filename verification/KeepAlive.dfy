/**
When a session survives the scavenger: exactly as long as every scavenge finds a recent enough stamp on it, and hence
for every user whose pings arrive often enough.
*/
module KeepAlive {
  import opened Basics
  import opened SessionIndex
  import opened SessionRuns
  import opened Handlers

  // ---------------------------------------------------------------------------
  // Stamps

  /** The time a lock section stamps on a session, or tests idleness and expiry against. */
  ghost function Clock<R>(op: Op<R>): Option<int> {
    match op
    case ActivatePending(_, _, _, _, _, now) => Some(now)
    case RegisterSession(_, info) => Some(info.lastSeen)
    case UpdateAddr(_, _, now) => Some(now)
    case Touch(_, now) => Some(now)
    case UpdateSpeakingState(_, _, _, now) => Some(now)
    case CleanStale(now, _) => Some(now)
    case _ => None
  }

  /**
  clock[i] is the time at which section i runs, and `start` a time before all of them.  A section reads the clock while
  it runs, except that the session given to RegisterSession was stamped when it was built, at that time or earlier.
  */
  ghost predicate Timed<R>(start: int, ops: seq<Op<R>>, clock: seq<int>) {
    && |clock| == |ops|
    && (forall i :: 0 <= i < |ops| ==> start <= clock[i])
    && (forall i, j :: 0 <= i < j < |ops| ==> clock[i] <= clock[j])
    && forall i :: 0 <= i < |ops| && Clock(ops[i]).Some? ==>
         if ops[i].RegisterSession? then Clock(ops[i]).value <= clock[i] else Clock(ops[i]).value == clock[i]
  }

  /** The section stamps the session the user has after it. */
  ghost predicate Stamps<R>(s: State<R>, op: Op<R>, user: uint32) {
    || Adds(s, op, user)
    || (op.UpdateAddr? && op.user == user)
    || ((op.Touch? || op.UpdateSpeakingState?) && user in s.byUser && op.ref == s.byUser[user])
  }

  /** The oldest stamp that a scavenge leaves. */
  ghost function OldestKept<R>(op: Op<R>): int
    requires op.CleanStale?
  {
    op.now - op.maxIdle
  }

  ghost predicate RegistersOlder<R>(op: Op<R>, user: uint32, limit: int) {
    op.RegisterSession? && op.info.userId == user && op.info.lastSeen < limit
  }

  /** No session of the user stamped before `limit` is registered in sections l to i - 1. */
  ghost predicate NoneOlder<R>(ops: seq<Op<R>>, user: uint32, l: nat, i: nat, limit: int)
    requires i <= |ops|
  {
    forall k :: l <= k < i ==> !RegistersOlder(ops[k], user, limit)
  }

  /** Section k stamps the user with `limit` or later, and no older session of his replaces that before section i. */
  ghost predicate FreshSince<R>(states: seq<State<R>>, ops: seq<Op<R>>, user: uint32, k: nat, i: nat, limit: int)
    requires k < i <= |ops| < |states|
  {
    Stamps(states[k], ops[k], user) && limit <= Clock(ops[k]).value && NoneOlder(ops, user, k + 1, i, limit)
  }

  /** From the operations alone: the user's session carries a stamp of `limit` or later when section i begins. */
  ghost predicate FreshAt<R>(states: seq<State<R>>, ops: seq<Op<R>>, user: uint32, i: nat, limit: int)
    requires i <= |ops| < |states|
  {
    || (limit <= InfoOf(states[0], user).lastSeen && NoneOlder(ops, user, 0, i, limit))
    || exists k: nat :: k < i && FreshSince(states, ops, user, k, i, limit)
  }

  ghost predicate LiveUpTo<R>(states: seq<State<R>>, user: uint32, i: nat)
    requires i < |states|
  {
    forall k :: 0 <= k <= i ==> user in states[k].byUser
  }

  // ---------------------------------------------------------------------------
  // The exact condition

  lemma {:induction false} StaysSound<R>(states: seq<State<R>>, ops: seq<Op<R>>, i: nat)
    requires Execution(states, ops) && Sound(states[0]) && i <= |ops|
    ensures Sound(states[i])
  {
    if i == 0 {
    } else {
      StaysSound(states, ops, i - 1);
      ApplyKeeps(states[i - 1], ops[i - 1]);
    }
  }

  lemma NewStamp<R>(s: State<R>, op: Op<R>, t: State<R>, user: uint32)
    requires t == Apply(s, op) && Adds(s, op, user)
    ensures user in t.byUser && Clock(op) == Some(InfoOf(t, user).lastSeen)
  {
  }

  lemma SameObject<R>(s: State<R>, op: Op<R>, t: State<R>, user: uint32)
    requires t == Apply(s, op) && user in s.byUser && user in t.byUser && !Adds(s, op, user)
    ensures t.byUser[user] == s.byUser[user]
  {
  }

  /** The section stamps this session object itself, without registering it. */
  ghost predicate Touches<R>(s: State<R>, op: Op<R>, r: R) {
    || ((op.Touch? || op.UpdateSpeakingState?) && op.ref == r)
    || (op.UpdateAddr? && op.user in s.byUser && s.byUser[op.user] == r)
  }

  /** Registering leaves the session objects that exist as they are. */
  lemma RegistrationKeepsObjects<R>(s: State<R>, op: Op<R>, t: State<R>, r: R)
    requires (op.ActivatePending? || op.RegisterSession?) && Enabled(s, op) && t == Apply(s, op) && r in s.heap
    ensures r in t.heap && t.heap[r] == s.heap[r]
  {
  }

  lemma ObjectStamp<R>(s: State<R>, op: Op<R>, t: State<R>, r: R)
    requires Enabled(s, op) && t == Apply(s, op) && r in s.heap
    ensures r in t.heap
    ensures if Touches(s, op, r) then Clock(op) == Some(t.heap[r].lastSeen) else t.heap[r].lastSeen == s.heap[r].lastSeen
  {
    if op.ActivatePending? || op.RegisterSession? {
      RegistrationKeepsObjects(s, op, t, r);
    }
  }

  /** A live user's last-seen time is what the section stamps on his session, or else unchanged. */
  lemma StampStep<R>(s: State<R>, op: Op<R>, t: State<R>, user: uint32)
    requires Sound(s) && Enabled(s, op) && t == Apply(s, op) && user in s.byUser && user in t.byUser
    ensures if Stamps(s, op, user) then Clock(op) == Some(InfoOf(t, user).lastSeen)
            else InfoOf(t, user).lastSeen == InfoOf(s, user).lastSeen
  {
    if Adds(s, op, user) {
      NewStamp(s, op, t, user);
    } else {
      SameObject(s, op, t, user);
      ObjectStamp(s, op, t, s.byUser[user]);
    }
  }

  /** One more section: fresh if it stamps late enough, or does not stamp a session already fresh. */
  lemma FreshStep<R>(states: seq<State<R>>, ops: seq<Op<R>>, clock: seq<int>, user: uint32, i: nat, limit: int)
    requires i < |ops| < |states| && Timed(InfoOf(states[0], user).lastSeen, ops, clock)
    ensures FreshAt(states, ops, user, i + 1, limit) <==>
      if Stamps(states[i], ops[i], user) then limit <= Clock(ops[i]).value else FreshAt(states, ops, user, i, limit)
  {
    if Stamps(states[i], ops[i], user) {
      assert limit <= Clock(ops[i]).value ==> FreshSince(states, ops, user, i, i + 1, limit);
      assert FreshAt(states, ops, user, i + 1, limit) ==> !RegistersOlder(ops[i], user, limit) || limit <= Clock(ops[i]).value;
    } else {
      assert !RegistersOlder(ops[i], user, limit);
      if FreshAt(states, ops, user, i, limit) && exists k: nat :: k < i && FreshSince(states, ops, user, k, i, limit) {
        var k: nat :| k < i && FreshSince(states, ops, user, k, i, limit);
        assert FreshSince(states, ops, user, k, i + 1, limit);
      }
      var n := i + 1;
      if exists k: nat :: k < n && FreshSince(states, ops, user, k, n, limit) {
        var k: nat :| k < n && FreshSince(states, ops, user, k, n, limit);
        assert FreshSince(states, ops, user, k, i, limit);
      }
    }
  }

  /** As long as the user is live, his session is as fresh as the operations say. */
  lemma {:induction false} FreshExactly<R>(states: seq<State<R>>, ops: seq<Op<R>>, clock: seq<int>, user: uint32, i: nat,
                                           limit: int)
    requires Execution(states, ops) && Sound(states[0]) && Timed(InfoOf(states[0], user).lastSeen, ops, clock)
    requires i <= |ops| && LiveUpTo(states, user, i)
    ensures limit <= InfoOf(states[i], user).lastSeen <==> FreshAt(states, ops, user, i, limit)
  {
    if i == 0 {
    } else {
      FreshExactly(states, ops, clock, user, i - 1, limit);
      StaysSound(states, ops, i - 1);
      FreshStep(states, ops, clock, user, i - 1, limit);
      StampStep(states[i - 1], ops[i - 1], states[i], user);
    }
  }

  /** Section k, if it scavenges, finds the user fresh enough. */
  ghost predicate FreshEnough<R>(states: seq<State<R>>, ops: seq<Op<R>>, user: uint32, k: nat)
    requires k < |ops| < |states|
  {
    ops[k].CleanStale? ==> FreshAt(states, ops, user, k, OldestKept(ops[k]))
  }

  /** Section k leaves a user live who is as fresh as the operations say. */
  ghost predicate Spares<R>(states: seq<State<R>>, ops: seq<Op<R>>, user: uint32, k: nat)
    requires k < |ops| < |states|
  {
    ops[k] != RemoveSession(user) && FreshEnough(states, ops, user, k)
  }

  lemma SparesExactly<R>(states: seq<State<R>>, ops: seq<Op<R>>, clock: seq<int>, user: uint32, k: nat)
    requires Execution(states, ops) && Sound(states[0]) && Timed(InfoOf(states[0], user).lastSeen, ops, clock)
    requires k < |ops| && LiveUpTo(states, user, k)
    ensures user in states[k + 1].byUser <==> Spares(states, ops, user, k)
  {
    LiveExactly(states[k], ops[k], user);
    if ops[k].CleanStale? {
      FreshExactly(states, ops, clock, user, k, OldestKept(ops[k]));
    }
  }

  /**
  Over any run, a user stays live if and only if he is not removed and every scavenge finds his session stamped at most
  maxIdle ago, where the stamps are read off the operations: the registrations of the user, his address changes, and
  the touches and speaking updates of the session object he has.
  */
  lemma {:induction false} SurvivesExactly<R>(states: seq<State<R>>, ops: seq<Op<R>>, clock: seq<int>, user: uint32, i: nat)
    requires Execution(states, ops) && Sound(states[0]) && user in states[0].byUser && i <= |ops|
    requires Timed(InfoOf(states[0], user).lastSeen, ops, clock)
    ensures LiveUpTo(states, user, i) <==> forall k :: 0 <= k < i ==> Spares(states, ops, user, k)
  {
    if i == 0 {
    } else {
      SurvivesExactly(states, ops, clock, user, i - 1);
      if LiveUpTo(states, user, i - 1) {
        SparesExactly(states, ops, clock, user, i - 1);
      }
    }
  }

  // ---------------------------------------------------------------------------
  // Pings

  /** A ping: when it arrived, the section before which it looked its session up, and the section that stamped it. */
  datatype Ping = Ping(arrived: int, found: nat, stamped: nat)

  /** The stamp goes to the session object the lookup found or, if the address has to change, through the user's id. */
  ghost predicate IsPing<R>(states: seq<State<R>>, ops: seq<Op<R>>, clock: seq<int>, user: uint32, p: Ping)
    requires |states| == |ops| + 1 && |clock| == |ops|
  {
    && p.found <= p.stamped < |ops| && user in states[p.found].byUser && p.arrived <= clock[p.found]
    && ((ops[p.stamped].Touch? && ops[p.stamped].ref == states[p.found].byUser[user]) ||
        (ops[p.stamped].UpdateAddr? && ops[p.stamped].user == user))
  }

  /** A ping handler that runs undisturbed is such a ping. */
  lemma UndisturbedPing<R>(states: seq<State<R>>, ops: seq<Op<R>>, clock: seq<int>, user: uint32, i: nat, src: Address)
    requires Execution(states, ops) && |clock| == |ops| && i < |ops| && Sound(states[i]) && user in states[i].byUser
    requires PingOp(states[i], user, src, clock[i]) == Some(ops[i])
    ensures IsPing(states, ops, clock, user, Ping(clock[i], i, i))
  {
  }

  /** A live user's session object changes only by registration. */
  lemma {:induction false} ReplacedByRegistration<R>(states: seq<State<R>>, ops: seq<Op<R>>, user: uint32, l: nat, j: nat)
    returns (k: nat)
    requires Execution(states, ops) && l <= j <= |ops| && LiveUpTo(states, user, j)
    requires states[j].byUser[user] != states[l].byUser[user]
    ensures l <= k < j && Adds(states[k], ops[k], user)
  {
    if Adds(states[j - 1], ops[j - 1], user) {
      k := j - 1;
    } else {
      SameObject(states[j - 1], ops[j - 1], states[j], user);
      k := ReplacedByRegistration(states, ops, user, l, j - 1);
    }
  }

  /**
  Once a ping is stamped, its user is as fresh as its arrival, whatever ran between its lookup and its stamp, unless a
  session of his stamped before that arrival is registered after the lookup.
  */
  lemma PingRefreshesSession<R>(states: seq<State<R>>, ops: seq<Op<R>>, clock: seq<int>, user: uint32, p: Ping, i: nat)
    requires Execution(states, ops) && Sound(states[0]) && Timed(InfoOf(states[0], user).lastSeen, ops, clock)
    requires IsPing(states, ops, clock, user, p) && p.stamped < i <= |ops| && LiveUpTo(states, user, p.stamped)
    requires NoneOlder(ops, user, p.found, i, p.arrived)
    ensures FreshAt(states, ops, user, i, p.arrived)
  {
    var j := p.stamped;
    if states[j].byUser[user] == states[p.found].byUser[user] {
      assert FreshSince(states, ops, user, j, i, p.arrived);
    } else {
      var k := ReplacedByRegistration(states, ops, user, p.found, j);
      assert !RegistersOlder(ops[k], user, p.arrived);
      assert FreshSince(states, ops, user, k, i, p.arrived);
    }
  }

  /** A ping answered before section i arrived at `limit` or later, or the user was that fresh at the start. */
  ghost predicate PingedSince(start: int, pings: seq<Ping>, i: nat, limit: int) {
    limit <= start || exists p :: p in pings && p.stamped < i && limit <= p.arrived
  }

  /** Every scavenge finds a ping that arrived at most maxIdle ago, or the user's session that fresh at the start. */
  ghost predicate PingsOftenEnough<R>(start: int, ops: seq<Op<R>>, pings: seq<Ping>) {
    forall i: nat :: i < |ops| && ops[i].CleanStale? ==> PingedSince(start, pings, i, OldestKept(ops[i]))
  }

  /** The user's own registrations do not overtake his pings, nor the start of the run. */
  ghost predicate RegistersInOrder<R>(start: int, ops: seq<Op<R>>, user: uint32, pings: seq<Ping>) {
    && NoneOlder(ops, user, 0, |ops|, start)
    && forall p: Ping :: p in pings ==> NoneOlder(ops, user, p.found, |ops|, p.arrived)
  }

  lemma FreshEarlier<R>(states: seq<State<R>>, ops: seq<Op<R>>, user: uint32, i: nat, limit: int, earlier: int)
    requires i <= |ops| < |states| && earlier <= limit && FreshAt(states, ops, user, i, limit)
    ensures FreshAt(states, ops, user, i, earlier)
  {
    if exists k: nat :: k < i && FreshSince(states, ops, user, k, i, limit) {
      var k: nat :| k < i && FreshSince(states, ops, user, k, i, limit);
      assert FreshSince(states, ops, user, k, i, earlier);
    }
  }

  /** A scavenge finds a user whose pings arrive often enough fresh enough. */
  lemma FreshByPing<R>(states: seq<State<R>>, ops: seq<Op<R>>, clock: seq<int>, user: uint32, pings: seq<Ping>, i: nat,
                       limit: int)
    requires Execution(states, ops) && Sound(states[0]) && i < |ops| && LiveUpTo(states, user, i)
    requires Timed(InfoOf(states[0], user).lastSeen, ops, clock)
    requires forall p :: p in pings ==> IsPing(states, ops, clock, user, p)
    requires PingedSince(InfoOf(states[0], user).lastSeen, pings, i, limit)
    requires RegistersInOrder(InfoOf(states[0], user).lastSeen, ops, user, pings)
    ensures FreshAt(states, ops, user, i, limit)
  {
    if limit <= InfoOf(states[0], user).lastSeen {
      assert NoneOlder(ops, user, 0, i, limit);
    } else {
      var p :| p in pings && p.stamped < i && limit <= p.arrived;
      PingRefreshesSession(states, ops, clock, user, p, i);
      FreshEarlier(states, ops, user, i, p.arrived, limit);
    }
  }

  /** The user is never removed, and every scavenge finds a recent ping of his. */
  ghost predicate Pinging<R>(states: seq<State<R>>, ops: seq<Op<R>>, clock: seq<int>, user: uint32, pings: seq<Ping>)
    requires |states| == |ops| + 1 && |clock| == |ops|
  {
    && (forall p :: p in pings ==> IsPing(states, ops, clock, user, p))
    && PingsOftenEnough(InfoOf(states[0], user).lastSeen, ops, pings)
    && forall k :: 0 <= k < |ops| ==> ops[k] != RemoveSession(user)
  }

  lemma PingsRefresh<R>(states: seq<State<R>>, ops: seq<Op<R>>, clock: seq<int>, user: uint32, pings: seq<Ping>, k: nat)
    requires Execution(states, ops) && Sound(states[0]) && k < |ops| && LiveUpTo(states, user, k)
    requires Timed(InfoOf(states[0], user).lastSeen, ops, clock) && Pinging(states, ops, clock, user, pings)
    requires RegistersInOrder(InfoOf(states[0], user).lastSeen, ops, user, pings)
    ensures FreshEnough(states, ops, user, k)
  {
    if ops[k].CleanStale? {
      FreshByPing(states, ops, clock, user, pings, k, OldestKept(ops[k]));
    }
  }

  lemma {:induction false} EverySectionSpares<R>(states: seq<State<R>>, ops: seq<Op<R>>, clock: seq<int>, user: uint32,
                                                 pings: seq<Ping>, i: nat)
    requires Execution(states, ops) && Sound(states[0]) && user in states[0].byUser && i <= |ops|
    requires Timed(InfoOf(states[0], user).lastSeen, ops, clock) && Pinging(states, ops, clock, user, pings)
    requires RegistersInOrder(InfoOf(states[0], user).lastSeen, ops, user, pings)
    ensures forall k :: 0 <= k < i ==> Spares(states, ops, user, k)
  {
    if i == 0 {
    } else {
      EverySectionSpares(states, ops, clock, user, pings, i - 1);
      SurvivesExactly(states, ops, clock, user, i - 1);
      PingsRefresh(states, ops, clock, user, pings, i - 1);
    }
  }

  /**
  A user who is not removed and whose pings arrive never more than maxIdle apart is never scavenged, whatever happens to
  the index between a ping's lookup and its stamp, if his own registrations do not overtake his pings.
  */
  lemma KeepsAlive<R>(states: seq<State<R>>, ops: seq<Op<R>>, clock: seq<int>, user: uint32, pings: seq<Ping>)
    requires Execution(states, ops) && Sound(states[0]) && user in states[0].byUser
    requires Timed(InfoOf(states[0], user).lastSeen, ops, clock) && Pinging(states, ops, clock, user, pings)
    requires RegistersInOrder(InfoOf(states[0], user).lastSeen, ops, user, pings)
    ensures LiveUpTo(states, user, |ops|)
  {
    EverySectionSpares(states, ops, clock, user, pings, |ops|);
    SurvivesExactly(states, ops, clock, user, |ops|);
  }

  // ---------------------------------------------------------------------------
  // One reader

  /** The session that section k registers was built between sections b - 1 and b, or after the start of the run. */
  ghost predicate BuiltBefore<R>(start: int, ops: seq<Op<R>>, clock: seq<int>, k: nat, b: nat)
    requires k < |ops| == |clock| && ops[k].RegisterSession?
  {
    b <= k && (if b == 0 then start else clock[b - 1]) <= ops[k].info.lastSeen
  }

  /** No ping is being handled between sections b and k. */
  ghost predicate NoPingWithin(pings: seq<Ping>, b: nat, k: nat) {
    forall p: Ping :: p in pings ==> p.stamped < b || k < p.found
  }

  /**
  Datagrams are handled one after the other: the sections from a session's building to its registration do not overlap
  the sections from a ping's lookup to its stamp.
  */
  ghost predicate OneAtATime<R>(start: int, ops: seq<Op<R>>, clock: seq<int>, user: uint32, pings: seq<Ping>)
    requires |ops| == |clock|
  {
    forall k: nat :: k < |ops| && ops[k].RegisterSession? && ops[k].info.userId == user ==>
      exists b: nat :: BuiltBefore(start, ops, clock, k, b) && NoPingWithin(pings, b, k)
  }

  /** A single reader never registers a session stamped before a ping it has already answered. */
  lemma OneReaderKeepsOrder<R>(states: seq<State<R>>, ops: seq<Op<R>>, clock: seq<int>, user: uint32, pings: seq<Ping>)
    requires |states| == |ops| + 1 && Timed(InfoOf(states[0], user).lastSeen, ops, clock)
    requires Pinging(states, ops, clock, user, pings)
    requires OneAtATime(InfoOf(states[0], user).lastSeen, ops, clock, user, pings)
    ensures RegistersInOrder(InfoOf(states[0], user).lastSeen, ops, user, pings)
  {
    var start := InfoOf(states[0], user).lastSeen;
    forall k: nat | k < |ops| && ops[k].RegisterSession? && ops[k].info.userId == user
      ensures start <= ops[k].info.lastSeen
      ensures forall p: Ping :: p in pings && p.found <= k ==> p.arrived <= ops[k].info.lastSeen
    {
      var b: nat :| BuiltBefore(start, ops, clock, k, b) && NoPingWithin(pings, b, k);
      forall p: Ping | p in pings && p.found <= k ensures p.arrived <= clock[b - 1] {
        assert p.found <= p.stamped <= b - 1;
      }
    }
  }

  /**
  Keep-alive as the server runs it, with one goroutine reading datagrams: a user who is not removed and whose pings
  arrive never more than maxIdle apart is never scavenged.
  */
  lemma KeepsAliveWithOneReader<R>(states: seq<State<R>>, ops: seq<Op<R>>, clock: seq<int>, user: uint32,
                                   pings: seq<Ping>)
    requires Execution(states, ops) && Sound(states[0]) && user in states[0].byUser
    requires Timed(InfoOf(states[0], user).lastSeen, ops, clock) && Pinging(states, ops, clock, user, pings)
    requires OneAtATime(InfoOf(states[0], user).lastSeen, ops, clock, user, pings)
    ensures LiveUpTo(states, user, |ops|)
  {
    OneReaderKeepsOrder(states, ops, clock, user, pings);
    KeepsAlive(states, ops, clock, user, pings);
  }

  // ---------------------------------------------------------------------------
  // Two readers

  lemma SecondRegistration<R>(heap: map<R, Info>, a: R, b: R, lastSeen: int)
    requires a in heap && b !in heap && heap[a].addr == Some("a") && heap[a].channelId == 1
    ensures Apply(Single(heap, a), RegisterSession(b, Seven(1, lastSeen))) == Single(heap[b := Seven(1, lastSeen)], b)
  {
    var bucket: map<uint32, R> := map[7 := a];
    assert bucket - {7} == map[];
    assert DropOld(Single(heap, a), 7) == State(heap, map[7 := a], map[], map[1 := map[]], map[]);
  }

  /** A ping, a late registration, and a scavenge that leaves nobody. */
  ghost function LateOps<R>(a: R, b: R): seq<Op<R>> {
    [Touch(a, 10), RegisterSession(b, Seven(1, 5)), CleanStale(16, 10)]
  }

  ghost function LateStates<R>(a: R, b: R): seq<State<R>> {
    var heap := map[a := Seven(1, 10), b := Seven(1, 5)];
    [Single(map[a := Seven(1, 0)], a), Single(map[a := Seven(1, 10)], a), Single(heap, b),
     State(heap, map[], map[], map[], map[])]
  }

  lemma LastScavenge<R>(heap: map<R, Info>, b: R)
    requires b in heap && heap[b] == Seven(1, 5)
    ensures Apply(Single(heap, b), CleanStale(16, 10)) == State(heap, map[], map[], map[], map[])
  {
    var s := Single(heap, b);
    assert StaleUsers(s, 16, 10) == {7};
    EvictLive(s, 7);
    var bucket: map<uint32, R> := map[7 := b];
    assert bucket - {7} == map[];
  }

  lemma LateRun<R>(a: R, b: R)
    requires a != b
    ensures Execution(LateStates(a, b), LateOps(a, b))
  {
    var s, ops := LateStates(a, b), LateOps(a, b);
    assert Apply(s[0], ops[0]) == s[1];
    SecondRegistration(s[1].heap, a, b, 5);
    assert s[1].heap[b := Seven(1, 5)] == s[2].heap;
    LastScavenge(s[2].heap, b);
  }

  /**
  With two readers a ping could be handled while another handler holds a session it has built and not yet registered:
  built at 5 and registered at 11, it replaces one pinged at 10, and a scavenge at 16 finds it more than 10 old.
  */
  lemma TwoReadersExample<R>(a: R, b: R)
    requires a != b
    ensures var states, ops, clock, pings := LateStates(a, b), LateOps(a, b), [10, 11, 16], [Ping(10, 0, 0)];
      && Execution(states, ops) && Sound(states[0]) && 7 in states[0].byUser && Timed(0, ops, clock)
      && InfoOf(states[0], 7).lastSeen == 0 && Pinging(states, ops, clock, 7, pings)
      && !OneAtATime(0, ops, clock, 7, pings) && 7 !in states[3].byUser
  {
    LateRun(a, b);
    assert Ping(10, 0, 0) in [Ping(10, 0, 0)];
    assert !NoPingWithin([Ping(10, 0, 0)], 0, 1);
    assert LateOps(a, b)[1].RegisterSession?;
  }
}
