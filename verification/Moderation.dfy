/**
What a moderator's mute and deafen guarantee while datagram handlers run concurrently: a handler that has not yet
passed the check for the flag does what the flag says.
*/
module Moderation {
  import opened Basics
  import opened SessionIndex
  import opened SessionRuns
  import opened Handlers
  import opened Interleaving

  // ---------------------------------------------------------------------------
  // Flags of a session object

  /** The section clears the mute flag of session object r. */
  ghost predicate Unmutes<R>(action: Action<R>, r: R) {
    action == Other(SetServerMute(r, false))
  }

  ghost predicate Undeafens<R>(action: Action<R>, r: R) {
    action == Other(SetServerDeafen(r, false))
  }

  /** Only the moderators' setters change the flags of an existing session object. */
  lemma FlagsKept<R>(s: State<R>, op: Op<R>, r: R)
    requires Enabled(s, op) && r in s.heap
    ensures var t := Apply(s, op);
      && r in t.heap
      && t.heap[r].serverMuted == (if op.SetServerMute? && op.ref == r then op.muted else s.heap[r].serverMuted)
      && t.heap[r].serverDeafened == (if op.SetServerDeafen? && op.ref == r then op.deafened else s.heap[r].serverDeafened)
  {
  }

  datatype Flag = Mute | Deafen

  ghost function ValueOf(info: Info, flag: Flag): bool {
    if flag == Mute then info.serverMuted else info.serverDeafened
  }

  /** The section gives the flag of session object r this value: a moderator's setter, or the registration of r with it. */
  ghost predicate Gives<R>(op: Op<R>, r: R, flag: Flag, value: bool) {
    || (flag == Mute && op == SetServerMute(r, value))
    || (flag == Deafen && op == SetServerDeafen(r, value))
    || (op.RegisterSession? && op.obj == r && ValueOf(op.info, flag) == value)
  }

  /** Section j raised the flag and none since has lowered it. */
  ghost predicate RaisedAt<R>(ops: seq<Op<R>>, r: R, flag: Flag, j: nat, i: nat)
    requires j < i <= |ops|
  {
    Gives(ops[j], r, flag, true) && forall k :: j < k < i ==> !Gives(ops[k], r, flag, false)
  }

  ghost predicate Raised<R>(ops: seq<Op<R>>, r: R, flag: Flag, i: nat)
    requires i <= |ops|
  {
    exists j: nat :: j < i && RaisedAt(ops, r, flag, j, i)
  }

  /** One section: an existing object's flag is what the section gives it, or as it was. */
  lemma FlagStep<R>(s: State<R>, op: Op<R>, r: R, flag: Flag)
    requires Enabled(s, op) && r in s.heap
    ensures var t := Apply(s, op);
      r in t.heap && (ValueOf(t.heap[r], flag) <==>
        Gives(op, r, flag, true) || (ValueOf(s.heap[r], flag) && !Gives(op, r, flag, false)))
  {
    FlagsKept(s, op, r);
  }

  /** A new object is unflagged, unless it is registered with the flag. */
  lemma NewObject<R>(s: State<R>, op: Op<R>, r: R, flag: Flag)
    requires Enabled(s, op) && Sound(s) && r !in s.heap && r in Apply(s, op).heap
    ensures op.ActivatePending? || op.RegisterSession?
    ensures ValueOf(Apply(s, op).heap[r], flag) <==> Gives(op, r, flag, true)
  {
  }

  lemma RaisedStep<R>(ops: seq<Op<R>>, r: R, flag: Flag, i: nat)
    requires i < |ops|
    ensures Raised(ops, r, flag, i + 1) <==>
      Gives(ops[i], r, flag, true) || (Raised(ops, r, flag, i) && !Gives(ops[i], r, flag, false))
  {
    var n := i + 1;
    if Gives(ops[i], r, flag, true) {
      assert RaisedAt(ops, r, flag, i, n);
    } else if Raised(ops, r, flag, i) && !Gives(ops[i], r, flag, false) {
      var j: nat :| j < i && RaisedAt(ops, r, flag, j, i);
      assert RaisedAt(ops, r, flag, j, n);
    }
    if Raised(ops, r, flag, n) && !Gives(ops[i], r, flag, true) {
      var j: nat :| j < n && RaisedAt(ops, r, flag, j, n);
      assert RaisedAt(ops, r, flag, j, i);
    }
  }

  /** A section that gives an object a flag leaves it in the heap, and no section takes an object out. */
  lemma OnlyKnownGiven<R>(s: State<R>, op: Op<R>, t: State<R>, r: R, flag: Flag)
    requires Enabled(s, op) && t == Apply(s, op) && r !in t.heap
    ensures r !in s.heap && !Gives(op, r, flag, true)
  {
    HeapGrows(s, op);
  }

  /** The object's flag is as raised; what no section has touched yet has no flag raised. */
  ghost predicate Agrees<R>(s: State<R>, r: R, flag: Flag, raised: bool) {
    if r in s.heap then ValueOf(s.heap[r], flag) == raised else !raised
  }

  lemma AgreesStep<R>(s: State<R>, op: Op<R>, t: State<R>, r: R, flag: Flag, raised: bool)
    requires Sound(s) && Enabled(s, op) && t == Apply(s, op) && Agrees(s, r, flag, raised)
    ensures Agrees(t, r, flag, Gives(op, r, flag, true) || (raised && !Gives(op, r, flag, false)))
  {
    if r in s.heap {
      FlagStep(s, op, r, flag);
    } else if r in t.heap {
      NewObject(s, op, r, flag);
    } else {
      OnlyKnownGiven(s, op, t, r, flag);
    }
  }

  lemma {:induction false} FlagsAgree<R>(states: seq<State<R>>, ops: seq<Op<R>>, r: R, flag: Flag, i: nat)
    requires Execution(states, ops) && states[0] == Empty() && i <= |ops|
    ensures Agrees(states[i], r, flag, Raised(ops, r, flag, i))
  {
    if i == 0 {
    } else {
      FlagsAgree(states, ops, r, flag, i - 1);
      IndexInvariant(states, ops, i - 1);
      AgreesStep(states[i - 1], ops[i - 1], states[i], r, flag, Raised(ops, r, flag, i - 1));
      RaisedStep(ops, r, flag, i - 1);
    }
  }

  /**
  Over any run a session object is muted exactly when a moderator muted it, or it was registered muted, and it has not
  been unmuted since; and likewise for deafened.  Activation always starts it with neither.
  */
  lemma FlagExactly<R>(states: seq<State<R>>, ops: seq<Op<R>>, r: R, flag: Flag, i: nat)
    requires Execution(states, ops) && states[0] == Empty() && i <= |ops| && r in states[i].heap
    ensures (if flag == Mute then states[i].heap[r].serverMuted else states[i].heap[r].serverDeafened) <==>
      Raised(ops, r, flag, i)
  {
    FlagsAgree(states, ops, r, flag, i);
  }

  /** Without a registration the user's session is the same object or gone. */
  lemma ObjectKept<R>(s: State<R>, op: Op<R>, user: uint32)
    requires Enabled(s, op) && !Adds(s, op, user)
    ensures var t := Apply(s, op); user in t.byUser ==> user in s.byUser && t.byUser[user] == s.byUser[user]
  {
  }

  lemma SectionEnabled<R>(s: State<R>, h: Handler<R>, now: int, user: uint32)
    requires Holds(s, h.pc) && SectionOf(h, now).Some?
    ensures Enabled(s, SectionOf(h, now).value) && !Adds(s, SectionOf(h, now).value, user)
  {
  }

  // ---------------------------------------------------------------------------
  // Mute

  /** The user, if he has a session, has session object r, and that is muted. */
  ghost predicate Gag<R>(s: State<R>, user: uint32, r: R) {
    r in s.heap && s.heap[r].serverMuted && (user in s.byUser ==> s.byUser[user] == r)
  }

  /** The handler has not passed the mute check, except to be refused, and holds no session but r. */
  ghost predicate BeforeGate<R>(pc: Pc<R>, r: R) {
    match pc
    case Lookup => true
    case LookupByAddr => true
    case CheckChannel(ref) => ref == r
    case CheckAddr(ref) => ref == r
    case Roam(ref) => ref == r
    case Gate(ref) => ref == r
    case Done(err) => err.Some?
    case _ => false
  }

  /** A handler of the user that was not there before, or had not passed the mute check. */
  ghost predicate Caught<R>(before: System<R>, now: System<R>, user: uint32, r: R, id: nat) {
    && id in now.handlers && now.handlers[id].voice.user == user
    && (id in before.handlers ==> BeforeGate(before.handlers[id].pc, r))
  }

  ghost predicate MutedSince<R>(before: System<R>, now: System<R>, user: uint32, r: R) {
    && Gag(now.index, user, r)
    && before.handlers.Keys <= now.handlers.Keys
    && |before.sent| <= |now.sent|
    && (forall id :: Caught(before, now, user, r, id) ==> BeforeGate(now.handlers[id].pc, r))
    && (forall k :: |before.sent| <= k < |now.sent| ==>
         now.sent[k].handler in now.handlers && !Caught(before, now, user, r, now.sent[k].handler))
  }

  lemma GagKept<R>(s: State<R>, op: Op<R>, user: uint32, r: R)
    requires Enabled(s, op) && Gag(s, user, r) && !Adds(s, op, user) && op != SetServerMute(r, false)
    ensures Gag(Apply(s, op), user, r)
  {
    FlagsKept(s, op, r);
    ObjectKept(s, op, user);
  }

  lemma GagAfterSection<R>(s: State<R>, h: Handler<R>, now: int, user: uint32, r: R)
    requires Holds(s, h.pc) && Gag(s, user, r)
    ensures Gag(IndexAfter(s, h, now), user, r)
  {
    if SectionOf(h, now).Some? {
      SectionEnabled(s, h, now, user);
      GagKept(s, SectionOf(h, now).value, user, r);
    }
  }

  /** A handler of the user before the mute check stays before it, or is refused, and writes nothing. */
  lemma StaysBeforeGate<R>(s: State<R>, id: nat, h: Handler<R>, order: seq<R>, r: R)
    requires Sound(s) && Gag(s, h.voice.user, r) && BeforeGate(h.pc, r)
    ensures BeforeGate(NextPc(s, h, order), r) && WritesOf(s, id, h) == []
  {
    AddressNeverRescues(s, h.voice.user, h.voice.src);
  }

  lemma StepKeepsMute<R>(before: System<R>, a: System<R>, action: Action<R>, b: System<R>, user: uint32, r: R)
    requires WellFormed(a) && Step(a, action, b) && MutedSince(before, a, user, r)
    requires !Admits(a, action, user) && !Unmutes(action, r)
    ensures MutedSince(before, b, user, r)
  {
    match action
    case Other(op) => GagKept(a.index, op, user, r);
    case Receive(_, _, _) =>
    case Advance(id, now, order) =>
      var h := a.handlers[id];
      GagAfterSection(a.index, h, now, user, r);
      if Caught(before, a, user, r, id) {
        StaysBeforeGate(a.index, id, h, order, r);
      }
  }

  lemma {:induction false} MuteLasts<R>(systems: seq<System<R>>, actions: seq<Action<R>>, user: uint32, r: R, k: nat, i: nat)
    requires Run(systems, actions) && WellFormed(systems[0]) && k <= i <= |actions|
    requires Gag(systems[k].index, user, r)
    requires forall j :: k <= j < i ==> !Admits(systems[j], actions[j], user) && !Unmutes(actions[j], r)
    ensures MutedSince(systems[k], systems[i], user, r)
  {
    if i > k {
      var j := i - 1;
      MuteLasts(systems, actions, user, r, k, j);
      RunKeepsWellFormed(systems, actions, j);
      var a, action, b := systems[j], actions[j], systems[j + 1];
      assert Step(a, action, b);
      StepKeepsMute(systems[k], a, action, b, user, r);
    }
  }

  /**
  Once SetServerMute has muted a user's session, at step k, no handler of his datagrams that had not passed the mute
  check by then writes anything, under any interleaving, until that session is unmuted or he registers again.
  */
  lemma MutedSenderIsSilent<R>(systems: seq<System<R>>, actions: seq<Action<R>>, user: uint32, r: R, k: nat, i: nat)
    requires Run(systems, actions) && systems[0] == Start() && k < i <= |actions|
    requires actions[k] == Other(SetServerMute(r, true)) && user in systems[k].index.byUser
    requires systems[k].index.byUser[user] == r
    requires forall j :: k < j < i ==> !Admits(systems[j], actions[j], user) && !Unmutes(actions[j], r)
    ensures forall id :: Caught(systems[k + 1], systems[i], user, r, id) ==> BeforeGate(systems[i].handlers[id].pc, r)
    ensures forall m :: |systems[k + 1].sent| <= m < |systems[i].sent| ==>
      !Caught(systems[k + 1], systems[i], user, r, systems[i].sent[m].handler)
  {
    assert Step(systems[k], actions[k], systems[k + 1]);
    assert Gag(systems[k + 1].index, user, r);
    MuteLasts(systems, actions, user, r, k + 1, i);
  }

  // ---------------------------------------------------------------------------
  // Deafen

  ghost predicate Deaf<R>(s: State<R>, r: R) {
    r in s.heap && s.heap[r].serverDeafened
  }

  /** The handler is about to write to session r, having found it not deafened. */
  ghost predicate Committed<R>(a: System<R>, id: nat, r: R) {
    id in a.handlers && a.handlers[id].pc.Write? && a.handlers[id].pc.todo != [] && a.handlers[id].pc.todo[0] == r
  }

  ghost predicate DeafSince<R>(before: System<R>, now: System<R>, r: R) {
    && Deaf(now.index, r)
    && |before.sent| <= |now.sent|
    && (forall id :: Committed(now, id, r) ==> Committed(before, id, r))
    && (forall k :: |before.sent| <= k < |now.sent| && now.sent[k].target == r ==>
         Committed(before, now.sent[k].handler, r))
  }

  lemma DeafKept<R>(s: State<R>, op: Op<R>, r: R)
    requires Enabled(s, op) && Deaf(s, r) && op != SetServerDeafen(r, false)
    ensures Deaf(Apply(s, op), r)
  {
    FlagsKept(s, op, r);
  }

  lemma StepKeepsDeaf<R>(before: System<R>, a: System<R>, action: Action<R>, b: System<R>, r: R)
    requires WellFormed(a) && Step(a, action, b) && DeafSince(before, a, r) && !Undeafens(action, r)
    ensures DeafSince(before, b, r)
  {
    match action
    case Other(op) => DeafKept(a.index, op, r);
    case Receive(_, _, _) =>
    case Advance(id, now, order) =>
      var h := a.handlers[id];
      if SectionOf(h, now).Some? {
        SectionEnabled(a.index, h, now, 0);
        DeafKept(a.index, SectionOf(h, now).value, r);
      }
  }

  lemma {:induction false} DeafnessLasts<R>(systems: seq<System<R>>, actions: seq<Action<R>>, r: R, k: nat, i: nat)
    requires Run(systems, actions) && WellFormed(systems[0]) && k <= i <= |actions|
    requires Deaf(systems[k].index, r) && forall j :: k <= j < i ==> !Undeafens(actions[j], r)
    ensures DeafSince(systems[k], systems[i], r)
  {
    if i > k {
      var j := i - 1;
      DeafnessLasts(systems, actions, r, k, j);
      RunKeepsWellFormed(systems, actions, j);
      var a, action, b := systems[j], actions[j], systems[j + 1];
      assert Step(a, action, b);
      StepKeepsDeaf(systems[k], a, action, b, r);
    }
  }

  /**
  Once SetServerDeafen has deafened session r, at step k, nothing is written to it, under any interleaving, until it is
  undeafened, but by the handlers whose next section at step k was that very write.
  */
  lemma DeafenedHearsNothing<R>(systems: seq<System<R>>, actions: seq<Action<R>>, r: R, k: nat, i: nat)
    requires Run(systems, actions) && systems[0] == Start() && k < i <= |actions|
    requires actions[k] == Other(SetServerDeafen(r, true)) && forall j :: k < j < i ==> !Undeafens(actions[j], r)
    ensures forall m :: |systems[k + 1].sent| <= m < |systems[i].sent| && systems[i].sent[m].target == r ==>
      Committed(systems[k + 1], systems[i].sent[m].handler, r)
  {
    assert Step(systems[k], actions[k], systems[k + 1]);
    assert Deaf(systems[k + 1].index, r);
    DeafnessLasts(systems, actions, r, k + 1, i);
  }
}
