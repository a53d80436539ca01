/**
Concurrent datagram handling.  Any number of voice handlers run at once; each takes one lock section at a time, and
between two of its sections any lock section of the rest of the server may run.
*/
module Interleaving {
  import opened Basics
  import opened SessionIndex
  import opened SessionRuns
  import opened Handlers

  /** Where a voice handler is.  A session reference it holds may have been replaced or removed meanwhile. */
  datatype Pc<R> =
    | Lookup
    | LookupByAddr
    | CheckChannel(ref: R)
    | CheckAddr(ref: R)
    | Roam(ref: R)
    | Gate(ref: R)
    | Speak(ref: R)
    | Collect
    | CheckDeafened(todo: seq<R>)
    | Write(todo: seq<R>)
    | Done(err: Option<AudioError>)

  datatype Handler<R> = Handler(voice: Voice, raw: seq<byte>, pc: Pc<R>)

  /** One write: by which handler, for which session, where to, and what. */
  datatype Datagram<R> = Datagram(handler: nat, target: R, addr: Address, bytes: seq<byte>)

  datatype System<R> = System(index: State<R>, handlers: map<nat, Handler<R>>, sent: seq<Datagram<R>>)

  datatype Action<R> =
    | Other(op: Op<R>) // a lock section of the control plane, the scavenger, or a ping or handshake handler
    | Receive(id: nat, voice: Voice, raw: seq<byte>) // a datagram arrives and gets a handler of its own
    | Advance(id: nat, now: int, order: seq<R>) // handler id takes its next section; order is the map iteration order

  /** The lock section a handler performs at its present point, if it writes anything. */
  ghost function SectionOf<R>(h: Handler<R>, now: int): Option<Op<R>> {
    match h.pc
    case Roam(_) => Some(UpdateAddr(h.voice.user, Some(h.voice.src), now))
    case Speak(ref) => Some(UpdateSpeakingState(ref, h.voice.speaking, h.voice.energy, now))
    case _ => None
  }

  ghost function IndexAfter<R>(s: State<R>, h: Handler<R>, now: int): State<R> {
    match SectionOf(h, now)
    case Some(op) => Apply(s, op)
    case None => s
  }

  ghost function NextPc<R>(s: State<R>, h: Handler<R>, order: seq<R>): Pc<R> {
    var v := h.voice;
    match h.pc
    case Lookup => if v.user in s.byUser then CheckChannel(s.byUser[v.user]) else LookupByAddr
    case LookupByAddr =>
      if v.src in s.byAddr && Get(s, s.byAddr[v.src]).userId == v.user then CheckChannel(s.byAddr[v.src])
      else Done(Some(SessionNotFound))
    case CheckChannel(ref) => if Get(s, ref).channelId == v.channel then CheckAddr(ref) else Done(Some(ChannelMismatch))
    case CheckAddr(ref) => if Get(s, ref).addr != Some(v.src) then Roam(ref) else Gate(ref)
    case Roam(ref) => Gate(ref)
    case Gate(ref) => if Get(s, ref).serverMuted then Done(Some(UserServerMuted)) else Speak(ref)
    case Speak(_) => Collect
    case Collect => CheckDeafened(order)
    case CheckDeafened(todo) =>
      if todo == [] then Done(None)
      else if Get(s, todo[0]).serverDeafened then CheckDeafened(todo[1..]) else Write(todo)
    case Write(todo) => if todo == [] then Done(None) else CheckDeafened(todo[1..])
    case Done(_) => h.pc
  }

  ghost function WritesOf<R>(s: State<R>, id: nat, h: Handler<R>): seq<Datagram<R>> {
    if h.pc.Write? && h.pc.todo != [] && Get(s, h.pc.todo[0]).addr.Some?
    then [Datagram(id, h.pc.todo[0], Get(s, h.pc.todo[0]).addr.value, h.raw)] else []
  }

  ghost predicate Step<R>(a: System<R>, action: Action<R>, b: System<R>) {
    match action
    case Other(op) => Enabled(a.index, op) && b == a.(index := Apply(a.index, op))
    case Receive(id, voice, raw) =>
      id !in a.handlers && b == a.(handlers := a.handlers[id := Handler(voice, raw, Lookup)])
    case Advance(id, now, order) =>
      && id in a.handlers
      && var h := a.handlers[id];
      && (h.pc.Collect? ==> Enumerates(order, ChannelPeers(a.index, h.voice.channel, h.voice.user)))
      && b == System(IndexAfter(a.index, h, now), a.handlers[id := h.(pc := NextPc(a.index, h, order))],
                     a.sent + WritesOf(a.index, id, h))
  }

  ghost predicate Run<R>(systems: seq<System<R>>, actions: seq<Action<R>>) {
    && |systems| == |actions| + 1
    && forall i :: 0 <= i < |actions| ==> Step(systems[i], actions[i], systems[i + 1])
  }

  ghost function Start<R>(): System<R> {
    System(Empty(), map[], [])
  }

  // ---------------------------------------------------------------------------
  // Soundness under interleaving

  ghost predicate Holds<R>(s: State<R>, pc: Pc<R>) {
    match pc
    case CheckChannel(ref) => ref in s.heap
    case CheckAddr(ref) => ref in s.heap
    case Roam(ref) => ref in s.heap
    case Gate(ref) => ref in s.heap
    case Speak(ref) => ref in s.heap
    case CheckDeafened(todo) => forall r :: r in todo ==> r in s.heap
    case Write(todo) => forall r :: r in todo ==> r in s.heap
    case _ => true
  }

  /** The index is sound and every reference a handler holds is to a session object that once existed. */
  ghost predicate WellFormed<R>(a: System<R>) {
    Sound(a.index) && forall id :: id in a.handlers ==> Holds(a.index, a.handlers[id].pc)
  }

  lemma HeapGrows<R>(s: State<R>, op: Op<R>)
    ensures s.heap.Keys <= Apply(s, op).heap.Keys
  {
  }

  lemma PeersInHeap<R>(s: State<R>, ch: uint32, user: uint32, r: R)
    requires Sound(s) && r in ChannelPeers(s, ch, user)
    ensures r in s.heap
  {
  }

  lemma NextHolds<R>(s: State<R>, h: Handler<R>, now: int, order: seq<R>)
    requires Sound(s) && Holds(s, h.pc)
    requires h.pc.Collect? ==> Enumerates(order, ChannelPeers(s, h.voice.channel, h.voice.user))
    ensures Sound(IndexAfter(s, h, now)) && s.heap.Keys <= IndexAfter(s, h, now).heap.Keys
    ensures Holds(s, NextPc(s, h, order))
  {
    if SectionOf(h, now).Some? {
      ApplyKeeps(s, SectionOf(h, now).value);
      HeapGrows(s, SectionOf(h, now).value);
    }
    if h.pc.Collect? {
      forall r | r in order ensures r in s.heap {
        PeersInHeap(s, h.voice.channel, h.voice.user, r);
      }
    }
  }

  lemma HoldsLater<R>(s: State<R>, t: State<R>, pc: Pc<R>)
    requires Holds(s, pc) && s.heap.Keys <= t.heap.Keys
    ensures Holds(t, pc)
  {
  }

  lemma StepKeepsWellFormed<R>(a: System<R>, action: Action<R>, b: System<R>)
    requires WellFormed(a) && Step(a, action, b)
    ensures WellFormed(b)
  {
    match action
    case Other(op) =>
      ApplyKeeps(a.index, op);
      HeapGrows(a.index, op);
    case Receive(_, _, _) =>
    case Advance(id, now, order) =>
      NextHolds(a.index, a.handlers[id], now, order);
    forall id | id in b.handlers ensures Holds(b.index, b.handlers[id].pc) {
      if action.Advance? && action.id == id {
        HoldsLater(a.index, b.index, b.handlers[id].pc);
      } else if id in a.handlers {
        HoldsLater(a.index, b.index, a.handlers[id].pc);
      }
    }
  }

  lemma {:induction false} RunKeepsWellFormed<R>(systems: seq<System<R>>, actions: seq<Action<R>>, i: nat)
    requires Run(systems, actions) && WellFormed(systems[0]) && i <= |actions|
    ensures WellFormed(systems[i])
  {
    if i == 0 {
    } else {
      RunKeepsWellFormed(systems, actions, i - 1);
      StepKeepsWellFormed(systems[i - 1], actions[i - 1], systems[i]);
    }
  }

  // ---------------------------------------------------------------------------
  // A removed sender is silent

  /** The action registers the user again. */
  ghost predicate Admits<R>(a: System<R>, action: Action<R>, user: uint32) {
    action.Other? && Adds(a.index, action.op, user)
  }

  /** The handlers of one user's datagrams that were not there in an earlier system. */
  ghost predicate StartedSince<R>(before: System<R>, now: System<R>, id: nat, user: uint32) {
    id !in before.handlers && id in now.handlers && now.handlers[id].voice.user == user
  }

  /** Such a handler has not got past the lookups. */
  ghost predicate Stuck<R>(h: Handler<R>) {
    h.pc == Lookup || h.pc == LookupByAddr || h.pc == Done(Some(SessionNotFound))
  }

  ghost predicate SilentSince<R>(before: System<R>, now: System<R>, user: uint32) {
    && user !in now.index.byUser
    && before.handlers.Keys <= now.handlers.Keys
    && |before.sent| <= |now.sent|
    && (forall id :: StartedSince(before, now, id, user) ==> Stuck(now.handlers[id]))
    && (forall k :: |before.sent| <= k < |now.sent| ==>
         now.sent[k].handler in now.handlers && !StartedSince(before, now, now.sent[k].handler, user))
  }

  lemma StepKeepsSilence<R>(before: System<R>, a: System<R>, action: Action<R>, b: System<R>, user: uint32)
    requires WellFormed(a) && Step(a, action, b) && SilentSince(before, a, user)
    requires !Admits(a, action, user)
    ensures SilentSince(before, b, user)
  {
    match action
    case Other(op) => LiveExactly(a.index, op, user);
    case Receive(_, _, _) =>
    case Advance(id, now, order) =>
      var h := a.handlers[id];
      if SectionOf(h, now).Some? { LiveExactly(a.index, SectionOf(h, now).value, user); }
      AddressNeverRescues(a.index, user, h.voice.src);
  }

  lemma {:induction false} SilenceLasts<R>(systems: seq<System<R>>, actions: seq<Action<R>>, user: uint32, k: nat, i: nat)
    requires Run(systems, actions) && WellFormed(systems[0]) && k <= i <= |actions|
    requires user !in systems[k].index.byUser
    requires forall j :: k <= j < i ==> !Admits(systems[j], actions[j], user)
    ensures SilentSince(systems[k], systems[i], user)
  {
    if i > k {
      var j := i - 1;
      SilenceLasts(systems, actions, user, k, j);
      RunKeepsWellFormed(systems, actions, j);
      var a, action, b := systems[j], actions[j], systems[j + 1];
      assert Step(a, action, b);
      StepKeepsSilence(systems[k], a, action, b, user);
    }
  }

  /**
  Once RemoveSession(user) has run, at step k, no handler started later for a datagram of that user writes anything,
  under any interleaving, until a registration brings the user back.
  */
  lemma RemovedSenderIsSilent<R>(systems: seq<System<R>>, actions: seq<Action<R>>, user: uint32, k: nat, i: nat)
    requires Run(systems, actions) && systems[0] == Start() && k < i <= |actions|
    requires actions[k] == Other(RemoveSession(user))
    requires forall j :: k < j < i ==> !Admits(systems[j], actions[j], user)
    ensures user !in systems[i].index.byUser
    ensures forall id :: StartedSince(systems[k + 1], systems[i], id, user) ==> Stuck(systems[i].handlers[id])
    ensures forall m :: |systems[k + 1].sent| <= m < |systems[i].sent| ==>
      !StartedSince(systems[k + 1], systems[i], systems[i].sent[m].handler, user)
  {
    LiveExactly(systems[k].index, RemoveSession(user), user);
    SilenceLasts(systems, actions, user, k + 1, i);
  }

  // ---------------------------------------------------------------------------
  // A handler left alone is the atomic handler

  ghost function Rank<R>(pc: Pc<R>, n: nat): nat {
    match pc
    case Lookup => 2 * n + 9
    case LookupByAddr => 2 * n + 8
    case CheckChannel(_) => 2 * n + 7
    case CheckAddr(_) => 2 * n + 6
    case Roam(_) => 2 * n + 5
    case Gate(_) => 2 * n + 4
    case Speak(_) => 2 * n + 3
    case Collect => 2 * n + 2
    case CheckDeafened(todo) => 2 * |todo| + 1
    case Write(todo) => 2 * |todo|
    case Done(_) => 0
  }

  datatype Outcome<R> = Outcome(index: State<R>, err: Option<AudioError>, sent: seq<Datagram<R>>)

  /** All remaining sections of a handler with nothing in between. */
  ghost function Alone<R>(s: State<R>, id: nat, h: Handler<R>, now: int, order: seq<R>): Outcome<R>
    decreases Rank(h.pc, |order|)
  {
    if h.pc.Done? then Outcome(s, h.pc.err, [])
    else if h.pc.Write? && h.pc.todo == [] then Outcome(s, None, [])
    else
      var rest := Alone(IndexAfter(s, h, now), id, h.(pc := NextPc(s, h, order)), now, order);
      rest.(sent := WritesOf(s, id, h) + rest.sent)
  }

  /** What the peers on the list that are not deafened get. */
  ghost function WritesTo<R>(s: State<R>, id: nat, todo: seq<R>, raw: seq<byte>): seq<Datagram<R>> {
    if todo == [] then []
    else
      (if Get(s, todo[0]).serverDeafened || Get(s, todo[0]).addr.None? then []
       else [Datagram(id, todo[0], Get(s, todo[0]).addr.value, raw)]) + WritesTo(s, id, todo[1..], raw)
  }

  lemma {:induction false} AloneSends<R>(s: State<R>, id: nat, v: Voice, raw: seq<byte>, now: int, order: seq<R>, todo: seq<R>)
    ensures Alone(s, id, Handler(v, raw, CheckDeafened(todo)), now, order) == Outcome(s, None, WritesTo(s, id, todo, raw))
    decreases |todo|
  {
    var h := Handler(v, raw, CheckDeafened(todo));
    if todo == [] {
    } else {
      AloneSends(s, id, v, raw, now, order, todo[1..]);
      if !Get(s, todo[0]).serverDeafened {
        var w := h.(pc := Write(todo));
        assert Alone(s, id, h, now, order) == Alone(s, id, w, now, order);
      }
    }
  }

  lemma AloneAccepted<R>(s: State<R>, id: nat, v: Voice, raw: seq<byte>, now: int, order: seq<R>, r: R)
    ensures var t := Apply(s, UpdateSpeakingState(r, v.speaking, v.energy, now));
      Alone(s, id, Handler(v, raw, Speak(r)), now, order) == Outcome(t, None, WritesTo(t, id, order, raw))
  {
    var t := Apply(s, UpdateSpeakingState(r, v.speaking, v.energy, now));
    var h := Handler(v, raw, Speak(r));
    AloneSends(t, id, v, raw, now, order, order);
    assert Alone(t, id, h.(pc := Collect), now, order) == Alone(t, id, h.(pc := CheckDeafened(order)), now, order);
  }

  lemma AloneGated<R>(s: State<R>, id: nat, v: Voice, raw: seq<byte>, now: int, order: seq<R>, r: R)
    ensures var out := Alone(s, id, Handler(v, raw, Gate(r)), now, order);
      var t := Apply(s, UpdateSpeakingState(r, v.speaking, v.energy, now));
      out == if Get(s, r).serverMuted then Outcome(s, Some(UserServerMuted), [])
             else Outcome(t, None, WritesTo(t, id, order, raw))
  {
    AloneAccepted(s, id, v, raw, now, order, r);
    var h := Handler(v, raw, Gate(r));
    assert Alone(s, id, h, now, order) == Alone(s, id, h.(pc := NextPc(s, h, order)), now, order);
  }

  lemma AlonePlaced<R>(s: State<R>, id: nat, v: Voice, raw: seq<byte>, now: int, order: seq<R>)
    requires Sound(s) && LiveIn(s, v.channel, v.user)
    ensures Alone(s, id, Handler(v, raw, CheckAddr(s.byUser[v.user])), now, order) ==
            Alone(Roamed(s, v, now), id, Handler(v, raw, Gate(s.byUser[v.user])), now, order)
  {
  }

  /** The chain of sections, undisturbed, is the handler that Router.HandleVoice is proved against. */
  lemma AloneIsAtomic<R>(s: State<R>, id: nat, v: Voice, raw: seq<byte>, now: int, order: seq<R>)
    requires Sound(s)
    ensures Alone(s, id, Handler(v, raw, Lookup), now, order) ==
      Outcome(AfterVoice(s, v, now), VoiceError(s, v),
              if VoiceError(s, v).None? then WritesTo(AfterVoice(s, v, now), id, order, raw) else [])
  {
    var h := Handler(v, raw, Lookup);
    if v.user in s.byUser {
      var r := s.byUser[v.user];
      var checked := h.(pc := CheckChannel(r));
      assert Alone(s, id, h, now, order) == Alone(s, id, checked, now, order);
      if Get(s, r).channelId == v.channel {
        var t := Roamed(s, v, now);
        assert Alone(s, id, checked, now, order) == Alone(s, id, h.(pc := CheckAddr(r)), now, order);
        AlonePlaced(s, id, v, raw, now, order);
        AloneGated(t, id, v, raw, now, order, r);
        assert Get(t, r).serverMuted == Get(s, r).serverMuted;
      } else {
        var mismatched := h.(pc := Done(Some(ChannelMismatch)));
        assert NextPc(s, checked, order) == mismatched.pc;
        assert Alone(s, id, h, now, order) == Outcome(s, Some(ChannelMismatch), []);
      }
    } else {
      AddressNeverRescues(s, v.user, v.src);
      var second := h.(pc := LookupByAddr);
      assert Alone(s, id, h, now, order) == Alone(s, id, second, now, order);
      var refused := h.(pc := Done(Some(SessionNotFound)));
      assert NextPc(s, second, order) == refused.pc;
      assert Alone(s, id, refused, now, order) == Outcome(s, Some(SessionNotFound), []);
    }
  }
}
