/**
What concurrent voice handlers write, under any interleaving: every handler gives each session it has listed at most
one copy of its datagram, unchanged, and passes over none but those it finds deafened or without an address.
*/
module Delivery {
  import opened Basics
  import opened SessionIndex
  import opened Handlers
  import opened Interleaving

  /** The sessions a handler has written to, in order. */
  ghost function WrittenTo<R>(sent: seq<Datagram<R>>, id: nat): seq<R> {
    if sent == [] then []
    else WrittenTo(sent[..|sent| - 1], id) + if sent[|sent| - 1].handler == id then [sent[|sent| - 1].target] else []
  }

  /** The session a handler passes over in its next section, if any. */
  ghost function PassedOver<R>(s: State<R>, pc: Pc<R>): set<R> {
    match pc
    case CheckDeafened(todo) => if todo != [] && Get(s, todo[0]).serverDeafened then {todo[0]} else {}
    case Write(todo) => if todo != [] && Get(s, todo[0]).addr.None? then {todo[0]} else {}
    case _ => {}
  }

  /** The sessions handler id has passed over before system i. */
  ghost function Skipped<R>(systems: seq<System<R>>, actions: seq<Action<R>>, id: nat, i: nat): set<R>
    requires i <= |actions| < |systems|
  {
    if i == 0 then {}
    else
      Skipped(systems, actions, id, i - 1) +
      if actions[i - 1].Advance? && actions[i - 1].id == id && id in systems[i - 1].handlers
      then PassedOver(systems[i - 1].index, systems[i - 1].handlers[id].pc) else {}
  }

  ghost predicate Unreachable<R>(s: State<R>, r: R) {
    Get(s, r).serverDeafened || Get(s, r).addr.None?
  }

  /** Handler id passes over session r in section m, which finds it deafened or without an address. */
  ghost predicate PassesOver<R>(systems: seq<System<R>>, actions: seq<Action<R>>, id: nat, m: nat, r: R)
    requires m < |actions| < |systems|
  {
    && actions[m].Advance? && actions[m].id == id && id in systems[m].handlers
    && r in PassedOver(systems[m].index, systems[m].handlers[id].pc)
    && Unreachable(systems[m].index, r)
  }

  /** A session was passed over because the very section that did so found it deafened or without an address. */
  lemma {:induction false} SkippedForCause<R>(systems: seq<System<R>>, actions: seq<Action<R>>, id: nat, i: nat, r: R)
    requires i <= |actions| < |systems| && r in Skipped(systems, actions, id, i)
    ensures exists m: nat :: m < i && PassesOver(systems, actions, id, m, r)
  {
    if r in Skipped(systems, actions, id, i - 1) {
      SkippedForCause(systems, actions, id, i - 1, r);
    } else {
      assert PassesOver(systems, actions, id, i - 1, r);
    }
  }

  // ---------------------------------------------------------------------------
  // One handler, step by step

  /** The handler has not listed its peers, or never will. */
  ghost predicate Early<R>(pc: Pc<R>) {
    match pc
    case CheckDeafened(_) => false
    case Write(_) => false
    case Done(err) => err.Some?
    case _ => true
  }

  /** The handler has dealt with the first n sessions of its list. */
  ghost predicate Reached<R>(pc: Pc<R>, order: seq<R>, n: nat) {
    n <= |order| &&
    match pc
    case CheckDeafened(todo) => todo == order[n..]
    case Write(todo) => n < |order| && todo == order[n..]
    case Done(err) => n == |order| && err.None?
    case _ => false
  }

  /** Each of the first n sessions listed was either written to, once, or passed over. */
  ghost predicate Progress<R>(pc: Pc<R>, order: seq<R>, n: nat, written: seq<R>, skipped: set<R>) {
    && Reached(pc, order, n)
    && Distinct(order) && Distinct(written)
    && (forall r :: r in written ==> r in order[..n])
    && (forall r :: r in skipped ==> r in order[..n])
    && (forall r :: r in order[..n] ==> (r in written <==> r !in skipped))
  }

  lemma NextListed<R>(order: seq<R>, n: nat)
    requires n < |order| && Distinct(order)
    ensures order[n..][1..] == order[n + 1..] && order[n..][0] == order[n] && order[n] !in order[..n]
    ensures forall r :: r in order[..n + 1] <==> r in order[..n] || r == order[n]
  {
    assert order[..n + 1] == order[..n] + [order[n]];
  }

  /** A section of a handler that has its list. */
  lemma ProgressStep<R>(s: State<R>, id: nat, h: Handler<R>, order: seq<R>, n: nat, written: seq<R>, skipped: set<R>,
                        chosen: seq<R>)
    returns (m: nat)
    requires Progress(h.pc, order, n, written, skipped)
    ensures var writes := WritesOf(s, id, h);
      Progress(NextPc(s, h, chosen), order, m, written + if writes == [] then [] else [writes[0].target],
               skipped + PassedOver(s, h.pc))
  {
    m := n;
    match h.pc
    case CheckDeafened(todo) =>
      if todo == [] || !Get(s, todo[0]).serverDeafened {
        assert written + [] == written && skipped + {} == skipped;
      } else {
        NextListed(order, n);
        assert written + [] == written;
        m := n + 1;
      }
    case Write(todo) =>
      NextListed(order, n);
      if Get(s, todo[0]).addr.Some? {
        assert skipped + {} == skipped;
      } else {
        assert written + [] == written;
      }
      m := n + 1;
    case Done(_) =>
      assert written + [] == written && skipped + {} == skipped;
  }

  // ---------------------------------------------------------------------------
  // Whole runs

  /** Section j is the one in which handler id lists its peers. */
  ghost predicate Lists<R>(systems: seq<System<R>>, actions: seq<Action<R>>, id: nat, j: nat) {
    && j < |actions| < |systems| && actions[j].Advance? && actions[j].id == id
    && id in systems[j].handlers && systems[j].handlers[id].pc.Collect?
  }

  /** Handler id, for the same datagram, listed its peers in section j, before system i. */
  ghost predicate Listed<R>(systems: seq<System<R>>, actions: seq<Action<R>>, id: nat, i: nat, j: nat) {
    && j < i < |systems| && Lists(systems, actions, id, j) && id in systems[i].handlers
    && systems[j].handlers[id].voice == systems[i].handlers[id].voice
    && Enumerates(actions[j].order, ChannelPeers(systems[j].index, systems[i].handlers[id].voice.channel,
                                                 systems[i].handlers[id].voice.user))
  }

  /** Where handler id stands in system i. */
  ghost predicate OnTrack<R>(systems: seq<System<R>>, actions: seq<Action<R>>, id: nat, i: nat)
    requires i <= |actions| < |systems|
  {
    var written, skipped := WrittenTo(systems[i].sent, id), Skipped(systems, actions, id, i);
    if id !in systems[i].handlers || Early(systems[i].handlers[id].pc) then written == [] && skipped == {}
    else exists j: nat, n: nat :: Listed(systems, actions, id, i, j) &&
           Progress(systems[i].handlers[id].pc, actions[j].order, n, written, skipped)
  }

  lemma WrittenAppend<R>(sent: seq<Datagram<R>>, more: seq<Datagram<R>>, id: nat)
    requires |more| <= 1
    ensures WrittenTo(sent + more, id) ==
      WrittenTo(sent, id) + if more != [] && more[0].handler == id then [more[0].target] else []
  {
    if more == [] {
      assert sent + more == sent;
    } else {
      assert (sent + more)[..|sent|] == sent;
    }
  }

  /** A step that is not a section of this handler leaves it where it stands. */
  lemma OthersStep<R>(systems: seq<System<R>>, actions: seq<Action<R>>, id: nat, i: nat)
    requires i < |actions| < |systems| && Step(systems[i], actions[i], systems[i + 1]) && OnTrack(systems, actions, id, i)
    requires !(actions[i].Advance? && actions[i].id == id)
    ensures OnTrack(systems, actions, id, i + 1)
  {
    var a, b := systems[i], systems[i + 1];
    if actions[i].Advance? {
      WrittenAppend(a.sent, WritesOf(a.index, actions[i].id, a.handlers[actions[i].id]), id);
    }
    assert WrittenTo(b.sent, id) == WrittenTo(a.sent, id);
    assert Skipped(systems, actions, id, i + 1) == Skipped(systems, actions, id, i);
    if id in a.handlers && !Early(a.handlers[id].pc) {
      var j: nat, n: nat :| Listed(systems, actions, id, i, j) && Progress(a.handlers[id].pc, actions[j].order, n,
                    WrittenTo(a.sent, id), Skipped(systems, actions, id, i));
      assert Listed(systems, actions, id, i + 1, j);
    }
  }

  /** A section of this handler before it has its list. */
  lemma EarlyStep<R>(systems: seq<System<R>>, actions: seq<Action<R>>, id: nat, i: nat)
    requires i < |actions| < |systems| && Step(systems[i], actions[i], systems[i + 1]) && OnTrack(systems, actions, id, i)
    requires actions[i].Advance? && actions[i].id == id && Early(systems[i].handlers[id].pc)
    ensures OnTrack(systems, actions, id, i + 1)
  {
    var a, b := systems[i], systems[i + 1];
    assert b.sent == a.sent + [] == a.sent;
    assert Skipped(systems, actions, id, i + 1) == {};
    if a.handlers[id].pc.Collect? {
      var order := actions[i].order;
      assert Listed(systems, actions, id, i + 1, i);
      assert order[0..] == order && order[..0] == [];
      assert Progress(b.handlers[id].pc, order, 0, [], {});
    }
  }

  /** The books of a handler after one of its own sections. */
  lemma OwnSection<R>(systems: seq<System<R>>, actions: seq<Action<R>>, id: nat, i: nat)
    requires i < |actions| < |systems| && Step(systems[i], actions[i], systems[i + 1])
    requires actions[i].Advance? && actions[i].id == id
    ensures var a, b := systems[i], systems[i + 1];
      && id in a.handlers && id in b.handlers && b.handlers[id].voice == a.handlers[id].voice
      && var h := a.handlers[id]; var writes := WritesOf(a.index, id, h);
      && b.handlers[id].pc == NextPc(a.index, h, actions[i].order)
      && WrittenTo(b.sent, id) == WrittenTo(a.sent, id) + (if writes == [] then [] else [writes[0].target])
      && Skipped(systems, actions, id, i + 1) == Skipped(systems, actions, id, i) + PassedOver(a.index, h.pc)
  {
    var a := systems[i];
    WrittenAppend(a.sent, WritesOf(a.index, id, a.handlers[id]), id);
  }

  /** A section of this handler once it has its list. */
  lemma ListedStep<R>(systems: seq<System<R>>, actions: seq<Action<R>>, id: nat, i: nat)
    requires i < |actions| < |systems| && Step(systems[i], actions[i], systems[i + 1]) && OnTrack(systems, actions, id, i)
    requires actions[i].Advance? && actions[i].id == id && !Early(systems[i].handlers[id].pc)
    ensures OnTrack(systems, actions, id, i + 1)
  {
    var a, h := systems[i], systems[i].handlers[id];
    var written, skipped := WrittenTo(a.sent, id), Skipped(systems, actions, id, i);
    var j: nat, n: nat :| Listed(systems, actions, id, i, j) && Progress(h.pc, actions[j].order, n, written, skipped);
    var m := ProgressStep(a.index, id, h, actions[j].order, n, written, skipped, actions[i].order);
    OwnSection(systems, actions, id, i);
    assert Listed(systems, actions, id, i + 1, j);
  }

  lemma TrackStep<R>(systems: seq<System<R>>, actions: seq<Action<R>>, id: nat, i: nat)
    requires i < |actions| < |systems| && Step(systems[i], actions[i], systems[i + 1]) && OnTrack(systems, actions, id, i)
    ensures OnTrack(systems, actions, id, i + 1)
  {
    if !(actions[i].Advance? && actions[i].id == id) {
      OthersStep(systems, actions, id, i);
    } else if Early(systems[i].handlers[id].pc) {
      EarlyStep(systems, actions, id, i);
    } else {
      ListedStep(systems, actions, id, i);
    }
  }

  lemma {:induction false} StaysOnTrack<R>(systems: seq<System<R>>, actions: seq<Action<R>>, id: nat, i: nat)
    requires Run(systems, actions) && systems[0] == Start() && i <= |actions|
    ensures OnTrack(systems, actions, id, i)
  {
    if i == 0 {
    } else {
      StaysOnTrack(systems, actions, id, i - 1);
      TrackStep(systems, actions, id, i - 1);
    }
  }

  /** Section m, of the datagram's own handler, writes it, to the address its target then has. */
  ghost predicate WrittenIn<R>(systems: seq<System<R>>, actions: seq<Action<R>>, d: Datagram<R>, m: nat)
    requires m < |actions| < |systems|
  {
    && actions[m].Advance? && actions[m].id == d.handler && d.handler in systems[m].handlers
    && d in WritesOf(systems[m].index, d.handler, systems[m].handlers[d.handler])
    && Get(systems[m].index, d.target).addr == Some(d.addr)
  }

  ghost predicate Sent<R>(systems: seq<System<R>>, actions: seq<Action<R>>, i: nat, d: Datagram<R>)
    requires i <= |actions| < |systems|
  {
    && d.handler in systems[i].handlers && d.bytes == systems[i].handlers[d.handler].raw
    && exists m: nat :: m < i && WrittenIn(systems, actions, d, m)
  }

  lemma StaysSent<R>(systems: seq<System<R>>, actions: seq<Action<R>>, i: nat, d: Datagram<R>)
    requires i < |actions| < |systems| && Step(systems[i], actions[i], systems[i + 1]) && Sent(systems, actions, i, d)
    ensures Sent(systems, actions, i + 1, d)
  {
    var m: nat :| m < i && WrittenIn(systems, actions, d, m);
    assert m < i + 1;
  }

  /** Every datagram written is the one its handler received, byte for byte, sent to the address its target had then. */
  lemma {:induction false} BytesUnchanged<R>(systems: seq<System<R>>, actions: seq<Action<R>>, i: nat)
    requires Run(systems, actions) && systems[0] == Start() && i <= |actions|
    ensures forall d :: d in systems[i].sent ==> Sent(systems, actions, i, d)
  {
    if i == 0 {
    } else {
      var m := i - 1;
      BytesUnchanged(systems, actions, m);
      assert Step(systems[m], actions[m], systems[i]);
      forall d | d in systems[i].sent ensures Sent(systems, actions, i, d) {
        if d in systems[m].sent {
          StaysSent(systems, actions, m, d);
        } else {
          assert WrittenIn(systems, actions, d, m);
        }
      }
    }
  }

  /** The sessions listed are other users' objects in the bucket of the channel. */
  lemma PeersAreOthers<R>(s: State<R>, channel: uint32, user: uint32, r: R)
    requires Sound(s) && r in ChannelPeers(s, channel, user)
    ensures Get(s, r).userId != user && InBucket(s, channel, Get(s, r).userId) && s.byChannel[channel][Get(s, r).userId] == r
    ensures Partition(s) ==> LiveIn(s, channel, Get(s, r).userId) && s.byUser[Get(s, r).userId] == r
  {
    var u :| u in Bucket(s, channel) && u != user && Bucket(s, channel)[u] == r;
    assert InBucket(s, channel, u);
  }

  /** The account of a handler's list: written to, once, or passed over. */
  ghost predicate Served<R>(peers: set<R>, finished: bool, written: seq<R>, skipped: set<R>) {
    && Distinct(written) && (forall r :: r in written ==> r in peers)
    && (finished ==> forall r :: r in peers ==> (r in written <==> r !in skipped))
  }

  lemma ProgressServes<R>(pc: Pc<R>, order: seq<R>, n: nat, written: seq<R>, skipped: set<R>, peers: set<R>)
    requires Progress(pc, order, n, written, skipped) && Enumerates(order, peers)
    ensures Served(peers, pc == Done(None), written, skipped)
  {
    if pc == Done(None) {
      assert order[..n] == order;
    }
  }

  /**
  Forwarding under any interleaving: a handler that has written anything, or has finished without an error, has listed
  the peers of its channel in one earlier section; it has written to each of them at most once and to nobody else; and
  once it has finished, it has written to every one of them that it did not pass over as deafened or without address.
  */
  lemma InterleavedForwarding<R>(systems: seq<System<R>>, actions: seq<Action<R>>, i: nat, id: nat)
    requires Run(systems, actions) && systems[0] == Start() && i <= |actions| && id in systems[i].handlers
    requires WrittenTo(systems[i].sent, id) != [] || systems[i].handlers[id].pc == Done(None)
    ensures var h := systems[i].handlers[id];
      exists j: nat :: Listed(systems, actions, id, i, j) && Sound(systems[j].index) &&
        Served(ChannelPeers(systems[j].index, h.voice.channel, h.voice.user), h.pc == Done(None),
               WrittenTo(systems[i].sent, id), Skipped(systems, actions, id, i))
  {
    StaysOnTrack(systems, actions, id, i);
    var h, written, skipped := systems[i].handlers[id], WrittenTo(systems[i].sent, id), Skipped(systems, actions, id, i);
    var j: nat, n: nat :| Listed(systems, actions, id, i, j) && Progress(h.pc, actions[j].order, n, written, skipped);
    RunKeepsWellFormed(systems, actions, j);
    ProgressServes(h.pc, actions[j].order, n, written, skipped,
                   ChannelPeers(systems[j].index, h.voice.channel, h.voice.user));
  }
}
