// Whole runs, from the channel to the driver: the stream guard's methods and a
// bridge's methods called one after the other, for any channel and any driver.
module BridgeRuns {
  import opened Ump
  import opened SysEx
  import opened EndToEnd
  import GateIntegrity
  import E = Egress
  import S = StreamGuard
  import G = GuardedStream
  import H = HostQueue
  import D = DeviceBridge

  /** One thing that happens: some events on the channel, whose packets reach the bridge
      in deliveries of any size; or the end of a pass, when HOST drains its ring and
      DEVICE flushes its stage. */
  datatype Move = Channel(es: seq<G.ChannelEvent>) | PassEnds

  function ChannelOf(moves: seq<Move>): seq<G.ChannelEvent> {
    if moves == [] then []
    else
      var chan, last := ChannelOf(moves[..|moves|-1]), moves[|moves|-1];
      if last.Channel? then chan + last.es else chan
  }

  lemma ChannelSnoc(moves: seq<Move>, m: Move)
    ensures ChannelOf(moves + [m]) == if m.Channel? then ChannelOf(moves) + m.es else ChannelOf(moves)
  {
    assert (moves + [m])[..|moves|] == moves;
  }

  /** Passes that have ended. */
  function Passes(moves: seq<Move>): nat {
    if moves == [] then 0 else Passes(moves[..|moves|-1]) + if moves[|moves|-1].PassEnds? then 1 else 0
  }

  lemma PassesSnoc(moves: seq<Move>, m: Move)
    ensures Passes(moves + [m]) == Passes(moves) + if m.PassEnds? then 1 else 0
  {
    assert (moves + [m])[..|moves|] == moves;
  }

  predicate SendsWhole(chan: seq<G.ChannelEvent>) { forall u :: u in G.Sent(chan) ==> u.Whole() }

  lemma {:induction false} SentGrows(chan: seq<G.ChannelEvent>, more: seq<G.ChannelEvent>)
    ensures forall u :: u in G.Sent(chan) ==> u in G.Sent(chan + more)
  {
    if more == [] {
      assert chan + more == chan;
    } else {
      var init, e := more[..|more|-1], more[|more|-1];
      SentGrows(chan, init);
      assert chan + more == (chan + init) + [e];
      G.Snoc(chan + init, e);
    }
  }

  lemma {:induction false} WholePrefix(moves: seq<Move>, i: nat)
    requires i <= |moves| && SendsWhole(ChannelOf(moves))
    ensures SendsWhole(ChannelOf(moves[..i]))
  {
    if i == |moves| {
      assert moves[..i] == moves;
    } else {
      var init, m := moves[..|moves|-1], moves[|moves|-1];
      assert moves == init + [m] && init[..i] == moves[..i];
      ChannelSnoc(init, m);
      if m.Channel? { SentGrows(ChannelOf(init), m.es); }
      WholePrefix(init, i);
    }
  }

  // ---- the guard ----

  lemma OutputGrows(g: G.Guarded, e: G.ChannelEvent)
    ensures g.out <= G.Step(g, e).out
  {
    hide RoleOf, S.BreakEnds, S.EndUnit;
  }

  method GuardOne(guard: S.SysExStreamGuard, e: G.ChannelEvent, ghost chan: seq<G.ChannelEvent>)
    returns (packets: seq<seq<Word>>, ghost us: seq<Unit>)
    requires guard.Valid() && G.SameState(guard.open, guard.cutOff, guard.orphans, G.Run(chan))
    modifies guard, guard.open7, guard.open8
    ensures guard.Valid() && G.SameState(guard.open, guard.cutOff, guard.orphans, G.Run(chan + [e]))
    ensures packets == WordsOf(us) && G.Run(chan + [e]).out == G.Run(chan).out + us
  {
    hide G.Step, G.Run, WordsOf;
    ghost var g := G.Run(chan);
    G.Snoc(chan, e);
    OutputGrows(g, e);
    packets := G.Handle(guard, e, g);
    us := G.Step(g, e).out[|g.out|..];
    assert G.Step(g, e).out == g.out + us;
    WordsOfAppend(g.out, us);
    assert (WordsOf(g.out) + packets)[|WordsOf(g.out)|..] == packets;
    assert (WordsOf(g.out) + WordsOf(us))[|WordsOf(g.out)|..] == WordsOf(us);
  }

  method GuardAll(guard: S.SysExStreamGuard, es: seq<G.ChannelEvent>, ghost chan: seq<G.ChannelEvent>)
    returns (packets: seq<seq<Word>>, ghost us: seq<Unit>)
    requires guard.Valid() && G.SameState(guard.open, guard.cutOff, guard.orphans, G.Run(chan))
    modifies guard, guard.open7, guard.open8
    ensures guard.Valid() && G.SameState(guard.open, guard.cutOff, guard.orphans, G.Run(chan + es))
    ensures packets == WordsOf(us) && G.Run(chan + es).out == G.Run(chan).out + us
  {
    hide *;
    packets, us := [], [];
    NoneYet(chan, es);
    for i := 0 to |es|
      invariant guard.Valid() && G.SameState(guard.open, guard.cutOff, guard.orphans, G.Run(chan + es[..i]))
      invariant packets == WordsOf(us) && G.Run(chan + es[..i]).out == G.Run(chan).out + us
    {
      assert chan + es[..i + 1] == chan + es[..i] + [es[i]];
      var more;
      ghost var vs;
      more, vs := GuardOne(guard, es[i], chan + es[..i]);
      WordsOfAppend(us, vs);
      Assoc(G.Run(chan).out, us, vs);
      packets, us := packets + more, us + vs;
    }
    assert chan + es[..|es|] == chan + es;
  }

  lemma NoneYet(chan: seq<G.ChannelEvent>, es: seq<G.ChannelEvent>)
    ensures chan + es[..0] == chan && WordsOf([]) == [] && G.Run(chan).out + [] == G.Run(chan).out
  {}

  // ---- deliveries of any size ----

  lemma WordsOfSlice(us: seq<Unit>, i: nat, j: nat)
    requires i <= j <= |us|
    ensures WordsOf(us)[i..j] == WordsOf(us[i..j])
  {
    hide *;
    assert |WordsOf(us)| == |us|;
    forall k | 0 <= k < j - i ensures WordsOf(us)[i..j][k] == WordsOf(us[i..j])[k] {
    }
  }

  /** Whole packets end to end are a delivery of these packets. */
  lemma WholeDelivery(us: seq<Unit>)
    requires E.AllUnitsWhole(us)
    ensures E.Delivery(Flatten(WordsOf(us)), us)
  {
    hide WordsOf, AllWhole, Flatten, Packets, Residue, E.AllUnitsWhole;
    E.WordsAreWhole(us);
    ParseWhole(WordsOf(us));
  }

  lemma SliceIsWhole(us: seq<Unit>, i: nat, j: nat)
    requires i <= j <= |us| && forall u :: u in us ==> u.Whole()
    ensures E.AllUnitsWhole(us[i..j])
    ensures us[..j] == us[..i] + us[i..j]
  {
    hide Ump.Whole;
  }

  lemma SomePackets(us: seq<Unit>, i: nat, j: nat)
    requires i <= j <= |us| && forall u :: u in us ==> u.Whole()
    ensures E.Delivery(Flatten(WordsOf(us)[i..j]), us[i..j])
    ensures us[..j] == us[..i] + us[i..j]
  {
    hide *;
    WordsOfSlice(us, i, j);
    SliceIsWhole(us, i, j);
    WholeDelivery(us[i..j]);
  }

  // ---- HOST ----

  /** The packets arrive in deliveries of one or more, cut anywhere. */
  method FeedHost(bridge: H.HostBridge, packets: seq<seq<Word>>, ghost us: seq<Unit>)
    requires bridge.Valid() && bridge.mounted && packets == WordsOf(us) && forall u :: u in us ==> u.Whole()
    modifies bridge`count, bridge`highWater, bridge`history, bridge.ring, bridge.gate.state
    ensures bridge.Valid() && E.Extends(old(bridge.history), bridge.history, us)
    ensures old(bridge.Tracked()) ==> bridge.Tracked()
  {
    hide *;
    E.ExtendsNone(bridge.history);
    assert us[..0] == [];
    var i := 0;
    while i < |packets|
      invariant i <= |packets|
      invariant bridge.Valid() && E.Extends(old(bridge.history), bridge.history, us[..i])
      invariant old(bridge.Tracked()) ==> bridge.Tracked()
    {
      var j :| i < j <= |packets|;
      ghost var h := bridge.history;
      SomePackets(us, i, j);
      bridge.OnUmp(Flatten(packets[i..j]), us[i..j]);
      E.ExtendsTrans(old(bridge.history), h, bridge.history, us[..i], us[i..j]);
      i := j;
    }
    assert us[..|us|] == us;
  }

  /** Guard and bridge are where the channel's history has brought them, and the queue
      was drained at the end of every pass. */
  ghost predicate HostAt(guard: S.SysExStreamGuard, bridge: H.HostBridge, chan: seq<G.ChannelEvent>, passes: nat)
    reads guard, guard.open7, guard.open8, bridge, bridge.ring, bridge.gate, bridge.gate.state, bridge.usb
  {
    && guard.Valid() && G.SameState(guard.open, guard.cutOff, guard.orphans, G.Run(chan))
    && bridge.Valid() && bridge.mounted && bridge.Tracked() && bridge.usb.torn == 0
    && E.Offered(bridge.history) == G.Run(chan).out
    && bridge.usb.asked == passes && bridge.usb.writes <= 3 * passes
  }

  method HostMove(guard: S.SysExStreamGuard, bridge: H.HostBridge, m: Move, ghost moves: seq<Move>)
    requires HostAt(guard, bridge, ChannelOf(moves), Passes(moves)) && SendsWhole(ChannelOf(moves + [m]))
    requires {guard, guard.open7, guard.open8} !! {bridge, bridge.ring, bridge.gate, bridge.gate.state, bridge.usb}
    modifies guard, guard.open7, guard.open8
    modifies bridge, bridge.ring, bridge.gate.state, bridge.usb
    ensures HostAt(guard, bridge, ChannelOf(moves + [m]), Passes(moves + [m]))
  {
    hide S.SysExStreamGuard.Valid, G.SameState, G.Run, E.Offered, ChannelOf, Passes, WordsOf, H.HostBridge.Tracked;
    ghost var chan := ChannelOf(moves);
    ChannelSnoc(moves, m);
    PassesSnoc(moves, m);
    match m {
      case Channel(es) =>
        var packets;
        ghost var us;
        packets, us := GuardAll(guard, es, chan);
        GuardWhole(chan + es);
        FeedHost(bridge, packets, us);
      case PassEnds =>
        ghost var h := bridge.history;
        ghost var freed := bridge.Drain();
        E.RunSnoc(0, h, bridge.history[|h|]);
        assert E.Offered(h) + [] == E.Offered(h);
    }
  }

  /** What has reached the driver in the HOST role is whole packets in order, none split
      between driver and ring, and accounted for by the sender. */
  ghost predicate HostDelivers(chan: seq<G.ChannelEvent>, bridge: H.HostBridge, n: nat, k: Key)
    requires bridge.Valid()
    reads bridge, bridge.ring, bridge.gate, bridge.gate.state, bridge.usb
  {
    var out := E.Run(H.WORDS, bridge.history).out;
    SplitAt(out, n, bridge.usb.written, bridge.Contents())
    && Accounted(Receives(out[..n], k), Receives(G.Sent(chan), k))
  }

  /** The HOST role from its start, whatever the channel loses and whenever the driver
      frees room: no write was cut short, and what the driver has is accounted for. */
  method HostRun(moves: seq<Move>, capacity: nat, ghost k: Key)
    returns (guard: S.SysExStreamGuard, bridge: H.HostBridge, ghost n: nat)
    requires capacity <= 0xFFFF
    requires SendsWhole(ChannelOf(moves))
    requires G.HolesAnnounced(ChannelOf(moves)) && CorrectSender(G.Sent(ChannelOf(moves)), k)
    ensures HostAt(guard, bridge, ChannelOf(moves), Passes(moves))
    ensures E.NeverClosesSysEx8(H.WORDS, bridge.history) && GateIntegrity.Unharmed(H.WORDS, bridge.history, k) ==>
      HostDelivers(ChannelOf(moves), bridge, n, k)
    ensures k.Key7? && (forall u :: u in G.Sent(ChannelOf(moves)) ==> !E.SysEx8Packet(u)) ==>
      HostDelivers(ChannelOf(moves), bridge, n, k)
  {
    hide G.Run, E.Run, E.Offered, ChannelOf, Passes, HostAt, HostDelivers, WordsOf;
    guard := new S.SysExStreamGuard();
    bridge := new H.HostBridge(capacity);
    HostStart(guard, bridge);
    assert moves[..0] == [];
    for i := 0 to |moves|
      invariant fresh(guard) && fresh(guard.open7) && fresh(guard.open8)
      invariant fresh(bridge) && fresh(bridge.ring) && fresh(bridge.gate.state) && fresh(bridge.usb)
      invariant {guard, guard.open7, guard.open8} !! {bridge, bridge.ring, bridge.gate, bridge.gate.state, bridge.usb}
      invariant HostAt(guard, bridge, ChannelOf(moves[..i]), Passes(moves[..i]))
    {
      assert moves[..i + 1] == moves[..i] + [moves[i]];
      WholePrefix(moves, i + 1);
      HostMove(guard, bridge, moves[i], moves[..i]);
    }
    assert moves[..|moves|] == moves;
    n := HostResult(guard, bridge, ChannelOf(moves), Passes(moves), k);
  }

  lemma HostStart(guard: S.SysExStreamGuard, bridge: H.HostBridge)
    requires guard.Valid() && guard.open == {} && guard.cutOff == 0 && guard.orphans == 0
    requires bridge.Valid() && bridge.Tracked() && bridge.mounted && bridge.history == [] && bridge.usb.torn == 0
    requires bridge.usb.asked == bridge.usb.writes == 0
    ensures HostAt(guard, bridge, ChannelOf([]), Passes([]))
  {}

  lemma HostResult(guard: S.SysExStreamGuard, bridge: H.HostBridge, chan: seq<G.ChannelEvent>, passes: nat, k: Key)
    returns (n: nat)
    requires HostAt(guard, bridge, chan, passes)
    requires SendsWhole(chan) && G.HolesAnnounced(chan) && CorrectSender(G.Sent(chan), k)
    ensures E.NeverClosesSysEx8(H.WORDS, bridge.history) && GateIntegrity.Unharmed(H.WORDS, bridge.history, k) ==>
      HostDelivers(chan, bridge, n, k)
    ensures k.Key7? && (forall u :: u in G.Sent(chan) ==> !E.SysEx8Packet(u)) ==> HostDelivers(chan, bridge, n, k)
  {
    n := 0;
    hide G.Run, G.Sent, E.Run, E.Offered, E.NeverClosesSysEx8, GateIntegrity.Unharmed, CorrectSender, H.InLine;
    var h := bridge.history;
    if k.Key7? && forall u :: u in G.Sent(chan) ==> !E.SysEx8Packet(u) { SysEx7SenderIsSafe(chan, H.WORDS, h, k); }
    if E.NeverClosesSysEx8(H.WORDS, h) && GateIntegrity.Unharmed(H.WORDS, h, k) {
      n := HostIntegrity(chan, h, bridge.gate.Contents(), bridge.usb.written, bridge.Contents(), k);
    }
  }

  // ---- DEVICE ----

  method FeedDevice(bridge: D.DeviceBridge, packets: seq<seq<Word>>, ghost us: seq<Unit>)
    requires bridge.Valid() && bridge.mounted && packets == WordsOf(us) && forall u :: u in us ==> u.Whole()
    modifies bridge`stageWords, bridge`history, bridge.stage, bridge.gate.state, bridge.usb
    ensures bridge.Valid() && E.Extends(old(bridge.history), bridge.history, us)
    ensures bridge.usb.torn == old(bridge.usb.torn)
    ensures old(bridge.Tracked()) ==> bridge.Tracked()
  {
    hide *;
    E.ExtendsNone(bridge.history);
    assert us[..0] == [];
    var i := 0;
    while i < |packets|
      invariant i <= |packets| && bridge.usb.torn == old(bridge.usb.torn)
      invariant bridge.Valid() && E.Extends(old(bridge.history), bridge.history, us[..i])
      invariant old(bridge.Tracked()) ==> bridge.Tracked()
    {
      var j :| i < j <= |packets|;
      ghost var h := bridge.history;
      SomePackets(us, i, j);
      bridge.OnUmp(Flatten(packets[i..j]), us[i..j]);
      E.ExtendsTrans(old(bridge.history), h, bridge.history, us[..i], us[i..j]);
      i := j;
    }
    assert us[..|us|] == us;
  }

  ghost predicate DeviceAt(guard: S.SysExStreamGuard, bridge: D.DeviceBridge, chan: seq<G.ChannelEvent>)
    reads guard, guard.open7, guard.open8, bridge, bridge.stage, bridge.gate, bridge.gate.state, bridge.usb
  {
    && guard.Valid() && G.SameState(guard.open, guard.cutOff, guard.orphans, G.Run(chan))
    && bridge.Valid() && bridge.mounted && bridge.Tracked() && bridge.usb.torn == 0
    && E.Offered(bridge.history) == G.Run(chan).out
  }

  method DeviceMove(guard: S.SysExStreamGuard, bridge: D.DeviceBridge, m: Move, ghost moves: seq<Move>)
    requires DeviceAt(guard, bridge, ChannelOf(moves)) && SendsWhole(ChannelOf(moves + [m]))
    requires {guard, guard.open7, guard.open8} !! {bridge, bridge.stage, bridge.gate, bridge.gate.state, bridge.usb}
    modifies guard, guard.open7, guard.open8
    modifies bridge`stageWords, bridge`history, bridge.stage, bridge.gate.state, bridge.usb
    ensures DeviceAt(guard, bridge, ChannelOf(moves + [m]))
    ensures m.PassEnds? ==> bridge.stageWords == 0
  {
    hide S.SysExStreamGuard.Valid, G.SameState, G.Run, E.Offered, ChannelOf, WordsOf, D.DeviceBridge.Tracked;
    ghost var chan := ChannelOf(moves);
    ChannelSnoc(moves, m);
    match m {
      case Channel(es) =>
        var packets;
        ghost var us;
        packets, us := GuardAll(guard, es, chan);
        GuardWhole(chan + es);
        FeedDevice(bridge, packets, us);
      case PassEnds =>
        bridge.EndPass();
        assert E.Offered(old(bridge.history)) + [] == E.Offered(old(bridge.history));
    }
  }

  /** What has reached the driver in the DEVICE role is whole packets, all that were let
      through, and accounted for by the sender. */
  ghost predicate DeviceDelivers(chan: seq<G.ChannelEvent>, bridge: D.DeviceBridge, k: Key)
    reads bridge, bridge.usb
  {
    var out := E.Run(bridge.usb.capacity, bridge.history).out;
    && Packets(bridge.usb.written) == WordsOf(out) && Residue(bridge.usb.written) == []
    && Accounted(Receives(out, k), Receives(G.Sent(chan), k))
  }

  /** The DEVICE role from its start up to the end of a pass. */
  method DeviceRun(moves: seq<Move>, capacity: nat, ghost k: Key)
    returns (guard: S.SysExStreamGuard, bridge: D.DeviceBridge)
    requires capacity <= 0xFFFF
    requires SendsWhole(ChannelOf(moves))
    requires G.HolesAnnounced(ChannelOf(moves)) && CorrectSender(G.Sent(ChannelOf(moves)), k)
    ensures DeviceAt(guard, bridge, ChannelOf(moves)) && bridge.usb.capacity == capacity
    ensures E.NeverClosesSysEx8(capacity, bridge.history) && GateIntegrity.Unharmed(capacity, bridge.history, k) ==>
      DeviceDelivers(ChannelOf(moves), bridge, k)
    ensures k.Key7? && (forall u :: u in G.Sent(ChannelOf(moves)) ==> !E.SysEx8Packet(u)) ==>
      DeviceDelivers(ChannelOf(moves), bridge, k)
  {
    hide G.Run, E.Run, E.Offered, ChannelOf, DeviceAt, DeviceDelivers, WordsOf;
    guard := new S.SysExStreamGuard();
    bridge := new D.DeviceBridge(capacity);
    DeviceStart(guard, bridge);
    assert moves[..0] == [];
    for i := 0 to |moves|
      invariant fresh(guard) && fresh(guard.open7) && fresh(guard.open8)
      invariant fresh(bridge) && fresh(bridge.stage) && fresh(bridge.gate.state) && fresh(bridge.usb)
      invariant {guard, guard.open7, guard.open8} !! {bridge, bridge.stage, bridge.gate, bridge.gate.state, bridge.usb}
      invariant DeviceAt(guard, bridge, ChannelOf(moves[..i]))
    {
      assert moves[..i + 1] == moves[..i] + [moves[i]];
      WholePrefix(moves, i + 1);
      DeviceMove(guard, bridge, moves[i], moves[..i]);
    }
    assert moves[..|moves|] == moves;
    ChannelSnoc(moves, PassEnds);
    DeviceMove(guard, bridge, PassEnds, moves);
    DeviceResult(guard, bridge, ChannelOf(moves), k);
  }

  lemma DeviceStart(guard: S.SysExStreamGuard, bridge: D.DeviceBridge)
    requires guard.Valid() && guard.open == {} && guard.cutOff == 0 && guard.orphans == 0
    requires bridge.Valid() && bridge.Tracked() && bridge.mounted && bridge.history == [] && bridge.usb.torn == 0
    ensures DeviceAt(guard, bridge, ChannelOf([]))
  {}

  lemma DeviceResult(guard: S.SysExStreamGuard, bridge: D.DeviceBridge, chan: seq<G.ChannelEvent>, k: Key)
    requires DeviceAt(guard, bridge, chan) && bridge.stageWords == 0
    requires SendsWhole(chan) && G.HolesAnnounced(chan) && CorrectSender(G.Sent(chan), k)
    ensures
      var capacity := bridge.usb.capacity;
      E.NeverClosesSysEx8(capacity, bridge.history) && GateIntegrity.Unharmed(capacity, bridge.history, k) ==>
        DeviceDelivers(chan, bridge, k)
    ensures k.Key7? && (forall u :: u in G.Sent(chan) ==> !E.SysEx8Packet(u)) ==> DeviceDelivers(chan, bridge, k)
  {
    hide G.Run, G.Sent, E.Run, E.Offered, E.NeverClosesSysEx8, GateIntegrity.Unharmed, CorrectSender, E.Matches;
    var capacity, h := bridge.usb.capacity, bridge.history;
    assert bridge.stage[..0] == [] && bridge.Handed() == bridge.usb.written;
    if k.Key7? && forall u :: u in G.Sent(chan) ==> !E.SysEx8Packet(u) { SysEx7SenderIsSafe(chan, capacity, h, k); }
    if E.NeverClosesSysEx8(capacity, h) && GateIntegrity.Unharmed(capacity, h, k) {
      DirectIntegrity(chan, capacity, h, bridge.gate.Contents(), bridge.usb.written, bridge.usb.room, k);
    }
  }
}
