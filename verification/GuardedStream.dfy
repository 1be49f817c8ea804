// The stream guard at work: runs over a channel that may lose packets.
module GuardedStream {
  import opened Ump
  import opened SysEx
  import opened StreamGuard
  import opened Subsequences

  /** What happens to each packet sent, and breakStream when the receiver learns
      that there is a hole. */
  datatype ChannelEvent = Deliver(u: Unit) | Lose(u: Unit) | Break

  /** The guard's state, and all it has let through or made itself; `clashes` are
      the keys for which a Start or Complete found its message still open. */
  datatype Guarded = Guarded(open: set<Key>, cutOff: Word, orphans: Word, out: seq<Unit>, clashes: set<Key>)

  const UNUSED := Guarded({}, 0, 0, [], {})

  function Admit(g: Guarded, u: Unit): Guarded {
    if !Admits(g.open, u.head) then g.(orphans := Bump(g.orphans, 1))
    else if !Clashes(g.open, u.head) then
      g.(open := OpenAfter(g.open, u.head), out := g.out + [u])
    else
      var k := RoleOf(u.head).key;
      Guarded(OpenAfter(g.open, u.head), Bump(g.cutOff, 1), g.orphans,
              g.out + [EndUnit(k)] + [u], g.clashes + {k})
  }

  function BreakAll(g: Guarded): Guarded {
    g.(open := {}, cutOff := Bump(g.cutOff, |g.open|), out := g.out + BreakEnds(g.open))
  }

  function Step(g: Guarded, e: ChannelEvent): Guarded {
    match e
    case Deliver(u) => Admit(g, u)
    case Lose(_) => g
    case Break => BreakAll(g)
  }

  function Run(es: seq<ChannelEvent>): Guarded {
    if es == [] then UNUSED else Step(Run(es[..|es|-1]), es[|es|-1])
  }

  /** What the sender sent. */
  function Sent(es: seq<ChannelEvent>): seq<Unit> {
    if es == [] then []
    else Sent(es[..|es|-1]) + if es[|es|-1].Break? then [] else [es[|es|-1].u]
  }

  /** Is there a hole that has not been announced yet? */
  predicate Hole(es: seq<ChannelEvent>) {
    es != [] && !es[|es|-1].Break? && (es[|es|-1].Lose? || Hole(es[..|es|-1]))
  }

  /** breakStream is called at every hole, before anything more is delivered. */
  predicate HolesAnnounced(es: seq<ChannelEvent>) {
    es == [] || (HolesAnnounced(es[..|es|-1]) && (es[|es|-1].Deliver? ==> !Hole(es[..|es|-1])))
  }

  lemma Snoc(es: seq<ChannelEvent>, e: ChannelEvent)
    ensures Run(es + [e]) == Step(Run(es), e)
    ensures Sent(es + [e]) == Sent(es) + if e.Break? then [] else [e.u]
    ensures Hole(es + [e]) <==> !e.Break? && (e.Lose? || Hole(es))
    ensures HolesAnnounced(es + [e]) <==> HolesAnnounced(es) && (e.Deliver? ==> !Hole(es))
  {
    assert (es + [e])[..|es|] == es;
  }

  // ---- the delivered stream, key by key ----

  lemma {:induction false} EndsReceived(out: seq<Unit>, ks: seq<Key>, k: Key)
    requires Distinct(ks)
    ensures Receives(out + EndsFor(ks), k) ==
            if k in ks then Accept(Receives(out, k), END, EndUnit(k)) else Receives(out, k)
  {
    if ks == [] {
      assert out + EndsFor(ks) == out;
    } else {
      var init, last := ks[..|ks|-1], ks[|ks|-1];
      EndsReceived(out, init, k);
      assert forall q :: q in ks <==> q in init || q == last;
      EndUnitRole(last);
      ReceivesSnoc(out + EndsFor(init), EndUnit(last), k);
      assert out + EndsFor(ks) == (out + EndsFor(init)) + [EndUnit(last)];
    }
  }

  lemma BreakReceived(g: Guarded, k: Key)
    ensures Receives(BreakAll(g).out, k) ==
            if k in g.open then Accept(Receives(g.out, k), END, EndUnit(k)) else Receives(g.out, k)
  {
    GroupsOpenExact(g.open, GROUPS);
    EndsReceived(g.out, GroupsOpen(g.open, GROUPS), k);
  }

  predicate OfKey(u: Unit, k: Key) { RoleOf(u.head).Part? && RoleOf(u.head).key == k }

  /** What admitting `u` means for the receiver of `k`. */
  lemma AdmitReceived(g: Guarded, u: Unit, k: Key)
    ensures
      var rcv, rcv' := Receives(g.out, k), Receives(Admit(g, u).out, k);
      if !OfKey(u, k) then rcv' == rcv && (k in Admit(g, u).open <==> k in g.open)
      else
      var st := RoleOf(u.head).status;
      if st == START || st == COMPLETE then
        && rcv' == Accept(if k in g.open then Accept(rcv, END, EndUnit(k)) else rcv, st, u)
        && (k in Admit(g, u).open <==> st == START)
      else if k in g.open || st > END then
        rcv' == Accept(rcv, st, u) && (k in Admit(g, u).open <==> st != END && k in g.open)
      else rcv' == rcv && k !in Admit(g, u).open
    ensures k in Admit(g, u).clashes <==>
      k in g.clashes || (OfKey(u, k) && Clashes(g.open, u.head))
  {
    hide RoleOf, Receives;
    ReceivesSnoc(g.out, u, k);
    if Clashes(g.open, u.head) {
      var q := RoleOf(u.head).key;
      EndUnitRole(q);
      ReceivesSnoc(g.out, EndUnit(q), k);
      ReceivesSnoc(g.out + [EndUnit(q)], u, k);
    }
  }

  predicate InStep(g: Guarded, k: Key) {
    Receives(g.out, k).Sound() && (k in g.open <==> Receives(g.out, k).open != [])
  }

  lemma AdmitInStep(g: Guarded, u: Unit, k: Key)
    requires InStep(g, k)
    ensures InStep(Admit(g, u), k)
  {
    AdmitReceived(g, u, k);
  }

  lemma StepInStep(g: Guarded, e: ChannelEvent, k: Key)
    requires InStep(g, k)
    ensures InStep(Step(g, e), k)
  {
    match e {
      case Deliver(u) => AdmitInStep(g, u, k);
      case Lose(_) =>
      case Break => BreakReceived(g, k);
    }
  }

  /** Whatever arrives, lost, repeated or malformed, what the guard delivers is a
      well-formed stream of every key, and its flags say which messages are open. */
  lemma {:induction false} OutputWellFormed(es: seq<ChannelEvent>, k: Key)
    ensures WellFormed(Run(es).out, k)
    ensures k in Run(es).open <==> Receives(Run(es).out, k).open != []
  {
    if es != [] {
      OutputWellFormed(es[..|es|-1], k);
      StepInStep(Run(es[..|es|-1]), es[|es|-1], k);
    }
  }

  // ---- the guard on a stream that is in order already ----

  function Deliveries(us: seq<Unit>): seq<ChannelEvent> {
    if us == [] then [] else Deliveries(us[..|us|-1]) + [Deliver(us[|us|-1])]
  }

  /** A packet that its receiver can take is let through. */
  lemma SoundAdmitted(g: Guarded, u: Unit)
    requires forall k :: InStep(g, k) && Receive(Receives(g.out, k), k, u).Sound()
    ensures Admits(g.open, u.head) && !Clashes(g.open, u.head)
  {
    hide RoleOf, Receives;
    if RoleOf(u.head).Part? {
      var k := RoleOf(u.head).key;
      assert InStep(g, k) && Receive(Receives(g.out, k), k, u).Sound();
    }
  }

  lemma {:induction false} WellFormedPasses(us: seq<Unit>)
    requires forall k :: WellFormed(us, k)
    ensures Run(Deliveries(us)) == Guarded(Run(Deliveries(us)).open, 0, 0, us, {})
  {
    if us != [] {
      var init, u := us[..|us|-1], us[|us|-1];
      assert us == init + [u];
      forall k ensures WellFormed(init, k) {
        assert WellFormed(us, k);
        PrefixSound(us, |init|, k);
      }
      WellFormedPasses(init);
      Snoc(Deliveries(init), Deliver(u));
      var g := Run(Deliveries(init));
      forall k ensures InStep(g, k) && Receive(Receives(g.out, k), k, u).Sound() {
        assert WellFormed(us, k);
        ReceivesSnoc(init, u, k);
        OutputWellFormed(Deliveries(init), k);
      }
      SoundAdmitted(g, u);
    }
  }

  /** The guard leaves a stream as it is exactly when it is well formed for every
      key; and then it counts nothing. */
  lemma {:induction false} IdentityIffWellFormed(us: seq<Unit>)
    ensures Run(Deliveries(us)).out == us <==> forall k :: WellFormed(us, k)
    ensures Run(Deliveries(us)).out == us ==>
      Run(Deliveries(us)).cutOff == 0 && Run(Deliveries(us)).orphans == 0
  {
    if Run(Deliveries(us)).out == us {
      forall k ensures WellFormed(us, k) { OutputWellFormed(Deliveries(us), k); }
    }
    if forall k :: WellFormed(us, k) { WellFormedPasses(us); }
  }

  /** A second guard behind the first changes nothing. */
  lemma {:induction false} Idempotent(es: seq<ChannelEvent>)
    ensures Run(Deliveries(Run(es).out)).out == Run(es).out
  {
    forall k ensures WellFormed(Run(es).out, k) { OutputWellFormed(es, k); }
    WellFormedPasses(Run(es).out);
  }

  // ---- a lossy channel ----

  predicate ClosedByGuard(m: Message) { m != [] && m[|m|-1].tag.GuardEnd? }

  predicate NotClosedByGuard(m: Message) { !ClosedByGuard(m) }

  predicate FromSender(us: seq<Unit>) { forall i :: 0 <= i < |us| ==> us[i].tag.Own? }

  /** A message delivered is a whole sent message, or the beginning of one and a
      single End made by the guard. */
  predicate WholeOrCut(m: Message, sender: Receiver) {
    if ClosedByGuard(m) then Begun(m[..|m|-1], sender) else m in sender.done
  }

  /** `src` has received what was sent, the guard's receiver what was delivered. */
  predicate Tracks(g: Guarded, hole: bool, src: Receiver, k: Key) {
    var rcv := Receives(g.out, k);
    && InStep(g, k) && src.Sound() && k !in g.clashes
    && Begun(rcv.open, src)
    && (!hole && rcv.open != [] ==> rcv.open == src.open)
    && (forall m :: m in rcv.done ==> WholeOrCut(m, src))
    && Subseq(Keep(NotClosedByGuard, rcv.done), src.done)
  }

  lemma BreakTracks(g: Guarded, hole: bool, src: Receiver, k: Key)
    requires Tracks(g, hole, src, k)
    ensures Tracks(BreakAll(g), false, src, k)
  {
    hide Keep, Subseq;
    BreakReceived(g, k);
    StepInStep(g, Break, k);
    var rcv := Receives(g.out, k);
    var m := rcv.open + [EndUnit(k)];
    assert m[..|m|-1] == rcv.open;
    KeepSnoc(NotClosedByGuard, rcv.done, m);
    assert Begun([], src);
  }

  lemma LoseTracks(g: Guarded, hole: bool, src: Receiver, u: Unit, k: Key)
    requires Tracks(g, hole, src, k) && Receive(src, k, u).Sound()
    ensures Tracks(g, true, Receive(src, k, u), k)
  {
    hide Keep, Subseq;
    forall p | Begun(p, src) ensures Begun(p, Receive(src, k, u)) { BegunGrows(p, src, k, u); }
    BegunGrows([], src, k, u);
    DoneStays(Keep(NotClosedByGuard, Receives(g.out, k).done), src, k, u);
  }

  lemma DeliverTracks(g: Guarded, src: Receiver, u: Unit, k: Key)
    requires Tracks(g, false, src, k) && Receive(src, k, u).Sound() && u.tag.Own?
    ensures Tracks(Admit(g, u), false, Receive(src, k, u), k)
  {
    hide RoleOf, Receives, Admit, Step, Keep, Subseq;
    AdmitReceived(g, u, k);
    AdmitInStep(g, u, k);
    var rcv, src' := Receives(g.out, k), Receive(src, k, u);
    var kept := Keep(NotClosedByGuard, rcv.done);
    DoneStays(kept, src, k, u);
    forall p | Begun(p, src) ensures Begun(p, src') { BegunGrows(p, src, k, u); }
    BegunGrows([], src, k, u);
    if OfKey(u, k) {
      var st := RoleOf(u.head).status;
      if st == COMPLETE {
        assert src'.done == src.done + [[u]];
        KeepSnoc(NotClosedByGuard, rcv.done, [u]);
        TakeLast(kept, src.done, [u]);
      } else if st == END && rcv.open != [] {
        var m := rcv.open + [u];
        assert src'.done == src.done + [m];
        KeepSnoc(NotClosedByGuard, rcv.done, m);
        TakeLast(kept, src.done, m);
      }
    }
  }

  lemma StepTracks(g: Guarded, hole: bool, src: Receiver, e: ChannelEvent, k: Key)
    requires Tracks(g, hole, src, k) && (e.Deliver? ==> !hole && e.u.tag.Own?)
    requires !e.Break? ==> Receive(src, k, e.u).Sound()
    ensures Tracks(Step(g, e), !e.Break? && (e.Lose? || hole), if e.Break? then src else Receive(src, k, e.u), k)
  {
    match e {
      case Deliver(u) => DeliverTracks(g, src, u, k);
      case Lose(u) => LoseTracks(g, hole, src, u, k);
      case Break => BreakTracks(g, hole, src, k);
    }
  }

  lemma SentInit(init: seq<ChannelEvent>, e: ChannelEvent, k: Key)
    requires WellFormed(Sent(init + [e]), k) && FromSender(Sent(init + [e]))
    ensures WellFormed(Sent(init), k) && FromSender(Sent(init))
    ensures e.Break? ==> Sent(init + [e]) == Sent(init)
    ensures !e.Break? ==> e.u.tag.Own?
    ensures !e.Break? ==> Receives(Sent(init + [e]), k) == Receive(Receives(Sent(init), k), k, e.u)
    ensures !e.Break? ==> Receive(Receives(Sent(init), k), k, e.u).Sound()
  {
    Snoc(init, e);
    var before, after := Sent(init), Sent(init + [e]);
    assert before == after[..|before|];
    PrefixSound(after, |before|, k);
    if !e.Break? {
      assert after[|before|] == e.u;
      ReceivesSnoc(before, e.u, k);
    }
  }

  lemma {:induction false} RunTracks(es: seq<ChannelEvent>, k: Key)
    requires HolesAnnounced(es) && WellFormed(Sent(es), k) && FromSender(Sent(es))
    ensures Tracks(Run(es), Hole(es), Receives(Sent(es), k), k)
  {
    if es != [] {
      hide *;
      var init, e := es[..|es|-1], es[|es|-1];
      assert es == init + [e];
      Snoc(init, e);
      SentInit(init, e, k);
      RunTracks(init, k);
      StepTracks(Run(init), Hole(init), Receives(Sent(init), k), e, k);
    }
  }

  /** A correct sender and a channel that loses anything, with breakStream at every
      hole: the messages the guard did not end are sent ones, in order and at most
      once, the others beginnings of sent ones, and the guard never finds a message
      still open when another begins. */
  lemma {:induction false} LossNeverSplices(es: seq<ChannelEvent>, k: Key)
    requires HolesAnnounced(es) && WellFormed(Sent(es), k) && FromSender(Sent(es))
    ensures forall m :: m in Receives(Run(es).out, k).done ==> WholeOrCut(m, Receives(Sent(es), k))
    ensures Subseq(Keep(NotClosedByGuard, Receives(Run(es).out, k).done), Receives(Sent(es), k).done)
    ensures Begun(Receives(Run(es).out, k).open, Receives(Sent(es), k))
    ensures Receives(Run(es).out, k).Sound()
    ensures k !in Run(es).clashes
  {
    RunTracks(es, k);
  }

  // ---- the counters ----

  function Starts(us: seq<Unit>): nat {
    if us == [] then 0
    else
      var r := RoleOf(us[|us|-1].head);
      Starts(us[..|us|-1]) + if r.Part? && r.status == START then 1 else 0
  }

  /** Ends by origin: the guard's own (`made`), or the sender's. */
  function Ends(us: seq<Unit>, made: bool): nat {
    if us == [] then 0
    else
      var u := us[|us|-1];
      Ends(us[..|us|-1], made)
      + if RoleOf(u.head).Part? && RoleOf(u.head).status == END && u.tag.GuardEnd? == made then 1 else 0
  }

  lemma CountSnoc(us: seq<Unit>, u: Unit)
    ensures
      var r := RoleOf(u.head);
      && Starts(us + [u]) == Starts(us) + (if r.Part? && r.status == START then 1 else 0)
      && Ends(us + [u], true) == Ends(us, true) + (if r.Part? && r.status == END && u.tag.GuardEnd? then 1 else 0)
      && Ends(us + [u], false) == Ends(us, false) + (if r.Part? && r.status == END && !u.tag.GuardEnd? then 1 else 0)
  {
    assert (us + [u])[..|us|] == us;
  }

  lemma {:induction false} CountEnds(us: seq<Unit>, ks: seq<Key>)
    ensures Starts(us + EndsFor(ks)) == Starts(us)
    ensures Ends(us + EndsFor(ks), true) == Ends(us, true) + |ks|
    ensures Ends(us + EndsFor(ks), false) == Ends(us, false)
  {
    if ks == [] {
      assert us + EndsFor(ks) == us;
    } else {
      var init, last := ks[..|ks|-1], ks[|ks|-1];
      CountEnds(us, init);
      EndUnitRole(last);
      CountSnoc(us + EndsFor(init), EndUnit(last));
      assert us + EndsFor(ks) == (us + EndsFor(init)) + [EndUnit(last)];
    }
  }

  predicate Balanced(g: Guarded) {
    && Starts(g.out) == Ends(g.out, false) + Ends(g.out, true) + |g.open|
    && g.cutOff == Bump(0, Ends(g.out, true))
  }

  lemma AdmitBalanced(g: Guarded, u: Unit)
    requires Balanced(g) && !u.tag.GuardEnd?
    ensures Balanced(Admit(g, u))
  {
    hide Bump, Starts, Ends;
    CountSnoc(g.out, u);
    if Clashes(g.open, u.head) {
      var k := RoleOf(u.head).key;
      EndUnitRole(k);
      CountSnoc(g.out, EndUnit(k));
      CountSnoc(g.out + [EndUnit(k)], u);
      BumpTwice(0, Ends(g.out, true), 1);
    }
  }

  lemma BreakBalanced(g: Guarded)
    requires Balanced(g)
    ensures Balanced(BreakAll(g))
  {
    hide Bump, GroupsOpen, EndsFor, Starts, Ends;
    var ks := GroupsOpen(g.open, GROUPS);
    GroupsOpenExact(g.open, GROUPS);
    DistinctCount(ks, g.open);
    CountEnds(g.out, ks);
    BumpTwice(0, Ends(g.out, true), |ks|);
  }

  lemma {:induction false} RunBalanced(es: seq<ChannelEvent>)
    requires forall u :: u in Sent(es) ==> !u.tag.GuardEnd?
    ensures Balanced(Run(es))
  {
    if es != [] {
      var init, e := es[..|es|-1], es[|es|-1];
      assert es == init + [e];
      Snoc(init, e);
      hide Balanced, Admit, BreakAll;
      assert forall u :: u in Sent(init) ==> u in Sent(es);
      RunBalanced(init);
      match e {
        case Deliver(u) =>
          assert u in Sent(es);
          AdmitBalanced(Run(init), u);
        case Lose(_) =>
        case Break => BreakBalanced(Run(init));
      }
    } else {
      assert Starts([]) == 0 && Ends([], false) == 0 && Ends([], true) == 0;
    }
  }

  /** Every message started is ended by its sender, ended by the guard, or still
      open; `cutOff` is the number the guard ended, modulo 2^32. */
  lemma {:induction false} CountersBalance(es: seq<ChannelEvent>)
    requires forall u :: u in Sent(es) ==> !u.tag.GuardEnd?
    ensures Starts(Run(es).out) == Ends(Run(es).out, false) + Ends(Run(es).out, true) + |Run(es).open|
    ensures Run(es).cutOff == Ends(Run(es).out, true) % WORD_RANGE
  {
    RunBalanced(es);
  }

  /** Packets that reached the guard. */
  function Arrived(es: seq<ChannelEvent>): nat {
    if es == [] then 0 else Arrived(es[..|es|-1]) + if es[|es|-1].Deliver? then 1 else 0
  }

  /** Packets in a stream that the guard did not make itself. */
  function Passed(us: seq<Unit>): nat {
    if us == [] then 0 else Passed(us[..|us|-1]) + if us[|us|-1].tag.GuardEnd? then 0 else 1
  }

  lemma PassedSnoc(us: seq<Unit>, u: Unit)
    ensures Passed(us + [u]) == Passed(us) + if u.tag.GuardEnd? then 0 else 1
  {
    assert (us + [u])[..|us|] == us;
  }

  lemma {:induction false} PassedEnds(us: seq<Unit>, ks: seq<Key>)
    ensures Passed(us + EndsFor(ks)) == Passed(us)
  {
    if ks == [] {
      assert us + EndsFor(ks) == us;
    } else {
      var init, last := ks[..|ks|-1], ks[|ks|-1];
      PassedEnds(us, init);
      PassedSnoc(us + EndsFor(init), EndUnit(last));
      assert us + EndsFor(ks) == (us + EndsFor(init)) + [EndUnit(last)];
    }
  }

  lemma StepPassed(g: Guarded, e: ChannelEvent)
    requires e.Deliver? ==> !e.u.tag.GuardEnd?
    ensures
      var n := if e.Deliver? && Admits(g.open, e.u.head) then 1 else 0;
      var d := if e.Deliver? && !Admits(g.open, e.u.head) then 1 else 0;
      Passed(Step(g, e).out) == Passed(g.out) + n && Step(g, e).orphans == Bump(g.orphans, d)
  {
    hide RoleOf, GroupsOpen, EndsFor, Passed;
    match e {
      case Deliver(u) =>
        PassedSnoc(g.out, u);
        if Clashes(g.open, u.head) {
          var end := EndUnit(RoleOf(u.head).key);
          PassedSnoc(g.out, end);
          PassedSnoc(g.out + [end], u);
        }
      case Lose(_) =>
      case Break => PassedEnds(g.out, GroupsOpen(g.open, GROUPS));
    }
  }

  lemma ArrivedSnoc(es: seq<ChannelEvent>, e: ChannelEvent)
    ensures Arrived(es + [e]) == Arrived(es) + if e.Deliver? then 1 else 0
  {
    assert (es + [e])[..|es|] == es;
  }

  predicate Counted(g: Guarded, arrived: nat) {
    Passed(g.out) <= arrived && g.orphans == Bump(0, arrived - Passed(g.out))
  }

  lemma StepCounted(g: Guarded, e: ChannelEvent, arrived: nat)
    requires Counted(g, arrived) && (e.Deliver? ==> !e.u.tag.GuardEnd?)
    ensures Counted(Step(g, e), arrived + if e.Deliver? then 1 else 0)
  {
    hide Step, Passed, Bump;
    StepPassed(g, e);
    BumpTwice(0, arrived - Passed(g.out), 1);
    BumpTwice(0, arrived - Passed(g.out), 0);
  }

  lemma {:induction false} AllCounted(es: seq<ChannelEvent>)
    requires forall u :: u in Sent(es) ==> !u.tag.GuardEnd?
    ensures Counted(Run(es), Arrived(es))
  {
    if es != [] {
      hide *;
      var init, e := es[..|es|-1], es[|es|-1];
      assert es == init + [e];
      Snoc(init, e);
      assert forall u :: u in Sent(init) ==> u in Sent(es);
      AllCounted(init);
      if e.Deliver? { assert e.u in Sent(es); }
      StepCounted(Run(init), e, Arrived(init));
      ArrivedSnoc(init, e);
    }
  }

  /** Every packet that arrived was delivered, or is one of the `orphans`, counted
      modulo 2^32. */
  lemma {:induction false} OrphansAreTheRest(es: seq<ChannelEvent>)
    requires forall u :: u in Sent(es) ==> !u.tag.GuardEnd?
    ensures Passed(Run(es).out) <= Arrived(es)
    ensures Run(es).orphans == (Arrived(es) - Passed(Run(es).out)) % WORD_RANGE
  {
    hide Run, Arrived, Passed;
    AllCounted(es);
  }

  // ---- the guard's own methods make these runs ----

  lemma AdmitWords(g: Guarded, u: Unit)
    ensures WordsOf(Admit(g, u).out) == WordsOf(g.out)
      + (if Clashes(g.open, u.head) then Emitted(EndsFor([RoleOf(u.head).key]), true) else [])
      + (if Admits(g.open, u.head) then [u.Words()] else [])
  {
    WordsOfAppend(g.out, [u]);
    assert WordsOf([u]) == [u.Words()];
    if Clashes(g.open, u.head) {
      var e := EndUnit(RoleOf(u.head).key);
      assert EndsFor([RoleOf(u.head).key]) == [e];
      WordsOfAppend(g.out, [e]);
      WordsOfAppend(g.out + [e], [u]);
    }
  }

  predicate SameState(open: set<Key>, cutOff: Word, orphans: Word, g: Guarded) {
    open == g.open && cutOff == g.cutOff && orphans == g.orphans
  }

  method Handle(guard: SysExStreamGuard, e: ChannelEvent, ghost g: Guarded) returns (more: seq<seq<Word>>)
    requires guard.Valid() && SameState(guard.open, guard.cutOff, guard.orphans, g)
    modifies guard, guard.open7, guard.open8
    ensures guard.Valid() && SameState(guard.open, guard.cutOff, guard.orphans, Step(g, e))
    ensures WordsOf(Step(g, e).out) == WordsOf(g.out) + more
  {
    hide WordsOf, RoleOf, EndsFor, GroupsOpen;
    match e {
      case Deliver(u) =>
        hide Bump;
        var ok, ends := guard.Admit(u.head, true);
        AdmitWords(g, u);
        more := ends + if ok then [u.Words()] else [];
        Assoc(WordsOf(g.out), ends, if ok then [u.Words()] else []);
        BumpNone(g.cutOff);
        BumpNone(g.orphans);
      case Lose(_) =>
        more := [];
      case Break =>
        more := guard.BreakStream(true);
        WordsOfAppend(g.out, BreakEnds(g.open));
    }
  }

  lemma BumpNone(c: Word)
    ensures Bump(c, 0) == c
  {}

  /** A guard that is called for every event, with a callback, hands on exactly the
      packets of `Run`, and counts what `Run` counts. */
  method Replay(es: seq<ChannelEvent>) returns (guard: SysExStreamGuard, out: seq<seq<Word>>)
    ensures guard.Valid() && SameState(guard.open, guard.cutOff, guard.orphans, Run(es))
    ensures out == WordsOf(Run(es).out)
  {
    hide *;
    guard := new SysExStreamGuard();
    out := [];
    assert es[..0] == [];
    ReplayStart();
    for i := 0 to |es|
      invariant fresh(guard) && fresh(guard.open7) && fresh(guard.open8) && guard.Valid()
      invariant SameState(guard.open, guard.cutOff, guard.orphans, Run(es[..i]))
      invariant out == WordsOf(Run(es[..i]).out)
    {
      assert es[..i + 1] == es[..i] + [es[i]];
      Snoc(es[..i], es[i]);
      var more := Handle(guard, es[i], Run(es[..i]));
      out := out + more;
    }
    assert es[..|es|] == es;
  }

  lemma ReplayStart()
    ensures WordsOf(Run([]).out) == [] && SameState({}, 0, 0, Run([]))
  {}
}
