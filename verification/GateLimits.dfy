// Where the gate's promises end: exactly when another System Exclusive message of the
// same Group makes it splice one, and runs in which its comments are not met.
module GateLimits {
  import opened Ump
  import opened SysEx
  import opened DropGate
  import opened Egress
  import opened GateIntegrity
  import opened Subsequences

  /** Once a message is being abandoned, its next packet is let through exactly
      when the packet in between was a rival of the same Group that went out and ended a
      message, or was refused in the middle of one. */
  lemma {:induction false} AbandonedPassesIffDisturbed(o: Outlet, e: Event, u: Unit, k: Key)
    requires LaneOf(o.gate, k).abandoning
    requires !Carries(e, k) && Carries(Offer(u), k) && u.tag.Own?
    requires Fits(Step(o, e), u)
    ensures Step(Step(o, e), Offer(u)).out == Step(o, e).out + [u] <==> Disturbs(o, e, k)
  {
    hide RoleOf, Disturbs;
    var p := Step(o, e);
    DisturbsIffForgotten(o, e, k);
    if Suppressed(p.gate, u.head) {
      assert Step(p, Offer(u)).out == p.out || Step(p, Offer(u)).out == p.out + [Terminator(u.head)];
      assert p.out + [Terminator(u.head)] != p.out + [u] by {
        assert (p.out + [Terminator(u.head)])[|p.out|] != (p.out + [u])[|p.out|];
      }
    }
  }

  // ---- what packets a receiver has ----

  predicate IsEnd(u: Unit) { RoleOf(u.head).Part? && RoleOf(u.head).status == END }

  /** Provenance tells packets apart; only the guard's Ends may be alike. */
  predicate AllDistinct(us: seq<Unit>) {
    forall i, j :: 0 <= i < j < |us| && us[i] == us[j] ==> IsEnd(us[i])
  }

  lemma BegunIsMadeOf(p: Message, r: Receiver, us: seq<Unit>, u: Unit)
    requires Begun(p, r) && MadeOf(r, us) && u !in us
    ensures u !in p
  {
    forall i | 0 <= i < |p| ensures p[i] in us {
      if p <= r.open {
        assert r.open[i] == p[i];
      } else {
        var m :| m in r.done && p < m;
        assert m[i] == p[i];
      }
    }
  }

  // ---- the promise is kept exactly by unharmed runs ----

  /** While a message is being abandoned, the receiver lacks its latest packet. */
  predicate Behind(lane: Lane, src: Receiver, rcv: Receiver) {
    lane.abandoning && src.open != [] ==> src.open[|src.open|-1] !in rcv.open
  }

  lemma LaneIsBehind(o: Outlet, u: Unit, k: Key, src: Receiver)
    requires Carries(Offer(u), k)
    requires RoleOf(u.head).status <= END && Receive(src, k, u).Sound()
    requires !IsEnd(u) ==> u !in Receives(o.out, k).open
    ensures Behind(LaneOf(Step(o, Offer(u)).gate, k), Receive(src, k, u),
                   Receives(Step(o, Offer(u)).out, k))
  {
    LaneStep(o, u, k);
  }

  lemma DistinctBefore(init: seq<Event>, e: Event)
    requires AllDistinct(Offered(init + [e]))
    ensures AllDistinct(Offered(init)) && forall v :: v in Offered(init) ==> v in Offered(init + [e])
  {
    hide IsEnd;
    RunSnoc(0, init, e);
    var before, after := Offered(init), Offered(init + [e]);
    assert before == after[..|before|];
  }

  lemma LastIsNew(init: seq<Event>, e: Event)
    requires e.Offer? && AllDistinct(Offered(init + [e])) && !IsEnd(e.u)
    ensures e.u !in Offered(init)
  {
    hide IsEnd;
    RunSnoc(0, init, e);
    var before, after := Offered(init), Offered(init + [e]);
    assert after[|before|] == e.u && before == after[..|before|];
  }

  lemma {:induction false} RunIsBehind(room: nat, es: seq<Event>, k: Key)
    requires Unharmed(room, es, k) && Proper(Offered(es), k) && AllDistinct(Offered(es))
    ensures Behind(LaneOf(Run(room, es).gate, k), Receives(Offered(es), k), Receives(Run(room, es).out, k))
  {
    if es != [] {
      var init, e := es[..|es|-1], es[|es|-1];
      assert es == init + [e];
      hide Run, Step, Receives, Offered, Proper, Unharmed, LaneOf, Receive, RoleOf, Begun, Disturbs, Faithful;
      RunSnoc(room, init, e);
      ProperInit(init, e, k);
      UnharmedSnoc(room, init, e, k);
      DistinctBefore(init, e);
      RunIsBehind(room, init, k);
      var o, src := Run(room, init), Receives(Offered(init), k);
      if Carries(e, k) {
        if !IsEnd(e.u) {
          LastIsNew(init, e);
          NewPacketIsNew(room, init, e.u, k);
        }
        LaneIsBehind(o, e.u, k, src);
      } else {
        BehindElsewhere(o, e, k, src);
      }
    }
  }

  lemma BehindElsewhere(o: Outlet, e: Event, k: Key, src: Receiver)
    requires !Carries(e, k) && Behind(LaneOf(o.gate, k), src, Receives(o.out, k))
    ensures Behind(LaneOf(Step(o, e).gate, k), if e.Offer? then Receive(src, k, e.u) else src,
                   Receives(Step(o, e).out, k))
  {
    ElsewhereStep(o, e, k);
  }

  lemma NewPacketIsNew(room: nat, init: seq<Event>, u: Unit, k: Key)
    requires Unharmed(room, init, k) && Proper(Offered(init), k)
    requires u !in Offered(init)
    ensures u !in Receives(Run(room, init).out, k).open
    ensures forall m :: m in Receives(Offered(init), k).done ==> u !in m
  {
    hide Run, Receives, Proper, Unharmed, Subseq, Keep;
    RunIsFaithful(room, init, k);
    ReceivedAreOffered(Offered(init), k);
    BegunIsMadeOf(Receives(Run(room, init).out, k).open, Receives(Offered(init), k), Offered(init), u);
  }

  lemma BrokenPromise(src: Receiver, rcv: Receiver, u: Unit)
    requires src.open != [] && src.open[|src.open|-1] !in rcv.open && !u.tag.GateEnd?
    requires forall m :: m in src.done ==> u !in m
    ensures !Promised(Accept(src, END, u), Accept(rcv, END, u))
  {
    if rcv.open != [] {
      hide Subseq, Keep;
      var m, whole, sent := rcv.open + [u], Accept(rcv, END, u).done, Accept(src, END, u).done;
      assert m[|rcv.open|] == u && m in whole && !ClosedByGate(m);
      InKeep(NotClosedByGate, whole, m);
      assert m != src.open + [u] by {
        assert m[..|rcv.open|] == rcv.open && (src.open + [u])[..|src.open|] == src.open;
      }
      assert m !in sent;
      if Subseq(Keep(NotClosedByGate, whole), sent) { InSubseq(Keep(NotClosedByGate, whole), sent, m); }
    }
  }

  lemma ProperSnoc(us: seq<Unit>, u: Unit, k: Key)
    requires Proper(us, k) && Receives(us, k).open != []
    requires RoleOf(u.head) == Part(k, END) && !u.tag.GateEnd?
    ensures Proper(us + [u], k) && Receives(us + [u], k) == Accept(Receives(us, k), END, u)
  {
    ReceivesSnoc(us, u, k);
  }

  lemma SpliceAfterHarm(o: Outlet, e: Event, u: Unit, k: Key, src: Receiver)
    requires Disturbs(o, e, k) && src.open != []
    requires Behind(LaneOf(o.gate, k), src, Receives(o.out, k))
    requires Carries(Offer(u), k) && RoleOf(u.head).status == END && !u.tag.GateEnd?
    requires forall m :: m in src.done ==> u !in m
    ensures
      var p := Step(Step(Step(o, e), Free(|u.Words()|)), Offer(u));
      !Promised(Accept(src, END, u), Receives(p.out, k))
  {
    hide Receives, Promised;
    var n := Free(|u.Words()|);
    ElsewhereStep(o, e, k);
    ElsewhereStep(Step(o, e), n, k);
    LaneStep(Step(Step(o, e), n), u, k);
    BrokenPromise(src, Receives(o.out, k), u);
  }

  /** The history as it was after `n` events, then room for `u`, and `u`. */
  function FinishedAfter(es: seq<Event>, n: nat, u: Unit): seq<Event>
    requires n <= |es|
  {
    es[..n] + [Free(|u.Words()|)] + [Offer(u)]
  }

  predicate KeptIfFinished(room: nat, es: seq<Event>, n: nat, u: Unit, k: Key)
    requires n <= |es|
  {
    var all := FinishedAfter(es, n, u);
    Proper(Offered(all), k) ==> Promised(Receives(Offered(all), k), Receives(Run(room, all).out, k))
  }

  lemma FinishedRun(room: nat, es: seq<Event>, n: nat, u: Unit)
    requires n <= |es|
    ensures Offered(FinishedAfter(es, n, u)) == Offered(es[..n]) + [u]
    ensures Run(room, FinishedAfter(es, n, u)) == Step(Step(Run(room, es[..n]), Free(|u.Words()|)), Offer(u))
  {
    RunSnoc(room, es[..n], Free(|u.Words()|));
    RunSnoc(room, es[..n] + [Free(|u.Words()|)], Offer(u));
  }

  lemma {:induction false} UnharmedPrefix(room: nat, es: seq<Event>, n: nat, k: Key)
    requires n <= |es| && Unharmed(room, es, k)
    ensures Unharmed(room, es[..n], k)
  {
    if n == |es| {
      assert es[..n] == es;
    } else {
      UnharmedPrefix(room, es[..|es|-1], n, k);
      assert es[..|es|-1][..n] == es[..n];
    }
  }

  lemma UnharmedKeeps(room: nat, es: seq<Event>, n: nat, u: Unit, k: Key)
    requires n <= |es| && Unharmed(room, es, k) && Carries(Offer(u), k)
    ensures KeptIfFinished(room, es, n, u, k)
  {
    hide Run, Receives, Offered, Proper, Unharmed, Promised;
    var all, ready := FinishedAfter(es, n, u), es[..n] + [Free(|u.Words()|)];
    UnharmedPrefix(room, es, n, k);
    UnharmedSnoc(room, es[..n], Free(|u.Words()|), k);
    UnharmedSnoc(room, ready, Offer(u), k);
    if Proper(Offered(all), k) { EndMeansWhole(room, all, k); }
  }

  lemma HarmBreaksNow(room: nat, init: seq<Event>, e: Event, u: Unit, k: Key)
    requires Proper(Offered(init), k) && AllDistinct(Offered(init)) && Unharmed(room, init, k)
    requires Disturbs(Run(room, init), e, k) && Receives(Offered(init), k).open != []
    requires RoleOf(u.head) == Part(k, END) && !u.tag.GateEnd? && u !in Offered(init)
    ensures
      var src := Receives(Offered(init), k);
      var p := Step(Step(Step(Run(room, init), e), Free(|u.Words()|)), Offer(u));
      Receive(src, k, e.u) == src && !Promised(Accept(src, END, u), Receives(p.out, k))
  {
    hide Run, Receives, Offered, Proper, Unharmed, Promised, Step, Behind, Accept;
    RunIsBehind(room, init, k);
    NewPacketIsNew(room, init, u, k);
    SpliceAfterHarm(Run(room, init), e, u, k, Receives(Offered(init), k));
  }

  lemma HarmBreaksLast(room: nat, init: seq<Event>, e: Event, u: Unit, k: Key)
    requires Proper(Offered(init), k) && AllDistinct(Offered(init)) && Unharmed(room, init, k)
    requires Disturbs(Run(room, init), e, k) && Receives(Offered(init), k).open != []
    requires Proper(Offered(init + [e]), k) && RoleOf(u.head) == Part(k, END) && !u.tag.GateEnd?
    requires u !in Offered(init)
    ensures !KeptIfFinished(room, init + [e], |init| + 1, u, k)
  {
    hide Run, Receives, Offered, Proper, Unharmed, Promised, Step, FinishedAfter, Receive, Accept, RoleOf;
    var es := init + [e];
    RunSnoc(room, init, e);
    ProperInit(init, e, k);
    HarmBreaksNow(room, init, e, u, k);
    assert es[..|init| + 1] == es;
    FinishedRun(room, es, |es|, u);
    ProperSnoc(Offered(es), u, k);
  }

  lemma KeptEarlier(room: nat, init: seq<Event>, e: Event, n: nat, u: Unit, k: Key)
    requires n <= |init|
    ensures KeptIfFinished(room, init + [e], n, u, k) <==> KeptIfFinished(room, init, n, u, k)
  {
    hide Run, Receives, Offered, Proper, Promised;
    assert (init + [e])[..n] == init[..n];
  }

  lemma {:induction false} HarmBreaks(room: nat, es: seq<Event>, u: Unit, k: Key) returns (n: nat)
    requires Proper(Offered(es), k) && AllDistinct(Offered(es)) && !Unharmed(room, es, k)
    requires RoleOf(u.head) == Part(k, END) && !u.tag.GateEnd? && u !in Offered(es)
    ensures n <= |es| && !KeptIfFinished(room, es, n, u, k)
  {
    assert es != [];
    hide *;
    var init, e := es[..|es|-1], es[|es|-1];
    assert es == init + [e];
    ProperInit(init, e, k);
    UnharmedSnoc(room, init, e, k);
    DistinctBefore(init, e);
    if !Unharmed(room, init, k) {
      n := HarmBreaks(room, init, u, k);
      KeptEarlier(room, init, e, n, u, k);
    } else {
      n := |es|;
      HarmBreaksLast(room, init, e, u, k);
    }
  }

  /** The exact condition for the gate's promise. Let any first part of the history
      be followed by the End that the sender would send next, with room for it: the
      promise is kept in every such case if and only if, in the history, no rival that
      goes out and ends its message, or that is refused in the middle of one, comes while
      a message with key `k` is being abandoned that its sender has not finished. */
  lemma {:induction false} PromiseIffUnharmed(room: nat, es: seq<Event>, u: Unit, k: Key)
    requires Proper(Offered(es), k) && AllDistinct(Offered(es))
    requires RoleOf(u.head) == Part(k, END) && !u.tag.GateEnd? && u !in Offered(es)
    ensures (forall n :: 0 <= n <= |es| ==> KeptIfFinished(room, es, n, u, k)) <==> Unharmed(room, es, k)
  {
    if Unharmed(room, es, k) {
      forall n | 0 <= n <= |es| ensures KeptIfFinished(room, es, n, u, k) { UnharmedKeeps(room, es, n, u, k); }
    } else {
      var n := HarmBreaks(room, es, u, k);
    }
  }

  // ---- runs in which a comment is not met ----

  /** A packet of Group 0: SysEx7 with the given status, or SysEx8. */
  function Sx7(status: nat, i: nat): Unit
    requires status < 16
  {
    Unit(0x3000_0000 + status * 0x10_0000, [0], Own(i))
  }

  function Sx8(status: nat, i: nat): Unit
    requires status < 16
  {
    Unit(0x5000_0000 + status * 0x10_0000, [0, 0, 0], Own(i))
  }

  lemma Roles(status: nat, i: nat)
    requires status < 16
    ensures RoleOf(Sx7(status, i).head) == Part(Key7(0), status)
    ensures RoleOf(Sx8(status, i).head) == Part(Key8(0, 0), status)
  {
    FirstWordFields(3, 0, status, 0, 0, 0);
    FirstWordFields(5, 0, status, 0, 0, 0);
    hide MessageType, Group, Status, StreamId, ByteCount;
  }

  predicate IsSx7(u: Unit, status: nat) { RoleOf(u.head) == Part(Key7(0), status) && |u.rest| == 1 }

  predicate IsSx8(u: Unit, status: nat) { RoleOf(u.head) == Part(Key8(0, 0), status) && |u.rest| == 3 }

  lemma SplicedRun(s: Unit, c: Unit, x: Unit, e: Unit)
    requires IsSx7(s, START) && IsSx7(c, CONTINUE) && IsSx8(x, COMPLETE) && IsSx7(e, END)
    ensures
      var es := [Offer(s)] + [Offer(c)] + [Free(6)] + [Offer(x)] + [Offer(e)];
      && Run(2, es).out == [s] + [x] + [e]
      && Offered(es) == [s] + [c] + [x] + [e]
  {
    var e1 := [Offer(s)];
    var e2 := e1 + [Offer(c)];
    var e3 := e2 + [Free(6)];
    var e4 := e3 + [Offer(x)];
    assert [] + [Offer(s)] == e1 && [] + [s] == [s];
    assert Run(2, []) == Outlet(Fresh(), 2, []) && Offered([]) == [];
    hide RoleOf, Run, Offered;
    RunSnoc(2, [], Offer(s));
    RunSnoc(2, e1, Offer(c));
    RunSnoc(2, e2, Free(6));
    RunSnoc(2, e3, Offer(x));
    RunSnoc(2, e4, Offer(e));
  }

  lemma SplicedReceived(s: Unit, c: Unit, x: Unit, e: Unit)
    requires IsSx7(s, START) && IsSx7(c, CONTINUE) && IsSx8(x, COMPLETE) && IsSx7(e, END)
    ensures Receives([s] + [x] + [e], Key7(0)) == Receiver([[s, e]], [], [], 0)
    ensures Receives([s] + [c] + [x] + [e], Key7(0)) == Receiver([[s, c, e]], [], [], 0)
  {
    var k := Key7(0);
    assert [] + [s] == [s] && [s] + [e] == [s, e] && [s] + [c] + [e] == [s, c, e];
    assert Receives([], k) == IDLE;
    hide RoleOf, Receives;
    ReceivesSnoc([], s, k);
    ReceivesSnoc([s], x, k);
    ReceivesSnoc([s] + [x], e, k);
    ReceivesSnoc([s], c, k);
    ReceivesSnoc([s] + [c], x, k);
    ReceivesSnoc([s] + [c] + [x], e, k);
  }

  /** A Start goes out, its Continue is refused, a one-packet SysEx8 of the Group
      goes out and clears the slot: the End goes out too, and the receiver gets a
      message that was never sent. */
  lemma SharedSlotSplices()
    ensures
      var s, c, x, e := Sx7(START, 0), Sx7(CONTINUE, 1), Sx8(COMPLETE, 2), Sx7(END, 3);
      var es := [Offer(s)] + [Offer(c)] + [Free(6)] + [Offer(x)] + [Offer(e)];
      && Receives(Offered(es), Key7(0)).Sound()
      && Receives(Offered(es), Key7(0)).done == [[s, c, e]]
      && Receives(Run(2, es).out, Key7(0)).done == [[s, e]]
  {
    var s, c, x, e := Sx7(START, 0), Sx7(CONTINUE, 1), Sx8(COMPLETE, 2), Sx7(END, 3);
    Roles(START, 0);
    Roles(CONTINUE, 1);
    Roles(COMPLETE, 2);
    Roles(END, 3);
    hide Run, Receives, Offered, RoleOf;
    SplicedRun(s, c, x, e);
    SplicedReceived(s, c, x, e);
  }

  lemma RefusedEndRun(s: Unit, e: Unit, c: Unit)
    requires IsSx7(s, START) && IsSx7(e, END) && IsSx7(c, COMPLETE)
    ensures
      var es := [Offer(s)] + [Offer(e)] + [Free(6)] + [Offer(c)];
      && Run(2, es).out == [s] + [Terminator(c.head)]
      && Offered(es) == [s] + [e] + [c]
      && Refusals(2, es, Key7(0)) == 1
  {
    var e1 := [Offer(s)];
    var e2 := e1 + [Offer(e)];
    var e3 := e2 + [Free(6)];
    assert [] + [Offer(s)] == e1 && [] + [s] == [s];
    assert Run(2, []) == Outlet(Fresh(), 2, []) && Offered([]) == [] && Refusals(2, [], Key7(0)) == 0;
    hide RoleOf, Run, Offered, Refusals;
    RunSnoc(2, [], Offer(s));
    RunSnoc(2, e1, Offer(e));
    RunSnoc(2, e2, Free(6));
    RunSnoc(2, e3, Offer(c));
    RefusedSnoc(2, [], Offer(s), Key7(0));
    RefusedSnoc(2, e1, Offer(e), Key7(0));
    RefusedSnoc(2, e2, Free(6), Key7(0));
    RefusedSnoc(2, e3, Offer(c), Key7(0));
  }

  lemma RefusedEndReceived(s: Unit, e: Unit, c: Unit)
    requires IsSx7(s, START) && IsSx7(e, END) && IsSx7(c, COMPLETE)
    ensures Receives([s] + [Terminator(c.head)], Key7(0)).done == [[s] + [Terminator(c.head)]]
    ensures Receives([s] + [e] + [c], Key7(0)).done == [[s] + [e]] + [[c]]
  {
    var k := Key7(0);
    assert [] + [s] == [s];
    assert Receives([], k) == IDLE;
    hide RoleOf, Receives;
    TerminatorIsEnd(c.head);
    ReceivesSnoc([], s, k);
    ReceivesSnoc([s], Terminator(c.head), k);
    ReceivesSnoc([s], e, k);
    ReceivesSnoc([s] + [e], c, k);
  }

  /** One refused End costs two messages: neither arrives. */
  lemma BoundIsMet()
    ensures
      var s, e, c := Sx7(START, 0), Sx7(END, 1), Sx7(COMPLETE, 2);
      var es := [Offer(s)] + [Offer(e)] + [Free(6)] + [Offer(c)];
      && Receives(Offered(es), Key7(0)).done == [[s] + [e]] + [[c]]
      && Keep(NotClosedByGate, Receives(Run(2, es).out, Key7(0)).done) == []
      && Refusals(2, es, Key7(0)) == 1
  {
    var s, e, c := Sx7(START, 0), Sx7(END, 1), Sx7(COMPLETE, 2);
    Roles(START, 0);
    Roles(END, 1);
    Roles(COMPLETE, 2);
    var t := Terminator(c.head);
    assert Keep(NotClosedByGate, []) == [];
    KeepSnoc(NotClosedByGate, [], [s] + [t]);
    assert [] + [[s] + [t]] == [[s] + [t]];
    hide Run, Receives, Offered, RoleOf, Refusals, Keep;
    RefusedEndRun(s, e, c);
    RefusedEndReceived(s, e, c);
  }

  lemma ShortTerminatorRun(s: Unit, c: Unit, e: Unit)
    requires IsSx8(s, START) && IsSx8(c, CONTINUE) && IsSx8(e, END)
    ensures
      var es := [Offer(s)] + [Offer(c)] + [Free(2)] + [Offer(e)];
      && Run(4, es).out == [s] + [Terminator(e.head)]
      && Offered(es) == [s] + [c] + [e]
  {
    var e1 := [Offer(s)];
    var e2 := e1 + [Offer(c)];
    var e3 := e2 + [Free(2)];
    assert [] + [Offer(s)] == e1 && [] + [s] == [s];
    assert Run(4, []) == Outlet(Fresh(), 4, []) && Offered([]) == [];
    hide RoleOf, Run, Offered;
    RunSnoc(4, [], Offer(s));
    RunSnoc(4, e1, Offer(c));
    RunSnoc(4, e2, Free(2));
    RunSnoc(4, e3, Offer(e));
  }

  /** Whole packets are offered, and a packet that is not whole goes out: the
      terminator of a SysEx8 message whose Continue was refused. */
  lemma ShortTerminatorGoesOut()
    ensures
      var s, c, e := Sx8(START, 0), Sx8(CONTINUE, 1), Sx8(END, 2);
      var es := [Offer(s)] + [Offer(c)] + [Free(2)] + [Offer(e)];
      && (forall u :: u in Offered(es) ==> u.Whole())
      && Run(4, es).out == [s] + [Terminator(e.head)]
      && !Terminator(e.head).Whole()
  {
    var s, c, e := Sx8(START, 0), Sx8(CONTINUE, 1), Sx8(END, 2);
    Roles(START, 0);
    Roles(CONTINUE, 1);
    Roles(END, 2);
    assert s.Whole() && c.Whole() && e.Whole();
    hide Run, Offered, RoleOf, WordCount;
    ShortTerminatorRun(s, c, e);
    TerminatorIsEnd(e.head);
  }
}
