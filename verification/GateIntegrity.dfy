// What the drop gate promises: whatever is refused, a System Exclusive message
// reaches the receiver whole or is visibly given up, never spliced.
module GateIntegrity {
  import opened Ump
  import opened SysEx
  import opened DropGate
  import opened Egress
  import opened Subsequences

  /** Only the four defined statuses occur with key `k`. */
  predicate Defined(us: seq<Unit>, k: Key) {
    forall i :: 0 <= i < |us| ==> RoleOf(us[i].head).Part? && RoleOf(us[i].head).key == k
                                  ==> RoleOf(us[i].head).status <= END
  }

  /** No packet offered was made by the gate itself. */
  predicate Foreign(us: seq<Unit>) {
    forall i :: 0 <= i < |us| ==> !us[i].tag.GateEnd?
  }

  predicate ClosedByGate(m: Message) {
    m != [] && m[|m|-1].tag.GateEnd?
  }

  predicate NotClosedByGate(m: Message) { !ClosedByGate(m) }

  /** The gate's view of the messages with one key. */
  datatype Lane = Lane(abandoning: bool, owes: bool)

  function LaneOf(g: Gate, k: Key): Lane {
    var a := Abandons(g[k.group], k);
    Lane(a, a && g[k.group].owesEnd)
  }

  // ---- one step, seen from one key ----

  /** Packets of other keys, and freed room, are nothing to the lane's receiver. */
  lemma ElsewhereReceived(o: Outlet, e: Event, k: Key)
    requires !Carries(e, k)
    ensures Receives(Step(o, e).out, k) == Receives(o.out, k)
  {
    if e.Offer? {
      if Suppressed(o.gate, e.u.head) {
        TerminatorIsEnd(e.u.head);
        ReceivesSnoc(o.out, Terminator(e.u.head), k);
      } else {
        ReceivesSnoc(o.out, e.u, k);
      }
    }
  }

  /** They leave the lane alone, or end its abandonment. */
  lemma ElsewhereStep(o: Outlet, e: Event, k: Key)
    requires !Carries(e, k)
    ensures LaneOf(Step(o, e).gate, k) == if Disturbs(o, e, k) then Lane(false, false) else LaneOf(o.gate, k)
    ensures Receives(Step(o, e).out, k) == Receives(o.out, k)
  {
    hide RoleOf, Receives;
    ElsewhereReceived(o, e, k);
  }

  /** A packet of the lane, in terms of the lane alone. */
  lemma LaneStep(o: Outlet, u: Unit, k: Key)
    requires Carries(Offer(u), k)
    ensures
      var st := RoleOf(u.head).status;
      var lane := LaneOf(o.gate, k);
      var p := Step(o, Offer(u));
      var rcv, rcv' := Receives(o.out, k), Receives(p.out, k);
      var last := st == END || st == COMPLETE;
      && (lane.abandoning && !last ==> LaneOf(p.gate, k) == lane && rcv' == rcv)
      && (lane.abandoning && last ==>
            LaneOf(p.gate, k) == Lane(false, false)
            && (lane.owes && 2 <= o.room ==> rcv' == Accept(rcv, END, Terminator(u.head)))
            && (!lane.owes || o.room < 2 ==> rcv' == rcv))
      && (!lane.abandoning && Fits(o, u) ==>
            LaneOf(p.gate, k) == lane && rcv' == Accept(rcv, st, u))
      && (!lane.abandoning && !Fits(o, u) ==>
            rcv' == rcv
            && LaneOf(p.gate, k) == if st == COMPLETE then lane else Lane(true, st != START))
      && (Misses(o, Offer(u), k) <==> lane.owes && last && o.room < 2)
  {
    TerminatorIsEnd(u.head);
    ReceivesSnoc(o.out, Terminator(u.head), k);
    ReceivesSnoc(o.out, u, k);
  }

  // ---- the rest of an abandoned message ----

  /** A packet that is the last of its message. */
  predicate IsLast(u: Unit) {
    RoleOf(u.head).Part? && (RoleOf(u.head).status == END || RoleOf(u.head).status == COMPLETE)
  }

  /** In `more`, after `es`, the message is neither finished nor disturbed. */
  predicate GoesOn(room: nat, es: seq<Event>, more: seq<Event>, k: Key) {
    more == [] ||
    var init, e := more[..|more|-1], more[|more|-1];
    GoesOn(room, es, init, k) && !(Carries(e, k) && IsLast(e.u)) && !Disturbs(Run(room, es + init), e, k)
  }

  /** In `more`, after `es`, every packet of the message is suppressed. */
  predicate AllSuppressed(room: nat, es: seq<Event>, more: seq<Event>, k: Key) {
    more == [] ||
    var init, e := more[..|more|-1], more[|more|-1];
    AllSuppressed(room, es, init, k) && (Carries(e, k) ==> Suppressed(Run(room, es + init).gate, e.u.head))
  }

  lemma StaysAbandoned(o: Outlet, e: Event, k: Key)
    requires Abandons(o.gate[k.group], k) && !(Carries(e, k) && IsLast(e.u)) && !Disturbs(o, e, k)
    ensures LaneOf(Step(o, e).gate, k) == LaneOf(o.gate, k)
    ensures Receives(Step(o, e).out, k) == Receives(o.out, k)
    ensures Carries(e, k) ==> Suppressed(o.gate, e.u.head)
  {
    hide Receives;
    if Carries(e, k) { LaneStep(o, e.u, k); } else { ElsewhereStep(o, e, k); }
  }

  lemma {:induction false} StillAbandoned(room: nat, es: seq<Event>, more: seq<Event>, k: Key)
    requires Abandons(Run(room, es).gate[k.group], k) && GoesOn(room, es, more, k)
    ensures LaneOf(Run(room, es + more).gate, k) == LaneOf(Run(room, es).gate, k)
    ensures Receives(Run(room, es + more).out, k) == Receives(Run(room, es).out, k)
    ensures AllSuppressed(room, es, more, k)
    decreases |more|
  {
    if more == [] {
      assert es + more == es;
    } else {
      var init, e := more[..|more|-1], more[|more|-1];
      assert es + more == (es + init) + [e];
      hide Run, Step, Receives, Suppressed, RoleOf, IsLast, Disturbs, Abandons;
      StillAbandoned(room, es, init, k);
      RunSnoc(room, es + init, e);
      StaysAbandoned(Run(room, es + init), e, k);
    }
  }

  lemma RefusalAbandons(room: nat, init: seq<Event>, e: Event, k: Key)
    requires Refuses(Run(room, init), e, k) && RoleOf(e.u.head).status != COMPLETE
    ensures LaneOf(Run(room, init + [e]).gate, k) == Lane(true, RoleOf(e.u.head).status != START)
  {
    hide Run, Receives, Abandons, RoleOf;
    RunSnoc(room, init, e);
    LaneStep(Run(room, init), e.u, k);
  }

  /** From a refusal on, nothing of the message goes out, of SysEx7 or SysEx8, until its
      last packet is offered or a rival takes the slot; and an End is owed unless it was
      the Start that was refused. */
  lemma {:induction false} RestIsSuppressed(room: nat, init: seq<Event>, e: Event, more: seq<Event>, k: Key)
    requires Refuses(Run(room, init), e, k) && RoleOf(e.u.head).status != COMPLETE
    requires GoesOn(room, init + [e], more, k)
    ensures AllSuppressed(room, init + [e], more, k)
    ensures Receives(Run(room, init + [e] + more).out, k) == Receives(Run(room, init + [e]).out, k)
    ensures LaneOf(Run(room, init + [e] + more).gate, k) == Lane(true, RoleOf(e.u.head).status != START)
  {
    hide Run, Receives, RoleOf, GoesOn, AllSuppressed;
    RefusalAbandons(room, init, e, k);
    StillAbandoned(room, init + [e], more, k);
  }

  // ---- the invariant ----

  /** `src` has received what was offered, `rcv` what was written. */
  predicate Faithful(lane: Lane, src: Receiver, rcv: Receiver) {
    && src.Sound()
    && rcv.strays == 0
    && (!lane.abandoning && src.open != [] ==> rcv.open == src.open)
    && (lane.owes ==> lane.abandoning && rcv.open != [])
    && Begun(rcv.open, src)
    && (forall p :: p in rcv.cut ==> Begun(p, src))
    && (forall m :: m in rcv.done ==>
          if ClosedByGate(m) then Begun(m[..|m|-1], src) else m in src.done)
    && Subseq(Keep(NotClosedByGate, rcv.done), src.done)
  }

  /** The receiver has an orderly stream: no message was ever broken off, and one
      that is still open is the sender's, or one the gate still owes an End. */
  predicate Orderly(lane: Lane, src: Receiver, rcv: Receiver) {
    rcv.cut == [] && (rcv.open != [] ==> if lane.abandoning then lane.owes else rcv.open == src.open)
  }

  /** The receiver has been left with a message nobody will close. */
  predicate Dangling(lane: Lane, src: Receiver, rcv: Receiver) {
    rcv.cut != [] ||
    (rcv.open != [] && !lane.owes && (lane.abandoning || src.open == []))
  }

  lemma AcceptKeepsOrder(src: Receiver, rcv: Receiver, st: nat, u: Unit)
    requires st <= END && !u.tag.GateEnd? && (src.open != [] ==> rcv.open == src.open) && src.Sound()
    requires Accept(src, st, u).Sound()
    requires Subseq(Keep(NotClosedByGate, rcv.done), src.done)
    ensures Subseq(Keep(NotClosedByGate, Accept(rcv, st, u).done), Accept(src, st, u).done)
  {
    if st == COMPLETE || st == END {
      var m := if st == COMPLETE then [u] else src.open + [u];
      KeepSnoc(NotClosedByGate, rcv.done, m);
      TakeLast(Keep(NotClosedByGate, rcv.done), src.done, m);
    }
  }

  lemma AcceptKeepsFaith(src: Receiver, rcv: Receiver, st: nat, u: Unit, k: Key)
    requires RoleOf(u.head) == Part(k, st) && st <= END && !u.tag.GateEnd?
    requires Faithful(Lane(false, false), src, rcv)
    requires Accept(src, st, u).Sound()
    ensures Faithful(Lane(false, false), Accept(src, st, u), Accept(rcv, st, u))
  {
    hide Subseq, Keep;
    AcceptKeepsOrder(src, rcv, st, u);
    var src', rcv' := Accept(src, st, u), Accept(rcv, st, u);
    assert src' == Receive(src, k, u);
    forall p | Begun(p, src) ensures Begun(p, src') { BegunGrows(p, src, k, u); }
    forall m | m in src.done ensures m in src'.done { BegunGrows([], src, k, u); }
    if st == COMPLETE {
      assert rcv'.done == rcv.done + [[u]] && src'.done == src.done + [[u]];
    } else if st == END {
      assert src.open == rcv.open != [];
      assert rcv'.done == rcv.done + [rcv.open + [u]] && src'.done == src.done + [src.open + [u]];
    }
    assert Begun([], src');
  }

  lemma TerminatorKeepsFaith(src: Receiver, rcv: Receiver, t: Unit)
    requires t.tag.GateEnd?
    requires Faithful(Lane(true, true), src, rcv)
    ensures
      var rcv' := Accept(rcv, END, t);
      rcv'.open == [] && rcv'.cut == rcv.cut && rcv'.strays == 0
      && forall m :: m in rcv'.done ==>
           if ClosedByGate(m) then Begun(m[..|m|-1], src) else m in src.done
    ensures Keep(NotClosedByGate, Accept(rcv, END, t).done) == Keep(NotClosedByGate, rcv.done)
  {
    hide Keep, Subseq;
    var m := rcv.open + [t];
    assert m[..|m|-1] == rcv.open;
    KeepSnoc(NotClosedByGate, rcv.done, m);
  }

  lemma LaneKeepsFaith(o: Outlet, u: Unit, k: Key, src: Receiver)
    requires Carries(Offer(u), k)
    requires RoleOf(u.head).status <= END && !u.tag.GateEnd?
    requires Receive(src, k, u).Sound()
    requires Faithful(LaneOf(o.gate, k), src, Receives(o.out, k))
    ensures
      var p := Step(o, Offer(u));
      Faithful(LaneOf(p.gate, k), Receive(src, k, u), Receives(p.out, k))
  {
    hide Keep, Subseq;
    LaneStep(o, u, k);
    var st := RoleOf(u.head).status;
    var lane, rcv := LaneOf(o.gate, k), Receives(o.out, k);
    var src' := Receive(src, k, u);
    if !lane.abandoning && Fits(o, u) {
      AcceptKeepsFaith(src, rcv, st, u, k);
    } else {
      if lane.owes && (st == END || st == COMPLETE) && 2 <= o.room {
        TerminatorKeepsFaith(src, rcv, Terminator(u.head));
      }
      forall p | Begun(p, src) ensures Begun(p, src') { BegunGrows(p, src, k, u); }
      BegunGrows([], src, k, u);
      DoneStays(Keep(NotClosedByGate, rcv.done), src, k, u);
    }
  }

  /** What a correct sender offers with key `k`. */
  predicate Proper(us: seq<Unit>, k: Key) {
    Defined(us, k) && Foreign(us) && WellFormed(us, k)
  }

  lemma ProperInit(init: seq<Event>, e: Event, k: Key)
    requires Proper(Offered(init + [e]), k)
    ensures Proper(Offered(init), k)
    ensures Carries(e, k) ==> RoleOf(e.u.head).status <= END && !e.u.tag.GateEnd?
    ensures e.Offer? ==> Receives(Offered(init + [e]), k).Sound()
    ensures e.Offer? ==>
      Receives(Offered(init + [e]), k) == Receive(Receives(Offered(init), k), k, e.u)
    ensures e.Free? ==> Offered(init + [e]) == Offered(init)
  {
    RunSnoc(0, init, e);
    var before, after := Offered(init), Offered(init + [e]);
    assert before == after[..|before|];
    PrefixSound(after, |before|, k);
    if e.Offer? {
      assert after[|before|] == e.u;
      ReceivesSnoc(before, e.u, k);
    }
  }

  lemma UndisturbedInit(room: nat, init: seq<Event>, e: Event, k: Key)
    requires Undisturbed(room, init + [e], k)
    ensures Undisturbed(room, init, k) && !Disturbs(Run(room, init), e, k)
  {
    assert (init + [e])[..|init|] == init;
  }

  /** No message is left half abandoned: nothing ends the abandonment of a message
      with key `k` before its sender has finished it. */
  predicate Unharmed(room: nat, es: seq<Event>, k: Key) {
    es == [] ||
    var init := es[..|es|-1];
    Unharmed(room, init, k)
    && (Disturbs(Run(room, init), es[|es|-1], k) ==> Receives(Offered(init), k).open == [])
  }

  lemma UnharmedSnoc(room: nat, init: seq<Event>, e: Event, k: Key)
    ensures Unharmed(room, init + [e], k) <==>
      Unharmed(room, init, k) && (Disturbs(Run(room, init), e, k) ==> Receives(Offered(init), k).open == [])
  {
    assert (init + [e])[..|init|] == init;
  }

  lemma {:induction false} UndisturbedIsUnharmed(room: nat, es: seq<Event>, k: Key)
    requires Undisturbed(room, es, k)
    ensures Unharmed(room, es, k)
  {
    if es != [] { UndisturbedIsUnharmed(room, es[..|es|-1], k); }
  }

  lemma StepKeepsFaith(o: Outlet, e: Event, k: Key, src: Receiver)
    requires (Disturbs(o, e, k) ==> src.open == [])
    requires Carries(e, k) ==> RoleOf(e.u.head).status <= END && !e.u.tag.GateEnd?
    requires e.Offer? ==> Receive(src, k, e.u).Sound()
    requires Faithful(LaneOf(o.gate, k), src, Receives(o.out, k))
    ensures Faithful(LaneOf(Step(o, e).gate, k), if e.Offer? then Receive(src, k, e.u) else src,
                     Receives(Step(o, e).out, k))
  {
    if Carries(e, k) {
      LaneKeepsFaith(o, e.u, k, src);
    } else {
      ElsewhereStep(o, e, k);
    }
  }

  /** For every history of offers and freed room. */
  lemma {:induction false} RunIsFaithful(room: nat, es: seq<Event>, k: Key)
    requires Unharmed(room, es, k) && Proper(Offered(es), k)
    ensures Faithful(LaneOf(Run(room, es).gate, k), Receives(Offered(es), k),
                     Receives(Run(room, es).out, k))
  {
    if es != [] {
      hide *;
      var init, e := es[..|es|-1], es[|es|-1];
      assert es == init + [e];
      RunSnoc(room, init, e);
      ProperInit(init, e, k);
      UnharmedSnoc(room, init, e, k);
      RunIsFaithful(room, init, k);
      StepKeepsFaith(Run(room, init), e, k, Receives(Offered(init), k));
    }
  }

  /** What the gate promises about a receiver: messages that end with an End or
      Complete of their own are messages sent, packet for packet, in order and each at
      most once; one closed by a terminator, broken off, or still open is the beginning
      of one sent; and no packet arrives outside a message. */
  predicate Promised(src: Receiver, rcv: Receiver) {
    && Subseq(Keep(NotClosedByGate, rcv.done), src.done)
    && (forall m :: m in rcv.done && ClosedByGate(m) ==> Begun(m[..|m|-1], src))
    && (forall p :: p in rcv.cut ==> Begun(p, src))
    && Begun(rcv.open, src)
    && rcv.strays == 0
  }

  /** The promise is kept for any refusals whatever. */
  lemma {:induction false} EndMeansWhole(room: nat, es: seq<Event>, k: Key)
    requires Unharmed(room, es, k) && Proper(Offered(es), k)
    ensures
      var src, rcv := Receives(Offered(es), k), Receives(Run(room, es).out, k);
      && Promised(src, rcv)
      && (forall m :: m in rcv.done && !ClosedByGate(m) ==> m in src.done)
  {
    hide Run, Receives, Subseq, Keep;
    RunIsFaithful(room, es, k);
  }

  // ---- when the output is well formed as well ----

  /** The lane is orderly as long as terminators fit; once one has not, it dangles. */
  predicate Judged(o: Outlet, k: Key, src: Receiver, fits: bool) {
    if fits then Orderly(LaneOf(o.gate, k), src, Receives(o.out, k))
    else Dangling(LaneOf(o.gate, k), src, Receives(o.out, k))
  }

  lemma LaneJudged(o: Outlet, u: Unit, k: Key, src: Receiver, fits: bool)
    requires Carries(Offer(u), k) && RoleOf(u.head).status <= END
    requires Receive(src, k, u).Sound()
    requires Faithful(LaneOf(o.gate, k), src, Receives(o.out, k))
    requires Judged(o, k, src, fits)
    ensures Judged(Step(o, Offer(u)), k, Receive(src, k, u), fits && !Misses(o, Offer(u), k))
  {
    hide Keep, Subseq, Misses;
    LaneStep(o, u, k);
  }

  lemma StepJudged(o: Outlet, e: Event, k: Key, src: Receiver, fits: bool)
    requires !Disturbs(o, e, k)
    requires Carries(e, k) ==> RoleOf(e.u.head).status <= END
    requires e.Offer? ==> Receive(src, k, e.u).Sound()
    requires Faithful(LaneOf(o.gate, k), src, Receives(o.out, k))
    requires Judged(o, k, src, fits)
    ensures Judged(Step(o, e), k, if e.Offer? then Receive(src, k, e.u) else src,
                   fits && !Misses(o, e, k))
  {
    if Carries(e, k) {
      LaneJudged(o, e.u, k, src, fits);
    } else {
      ElsewhereStep(o, e, k);
    }
  }

  lemma {:induction false} EveryRunJudged(room: nat, es: seq<Event>, k: Key)
    requires Undisturbed(room, es, k) && Proper(Offered(es), k)
    ensures Judged(Run(room, es), k, Receives(Offered(es), k), EveryTerminatorFits(room, es, k))
  {
    if es != [] {
      hide *;
      var init, e := es[..|es|-1], es[|es|-1];
      assert es == init + [e];
      RunSnoc(room, init, e);
      FitsSnoc(room, init, e, k);
      ProperInit(init, e, k);
      UndisturbedInit(room, init, e, k);
      EveryRunJudged(room, init, k);
      UndisturbedIsUnharmed(room, init, k);
      RunIsFaithful(room, init, k);
      StepJudged(Run(room, init), e, k, Receives(Offered(init), k), EveryTerminatorFits(room, init, k));
    }
  }

  /** The stream a receiver gets is orderly exactly when, at every point of the history
      at which a terminator is due for the key, there is room for it. */
  lemma {:induction false} OrderlyIffTerminatorsFit(room: nat, es: seq<Event>, k: Key)
    requires Undisturbed(room, es, k) && Proper(Offered(es), k)
    ensures
      Orderly(LaneOf(Run(room, es).gate, k), Receives(Offered(es), k), Receives(Run(room, es).out, k))
      <==> EveryTerminatorFits(room, es, k)
  {
    hide Run, Receives, Offered, EveryTerminatorFits, Faithful, Subseq, Keep;
    EveryRunJudged(room, es, k);
    UndisturbedIsUnharmed(room, es, k);
  }

  // ---- what refusals cost ----

  /** Packets of the key refused so far, those that were Ends, and whether the last
      packet of the key was one of those. */
  datatype Cost = Cost(refusals: nat, refusedEnds: nat, refusedEnd: bool)

  function CostOf(room: nat, es: seq<Event>, k: Key): Cost {
    Cost(Refusals(room, es, k), RefusedEnds(room, es, k), LastIsRefusedEnd(room, es, k))
  }

  function CostAfter(c: Cost, o: Outlet, e: Event, k: Key): Cost {
    Cost(c.refusals + (if Refuses(o, e, k) then 1 else 0), c.refusedEnds + (if RefusesEnd(o, e, k) then 1 else 0),
         if Carries(e, k) then RefusesEnd(o, e, k) else c.refusedEnd)
  }

  /** Messages sent, and the one being abandoned, against messages delivered and
      packets refused; and between messages the lane is closed exactly when an End
      has just been refused. */
  predicate Tallies(o: Outlet, k: Key, src: Receiver, c: Cost) {
    var abandoning := LaneOf(o.gate, k).abandoning;
    && |src.done| + (if abandoning then 1 else 0)
       == |Keep(NotClosedByGate, Receives(o.out, k).done)| + c.refusals + c.refusedEnds
    && (src.open == [] ==> (abandoning <==> c.refusedEnd))
  }

  lemma LaneCost(o: Outlet, u: Unit, k: Key, src: Receiver, c: Cost)
    requires Carries(Offer(u), k)
    requires RoleOf(u.head).status <= END && !u.tag.GateEnd?
    requires Receive(src, k, u).Sound()
    requires Faithful(LaneOf(o.gate, k), src, Receives(o.out, k)) && Tallies(o, k, src, c)
    ensures Tallies(Step(o, Offer(u)), k, Receive(src, k, u), CostAfter(c, o, Offer(u), k))
  {
    hide Keep, Subseq;
    LaneStep(o, u, k);
    var rcv := Receives(o.out, k);
    KeepSnoc(NotClosedByGate, rcv.done, [u]);
    KeepSnoc(NotClosedByGate, rcv.done, rcv.open + [u]);
    KeepSnoc(NotClosedByGate, rcv.done, rcv.open + [Terminator(u.head)]);
  }

  lemma CostSnoc(room: nat, init: seq<Event>, e: Event, k: Key)
    ensures CostOf(room, init + [e], k) == CostAfter(CostOf(room, init, k), Run(room, init), e, k)
  {
    RefusedSnoc(room, init, e, k);
  }

  lemma StepCost(o: Outlet, e: Event, k: Key, src: Receiver, c: Cost)
    requires !Disturbs(o, e, k)
    requires Carries(e, k) ==> RoleOf(e.u.head).status <= END && !e.u.tag.GateEnd?
    requires e.Offer? ==> Receive(src, k, e.u).Sound()
    requires Faithful(LaneOf(o.gate, k), src, Receives(o.out, k)) && Tallies(o, k, src, c)
    ensures Tallies(Step(o, e), k, if e.Offer? then Receive(src, k, e.u) else src, CostAfter(c, o, e, k))
  {
    hide Keep, Subseq;
    if Carries(e, k) {
      LaneCost(o, e.u, k, src, c);
    } else {
      ElsewhereStep(o, e, k);
    }
  }

  lemma {:induction false} CostInvariant(room: nat, es: seq<Event>, k: Key)
    requires Undisturbed(room, es, k) && Proper(Offered(es), k)
    ensures Tallies(Run(room, es), k, Receives(Offered(es), k), CostOf(room, es, k))
  {
    if es != [] {
      hide *;
      var init, e := es[..|es|-1], es[|es|-1];
      assert es == init + [e];
      RunSnoc(room, init, e);
      CostSnoc(room, init, e, k);
      ProperInit(init, e, k);
      UndisturbedInit(room, init, e, k);
      CostInvariant(room, init, k);
      UndisturbedIsUnharmed(room, init, k);
      RunIsFaithful(room, init, k);
      StepCost(Run(room, init), e, k, Receives(Offered(init), k), CostOf(room, init, k));
    }
  }

  /** What is lost, exactly: the messages sent that did not arrive whole, and the one
      being abandoned, are one for each packet refused and one more for each End
      refused. As those that arrive whole are sent ones, in order and once, the
      difference of the two lengths is the number of messages missing. */
  lemma {:induction false} LossIsRefusals(room: nat, es: seq<Event>, k: Key)
    requires Undisturbed(room, es, k) && Proper(Offered(es), k)
    ensures
      var src, whole := Receives(Offered(es), k).done,
                        Keep(NotClosedByGate, Receives(Run(room, es).out, k).done);
      && Subseq(whole, src)
      && |src| - |whole| + (if Abandons(Run(room, es).gate[k.group], k) then 1 else 0)
         == Refusals(room, es, k) + RefusedEnds(room, es, k)
  {
    hide Run, Receives, Offered, Keep, Subseq, Refusals, RefusedEnds, Abandons;
    CostInvariant(room, es, k);
    UndisturbedIsUnharmed(room, es, k);
    EndMeansWhole(room, es, k);
  }

  /** So a refused packet costs at most two messages. */
  lemma {:induction false} RefusalCostsAtMostTwo(room: nat, es: seq<Event>, k: Key)
    requires Undisturbed(room, es, k) && Proper(Offered(es), k)
    ensures
      var src, whole := Receives(Offered(es), k).done,
                        Keep(NotClosedByGate, Receives(Run(room, es).out, k).done);
      Subseq(whole, src) && |src| - |whole| <= 2 * Refusals(room, es, k)
  {
    hide Run, Receives, Offered, Keep, Subseq, Refusals, RefusedEnds, Abandons;
    LossIsRefusals(room, es, k);
    RefusedEndsAreRefusals(room, es, k);
  }

  /** When a refusal costs the next message too: between messages of the key, its
      next packet is suppressed, however much room there is, exactly when its last
      packet was an End and was refused. */
  lemma {:induction false} NextIsLostIffEndRefused(room: nat, es: seq<Event>, u: Unit, k: Key)
    requires Undisturbed(room, es, k) && Proper(Offered(es), k)
    requires Receives(Offered(es), k).open == [] && Carries(Offer(u), k)
    ensures Suppressed(Run(room, es).gate, u.head) <==> LastIsRefusedEnd(room, es, k)
  {
    hide Run, Receives, Offered, Keep, Subseq, Refusals, RefusedEnds, LastIsRefusedEnd;
    CostInvariant(room, es, k);
  }
}
