// The network-to-USB direction in its simplest form: packets offered one at a
// time to an outlet with a number of free words, through the drop gate. The
// bridges' loops are proved to do exactly this, whatever they batch or queue.
module Egress {
  import opened Ump
  import opened SysEx
  import opened DropGate
  import opened Subsequences

  /** One packet offered, or `n` words of room freed by the far side. */
  datatype Event = Offer(u: Unit) | Free(n: nat)

  /** `out` is what has been written. */
  datatype Outlet = Outlet(gate: Gate, room: nat, out: seq<Unit>)

  predicate Fits(o: Outlet, u: Unit) {
    |u.Words()| <= o.room
  }

  function Write(o: Outlet, u: Unit): Outlet
    requires Fits(o, u)
  {
    o.(room := o.room - |u.Words()|, out := o.out + [u])
  }

  /** A suppressed packet: at the end of its message a terminator may be due. */
  function Close(o: Outlet, w: Word): Outlet
    requires Suppressed(o.gate, w)
  {
    var closed := o.(gate := Finished(o.gate, w));
    if OwesEnd(o.gate, w) && 2 <= o.room then Write(closed, Terminator(w)) else closed
  }

  function Step(o: Outlet, e: Event): Outlet {
    match e
    case Free(n) => o.(room := o.room + n)
    case Offer(u) =>
      if Suppressed(o.gate, u.head) then Close(o, u.head)
      else if !Fits(o, u) then o.(gate := Refused(o.gate, u.head))
      else Write(o, u).(gate := Sent(o.gate, u.head))
  }

  function Run(room: nat, es: seq<Event>): Outlet {
    if es == [] then Outlet(Fresh(), room, [])
    else Step(Run(room, es[..|es|-1]), es[|es|-1])
  }

  /** The packets offered in a history. */
  function Offered(es: seq<Event>): seq<Unit> {
    if es == [] then []
    else
      var last := es[|es|-1];
      Offered(es[..|es|-1]) + if last.Offer? then [last.u] else []
  }

  lemma RunSnoc(room: nat, es: seq<Event>, e: Event)
    ensures Run(room, es + [e]) == Step(Run(room, es), e)
    ensures Offered(es + [e]) == Offered(es) + if e.Offer? then [e.u] else []
  {
    assert (es + [e])[..|es|] == es;
  }

  /** A packet of a message with key `k` is offered. */
  predicate Carries(e: Event, k: Key) {
    e.Offer? && RoleOf(e.u.head).Part? && RoleOf(e.u.head).key == k
  }

  /** It is refused for want of room. */
  predicate Refuses(o: Outlet, e: Event, k: Key) {
    Carries(e, k) && !Suppressed(o.gate, e.u.head) && !Fits(o, e.u)
  }

  /** Packets of `k` that found no room. */
  function Refusals(room: nat, es: seq<Event>, k: Key): nat {
    if es == [] then 0
    else
      var init := es[..|es|-1];
      Refusals(room, init, k) + if Refuses(Run(room, init), es[|es|-1], k) then 1 else 0
  }

  predicate RefusesEnd(o: Outlet, e: Event, k: Key) {
    Refuses(o, e, k) && RoleOf(e.u.head).status == END
  }

  /** Those of them that were Ends. */
  function RefusedEnds(room: nat, es: seq<Event>, k: Key): nat {
    if es == [] then 0
    else
      var init := es[..|es|-1];
      RefusedEnds(room, init, k) + if RefusesEnd(Run(room, init), es[|es|-1], k) then 1 else 0
  }

  /** The last packet of `k` offered was an End, and was refused. */
  predicate LastIsRefusedEnd(room: nat, es: seq<Event>, k: Key) {
    es != [] &&
    var init, e := es[..|es|-1], es[|es|-1];
    if Carries(e, k) then RefusesEnd(Run(room, init), e, k)
    else LastIsRefusedEnd(room, init, k)
  }

  lemma RefusedSnoc(room: nat, init: seq<Event>, e: Event, k: Key)
    ensures Refusals(room, init + [e], k) == Refusals(room, init, k) + if Refuses(Run(room, init), e, k) then 1 else 0
    ensures RefusedEnds(room, init + [e], k) ==
            RefusedEnds(room, init, k) + if RefusesEnd(Run(room, init), e, k) then 1 else 0
    ensures LastIsRefusedEnd(room, init + [e], k) <==>
            if Carries(e, k) then RefusesEnd(Run(room, init), e, k)
            else LastIsRefusedEnd(room, init, k)
  {
    assert (init + [e])[..|init|] == init;
  }

  lemma {:induction false} RefusedEndsAreRefusals(room: nat, es: seq<Event>, k: Key)
    ensures RefusedEnds(room, es, k) <= Refusals(room, es, k)
  {
    if es != [] { RefusedEndsAreRefusals(room, es[..|es|-1], k); }
  }

  /** A terminator is due for a message with key `k`, and finds no room. */
  predicate Misses(o: Outlet, e: Event, k: Key) {
    Carries(e, k) && Suppressed(o.gate, e.u.head) && OwesEnd(o.gate, e.u.head) && !Fits(o, Terminator(e.u.head))
  }

  predicate EveryTerminatorFits(room: nat, es: seq<Event>, k: Key) {
    es == [] ||
    var init := es[..|es|-1];
    EveryTerminatorFits(room, init, k) && !Misses(Run(room, init), es[|es|-1], k)
  }

  lemma FitsSnoc(room: nat, init: seq<Event>, e: Event, k: Key)
    ensures EveryTerminatorFits(room, init + [e], k) <==>
      EveryTerminatorFits(room, init, k) && !Misses(Run(room, init), e, k)
  {
    assert (init + [e])[..|init|] == init;
  }

  predicate SysEx8Packet(u: Unit) { RoleOf(u.head).Part? && RoleOf(u.head).key.Key8? }

  /** A packet of another System Exclusive message in the Group of `k`: the two share
      the gate's slot. */
  predicate Rival(u: Unit, k: Key) {
    RoleOf(u.head).Part? && RoleOf(u.head).key.group == k.group && RoleOf(u.head).key != k
  }

  /** While a message with key `k` is being abandoned: a rival that ends its message
      and goes out, or that is refused and has more of its message behind it. */
  predicate Disturbs(o: Outlet, e: Event, k: Key) {
    && Abandons(o.gate[k.group], k)
    && e.Offer? && Rival(e.u, k)
    && var st := RoleOf(e.u.head).status;
       if Fits(o, e.u) then st == END || st == COMPLETE else st != COMPLETE
  }

  predicate Undisturbed(room: nat, es: seq<Event>, k: Key) {
    es == [] ||
    var init := es[..|es|-1];
    Undisturbed(room, init, k) && !Disturbs(Run(room, init), es[|es|-1], k)
  }

  /** Apart from the message's own packets, exactly these end its abandonment. */
  lemma {:induction false} DisturbsIffForgotten(o: Outlet, e: Event, k: Key)
    requires Abandons(o.gate[k.group], k) && !Carries(e, k)
    ensures Disturbs(o, e, k) <==> !Abandons(Step(o, e).gate[k.group], k)
  {
    hide RoleOf;
    if e.Offer? && Rival(e.u, k) { assert !Suppressed(o.gate, e.u.head); }
  }

  /** A message without rivals is never disturbed: SysEx7 in a Group without SysEx8, or
      the only SysEx8 stream of a Group without SysEx7. */
  lemma {:induction false} WithoutRivalsUndisturbed(room: nat, es: seq<Event>, k: Key)
    requires forall u :: u in Offered(es) ==> !Rival(u, k)
    ensures Undisturbed(room, es, k)
  {
    if es != [] {
      var init, e := es[..|es|-1], es[|es|-1];
      assert es == init + [e];
      hide Run, RoleOf, Rival;
      RunSnoc(room, init, e);
      assert forall u :: u in Offered(init) ==> u in Offered(es);
      WithoutRivalsUndisturbed(room, init, k);
      if e.Offer? { assert e.u in Offered(es); }
    }
  }

  function Freed(es: seq<Event>): nat {
    if es == [] then 0
    else Freed(es[..|es|-1]) + if es[|es|-1].Free? then es[|es|-1].n else 0
  }

  /** Room is conserved: words written are words of room used, no more. */
  lemma {:induction false} RoomIsConserved(room: nat, es: seq<Event>)
    ensures Run(room, es).room + |Wire(Run(room, es).out)| == room + Freed(es)
  {
    if es != [] {
      var init, e := es[..|es|-1], es[|es|-1];
      RoomIsConserved(room, init);
      var o := Run(room, init);
      if e.Offer? {
        WireSnoc(o.out, e.u);
        if Suppressed(o.gate, e.u.head) { WireSnoc(o.out, Terminator(e.u.head)); }
      }
    }
  }

  lemma NothingIsAbandoned(o: Outlet, u: Unit)
    requires o.gate == Fresh() && Fits(o, u)
    ensures Step(o, Offer(u)) == Outlet(Fresh(), o.room - |u.Words()|, o.out + [u])
  {
    hide RoleOf;
    var g := Sent(Fresh(), u.head);
    assert g == Fresh() by {
      forall i | 0 <= i < GROUPS ensures g[i] == CLEAR {
      }
    }
  }

  lemma {:induction false} EnoughRoomKeeps(room: nat, es: seq<Event>)
    requires |Wire(Offered(es))| <= room
    ensures Run(room, es).gate == Fresh() && Run(room, es).out == Offered(es)
    ensures Run(room, es).room + |Wire(Offered(es))| == room + Freed(es)
  {
    if es != [] {
      var init, e := es[..|es|-1], es[|es|-1];
      assert es == init + [e];
      hide Wire, Step, Fresh;
      RunSnoc(room, init, e);
      if e.Offer? {
        WireSnoc(Offered(init), e.u);
        EnoughRoomKeeps(room, init);
        NothingIsAbandoned(Run(room, init), e.u);
      } else {
        assert Offered(es) == Offered(init);
        EnoughRoomKeeps(room, init);
        FreeKeeps(Run(room, init), e.n);
      }
    }
  }

  lemma FreeKeeps(o: Outlet, n: nat)
    ensures Step(o, Free(n)) == o.(room := o.room + n)
  {}

  /** An outlet with room for all that is offered, if only just, hands on exactly that;
      nothing is refused that fits. */
  lemma {:induction false} EnoughRoomIsIdentity(room: nat, es: seq<Event>)
    requires |Wire(Offered(es))| <= room
    ensures Run(room, es).out == Offered(es)
  {
    EnoughRoomKeeps(room, es);
  }

  // ---- what the output consists of ----

  predicate MadeByGate(u: Unit) { u.tag.GateEnd? }

  predicate NotMadeByGate(u: Unit) { !u.tag.GateEnd? }

  /** The packet ends an abandoned message that is owed an End, and there is room for
      a terminator. */
  predicate Closes(o: Outlet, e: Event) {
    e.Offer? && Suppressed(o.gate, e.u.head) && OwesEnd(o.gate, e.u.head) && Fits(o, Terminator(e.u.head))
  }

  function Terminators(room: nat, es: seq<Event>): seq<Unit> {
    if es == [] then []
    else
      var init, e := es[..|es|-1], es[|es|-1];
      Terminators(room, init) + if Closes(Run(room, init), e) then [Terminator(e.u.head)] else []
  }

  lemma StepOrigin(o: Outlet, e: Event, offered: seq<Unit>)
    requires e.Offer? ==> !e.u.tag.GateEnd?
    requires Subseq(Keep(NotMadeByGate, o.out), offered)
    ensures Subseq(Keep(NotMadeByGate, Step(o, e).out), offered + if e.Offer? then [e.u] else [])
    ensures Keep(MadeByGate, Step(o, e).out) ==
            Keep(MadeByGate, o.out) + if Closes(o, e) then [Terminator(e.u.head)] else []
  {
    hide RoleOf, Subseq, Keep;
    var kept := Keep(NotMadeByGate, o.out);
    if e.Free? {
      assert offered + [] == offered && Keep(MadeByGate, o.out) + [] == Keep(MadeByGate, o.out);
      return;
    }
    SkipLast(kept, offered, e.u);
    if Suppressed(o.gate, e.u.head) {
      KeepSnoc(NotMadeByGate, o.out, Terminator(e.u.head));
      KeepSnoc(MadeByGate, o.out, Terminator(e.u.head));
    } else {
      TakeLast(kept, offered, e.u);
      KeepSnoc(NotMadeByGate, o.out, e.u);
      KeepSnoc(MadeByGate, o.out, e.u);
    }
    assert Keep(MadeByGate, o.out) + [] == Keep(MadeByGate, o.out);
  }

  /** Packets put out are packets offered, in order and at most once, and between them
      one terminator for each message closed, in order. */
  lemma {:induction false} OutputOrigin(room: nat, es: seq<Event>)
    requires forall u :: u in Offered(es) ==> !u.tag.GateEnd?
    ensures Subseq(Keep(NotMadeByGate, Run(room, es).out), Offered(es))
    ensures Keep(MadeByGate, Run(room, es).out) == Terminators(room, es)
  {
    if es != [] {
      var init, e := es[..|es|-1], es[|es|-1];
      assert es == init + [e];
      hide Run, Step, Subseq, Keep, Closes;
      RunSnoc(room, init, e);
      assert forall u :: u in Offered(init) ==> u in Offered(es);
      if e.Offer? { assert e.u in Offered(es); }
      OutputOrigin(room, init);
      StepOrigin(Run(room, init), e, Offered(init));
    }
  }

  /** At no point of the history is a SysEx8 message closed by the gate. */
  predicate NeverClosesSysEx8(room: nat, es: seq<Event>) {
    es == [] ||
    var init, e := es[..|es|-1], es[|es|-1];
    NeverClosesSysEx8(room, init) && !(Closes(Run(room, init), e) && SysEx8Packet(e.u))
  }

  predicate AllUnitsWhole(us: seq<Unit>) { forall u :: u in us ==> u.Whole() }

  lemma StepWhole(o: Outlet, e: Event)
    requires e.Offer? ==> e.u.Whole()
    ensures AllUnitsWhole(Step(o, e).out) <==>
      AllUnitsWhole(o.out) && !(Closes(o, e) && SysEx8Packet(e.u))
  {
    if e.Offer? {
      var out, p := o.out, Step(o, e).out;
      assert forall u :: u in out ==> u in p;
      if Suppressed(o.gate, e.u.head) {
        TerminatorIsEnd(e.u.head);
        if Closes(o, e) { assert Terminator(e.u.head) in p; }
      }
      hide RoleOf, WordCount;
    }
  }

  lemma {:induction false} RunWhole(room: nat, es: seq<Event>)
    requires AllUnitsWhole(Offered(es))
    ensures AllUnitsWhole(Run(room, es).out) <==> NeverClosesSysEx8(room, es)
  {
    if es != [] {
      var init, e := es[..|es|-1], es[|es|-1];
      assert es == init + [e];
      hide Run, Step, Closes, SysEx8Packet;
      RunSnoc(room, init, e);
      assert forall u :: u in Offered(init) ==> u in Offered(es);
      RunWhole(room, init);
      if e.Offer? { assert e.u in Offered(es); }
      StepWhole(Run(room, init), e);
    }
  }

  lemma WordsAreWhole(us: seq<Unit>)
    ensures AllWhole(WordsOf(us)) <==> AllUnitsWhole(us)
  {
    forall i | 0 <= i < |us| ensures Ump.Whole(WordsOf(us)[i]) == us[i].Whole() {
    }
    if AllWhole(WordsOf(us)) {
      forall u | u in us ensures u.Whole() {
        var i :| 0 <= i < |us| && us[i] == u;
        assert Ump.Whole(WordsOf(us)[i]);
      }
    }
  }

  /** Whole packets in, whole packets out, exactly as long as no SysEx8 message is
      closed by the gate: its terminator is two words where a packet of its type
      has four. */
  lemma {:induction false} WholeIffNoSysEx8Terminator(room: nat, es: seq<Event>)
    requires forall u :: u in Offered(es) ==> u.Whole()
    ensures AllWhole(WordsOf(Run(room, es).out)) <==> NeverClosesSysEx8(room, es)
  {
    hide Run, Offered, WordsOf, Whole, NeverClosesSysEx8;
    RunWhole(room, es);
    WordsAreWhole(Run(room, es).out);
  }

  /** In particular when no SysEx8 is offered at all. */
  lemma {:induction false} WithoutSysEx8NoneIsClosed(room: nat, es: seq<Event>)
    requires forall u :: u in Offered(es) ==> !SysEx8Packet(u)
    ensures NeverClosesSysEx8(room, es)
  {
    if es != [] {
      var init, e := es[..|es|-1], es[|es|-1];
      assert es == init + [e];
      hide Run, RoleOf, Suppressed, OwesEnd, SysEx8Packet;
      RunSnoc(room, init, e);
      assert forall u :: u in Offered(init) ==> u in Offered(es);
      WithoutSysEx8NoneIsClosed(room, init);
      if e.Offer? { assert e.u in Offered(es); }
    }
  }

  // ---- one packet, without the history ----

  /** What becomes of one packet, given gate and room; `out` is what it puts out. */
  function Decide(g: Gate, room: nat, u: Unit): Outlet {
    Step(Outlet(g, room, []), Offer(u))
  }

  lemma Alone(u: Unit)
    ensures Wire([]) == [] && Wire([] + [u]) == u.Words()
  {
    WireSnoc([], u);
  }

  /** The words that a decision can put out. */
  lemma DecisionWords(g: Gate, u: Unit)
    ensures Wire([]) == [] && Wire([] + [u]) == u.Words()
    ensures Suppressed(g, u.head) ==>
      Wire([] + [Terminator(u.head)]) == Terminator(u.head).Words() && |Terminator(u.head).Words()| == 2
  {
    Alone(u);
    if Suppressed(g, u.head) { Alone(Terminator(u.head)); }
  }

  lemma StepIsDecide(o: Outlet, u: Unit)
    ensures
      var p, d := Step(o, Offer(u)), Decide(o.gate, o.room, u);
      && p == Outlet(d.gate, d.room, o.out + d.out)
      && d.room + |Wire(d.out)| == o.room
  {
    hide Wire, Terminator, Abandons, OwesEnd, Finished, Sent, Refused;
    DecisionWords(o.gate, u);
    assert [] + [u] == [u];
    if Suppressed(o.gate, u.head) {
      var t := Terminator(u.head);
      assert [] + [t] == [t];
    }
  }

  // ---- a bridge in terms of the simple outlet ----

  /** A bridge with this gate, this much room not spoken for, and these words handed
      on (written, staged or queued) is where the simple outlet is after `history`. */
  ghost predicate Matches(capacity: nat, history: seq<Event>, gate: Gate, handed: seq<Word>, room: nat) {
    var o := Run(capacity, history);
    o.gate == gate && o.room == room && Wire(o.out) == handed
  }

  lemma MatchesStart(capacity: nat)
    ensures Matches(capacity, [], Fresh(), [], capacity)
  {}

  lemma OfferMatches(capacity: nat, history: seq<Event>, gate: Gate, handed: seq<Word>, room: nat, u: Unit)
    requires Matches(capacity, history, gate, handed, room)
    ensures
      var d := Decide(gate, room, u);
      Matches(capacity, history + [Offer(u)], d.gate, handed + Wire(d.out), d.room)
      && d.room + |Wire(d.out)| == room
  {
    hide Wire, Decide, Run, Step;
    var o := Run(capacity, history);
    RunSnoc(capacity, history, Offer(u));
    StepIsDecide(o, u);
    WireAppend(o.out, Decide(gate, room, u).out);
  }

  lemma FreeMatches(capacity: nat, history: seq<Event>, gate: Gate, handed: seq<Word>, room: nat, n: nat)
    requires Matches(capacity, history, gate, handed, room)
    ensures Matches(capacity, history + [Free(n)], gate, handed, room + n)
  {
    RunSnoc(capacity, history, Free(n));
  }

  /** The history has gone on, and what was offered meanwhile is `us`. */
  predicate Extends(before: seq<Event>, after: seq<Event>, us: seq<Unit>) {
    before <= after && Offered(after) == Offered(before) + us
  }

  lemma ExtendsNone(h: seq<Event>)
    ensures Extends(h, h, [])
  {}

  lemma ExtendsFree(before: seq<Event>, after: seq<Event>, us: seq<Unit>, n: nat)
    requires Extends(before, after, us)
    ensures Extends(before, after + [Free(n)], us)
  {
    RunSnoc(0, after, Free(n));
  }

  lemma ExtendsOffer(before: seq<Event>, after: seq<Event>, us: seq<Unit>, u: Unit)
    requires Extends(before, after, us)
    ensures Extends(before, after + [Offer(u)], us + [u])
  {
    RunSnoc(0, after, Offer(u));
  }

  lemma ExtendsTrans(a: seq<Event>, b: seq<Event>, c: seq<Event>, us: seq<Unit>, vs: seq<Unit>)
    requires Extends(a, b, us) && Extends(b, c, vs)
    ensures Extends(a, c, us + vs)
  {
    Assoc(Offered(a), us, vs);
  }

  /** Deciding `u` takes the simple outlet to where the bridge will be. */
  lemma Outcome(capacity: nat, history: seq<Event>, g: Gate, w: seq<Word>, r: nat, u: Unit)
    ensures Extends(history, history + [Offer(u)], [u])
    ensures Matches(capacity, history, g, w, r) ==>
      var d := Decide(g, r, u);
      Matches(capacity, history + [Offer(u)], d.gate, w + Wire(d.out), d.room)
  {
    hide Matches, Decide, Wire, Extends;
    ExtendsNone(history);
    ExtendsOffer(history, history, [], u);
    assert [] + [u] == [u];
    if Matches(capacity, history, g, w, r) { OfferMatches(capacity, history, g, w, r, u); }
  }

  /** The same for a packet that is dropped, in terms of the words the gate yields. */
  lemma DropOutcome(capacity: nat, history: seq<Event>, g: Gate, w: seq<Word>, r: nat, u: Unit, term: seq<Word>)
    requires Suppressed(g, u.head)
    requires if OwesEnd(g, u.head) then term == Terminator(u.head).Words() else term == []
    ensures (term == [] || |term| == 2) && Extends(history, history + [Offer(u)], [u])
    ensures Matches(capacity, history, g, w, r) ==>
      var goes := if 2 <= r then term else [];
      Matches(capacity, history + [Offer(u)], Finished(g, u.head), w + goes, r - |goes|)
  {
    hide Matches, Extends, Wire, Abandons, OwesEnd, Finished, Terminator;
    Outcome(capacity, history, g, w, r, u);
    DecisionWords(g, u);
  }

  /** Terminators put out so far. */
  function Ended(room: nat, es: seq<Event>): nat { |Terminators(room, es)| }

  lemma EndedFree(room: nat, es: seq<Event>, n: nat)
    ensures Ended(room, es + [Free(n)]) == Ended(room, es)
  {
    assert (es + [Free(n)])[..|es|] == es;
  }

  lemma EndedOffer(capacity: nat, history: seq<Event>, g: Gate, w: seq<Word>, r: nat, u: Unit)
    ensures Matches(capacity, history, g, w, r) ==>
      Ended(capacity, history + [Offer(u)]) ==
      Ended(capacity, history) + if Suppressed(g, u.head) && OwesEnd(g, u.head) && 2 <= r then 1 else 0
  {
    assert (history + [Offer(u)])[..|history|] == history;
  }

  lemma FreeOutcome(capacity: nat, h: seq<Event>, history: seq<Event>, g: Gate, w: seq<Word>, r: nat, n: nat)
    requires Extends(h, history, [])
    ensures Extends(h, history + [Free(n)], [])
    ensures Matches(capacity, history, g, w, r) ==> Matches(capacity, history + [Free(n)], g, w, r + n)
  {
    ExtendsFree(h, history, [], n);
    if Matches(capacity, history, g, w, r) { FreeMatches(capacity, history, g, w, r, n); }
  }

  lemma ExtendsStill(a: seq<Event>, b: seq<Event>, c: seq<Event>)
    requires Extends(a, b, []) && Extends(b, c, [])
    ensures Extends(a, c, [])
  {
    ExtendsTrans(a, b, c, [], []);
  }

  lemma ExtendsFirst(a: seq<Event>, b: seq<Event>, c: seq<Event>, u: Unit)
    requires Extends(a, b, []) && Extends(b, c, [u])
    ensures Extends(a, c, [u])
  {
    ExtendsTrans(a, b, c, [], [u]);
    assert [] + [u] == [u];
  }

  lemma ExtendsLast(a: seq<Event>, b: seq<Event>, c: seq<Event>, u: Unit)
    requires Extends(a, b, [u]) && Extends(b, c, [])
    ensures Extends(a, c, [u])
  {
    ExtendsTrans(a, b, c, [u], []);
    assert [u] + [] == [u];
  }

  // ---- one delivery of the session: a run of words, cut into packets ----

  /** `us` are the packets of `words`: a tail that is no whole packet is dropped. */
  predicate Delivery(words: seq<Word>, us: seq<Unit>) {
    WordsOf(us) == Packets(words)
  }

  /** The loops have handled `us[..k]` and stand at `words[off..]`. */
  ghost predicate At(words: seq<Word>, us: seq<Unit>, off: nat, k: nat) {
    off <= |words| && k <= |us| && WordsOf(us)[k..] == Packets(words[off..])
  }

  lemma AtStart(words: seq<Word>, us: seq<Unit>)
    requires Delivery(words, us)
    ensures At(words, us, 0, 0) && us[..0] == []
  {
    assert us[..0] == [] && words[0..] == words && WordsOf(us)[0..] == WordsOf(us);
  }

  lemma FirstPacket(ws: seq<Word>, ps: seq<seq<Word>>)
    requires ps == Packets(ws) && StartsWhole(ws)
    ensures ps != [] && ps[0] == ws[..WordCount(ws[0])] && ps[1..] == Packets(ws[WordCount(ws[0])..])
  {
    ParseOne(ws);
    var p, rest := ws[..WordCount(ws[0])], Packets(ws[WordCount(ws[0])..]);
    assert ([p] + rest)[1..] == rest;
  }

  lemma TailOfTail<T>(s: seq<T>, i: nat, n: nat)
    requires i + n <= |s|
    ensures s[i..][..n] == s[i..i + n] && s[i..][n..] == s[i + n..]
  {}

  lemma OneMore<T>(s: seq<T>, k: nat)
    requires k < |s|
    ensures s[..k + 1] == s[..k] + [s[k]]
  {}

  lemma AtNext(words: seq<Word>, us: seq<Unit>, off: nat, k: nat)
    requires At(words, us, off, k) && off < |words| && off + WordCount(words[off]) <= |words|
    ensures k < |us| && off + WordCount(words[off]) <= |words|
    ensures us[k].Words() == words[off..off + WordCount(words[off])] && us[k].head == words[off]
    ensures At(words, us, off + WordCount(words[off]), k + 1)
    ensures us[..k + 1] == us[..k] + [us[k]]
  {
    var n := WordCount(words[off]);
    var ws, ps := words[off..], WordsOf(us)[k..];
    assert ws[0] == words[off] && StartsWhole(ws);
    hide WordCount, Packets, StartsWhole, WordsOf;
    FirstPacket(ws, ps);
    TailOfTail(words, off, n);
    TailOfTail(WordsOf(us), k, 1);
    OneMore(us, k);
    assert us[k].Words()[0] == us[k].head;
  }

  lemma AtEnd(words: seq<Word>, us: seq<Unit>, off: nat, k: nat)
    requires At(words, us, off, k) && (off == |words| || off + WordCount(words[off]) > |words|)
    ensures us[..k] == us
  {
    if off < |words| { assert words[off..][0] == words[off]; }
    assert Packets(words[off..]) == [];
  }
}
