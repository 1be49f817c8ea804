// From the sender to the USB driver: channel, stream guard, drop gate and outlet
// in a row.
module EndToEnd {
  import opened Ump
  import opened SysEx
  import opened DropGate
  import opened GateIntegrity
  import opened Subsequences
  import E = Egress
  import S = StreamGuard
  import G = GuardedStream
  import H = HostQueue

  /** Closed by an End or Complete that the sender sent. */
  predicate ClosedByOwn(m: Message) { m != [] && m[|m|-1].tag.Own? }

  /** Everything in `m` but its last packet. */
  function Body(m: Message): Message
    requires m != []
  {
    m[..|m|-1]
  }

  /** `m` is one of the sender's messages, packet for packet, or it is the
      beginning of one with an End that is not the sender's. */
  predicate Honest(m: Message, sender: Receiver) {
    m in sender.done || (m != [] && !ClosedByOwn(m) && Begun(Body(m), sender))
  }

  /** Every message that `a` has seen is accounted for by the sender's: those closed by
      the sender are the sender's, in order and each at most once; the others, and
      those broken off or still open, are beginnings of the sender's. */
  predicate Accounted(a: Receiver, sender: Receiver) {
    && Subseq(Keep(ClosedByOwn, a.done), sender.done)
    && (forall m :: m in a.done ==> Honest(m, sender))
    && (forall p :: p in a.cut ==> Begun(p, sender))
    && Begun(a.open, sender)
    && a.strays == 0
  }

  lemma BegunPrefix(p: Message, q: Message, r: Receiver)
    requires p <= q && Begun(q, r)
    ensures Begun(p, r)
  {
    if !(q <= r.open) {
      var m :| m in r.done && q < m;
      assert p < m;
    }
  }

  // ---- a receiver that has seen only a first part of the stream ----

  predicate Earlier(a: Receiver, b: Receiver) {
    && a.done <= b.done
    && (forall p :: p in a.cut ==> p in b.cut)
    && a.strays <= b.strays
    && Within(a.open, b)
  }

  predicate Within(q: Message, b: Receiver) {
    q <= b.open || (exists p :: p in b.cut && q <= p) || (exists m :: m in b.done && q < m)
  }

  lemma WithinReceive(q: Message, b: Receiver, k: Key, u: Unit)
    requires Within(q, b)
    ensures Within(q, Receive(b, k, u))
    ensures b.done <= Receive(b, k, u).done
    ensures forall p :: p in b.cut ==> p in Receive(b, k, u).cut
    ensures b.strays <= Receive(b, k, u).strays
  {
    hide RoleOf;
    var c := Receive(b, k, u);
    if q == [] {
      assert q <= c.open;
    } else if q <= b.open {
      if c.cut != b.cut {
        assert c.cut == b.cut + [b.open];
        assert b.open in c.cut;
      } else if c.done != b.done {
        assert c.done == b.done + [b.open + [u]];
        assert b.open + [u] in c.done && q < b.open + [u];
      }
    } else if exists p :: p in b.cut && q <= p {
      var p :| p in b.cut && q <= p;
      assert p in c.cut;
    } else {
      var m :| m in b.done && q < m;
      assert m in c.done;
    }
  }

  lemma {:induction false} PrefixIsEarlier(us: seq<Unit>, n: nat, k: Key)
    requires n <= |us|
    ensures Earlier(Receives(us[..n], k), Receives(us, k))
  {
    if n == |us| {
      assert us[..n] == us;
    } else {
      hide *;
      var init, u := us[..|us|-1], us[|us|-1];
      PrefixIsEarlier(init, n, k);
      assert init[..n] == us[..n] && us == init + [u];
      ReceivesSnoc(init, u, k);
      EarlierReceive(Receives(us[..n], k), Receives(init, k), k, u);
    }
  }

  lemma EarlierReceive(a: Receiver, b: Receiver, k: Key, u: Unit)
    requires Earlier(a, b)
    ensures Earlier(a, Receive(b, k, u))
  {
    hide Receive, Within;
    WithinReceive(a.open, b, k, u);
  }

  lemma EarlierAccounted(a: Receiver, b: Receiver, sender: Receiver)
    requires Earlier(a, b) && Accounted(b, sender)
    ensures Accounted(a, sender)
  {
    hide Subseq, Keep;
    KeepPrefix(ClosedByOwn, a.done, b.done);
    PrefixIsSubseq(Keep(ClosedByOwn, a.done), Keep(ClosedByOwn, b.done));
    Transitive(Keep(ClosedByOwn, a.done), Keep(ClosedByOwn, b.done), sender.done);
    forall m | m in a.done ensures m in b.done { }
    if a.open <= b.open {
      BegunPrefix(a.open, b.open, sender);
    } else if exists p :: p in b.cut && a.open <= p {
      var p :| p in b.cut && a.open <= p;
      BegunPrefix(a.open, p, sender);
    } else {
      var m :| m in b.done && a.open < m;
      assert Honest(m, sender);
      if m !in sender.done {
        assert a.open <= Body(m);
        BegunPrefix(a.open, Body(m), sender);
      }
    }
  }

  // ---- the stages in a row ----

  predicate SentWith(us: seq<Unit>, k: Key) {
    exists v :: v in us && RoleOf(v.head).Part? && RoleOf(v.head).key == k
  }

  /** `u` was sent, or is a whole End that the guard made for a message that was. */
  predicate FromGuard(u: Unit, sent: seq<Unit>) {
    u in sent ||
    (u.tag.GuardEnd? && u.Whole() && RoleOf(u.head).Part? && RoleOf(u.head).status == END
     && u == S.EndUnit(RoleOf(u.head).key) && SentWith(sent, RoleOf(u.head).key))
  }

  lemma StepOutput(g: G.Guarded, e: G.ChannelEvent, sent: seq<Unit>)
    requires forall u :: u in g.out ==> FromGuard(u, sent)
    requires forall k :: k in g.open ==> SentWith(sent, k)
    requires e.Deliver? ==> e.u in sent
    ensures forall u :: u in G.Step(g, e).out ==> FromGuard(u, sent)
    ensures forall k :: k in G.Step(g, e).open ==> SentWith(sent, k)
  {
    hide RoleOf, WordCount, S.BreakEnds, S.EndUnit;
    match e {
      case Deliver(u) =>
        if RoleOf(u.head).Part? { SentEnd(RoleOf(u.head).key, sent); }
      case Lose(_) =>
      case Break =>
        BreakEndsOpen(g.open);
        forall k | k in g.open ensures FromGuard(S.EndUnit(k), sent) { SentEnd(k, sent); }
    }
  }

  lemma BreakEndsOpen(open: set<Key>)
    ensures forall u :: u in S.BreakEnds(open) ==> exists k :: k in open && u == S.EndUnit(k)
  {
    var ks := S.GroupsOpen(open, GROUPS);
    hide S.GroupsOpen, S.EndUnit;
    S.GroupsOpenExact(open, GROUPS);
    forall u | u in S.BreakEnds(open) ensures exists k :: k in open && u == S.EndUnit(k) {
      var i :| 0 <= i < |ks| && S.EndsFor(ks)[i] == u;
      assert ks[i] in ks;
    }
  }

  lemma SentEnd(k: Key, sent: seq<Unit>)
    requires SentWith(sent, k)
    ensures FromGuard(S.EndUnit(k), sent)
  {
    S.EndUnitRole(k);
  }

  /** What the guard delivers. */
  lemma {:induction false} GuardOutput(es: seq<G.ChannelEvent>)
    ensures forall u :: u in G.Run(es).out ==> FromGuard(u, G.Sent(es))
    ensures forall k :: k in G.Run(es).open ==> SentWith(G.Sent(es), k)
  {
    if es != [] {
      var init, e := es[..|es|-1], es[|es|-1];
      assert es == init + [e];
      GuardOutput(init);
      G.Snoc(init, e);
      hide G.Run, G.Sent, G.Step, RoleOf, WordCount;
      assert forall u :: u in G.Sent(init) ==> u in G.Sent(es);
      assert forall k :: SentWith(G.Sent(init), k) ==> SentWith(G.Sent(es), k);
      if e.Deliver? { assert e.u in G.Sent(es); }
      StepOutput(G.Run(init), e, G.Sent(es));
    }
  }

  lemma OwnKept(ms: seq<Message>, q: Message -> bool)
    requires forall m :: ClosedByOwn(m) ==> q(m)
    ensures Keep(ClosedByOwn, ms) == Keep(ClosedByOwn, Keep(q, ms))
    ensures Subseq(Keep(ClosedByOwn, ms), Keep(q, ms))
  {
    KeepTwice(ClosedByOwn, q, ms);
    KeepIsSubseq(ClosedByOwn, Keep(q, ms));
  }

  lemma OwnInOrder(a: Receiver, mid: Receiver, sender: Receiver)
    requires Promised(mid, a) && Subseq(Keep(ClosedByOwn, mid.done), sender.done)
    ensures Subseq(Keep(ClosedByOwn, a.done), sender.done)
  {
    hide Subseq, Keep;
    var ms := Keep(NotClosedByGate, a.done);
    OwnKept(a.done, NotClosedByGate);
    KeepMonotone(ClosedByOwn, ms, mid.done);
    Transitive(Keep(ClosedByOwn, ms), Keep(ClosedByOwn, mid.done), sender.done);
  }

  /** If one stage is accounted for by the next, so is the whole chain. */
  lemma ChainAccounted(a: Receiver, mid: Receiver, sender: Receiver)
    requires Promised(mid, a) && forall m :: m in a.done && !ClosedByGate(m) ==> m in mid.done
    requires Accounted(mid, sender)
    ensures Accounted(a, sender)
  {
    hide Subseq, Keep;
    OwnInOrder(a, mid, sender);
    forall p | Begun(p, mid) ensures Begun(p, sender) {
      if p <= mid.open {
        BegunPrefix(p, mid.open, sender);
      } else {
        var m :| m in mid.done && p < m;
        assert Honest(m, sender);
        if m !in sender.done {
          assert p <= Body(m);
          BegunPrefix(p, Body(m), sender);
        }
      }
    }
    forall m | m in a.done ensures Honest(m, sender) {
    }
  }

  /** The sender's stream, as far as key `k` goes, is as the standard has it. */
  predicate CorrectSender(us: seq<Unit>, k: Key) {
    WellFormed(us, k) && Defined(us, k) && G.FromSender(us)
  }

  lemma GuardIsProper(es: seq<G.ChannelEvent>, k: Key)
    requires G.HolesAnnounced(es) && CorrectSender(G.Sent(es), k)
    ensures Proper(G.Run(es).out, k)
  {
    GuardOutput(es);
    G.OutputWellFormed(es, k);
    var out, sent := G.Run(es).out, G.Sent(es);
    hide G.Run, G.Sent, RoleOf, SentWith, Receives;
    forall i | 0 <= i < |out|
      ensures !out[i].tag.GateEnd?
      ensures RoleOf(out[i].head).Part? && RoleOf(out[i].head).key == k ==> RoleOf(out[i].head).status <= END
    {
      assert out[i] in out;
      if out[i] in sent {
        var j :| 0 <= j < |sent| && sent[j] == out[i];
      }
    }
  }

  /** The guard's stage: what it delivers is accounted for by the sender. */
  lemma GuardAccounted(chan: seq<G.ChannelEvent>, k: Key)
    requires G.HolesAnnounced(chan) && CorrectSender(G.Sent(chan), k)
    ensures Accounted(Receives(G.Run(chan).out, k), Receives(G.Sent(chan), k))
  {
    hide Receives, G.Run, G.Sent, Begun, Subseq, Keep, G.HolesAnnounced;
    var sender, mid := Receives(G.Sent(chan), k), Receives(G.Run(chan).out, k);
    G.LossNeverSplices(chan, k);
    OwnKept(mid.done, G.NotClosedByGuard);
    Transitive(Keep(ClosedByOwn, mid.done), Keep(G.NotClosedByGuard, mid.done), sender.done);
  }

  /** A correct sender of messages with key `k`, SysEx7 or SysEx8; a channel that loses
      what it likes, with breakStream at every hole; a gate that refuses whenever there
      is no room, for any pattern of room freed, and is not harmed by rivals in the Group;
      and any first part of what comes out of it, such as the words a driver has taken so far. Then
      the messages closed by an End or Complete of the sender's are, packet for packet,
      messages the sender sent, in order and at most once; every other message is the
      beginning of one; nothing arrives outside a message. */
  lemma {:induction false} NothingIsSpliced(chan: seq<G.ChannelEvent>, room: nat, hist: seq<E.Event>, n: nat, k: Key)
    requires G.HolesAnnounced(chan) && CorrectSender(G.Sent(chan), k)
    requires E.Offered(hist) == G.Run(chan).out && Unharmed(room, hist, k)
    requires n <= |E.Run(room, hist).out|
    ensures Accounted(Receives(E.Run(room, hist).out[..n], k), Receives(G.Sent(chan), k))
  {
    var out := E.Run(room, hist).out;
    var sender, mid := Receives(G.Sent(chan), k), Receives(G.Run(chan).out, k);
    hide Receives, E.Run, G.Run, G.Sent, Begun, Proper, Unharmed, G.HolesAnnounced, Promised, Accounted, Earlier;
    GuardIsProper(chan, k);
    EndMeansWhole(room, hist, k);
    GuardAccounted(chan, k);
    ChainAccounted(Receives(out, k), mid, sender);
    PrefixIsEarlier(out, n, k);
    EarlierAccounted(Receives(out[..n], k), Receives(out, k), sender);
  }

  /** The same, read off a single message at the receiver. */
  lemma {:induction false} OwnEndMeansSentMessage(
    chan: seq<G.ChannelEvent>, room: nat, hist: seq<E.Event>, n: nat, k: Key, m: Message)
    requires G.HolesAnnounced(chan) && CorrectSender(G.Sent(chan), k)
    requires E.Offered(hist) == G.Run(chan).out && Unharmed(room, hist, k)
    requires n <= |E.Run(room, hist).out|
    requires m in Receives(E.Run(room, hist).out[..n], k).done && ClosedByOwn(m)
    ensures m in Receives(G.Sent(chan), k).done
  {
    NothingIsSpliced(chan, room, hist, n, k);
  }

  /** A sender that sends no rivals of `k` harms nothing, and one that sends no SysEx8
      has no SysEx8 message for the gate to close. */
  lemma {:induction false} SenderIsSafe(chan: seq<G.ChannelEvent>, room: nat, hist: seq<E.Event>, k: Key)
    requires E.Offered(hist) == G.Run(chan).out
    ensures (forall u :: u in G.Sent(chan) ==> !E.Rival(u, k)) ==> Unharmed(room, hist, k)
    ensures (forall u :: u in G.Sent(chan) ==> !E.SysEx8Packet(u)) ==> E.NeverClosesSysEx8(room, hist)
  {
    GuardOutput(chan);
    hide E.Offered, E.Run, G.Run, G.Sent, RoleOf, WordCount, Unharmed, S.EndUnit;
    if forall u :: u in G.Sent(chan) ==> !E.Rival(u, k) {
      forall u | u in E.Offered(hist) ensures !E.Rival(u, k) {
        assert FromGuard(u, G.Sent(chan));
      }
      E.WithoutRivalsUndisturbed(room, hist, k);
      UndisturbedIsUnharmed(room, hist, k);
    }
    if forall u :: u in G.Sent(chan) ==> !E.SysEx8Packet(u) {
      forall u | u in E.Offered(hist) ensures !E.SysEx8Packet(u) {
        assert FromGuard(u, G.Sent(chan));
      }
      E.WithoutSysEx8NoneIsClosed(room, hist);
    }
  }

  /** No SysEx8 at all is both, for SysEx7. */
  lemma {:induction false} SysEx7SenderIsSafe(chan: seq<G.ChannelEvent>, room: nat, hist: seq<E.Event>, k: Key)
    requires k.Key7? && E.Offered(hist) == G.Run(chan).out
    requires forall u :: u in G.Sent(chan) ==> !E.SysEx8Packet(u)
    ensures Unharmed(room, hist, k) && E.NeverClosesSysEx8(room, hist)
  {
    hide E.Offered, G.Run, G.Sent, RoleOf, Unharmed, E.NeverClosesSysEx8;
    SenderIsSafe(chan, room, hist, k);
  }

  // ---- the bytes ----

  lemma TerminatorsAreEmpty(room: nat, es: seq<E.Event>)
    ensures forall u :: u in E.Terminators(room, es) ==> PacketData(u) == []
  {
    if es != [] {
      var e := es[|es|-1];
      TerminatorsAreEmpty(room, es[..|es|-1]);
      if E.Closes(E.Run(room, es[..|es|-1]), e) { TerminatorIsEmpty(e.u.head); }
    }
  }

  /** Whatever was not sent carries no data. */
  lemma AddedIsEmpty(chan: seq<G.ChannelEvent>, room: nat, hist: seq<E.Event>, u: Unit)
    requires E.Offered(hist) == G.Run(chan).out && G.FromSender(G.Sent(chan))
    requires u in E.Run(room, hist).out && !u.tag.Own?
    ensures PacketData(u) == []
  {
    var out, sent := E.Run(room, hist).out, G.Sent(chan);
    hide E.Run, E.Offered, E.Terminators, G.Run, G.Sent, PacketData, RoleOf, WordCount, Subseq, Keep, S.EndUnit;
    GuardOutput(chan);
    forall v | v in E.Offered(hist) ensures !v.tag.GateEnd? {
      assert FromGuard(v, sent);
    }
    E.OutputOrigin(room, hist);
    if u.tag.GateEnd? {
      InKeep(E.MadeByGate, out, u);
      TerminatorsAreEmpty(room, hist);
    } else {
      InKeep(E.NotMadeByGate, out, u);
      InSubseq(Keep(E.NotMadeByGate, out), E.Offered(hist), u);
      assert FromGuard(u, sent) && u !in sent;
      S.EndUnitIsEmpty(RoleOf(u.head).key);
    }
  }

  /** `d` is the data of one of the sender's messages, or the beginning of it. */
  predicate DataBegun(d: seq<nat>, sender: Receiver) {
    d <= Data(sender.open) || exists q :: q in sender.done && d <= Data(q)
  }

  lemma BegunData(p: Message, sender: Receiver)
    requires Begun(p, sender)
    ensures DataBegun(Data(p), sender)
  {
    hide Data;
    if p <= sender.open {
      DataPrefix(p, sender.open);
    } else {
      var q :| q in sender.done && p < q;
      DataPrefix(p, q);
    }
  }

  /** No byte is invented: a message that ends with an End or Complete of the sender's
      has the data of a message sent, and every other one has the beginning of such
      data, whoever put an End to it. */
  lemma {:induction false} NoByteIsInvented(
    chan: seq<G.ChannelEvent>, room: nat, hist: seq<E.Event>, n: nat, k: Key, m: Message)
    requires G.HolesAnnounced(chan) && CorrectSender(G.Sent(chan), k)
    requires E.Offered(hist) == G.Run(chan).out && Unharmed(room, hist, k)
    requires n <= |E.Run(room, hist).out|
    requires m in Receives(E.Run(room, hist).out[..n], k).done
    ensures
      var sender := Receives(G.Sent(chan), k);
      if ClosedByOwn(m) then m in sender.done else DataBegun(Data(m), sender)
  {
    var out, sender := E.Run(room, hist).out, Receives(G.Sent(chan), k);
    hide E.Run, E.Offered, G.Run, G.Sent, Receives, Unharmed, Begun, Data, PacketData, Subseq, Keep, G.HolesAnnounced;
    NothingIsSpliced(chan, room, hist, n, k);
    ReceivedAreOffered(out[..n], k);
    assert Honest(m, sender);
    if m in sender.done {
      WholeData(m, sender);
    } else {
      var last := m[|m|-1];
      assert last in m && last in out[..n] && last in out;
      AddedIsEmpty(chan, room, hist, last);
      assert m == Body(m) + [last];
      DataSnoc(Body(m), last);
      BegunData(Body(m), sender);
    }
  }

  lemma WholeData(m: Message, sender: Receiver)
    requires m in sender.done
    ensures DataBegun(Data(m), sender)
  {
    hide Data;
    assert Data(m) <= Data(m);
  }

  // ---- the words in the driver and in the ring ----

  lemma WordsOfCut(us: seq<Unit>, n: nat)
    requires n <= |us|
    ensures WordsOf(us)[..n] == WordsOf(us[..n]) && WordsOf(us)[n..] == WordsOf(us[n..])
  {
    assert us == us[..n] + us[n..];
    WordsOfAppend(us[..n], us[n..]);
    hide WordsOf;
  }

  /** Two runs of words are the first `n` packets of `out` and the others: each parses
      as such, and no packet is split between them. */
  predicate SplitAt(out: seq<Unit>, n: nat, written: seq<Word>, queued: seq<Word>) {
    && n <= |out|
    && Packets(written) == WordsOf(out[..n]) && Residue(written) == []
    && Packets(queued) == WordsOf(out[n..]) && Residue(queued) == []
  }

  /** When every packet put out is whole, the words the driver has are some first
      packets of the output and the words queued are the others. */
  lemma {:induction false} PacketAligned(
    history: seq<E.Event>, gate: Gate, written: seq<Word>, queued: seq<Word>) returns (n: nat)
    requires H.InLine(history, gate, written, queued)
    requires AllWhole(WordsOf(E.Run(H.WORDS, history).out))
    ensures SplitAt(E.Run(H.WORDS, history).out, n, written, queued)
  {
    var out := E.Run(H.WORDS, history).out;
    assert written + queued == Wire(out) && Residue(written) == [];
    hide E.Run, Packets, Residue, WordsOf, Wire, Flatten, Whole;
    WireIsFlatten(out);
    AlignedPrefix(written, queued, WordsOf(out));
    n := |Packets(written)|;
    WordsOfCut(out, n);
    ParseWhole(WordsOf(out[..n]));
    ParseWhole(WordsOf(out[n..]));
  }

  lemma GuardWhole(chan: seq<G.ChannelEvent>)
    requires forall u :: u in G.Sent(chan) ==> u.Whole()
    ensures forall u :: u in G.Run(chan).out ==> u.Whole()
  {
    GuardOutput(chan);
    hide G.Run, G.Sent, WordCount;
    forall u | u in G.Run(chan).out ensures u.Whole() {
      assert FromGuard(u, G.Sent(chan));
    }
  }

  /** The HOST queue at any moment of any run: the driver has been given whole packets
      in which no message with key `k` is spliced, and the ring holds whole packets too,
      as long as no SysEx8 message is closed by the gate and no rival harms those of `k`. */
  lemma {:induction false} HostIntegrity(chan: seq<G.ChannelEvent>, hist: seq<E.Event>, gate: Gate,
                      written: seq<Word>, queued: seq<Word>, k: Key) returns (n: nat)
    requires G.HolesAnnounced(chan) && CorrectSender(G.Sent(chan), k)
    requires forall u :: u in G.Sent(chan) ==> u.Whole()
    requires E.Offered(hist) == G.Run(chan).out && H.InLine(hist, gate, written, queued)
    requires E.NeverClosesSysEx8(H.WORDS, hist) && Unharmed(H.WORDS, hist, k)
    ensures
      var out := E.Run(H.WORDS, hist).out;
      SplitAt(out, n, written, queued)
      && Accounted(Receives(out[..n], k), Receives(G.Sent(chan), k))
  {
    hide E.Run, G.Run, G.Sent, E.Offered, H.InLine, E.NeverClosesSysEx8, Receives, Packets, Residue, WordsOf, Unharmed;
    GuardWhole(chan);
    E.WholeIffNoSysEx8Terminator(H.WORDS, hist);
    n := PacketAligned(hist, gate, written, queued);
    NothingIsSpliced(chan, H.WORDS, hist, n, k);
  }

  /** The same for a bridge that has nothing queued or staged: DEVICE after a flush,
      Pico and Pico W at any time. */
  lemma {:induction false} DirectIntegrity(chan: seq<G.ChannelEvent>, capacity: nat, hist: seq<E.Event>, gate: Gate,
                        written: seq<Word>, room: nat, k: Key)
    requires G.HolesAnnounced(chan) && CorrectSender(G.Sent(chan), k)
    requires forall u :: u in G.Sent(chan) ==> u.Whole()
    requires E.Offered(hist) == G.Run(chan).out && E.Matches(capacity, hist, gate, written, room)
    requires E.NeverClosesSysEx8(capacity, hist) && Unharmed(capacity, hist, k)
    ensures
      var out := E.Run(capacity, hist).out;
      && Packets(written) == WordsOf(out) && Residue(written) == []
      && Accounted(Receives(out, k), Receives(G.Sent(chan), k))
  {
    var out := E.Run(capacity, hist).out;
    assert written == Wire(out);
    hide E.Run, G.Run, G.Sent, E.Offered, E.Matches, E.NeverClosesSysEx8, Unharmed;
    hide Receives, Packets, Residue, WordsOf, Wire;
    GuardWhole(chan);
    E.WholeIffNoSysEx8Terminator(capacity, hist);
    WireIsFlatten(out);
    ParseWhole(WordsOf(out));
    NothingIsSpliced(chan, capacity, hist, |out|, k);
    assert out[..|out|] == out;
  }
}
