// The USB-to-network direction: words read from the driver, re-framed into whole
// packets, and sent unless the session refuses.
module UsbToNet {
  import opened Ump
  import opened UmpFramer

  const MAX_PER_PASS := 64

  /** What became of a packet: sent, discarded because no session is up, or
      answered locally. */
  datatype Fate = Sent | Gated | Local

  datatype Disposal = Disposal(fate: Fate, packet: seq<Word>)

  function PacketsOf(log: seq<Disposal>): seq<seq<Word>> {
    if log == [] then [] else PacketsOf(log[..|log|-1]) + [log[|log|-1].packet]
  }

  function SentOf(log: seq<Disposal>): seq<seq<Word>> {
    if log == [] then []
    else SentOf(log[..|log|-1]) + if log[|log|-1].fate.Sent? then [log[|log|-1].packet] else []
  }

  lemma LogSnoc(log: seq<Disposal>, d: Disposal)
    ensures PacketsOf(log + [d]) == PacketsOf(log) + [d.packet]
    ensures SentOf(log + [d]) == SentOf(log) + if d.fate.Sent? then [d.packet] else []
  {
    assert (log + [d])[..|log|] == log;
  }

  /** Every word read is in a packet disposed of, or still held; in order, once. */
  ghost predicate NothingLost(log: seq<Disposal>, held: seq<Word>, taken: seq<Word>, sent: seq<seq<Word>>) {
    && sent == SentOf(log)
    && AllWhole(PacketsOf(log))
    && Flatten(PacketsOf(log)) + held == taken
  }

  lemma FrontWhole(ws: seq<Word>)
    requires Front(ws) != []
    ensures Whole(Front(ws)) && |Front(ws)| <= |ws| && ws == Front(ws) + ws[|Front(ws)|..]
  {}

  lemma DisposeKeeps(log: seq<Disposal>, held: seq<Word>, taken: seq<Word>, sent: seq<seq<Word>>, fate: Fate)
    requires NothingLost(log, held, taken, sent) && Front(held) != []
    ensures
      var pkt := Front(held);
      NothingLost(log + [Disposal(fate, pkt)], held[|pkt|..], taken, sent + if fate.Sent? then [pkt] else [])
  {
    var pkt, rest := Front(held), held[|Front(held)|..];
    FrontWhole(held);
    LogSnoc(log, Disposal(fate, pkt));
    hide Front, PacketsOf, SentOf, Flatten, Whole;
    var ps := PacketsOf(log);
    FlattenAppend(ps, [pkt]);
    FlattenOne(pkt);
    Assoc(Flatten(ps), pkt, rest);
    assert sent + [] == sent;
  }

  lemma ReadKeeps(log: seq<Disposal>, held: seq<Word>, taken: seq<Word>, sent: seq<seq<Word>>, ws: seq<Word>)
    requires NothingLost(log, held, taken, sent)
    ensures NothingLost(log, held + ws, taken + ws, sent)
  {
    Assoc(Flatten(PacketsOf(log)), held, ws);
  }

  /** What was disposed of is what parsing the whole input gives, up to what is held. */
  lemma DisposedInOrder(log: seq<Disposal>, held: seq<Word>, taken: seq<Word>, sent: seq<seq<Word>>)
    requires NothingLost(log, held, taken, sent)
    ensures Packets(taken) == PacketsOf(log) + Packets(held) && Residue(taken) == Residue(held)
  {
    ParseWhole(PacketsOf(log));
    ParseInTwoReads(Flatten(PacketsOf(log)), held);
    assert [] + held == held;
  }

  lemma NothingFront()
    ensures Front([]) == []
  {}

  lemma NoFront(ws: seq<Word>)
    requires Front(ws) == []
    ensures Packets(ws) == [] && Residue(ws) == ws && |ws| <= 3
  {}

  /** The driver's receive FIFO; words may arrive at any time. */
  class UsbRx {
    var waiting: seq<Word>
    ghost var taken: seq<Word>     // all words read so far
    ghost var asked: nat           // questions whether words are waiting
    ghost var requested: nat       // words asked for in all reads
    ghost var got: nat             // words the last read gave

    /** Every word that has arrived: nothing of it ever disappears. */
    ghost function Arrived(): seq<Word>
      reads this
    {
      taken + waiting
    }

    constructor ()
      ensures waiting == [] && taken == [] && asked == requested == got == 0
    {
      waiting, taken, asked, requested, got := [], [], 0, 0, 0;
    }

    method Available() returns (n: nat)
      modifies this`waiting, this`asked
      ensures old(waiting) <= waiting && n == |waiting| && asked == old(asked) + 1
      ensures old(Arrived()) <= Arrived()
    {
      var more: seq<Word> :| true;
      waiting, asked := waiting + more, asked + 1;
      n := |waiting|;
    }

    /** At most `max` words; a read may stop short, in the middle of a packet. */
    method Read(max: nat) returns (ws: seq<Word>)
      modifies this`waiting, this`taken, this`requested, this`got
      ensures |ws| <= max && old(waiting) == ws + waiting && taken == old(taken) + ws
      ensures requested == old(requested) + max && got == |ws|
      ensures Arrived() == old(Arrived())
    {
      var k :| 0 <= k <= max && k <= |waiting|;
      ws := waiting[..k];
      taken, waiting := taken + ws, waiting[k..];
      requested, got := requested + max, k;
    }
  }

  /** The session, seen from the bridge: up or not, which may change at any question,
      with room or without, and free to refuse a packet. */
  class Session {
    var up: bool
    var space: nat
    ghost var clear: bool                 // it has just said that it has room, or is not up
    ghost var sent: seq<seq<Word>>
    ghost var refused: seq<seq<Word>>

    constructor ()
      ensures sent == refused == [] && !clear
    {
      up, space, clear, sent, refused := false, 0, false, [], [];
    }

    method Established() returns (b: bool)
      modifies this`up, this`clear
      ensures b == up && clear == !b
    {
      b :| true;
      up, clear := b, !b;
    }

    method TxSpaceAvailable() returns (n: nat)
      modifies this`space, this`clear
      ensures n == space && clear == (n > 0)
    {
      n :| true;
      space, clear := n, n > 0;
    }

    method SendUmp(pkt: seq<Word>) returns (ok: bool)
      modifies this`clear, this`sent, this`refused
      ensures !clear
      ensures sent == if ok then old(sent) + [pkt] else old(sent)
      ensures refused == if ok then old(refused) else old(refused) + [pkt]
    {
      ok :| true;
      clear := false;
      if ok { sent := sent + [pkt]; } else { refused := refused + [pkt]; }
    }
  }

  /** Why a pass ended. */
  datatype Stop = Unmounted | Limit | NoWords | NoSpace | Dry | Refused

  class Drain {
    const framer: UmpFramer
    const rx: UsbRx
    const session: Session
    const deviceRole: bool       // Stream messages are answered here, not sent
    ghost var log: seq<Disposal>

    ghost predicate Valid()
      reads this, framer, framer.buf, rx, session
    {
      framer.Valid() && NothingLost(log, framer.Contents(), rx.taken, session.sent)
    }

    constructor (deviceRole: bool)
      ensures Valid() && log == [] && this.deviceRole == deviceRole
      ensures fresh(framer) && fresh(framer.buf) && fresh(rx) && fresh(session)
    {
      framer := new UmpFramer();
      rx := new UsbRx();
      session := new Session();
      this.deviceRole, log := deviceRole, [];
    }

    /** Sends the packet if a session is up and takes it. */
    method Offer(pkt: seq<Word>) returns (stalled: bool, fate: Fate)
      requires pkt != []
      modifies session
      ensures session.sent == old(session.sent) + if !stalled && fate.Sent? then [pkt] else []
      ensures !stalled ==> (fate.Local? <==> deviceRole && MessageType(pkt[0]) == 0xF)
      ensures !stalled && fate.Gated? ==> !session.up
      ensures stalled || fate.Sent? ==> session.up
      ensures session.refused == old(session.refused) + if stalled then [pkt] else []
    {
      if deviceRole && MessageType(pkt[0]) == 0xF { return false, Local; }
      var up := session.Established();
      if !up { return false, Gated; }
      var ok := session.SendUmp(pkt);
      return !ok, Sent;
    }

    /** Disposes of the packet at the front, unless the session refuses it: then
        it stays where it is. */
    method Dispose(pkt: seq<Word>) returns (stalled: bool)
      requires Valid() && pkt == Front(framer.Contents()) && pkt != []
      modifies session, framer`n, framer.buf, this`log
      ensures Valid() && old(log) <= log
      ensures stalled ==> framer.Contents() == old(framer.Contents()) && log == old(log)
      ensures !stalled ==> framer.Contents() == old(framer.Contents())[|pkt|..]
      ensures !stalled ==> |log| == |old(log)| + 1 && log[|old(log)|].packet == pkt
      ensures !stalled ==> (log[|old(log)|].fate.Local? <==> deviceRole && MessageType(pkt[0]) == 0xF)
      ensures !stalled && log[|old(log)|].fate.Gated? ==> !session.up
      ensures stalled || log[|old(log)|].fate.Sent? ==> session.up
      ensures session.refused == old(session.refused) + if stalled then [pkt] else []
    {
      ghost var held, sent := framer.Contents(), session.sent;
      FrontWhole(held);
      hide NothingLost, Front, Whole, AllWhole, Flatten, PacketsOf, SentOf, WordCount, MessageType;
      var fate;
      stalled, fate := Offer(pkt);
      if stalled {
        assert sent + [] == sent;
        return;
      }
      framer.Consume(|pkt|);
      DisposeKeeps(log, held, rx.taken, sent, fate);
      log := log + [Disposal(fate, pkt)];
    }

    /** Takes out every complete packet, until none is left or one is refused. */
    method TakeOut() returns (stalled: bool)
      requires Valid()
      modifies session, framer`n, framer.buf, this`log
      ensures Valid() && old(log) <= log
      ensures (stalled <==> Front(framer.Contents()) != []) && (stalled ==> session.up)
      ensures PacketsOf(log) + Packets(framer.Contents()) == PacketsOf(old(log)) + Packets(old(framer.Contents()))
      ensures Residue(framer.Contents()) == Residue(old(framer.Contents()))
      ensures !stalled ==> framer.Contents() == Residue(old(framer.Contents()))
      ensures session.refused == old(session.refused) + if stalled then [Front(framer.Contents())] else []
    {
      DisposedInOrder(log, framer.Contents(), rx.taken, session.sent);
      hide NothingLost, Packets, Residue, PacketsOf, Front;
      stalled := false;
      var pkt := framer.Peek();
      while pkt != []
        invariant Valid() && old(log) <= log && pkt == Front(framer.Contents())
        invariant session.refused == old(session.refused) + []
        decreases |framer.Contents()|
      {
        stalled := Dispose(pkt);
        if stalled { break; }
        pkt := framer.Peek();
      }
      DisposedInOrder(log, framer.Contents(), rx.taken, session.sent);
      if !stalled { NoFront(framer.Contents()); }
    }

    /** Reads up to four words if the framer has room for them. The push is not
        checked; it cannot fail. */
    method Refill() returns (wc: nat)
      requires Valid() && session.clear
      modifies rx, framer`n, framer.buf, session`clear
      ensures Valid() && wc <= 4 && !session.clear && rx.asked == old(rx.asked)
      ensures rx.requested == old(rx.requested) + if |old(framer.Contents())| <= 4 then 4 else 0
      ensures |old(framer.Contents())| <= 4 ==> rx.got == wc && |framer.Contents()| == |old(framer.Contents())| + wc
      ensures |old(framer.Contents())| > 4 ==> framer.Contents() == old(framer.Contents())
      ensures |old(framer.Contents())| <= 4 ==> old(rx.taken) <= rx.taken && |rx.taken| == |old(rx.taken)| + wc
      ensures |old(framer.Contents())| > 4 ==> wc == 0 && rx.taken == old(rx.taken)
      ensures rx.Arrived() == old(rx.Arrived())
    {
      hide NothingLost;
      session.clear := false;
      wc := 0;
      var room := framer.HasRoomFor(4);
      if room {
        var umpBuf := rx.Read(4);
        wc := |umpBuf|;
        ReadKeeps(log, framer.Contents(), old(rx.taken), session.sent, umpBuf);
        if wc > 0 {
          var pushed := framer.Push(umpBuf);
        } else {
          assert old(framer.Contents()) + [] == old(framer.Contents());
          assert old(rx.taken) + [] == old(rx.taken);
        }
      }
    }

    /** One pass of the main loop. A packet the session refuses ends the pass and
        is offered again in the next one; a pass that ends otherwise leaves nothing
        whole behind. */
    method Pass(mounted: bool) returns (stalled: bool, ghost stop: Stop)
      requires Valid()
      modifies session, rx, framer`n, framer.buf, this`log
      ensures Valid() && old(log) <= log
      ensures old(rx.taken) <= rx.taken && old(rx.Arrived()) <= rx.Arrived()
      ensures stalled ==> Front(framer.Contents()) != []
      ensures session.refused == old(session.refused) + if stalled then [Front(framer.Contents())] else []
      ensures !stalled && Front(old(framer.Contents())) == [] ==>
        && Front(framer.Contents()) == [] && framer.Contents() == Residue(rx.taken)
        && PacketsOf(log) == Packets(rx.taken)
      ensures Justified(stop, mounted, stalled, rx.asked - old(rx.asked), rx.requested - old(rx.requested))
    {
      hide NothingLost, Front, Packets, Residue, PacketsOf, Justified;
      ghost var clean := Front(framer.Contents()) == [];
      stalled, stop := Loop(mounted);
      DisposedInOrder(log, framer.Contents(), rx.taken, session.sent);
      if !stalled && clean {
        NoFront(framer.Contents());
        assert PacketsOf(log) + [] == PacketsOf(log);
      }
    }

    /** There was a reason to end the pass, after `rounds` questions to the driver and
        reads of `words` words: no more than 64 rounds, no device, no words, no room in
        the session, a read that gave nothing while nothing was held, or a refusal. */
    ghost predicate Justified(stop: Stop, mounted: bool, stalled: bool, rounds: int, words: int)
      reads this, framer, framer.buf, rx, session
      requires framer.Valid()
    {
      && 0 <= rounds <= MAX_PER_PASS && (stalled <==> stop.Refused?)
      && match stop
         case Unmounted => !mounted && rounds == 0
         case Limit => rounds == MAX_PER_PASS
         case NoWords => rx.waiting == [] && rounds > 0
         case NoSpace => session.up && session.space == 0 && rounds > 0
         case Dry => !deviceRole && framer.Contents() == [] && rx.got == 0 && words > 0
         case Refused => session.up && Front(framer.Contents()) != []
    }

    /** One read, and what it completes; `dry` when there was nothing at all. */
    method ReadOnce() returns (stalled: bool, dry: bool)
      requires Valid() && session.clear
      modifies session, rx, framer`n, framer.buf, this`log
      ensures Valid() && old(log) <= log && rx.asked == old(rx.asked) && old(rx.requested) <= rx.requested
      ensures old(rx.taken) <= rx.taken && rx.Arrived() == old(rx.Arrived())
      ensures stalled <==> Front(framer.Contents()) != []
      ensures stalled ==> !dry && session.up
      ensures session.refused == old(session.refused) + if stalled then [Front(framer.Contents())] else []
      ensures dry ==>
        !deviceRole && framer.Contents() == [] && rx.got == 0 && rx.requested > old(rx.requested)
    {
      hide NothingLost, Packets, Residue, PacketsOf, Front, UsbRx.Arrived;
      var wc := Refill();
      if !deviceRole && wc == 0 {
        var pending := framer.Pending();
        if pending == 0 {
          NothingFront();
          return false, true;
        }
      }
      stalled := TakeOut();
      dry := false;
    }

    method Loop(mounted: bool) returns (stalled: bool, ghost stop: Stop)
      requires Valid()
      modifies session, rx, framer`n, framer.buf, this`log
      ensures Valid() && old(log) <= log
      ensures old(rx.taken) <= rx.taken && old(rx.Arrived()) <= rx.Arrived()
      ensures stalled ==> Front(framer.Contents()) != []
      ensures session.refused == old(session.refused) + if stalled then [Front(framer.Contents())] else []
      ensures !stalled && Front(old(framer.Contents())) == [] ==> Front(framer.Contents()) == []
      ensures Justified(stop, mounted, stalled, rx.asked - old(rx.asked), rx.requested - old(rx.requested))
    {
      hide NothingLost, Packets, Residue, PacketsOf, Front, UsbRx.Arrived;
      var drained := 0;
      stalled, stop := false, if mounted then Limit else Unmounted;
      while drained < MAX_PER_PASS && mounted
        invariant Valid() && old(log) <= log && !stalled && drained <= MAX_PER_PASS
        invariant stop == (if mounted then Limit else Unmounted) && (!mounted ==> drained == 0)
        invariant rx.asked == old(rx.asked) + drained && old(rx.requested) <= rx.requested
        invariant session.refused == old(session.refused) + []
        invariant old(rx.taken) <= rx.taken && old(rx.Arrived()) <= rx.Arrived()
        invariant Front(old(framer.Contents())) == [] ==> Front(framer.Contents()) == []
        decreases MAX_PER_PASS - drained
      {
        var available := rx.Available();
        if available == 0 {
          stop := NoWords;
          break;
        }
        var up := session.Established();
        if up {
          var space := session.TxSpaceAvailable();
          if space == 0 {
            stop := NoSpace;
            break;
          }
        }
        drained := drained + 1;
        var dry;
        stalled, dry := ReadOnce();
        if stalled || dry {
          stop := if stalled then Refused else Dry;
          break;
        }
      }
    }
  }
}
