// Pico and Pico W: packets written to the driver one at a time. The Pico waits a
// bounded time for room, once per stall; the Pico W does not wait.
module PicoBridges {
  import opened Ump
  import opened SysEx
  import opened DropGate
  import opened UsbDriver
  import opened Egress

  // ---- when the Pico waits ----

  /** One question whether a packet fits: how often the driver was asked again after
      it had no room, and the answer in the end. */
  datatype Question = Question(polls: nat, ok: bool)

  predicate NoRoomAtLast(log: seq<Question>) { log != [] && !log[|log|-1].ok }

  /** After a packet for which there was no room, nobody waits until one has fitted. */
  predicate WaitsOnce(log: seq<Question>) {
    forall i :: 0 < i < |log| && !log[i - 1].ok ==> log[i].polls == 0
  }

  function Polls(log: seq<Question>): nat {
    if log == [] then 0 else Polls(log[..|log|-1]) + log[|log|-1].polls
  }

  /** Waits that ran out without room. */
  function VainWaits(log: seq<Question>): nat {
    if log == [] then 0
    else
      var last := log[|log|-1];
      VainWaits(log[..|log|-1]) + if last.polls > 0 && !last.ok then 1 else 0
  }

  /** Packets that fitted right after one that had not. */
  function Recoveries(log: seq<Question>): nat {
    if log == [] then 0
    else
      var init := log[..|log|-1];
      Recoveries(init) + if log[|log|-1].ok && NoRoomAtLast(init) then 1 else 0
  }

  lemma LogSnoc(log: seq<Question>, q: Question)
    ensures Polls(log + [q]) == Polls(log) + q.polls
    ensures WaitsOnce(log) && (NoRoomAtLast(log) ==> q.polls == 0) ==> WaitsOnce(log + [q])
    ensures NoRoomAtLast(log + [q]) <==> !q.ok
  {
    assert (log + [q])[..|log|] == log;
  }

  lemma {:induction false} WaitsAreFew(log: seq<Question>)
    requires WaitsOnce(log)
    ensures VainWaits(log) <= Recoveries(log) + if NoRoomAtLast(log) then 1 else 0
  {
    if log != [] { WaitsAreFew(log[..|log|-1]); }
  }

  /** A driver that has stalled costs one wait, however many packets it refuses: no
      other comes before it has recovered. */
  lemma {:induction false} OneWaitPerStall(log: seq<Question>)
    requires WaitsOnce(log)
    ensures VainWaits(log) <= Recoveries(log) + 1
    ensures (forall i :: 0 < i < |log| ==> !log[i].ok) ==> VainWaits(log) <= 1
  {
    WaitsAreFew(log);
    if forall i :: 0 < i < |log| ==> !log[i].ok { NoRecovery(log); }
  }

  lemma {:induction false} NoRecovery(log: seq<Question>)
    requires forall i :: 0 < i < |log| ==> !log[i].ok
    ensures Recoveries(log) == 0
  {
    if log != [] { NoRecovery(log[..|log|-1]); }
  }

  /** Between two moments the driver was asked once for each of `n` packets at most, and
      otherwise only in the waits logged meanwhile. */
  predicate OnceEach(before: seq<Question>, asked0: nat, log: seq<Question>, asked: nat, n: nat) {
    && before <= log && |log| <= |before| + n
    && asked + Polls(before) <= asked0 + Polls(log) + n
  }

  lemma OnceNone(log: seq<Question>, asked: nat)
    ensures OnceEach(log, asked, log, asked, 0)
  {}

  lemma OnceTrans(a: seq<Question>, x: nat, b: seq<Question>, y: nat, c: seq<Question>, z: nat, m: nat, n: nat)
    requires OnceEach(a, x, b, y, m) && OnceEach(b, y, c, z, n)
    ensures OnceEach(a, x, c, z, m + n)
  {}

  // ---- which packets have fitted ----

  /** For each packet the gate let through, whether it fitted. */
  function Answers(room: nat, es: seq<Event>): seq<bool> {
    if es == [] then []
    else
      var init, e := es[..|es|-1], es[|es|-1];
      var o := Run(room, init);
      Answers(room, init) + if e.Offer? && !Suppressed(o.gate, e.u.head) then [Fits(o, e.u)] else []
  }

  function Oks(log: seq<Question>): seq<bool> {
    seq(|log|, i requires 0 <= i < |log| => log[i].ok)
  }

  lemma OksSnoc(log: seq<Question>, q: Question)
    ensures Oks(log + [q]) == Oks(log) + [q.ok]
  {}

  lemma AnswersFree(room: nat, es: seq<Event>, n: nat)
    ensures Answers(room, es + [Free(n)]) == Answers(room, es)
  {
    assert (es + [Free(n)])[..|es|] == es;
  }

  lemma AnswersOffer(capacity: nat, history: seq<Event>, g: Gate, w: seq<Word>, r: nat, u: Unit)
    ensures Matches(capacity, history, g, w, r) ==>
      Answers(capacity, history + [Offer(u)]) ==
      Answers(capacity, history) + if Suppressed(g, u.head) then [] else [|u.Words()| <= r]
  {
    assert (history + [Offer(u)])[..|history|] == history;
  }

  /** What both bridges have: a gate in front of a driver. */
  class Port {
    const gate: SysExDropGate
    const usb: UsbTx
    ghost var history: seq<Event>

    ghost predicate Valid()
      reads this, gate, usb
    {
      gate.Valid() && usb.Valid()
    }

    /** The driver has exactly what the simple outlet has written. */
    ghost predicate Tracked()
      reads this, gate, gate.state, usb
      requires Valid()
    {
      Matches(usb.capacity, history, gate.Contents(), usb.written, usb.room)
    }

    /** For each packet let through so far, whether it fitted. */
    ghost function Answered(): seq<bool>
      reads this, usb
    {
      Answers(usb.capacity, history)
    }

    constructor (capacity: nat)
      requires capacity <= 0xFFFF
      ensures Valid() && Tracked() && history == [] && fresh(gate) && fresh(gate.state) && fresh(usb)
      ensures usb.capacity == capacity && usb.torn == usb.asked == 0
    {
      gate := new SysExDropGate();
      usb := new UsbTx(capacity);
      history := [];
      new;
      MatchesStart(capacity);
    }

    method Writeable() returns (n: nat)
      requires Valid()
      modifies usb`room, usb`asked, this`history
      ensures Valid() && n == usb.room && old(usb.room) <= n && usb.asked == old(usb.asked) + 1
      ensures Extends(old(history), history, []) && Answered() == old(Answered())
      ensures old(Tracked()) ==> Tracked()
    {
      ghost var h, r, freed := history, usb.room, 0;
      ExtendsNone(h);
      hide Matches, Extends, Answers;
      n, freed := usb.Writeable();
      AnswersFree(usb.capacity, h, freed);
      FreeOutcome(usb.capacity, h, h, gate.Contents(), usb.written, r, freed);
      history := history + [Free(freed)];
    }

    /** One write, known to fit; room may be freed before it. */
    method WriteWhole(ws: seq<Word>, ghost g: Gate)
      requires Valid() && |ws| <= usb.room
      modifies this`history, usb`room, usb`written, usb`torn, usb`writes
      ensures Valid() && usb.torn == old(usb.torn) && usb.written == old(usb.written) + ws
      ensures usb.writes == old(usb.writes) + 1
      ensures Extends(old(history), history, []) && Answered() == old(Answered())
      ensures old(Matches(usb.capacity, history, g, usb.written + ws, usb.room - |ws|)) ==>
        Matches(usb.capacity, history, g, usb.written, usb.room)
    {
      ExtendsNone(history);
      hide Matches, Extends, Answers;
      ghost var h, w, r: nat := history, usb.written + ws, usb.room - |ws|;
      var wrote;
      ghost var freed;
      wrote, freed := usb.Write(ws);
      AnswersFree(usb.capacity, h, freed);
      FreeOutcome(usb.capacity, h, h, g, w, r, freed);
      history := history + [Free(freed)];
    }

    /** Writes a terminator if one is due and there is room for it. */
    method Drop(head: Word, ghost u: Unit)
      requires Valid() && Suppressed(gate.Contents(), head) && u.head == head
      modifies this`history, gate.state, usb
      ensures Valid() && usb.torn == old(usb.torn) && Extends(old(history), history, [u])
      ensures old(usb.asked) <= usb.asked <= old(usb.asked) + 1
      ensures old(usb.writes) <= usb.writes <= old(usb.writes) + 1
      ensures old(Tracked()) ==> Tracked() && Answered() == old(Answered())
    {
      hide Matches, Extends, Suppressed, OwesEnd, Finished, Terminator, Answers;
      ghost var h, g, w, r := history, gate.Contents(), usb.written, usb.room;
      ExtendsNone(h);
      var term := gate.TerminatorFor(head);
      var n: nat := 0;
      if |term| == 2 {
        ghost var freed;
        n, freed := usb.Writeable();
        FreeOutcome(usb.capacity, h, h, g, w, r, freed);
        AnswersFree(usb.capacity, h, freed);
        history := history + [Free(freed)];
      }
      DropOutcome(usb.capacity, history, g, w, usb.room, u, term);
      AnswersOffer(usb.capacity, history, g, w, usb.room, u);
      ExtendsFirst(h, history, history + [Offer(u)], u);
      history := history + [Offer(u)];
      if |term| == 2 && n >= 2 {
        ghost var h' := history;
        WriteWhole(term, gate.Contents());
        ExtendsLast(h, h', history, u);
      } else {
        assert w + [] == w;
      }
    }

    method Refuse(pkt: seq<Word>, ghost u: Unit)
      requires Valid() && u.Words() == pkt && !Suppressed(gate.Contents(), u.head) && usb.room < |pkt|
      modifies this`history, gate.state
      ensures Valid() && Extends(old(history), history, [u])
      ensures old(Tracked()) ==> Tracked() && Answered() == old(Answered()) + [false]
    {
      hide Matches, Extends, Suppressed, Refused, Sent, Answers, OwesEnd, Finished, Terminator;
      ghost var w := usb.written;
      Outcome(usb.capacity, history, gate.Contents(), w, usb.room, u);
      AnswersOffer(usb.capacity, history, gate.Contents(), w, usb.room, u);
      DecisionWords(gate.Contents(), u);
      gate.NoteRefused(pkt[0]);
      history := history + [Offer(u)];
      assert w + [] == w;
    }

    method Send(pkt: seq<Word>, ghost u: Unit)
      requires Valid() && u.Words() == pkt && !Suppressed(gate.Contents(), u.head) && |pkt| <= usb.room
      modifies this`history, gate.state, usb`room, usb`written, usb`torn, usb`writes
      ensures Valid() && usb.torn == old(usb.torn) && Extends(old(history), history, [u])
      ensures usb.written == old(usb.written) + pkt && usb.writes == old(usb.writes) + 1
      ensures old(Tracked()) ==> Tracked() && Answered() == old(Answered()) + [true]
    {
      hide Matches, Extends, Suppressed, Refused, Sent, Answers, OwesEnd, Finished, Terminator;
      ghost var h, w := history, usb.written;
      Outcome(usb.capacity, history, gate.Contents(), w, usb.room, u);
      AnswersOffer(usb.capacity, history, gate.Contents(), w, usb.room, u);
      DecisionWords(gate.Contents(), u);
      history := history + [Offer(u)];
      ghost var h' := history;
      WriteWhole(pkt, Sent(gate.Contents(), u.head));
      gate.NoteSent(pkt[0]);
      ExtendsLast(h, h', history, u);
    }

    /** Writes the packet whole, or notes that it was refused. */
    method Put(pkt: seq<Word>, fits: bool, ghost u: Unit)
      requires Valid() && u.Words() == pkt && |pkt| <= 4 && !Suppressed(gate.Contents(), u.head)
      requires fits <==> |pkt| <= usb.room
      modifies this`history, gate.state, usb`room, usb`written, usb`torn, usb`writes
      ensures Valid() && usb.torn == old(usb.torn) && Extends(old(history), history, [u])
      ensures usb.written == old(usb.written) + (if fits then pkt else [])
      ensures usb.writes == old(usb.writes) + (if fits then 1 else 0)
      ensures old(Tracked()) ==> Tracked() && Answered() == old(Answered()) + [fits]
    {
      hide *;
      if fits {
        Send(pkt, u);
      } else {
        Refuse(pkt, u);
        assert usb.written + [] == usb.written;
      }
    }
  }

  class PicoWBridge {
    const port: Port

    constructor (capacity: nat)
      requires capacity <= 0xFFFF
      ensures port.Valid() && port.Tracked() && port.history == []
      ensures port.usb.capacity == capacity && port.usb.torn == 0
      ensures fresh(port) && fresh(port.gate) && fresh(port.gate.state) && fresh(port.usb)
    {
      port := new Port(capacity);
    }

    /** The room is asked for before the gate is. */
    method OnPacket(pkt: seq<Word>, ghost u: Unit)
      requires port.Valid() && u.Words() == pkt && |pkt| <= 4
      modifies port`history, port.gate.state, port.usb
      ensures port.Valid() && port.usb.torn == old(port.usb.torn) && Extends(old(port.history), port.history, [u])
      ensures old(port.usb.asked) < port.usb.asked <= old(port.usb.asked) + 2
      ensures port.usb.writes <= old(port.usb.writes) + 1
      ensures old(port.Tracked()) ==> port.Tracked()
    {
      hide Matches, Extends, Suppressed;
      var n := port.Writeable();
      var writable := n >= |pkt|;
      ghost var h := port.history;
      var s := port.gate.Suppress(pkt[0]);
      if s {
        port.Drop(pkt[0], u);
      } else {
        port.Put(pkt, writable, u);
      }
      ExtendsFirst(old(port.history), h, port.history, u);
    }

    /** `us[..k]` are disposed of since `before`; the next packet is at `off`. */
    ghost predicate InLoop(words: seq<Word>, us: seq<Unit>, before: seq<Event>, off: nat, k: nat)
      reads port
    {
      At(words, us, off, k) && k <= |us| && Extends(before, port.history, us[..k])
    }

    method Next(words: seq<Word>, ghost us: seq<Unit>, ghost before: seq<Event>, off: nat, ghost k: nat, pw: nat)
      requires port.Valid() && InLoop(words, us, before, off, k)
      requires off < |words| && pw == WordCount(words[off]) && off + pw <= |words|
      modifies port`history, port.gate.state, port.usb
      ensures port.Valid() && port.usb.torn == old(port.usb.torn) && InLoop(words, us, before, off + pw, k + 1)
      ensures old(port.Tracked()) ==> port.Tracked()
    {
      hide At, Extends, Matches, WordCount, Port.Tracked;
      AtNext(words, us, off, k);
      ghost var h := port.history;
      OnPacket(words[off..off + pw], us[k]);
      ExtendsTrans(before, h, port.history, us[..k], [us[k]]);
    }

    lemma EnterLoop(words: seq<Word>, us: seq<Unit>)
      requires Delivery(words, us)
      ensures InLoop(words, us, port.history, 0, 0)
    {
      AtStart(words, us);
      ExtendsNone(port.history);
    }

    lemma LeaveLoop(words: seq<Word>, us: seq<Unit>, before: seq<Event>, off: nat, k: nat)
      requires InLoop(words, us, before, off, k)
      requires off == |words| || (off < |words| && off + WordCount(words[off]) > |words|)
      ensures Extends(before, port.history, us)
    {
      AtEnd(words, us, off, k);
    }

    /** A delivery from the session; `us` are its packets. */
    method OnNetworkUmp(words: seq<Word>, ghost us: seq<Unit>)
      requires port.Valid() && Delivery(words, us)
      modifies port`history, port.gate.state, port.usb
      ensures port.Valid() && port.usb.torn == old(port.usb.torn) && Extends(old(port.history), port.history, us)
      ensures old(port.Tracked()) ==> port.Tracked()
    {
      hide *;
      var off: nat := 0;
      ghost var k: nat := 0;
      EnterLoop(words, us);
      while off < |words|
        invariant port.Valid() && port.usb.torn == old(port.usb.torn) && off <= |words|
        invariant InLoop(words, us, old(port.history), off, k)
        invariant old(port.Tracked()) ==> port.Tracked()
      {
        var pw := WordCount(words[off]);
        if off + pw > |words| { break; }
        Next(words, us, old(port.history), off, k, pw);
        off, k := off + pw, k + 1;
      }
      LeaveLoop(words, us, old(port.history), off, k);
    }
  }

  /** Microseconds since the start; every reading is later than the one before. */
  class Clock {
    var now: nat

    constructor ()
      ensures now == 0
    {
      now := 0;
    }

    method Read() returns (t: nat)
      modifies this
      ensures old(now) < now == t
    {
      t :| now < t;
      now := t;
    }
  }

  /** A moment in the life of a Pico bridge. */
  datatype Mark = Mark(history: seq<Event>, log: seq<Question>, asked: nat)

  class PicoBridge {
    const port: Port
    const clock: Clock
    const waitUs: nat              // 0 disables the wait
    var stalled: bool
    ghost var log: seq<Question>   // one for each packet that the gate let through

    /** The latch is armed exactly after a packet for which there was no room, and no
        question was ever waited for while it was. */
    ghost predicate Valid()
      reads this, port, port.gate, port.usb
    {
      port.Valid() && (stalled <==> NoRoomAtLast(log)) && WaitsOnce(log)
    }

    /** The log is that of the packets of the history. */
    ghost predicate Logged()
      reads this, port, port.usb
    {
      Oks(log) == port.Answered()
    }

    ghost predicate Tracked()
      reads this, port, port.gate, port.gate.state, port.usb
      requires Valid()
    {
      port.Tracked() && Logged()
    }

    constructor (capacity: nat, waitUs: nat)
      requires capacity <= 0xFFFF
      ensures Valid() && Tracked() && port.history == [] && log == []
      ensures port.usb.capacity == capacity && port.usb.torn == port.usb.asked == 0
      ensures fresh(port) && fresh(port.gate) && fresh(port.gate.state) && fresh(port.usb) && fresh(clock)
      ensures this.waitUs == waitUs
    {
      port := new Port(capacity);
      clock := new Clock();
      this.waitUs := waitUs;
      stalled, log := false, [];
    }

    /** Room for a packet of `pw` words? When there is none, the USB stack is run
        until there is, or until the deadline has passed; after a wait in vain there is
        no other until the driver has taken a packet. Every time the driver was asked
        is in the log. */
    method RoomFor(pw: nat) returns (ok: bool)
      requires Valid()
      modifies port.usb`room, port.usb`asked, port`history, this, clock
      ensures Valid() && Extends(old(port.history), port.history, [])
      ensures ok <==> pw <= port.usb.room
      ensures old(port.usb.asked) < port.usb.asked
      ensures log == old(log) + [Question(port.usb.asked - old(port.usb.asked) - 1, ok)]
      ensures old(stalled) ==> port.usb.asked == old(port.usb.asked) + 1 && clock.now == old(clock.now)
      ensures !ok && !old(stalled) ==> clock.now >= old(clock.now) + waitUs
      ensures port.Answered() == old(port.Answered())
      ensures old(port.Tracked()) ==> port.Tracked()
    {
      hide *;
      LatchMeans();
      ok := Ask(pw);
      ghost var q := Question(port.usb.asked - old(port.usb.asked) - 1, ok);
      LogSnoc(log, q);
      log := log + [q];
      Latched();
    }

    lemma LatchMeans()
      requires Valid()
      ensures port.Valid() && (stalled <==> NoRoomAtLast(log)) && WaitsOnce(log)
    {}

    lemma Latched()
      requires port.Valid() && (stalled <==> NoRoomAtLast(log)) && WaitsOnce(log)
      ensures Valid()
    {}

    /** The question itself, with the latch. */
    method Ask(pw: nat) returns (ok: bool)
      requires port.Valid()
      modifies port.usb`room, port.usb`asked, port`history, this`stalled, clock
      ensures port.Valid() && Extends(old(port.history), port.history, [])
      ensures (ok <==> pw <= port.usb.room) && (stalled <==> !ok)
      ensures old(port.usb.asked) < port.usb.asked
      ensures old(stalled) ==> port.usb.asked == old(port.usb.asked) + 1 && clock.now == old(clock.now)
      ensures !ok && !old(stalled) ==> clock.now >= old(clock.now) + waitUs
      ensures port.Answered() == old(port.Answered())
      ensures old(port.Tracked()) ==> port.Tracked()
    {
      hide Matches, Extends, Answers;
      var n := port.Writeable();
      ok := n >= pw;
      if ok {
        stalled := false;
      } else if !stalled {
        ghost var h := port.history;
        ok := WaitFor(pw);
        ExtendsStill(old(port.history), h, port.history);
        stalled := !ok;
      }
    }

    /** Polls until there is room, and gives up only when the time is over. */
    method WaitFor(pw: nat) returns (ok: bool)
      requires port.Valid() && port.usb.room < pw
      modifies port.usb`room, port.usb`asked, port`history, clock
      ensures port.Valid() && Extends(old(port.history), port.history, [])
      ensures ok <==> pw <= port.usb.room
      ensures !ok ==> clock.now >= old(clock.now) + waitUs
      ensures old(port.usb.asked) <= port.usb.asked && port.Answered() == old(port.Answered())
      ensures old(port.Tracked()) ==> port.Tracked()
    {
      hide Matches, Extends, Answers;
      ExtendsNone(port.history);
      var start := clock.Read();
      var deadline := start + waitUs;
      var t := clock.Read();
      while t < deadline
        invariant port.Valid() && port.usb.room < pw && old(clock.now) < start && t == clock.now
        invariant Extends(old(port.history), port.history, [])
        invariant old(port.usb.asked) <= port.usb.asked && port.Answered() == old(port.Answered())
        invariant old(port.Tracked()) ==> port.Tracked()
        decreases deadline - t
      {
        ghost var h := port.history;
        var n := port.Writeable();
        ExtendsStill(old(port.history), h, port.history);
        if n >= pw { return true; }
        t := clock.Read();
      }
      return false;
    }

    method OnPacket(pkt: seq<Word>, ghost u: Unit)
      requires Valid() && u.Words() == pkt && |pkt| <= 4
      modifies port`history, port.gate.state, port.usb, this, clock
      ensures Valid() && port.usb.torn == old(port.usb.torn) && Extends(old(port.history), port.history, [u])
      ensures OnceEach(old(log), old(port.usb.asked), log, port.usb.asked, 1)
      ensures old(Tracked()) ==> Tracked()
    {
      hide Matches, Extends, Suppressed, WaitsOnce, NoRoomAtLast, Answers, Polls, Oks;
      var s := port.gate.Suppress(pkt[0]);
      if s {
        port.Drop(pkt[0], u);
      } else {
        var ok := RoomFor(|pkt|);
        ghost var h, q := port.history, log[|old(log)|];
        port.Put(pkt, ok, u);
        ExtendsFirst(old(port.history), h, port.history, u);
        LogSnoc(old(log), q);
        OksSnoc(old(log), q);
      }
    }

    /** `us[..k]` are disposed of since `start`; the next packet is at `off`. */
    ghost predicate InLoop(words: seq<Word>, us: seq<Unit>, start: Mark, off: nat, k: nat)
      reads this, port, port.usb
    {
      && At(words, us, off, k) && k <= |us| && Extends(start.history, port.history, us[..k])
      && OnceEach(start.log, start.asked, log, port.usb.asked, k)
    }

    method Next(words: seq<Word>, ghost us: seq<Unit>, ghost start: Mark, off: nat, ghost k: nat, pw: nat)
      requires Valid() && InLoop(words, us, start, off, k)
      requires off < |words| && pw == WordCount(words[off]) && off + pw <= |words|
      modifies port`history, port.gate.state, port.usb, this, clock
      ensures Valid() && port.usb.torn == old(port.usb.torn) && InLoop(words, us, start, off + pw, k + 1)
      ensures old(Tracked()) ==> Tracked()
    {
      hide At, Extends, Matches, WordCount, Tracked, OnceEach, WaitsOnce, NoRoomAtLast;
      AtNext(words, us, off, k);
      ghost var here := Mark(port.history, log, port.usb.asked);
      OnPacket(words[off..off + pw], us[k]);
      OnceTrans(start.log, start.asked, here.log, here.asked, log, port.usb.asked, k, 1);
      ExtendsTrans(start.history, here.history, port.history, us[..k], [us[k]]);
    }

    lemma EnterLoop(words: seq<Word>, us: seq<Unit>)
      requires Delivery(words, us)
      ensures InLoop(words, us, Mark(port.history, log, port.usb.asked), 0, 0)
    {
      AtStart(words, us);
      ExtendsNone(port.history);
      OnceNone(log, port.usb.asked);
    }

    lemma LeaveLoop(words: seq<Word>, us: seq<Unit>, start: Mark, off: nat, k: nat)
      requires Valid() && InLoop(words, us, start, off, k)
      requires off == |words| || (off < |words| && off + WordCount(words[off]) > |words|)
      ensures Extends(start.history, port.history, us)
      ensures OnceEach(start.log, start.asked, log, port.usb.asked, |us|)
      ensures WaitsOnce(log) && VainWaits(log) <= Recoveries(log) + 1
    {
      hide Extends, OnceEach, At, WordCount;
      AtEnd(words, us, off, k);
      assert |us[..k]| == k;
      OneWaitPerStall(log);
    }

    /** A delivery from the session; `us` are its packets. The driver is asked once for
        each of them, and otherwise only in waits; and of those that were in vain there
        has been one more than recoveries at most. */
    method OnNetworkUmp(words: seq<Word>, ghost us: seq<Unit>)
      requires Valid() && Delivery(words, us)
      modifies port`history, port.gate.state, port.usb, this, clock
      ensures Valid() && port.usb.torn == old(port.usb.torn) && Extends(old(port.history), port.history, us)
      ensures OnceEach(old(log), old(port.usb.asked), log, port.usb.asked, |us|)
      ensures WaitsOnce(log) && VainWaits(log) <= Recoveries(log) + 1
      ensures old(Tracked()) ==> Tracked()
    {
      hide *;
      ghost var start := Mark(port.history, log, port.usb.asked);
      var off: nat := 0;
      ghost var k: nat := 0;
      EnterLoop(words, us);
      while off < |words|
        invariant Valid() && port.usb.torn == old(port.usb.torn) && off <= |words|
        invariant InLoop(words, us, start, off, k)
        invariant old(Tracked()) ==> Tracked()
      {
        var pw := WordCount(words[off]);
        if off + pw > |words| { break; }
        Next(words, us, start, off, k, pw);
        off, k := off + pw, k + 1;
      }
      LeaveLoop(words, us, start, off, k);
    }
  }
}
