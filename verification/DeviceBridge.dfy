// NXP, DEVICE role: packets are decided one by one, written a run at a time, and
// staged so that a whole pass goes out in one write.
module DeviceBridge {
  import opened Ump
  import opened SysEx
  import opened DropGate
  import opened UsbDriver
  import opened Egress

  const STAGE_WORDS := 512

  /** Writes made, terminators put out, and the words written. */
  datatype Cost = Cost(writes: nat, ended: nat, written: seq<Word>)

  /** Only terminators were written, and what was staged before them. */
  predicate Cheap(a: Cost, b: Cost) {
    && a.ended <= b.ended && b.writes <= a.writes + 2 * (b.ended - a.ended)
    && (b.ended == a.ended ==> b == a)
  }

  lemma CheapTrans(a: Cost, b: Cost, c: Cost)
    requires Cheap(a, b) && Cheap(b, c)
    ensures Cheap(a, c)
  {}

  class DeviceBridge {
    const stage: array<Word>
    var stageWords: nat
    var mounted: bool
    const gate: SysExDropGate
    const usb: UsbTx
    ghost var history: seq<Event>

    /** What is staged always fits the driver as it is. */
    ghost predicate Valid()
      reads this, gate, usb
    {
      && stage.Length == STAGE_WORDS && stageWords <= STAGE_WORDS
      && gate.Valid() && usb.Valid() && stageWords <= usb.room
    }

    /** Written and staged words, in order. */
    ghost function Handed(): seq<Word>
      reads this, stage, usb
      requires stageWords <= stage.Length
    {
      usb.written + stage[..stageWords]
    }

    /** Batched or not, the bridge has handed on exactly what the simple outlet
        has written, a packet at a time, after the same offers and freed room. */
    ghost predicate Tracked()
      reads this, stage, gate, gate.state, usb
      requires Valid()
    {
      Matches(usb.capacity, history, gate.Contents(), Handed(), usb.room - stageWords)
    }

    ghost function Spent(): Cost
      reads this, usb
    {
      Cost(usb.writes, Ended(usb.capacity, history), usb.written)
    }

    constructor (capacity: nat)
      requires capacity <= 0xFFFF
      ensures Valid() && Tracked() && mounted && history == [] && stageWords == 0
      ensures usb.capacity == capacity && usb.torn == usb.asked == usb.writes == 0
      ensures fresh(stage) && fresh(gate) && fresh(gate.state) && fresh(usb)
    {
      stage := new Word[STAGE_WORDS](_ => 0);
      stageWords, mounted, history := 0, true, [];
      gate := new SysExDropGate();
      usb := new UsbTx(capacity);
      new;
      MatchesStart(capacity);
      assert Handed() == [];
    }

    /** As `Tracked` for the gate `g`, with a run of packets that is on its way behind
        what is staged. */
    ghost predicate Pending(g: Gate, run: seq<Word>)
      reads this, stage, gate, usb
      requires Valid()
    {
      && stageWords + |run| <= usb.room
      && Matches(usb.capacity, history, g, Handed() + run, usb.room - stageWords - |run|)
    }

    ghost predicate Going(run: seq<Word>)
      reads this, stage, gate, gate.state, usb
      requires Valid()
    {
      Pending(gate.Contents(), run)
    }

    // Every question to the driver, and every write, may find that room was freed.

    /** Writes all that is staged, whole. */
    method StageFlush(ghost run: seq<Word>)
      requires Valid() && stageWords + |run| <= usb.room
      modifies this`stageWords, this`history, usb
      ensures Valid() && stageWords == 0 && usb.torn == old(usb.torn) && |run| <= usb.room
      ensures usb.written == old(Handed()) && Handed() == old(Handed())
      ensures Spent() == old(Spent()).(writes := old(usb.writes) + (if old(stageWords) == 0 then 0 else 1),
                                       written := usb.written)
      ensures Extends(old(history), history, [])
      ensures old(Going(run)) ==> Going(run)
    {
      ExtendsNone(history);
      hide Matches, Extends, Ended;
      if stageWords == 0 { return; }
      ghost var h, w, r: nat := history, Handed() + run, usb.room - stageWords - |run|;
      var wrote;
      ghost var freed;
      wrote, freed := usb.Write(stage[..stageWords]);
      stageWords := 0;
      history := history + [Free(freed)];
      FreeOutcome(usb.capacity, h, h, gate.Contents(), w, r, freed);
      EndedFree(usb.capacity, h, freed);
      assert stage[..0] == [];
    }

    /** The end of a pass: one write of all that is staged, or none when nothing is. */
    method EndPass()
      requires Valid()
      modifies this`stageWords, this`history, usb
      ensures Valid() && stageWords == 0 && usb.torn == old(usb.torn) && usb.written == old(Handed())
      ensures usb.writes == old(usb.writes) + if old(stageWords) == 0 then 0 else 1
      ensures Extends(old(history), history, [])
      ensures old(Tracked()) ==> Tracked()
    {
      hide Matches, Extends, Ended;
      assert Handed() + [] == Handed();
      StageFlush([]);
      assert Handed() + [] == Handed();
    }

    /** Writes a run straight to the driver, behind a stage that is empty. */
    method WriteDirect(run: seq<Word>)
      requires Valid() && stageWords == 0 && |run| <= usb.room
      modifies this`history, usb
      ensures Valid() && usb.torn == old(usb.torn) && Handed() == old(Handed()) + run
      ensures usb.written == old(usb.written) + run
      ensures Spent() == old(Spent()).(writes := old(usb.writes) + 1, written := usb.written)
      ensures Extends(old(history), history, [])
      ensures old(Going(run)) ==> Going([])
    {
      ExtendsNone(history);
      hide Matches, Extends, Ended;
      ghost var h, w, r: nat := history, Handed() + run, usb.room - |run|;
      var wrote;
      ghost var freed;
      wrote, freed := usb.Write(run);
      history := history + [Free(freed)];
      FreeOutcome(usb.capacity, h, h, gate.Contents(), w, r, freed);
      EndedFree(usb.capacity, h, freed);
      assert stage[..0] == [] && Handed() == w && Handed() + [] == w;
    }

    /** Copies a run behind what is staged. */
    method Append(run: seq<Word>)
      requires Valid() && stageWords + |run| <= usb.room && stageWords + |run| <= STAGE_WORDS
      modifies this`stageWords, stage
      ensures Valid() && Handed() == old(Handed()) + run && stageWords == old(stageWords) + |run|
      ensures Spent() == old(Spent())
      ensures old(Going(run)) ==> Going([])
    {
      hide Matches, Ended;
      ghost var staged := stage[..stageWords];
      forall i | 0 <= i < |run| { stage[stageWords + i] := run[i]; }
      assert stage[..stageWords + |run|] == staged + run;
      stageWords := stageWords + |run|;
      Assoc(usb.written, staged, run);
      assert Handed() + [] == Handed();
    }

    /** Free words once what is staged has gone in. */
    method RoomWords(ghost g: Gate, ghost run: seq<Word>) returns (n: nat)
      requires Valid() && stageWords + |run| <= usb.room
      modifies usb`room, usb`asked, this`history
      ensures Valid() && n == usb.room - stageWords && |run| <= n && old(usb.room) <= usb.room
      ensures Spent() == old(Spent())
      ensures Extends(old(history), history, [])
      ensures old(Pending(g, run)) ==> Pending(g, run)
    {
      ExtendsNone(history);
      hide Matches, Extends, Ended;
      ghost var h, w, r: nat := history, Handed() + run, usb.room - stageWords - |run|;
      ghost var freed;
      var writeable;
      writeable, freed := usb.Writeable();
      history := history + [Free(freed)];
      FreeOutcome(usb.capacity, h, h, g, w, r, freed);
      EndedFree(usb.capacity, h, freed);
      n := if writeable > stageWords then writeable - stageWords else 0;
    }

    /** Stages a run of packets, or writes it at once when it is larger than the
        stage; always after what is staged already. */
    method FlushRun(run: seq<Word>)
      requires Valid() && stageWords + |run| <= usb.room
      modifies this`stageWords, this`history, stage, usb
      ensures Valid() && usb.torn == old(usb.torn)
      ensures Handed() == old(Handed()) + run
      ensures old(stageWords) + |run| <= STAGE_WORDS ==>
        stageWords == old(stageWords) + |run| && Spent() == old(Spent())
      ensures old(stageWords) + |run| > STAGE_WORDS ==>
        && stageWords == (if |run| <= STAGE_WORDS then |run| else 0)
        && usb.written == old(Handed()) + (if |run| <= STAGE_WORDS then [] else run)
        && usb.writes == old(usb.writes) + (if old(stageWords) == 0 then 0 else 1)
                         + (if |run| <= STAGE_WORDS then 0 else 1)
      ensures Extends(old(history), history, [])
      ensures old(Going(run)) ==> Going([]) && Ended(usb.capacity, history) == old(Ended(usb.capacity, history))
    {
      ExtendsNone(history);
      hide Matches, Extends, Going, Handed, Ended;
      if |run| == 0 {
        assert run == [] && Handed() + [] == Handed();
        return;
      }
      if stageWords + |run| > STAGE_WORDS { StageFlush(run); }
      ghost var h := history;
      if |run| > STAGE_WORDS {
        WriteDirect(run);
        ExtendsStill(old(history), h, history);
      } else {
        Append(run);
      }
    }

    // Each of the following decides one packet `u`; `run` is what is pending.

    /** The packet goes out: it will join the run. */
    method Accept(ghost run: seq<Word>, pkt: seq<Word>, ghost u: Unit)
      requires Valid() && u.Words() == pkt && !Suppressed(gate.Contents(), u.head)
      requires stageWords + |run| + |pkt| <= usb.room
      modifies this`history, gate.state
      ensures Valid() && Extends(old(history), history, [u])
      ensures old(Going(run)) ==> Going(run + pkt) && Spent() == old(Spent())
    {
      ghost var g, w, r: nat := gate.Contents(), Handed() + run, usb.room - stageWords - |run|;
      Outcome(usb.capacity, history, g, w, r, u);
      EndedOffer(usb.capacity, history, g, w, r, u);
      hide Matches, Extends, Suppressed, Sent, Ended;
      gate.NoteSent(pkt[0]);
      history := history + [Offer(u)];
      Assoc(Handed(), run, pkt);
    }

    /** The packet does not fit: nothing of it is written. */
    method Refuse(pkt: seq<Word>, ghost u: Unit)
      requires Valid() && u.Words() == pkt && !Suppressed(gate.Contents(), u.head)
      requires stageWords + |pkt| > usb.room
      modifies this`history, gate.state
      ensures Valid() && Extends(old(history), history, [u])
      ensures old(Going([])) ==> Going([]) && Spent() == old(Spent())
    {
      ghost var g, w, r: nat := gate.Contents(), Handed() + [], usb.room - stageWords;
      Outcome(usb.capacity, history, g, w, r, u);
      EndedOffer(usb.capacity, history, g, w, r, u);
      hide Matches, Extends, Suppressed, Refused, Ended;
      gate.NoteRefused(pkt[0]);
      history := history + [Offer(u)];
      assert w + [] == w;
    }

    /** Everything staged, and then `term`. */
    method WriteTerminator(term: seq<Word>)
      requires Valid() && stageWords + |term| <= usb.room
      modifies this`stageWords, this`history, usb
      ensures Valid() && usb.torn == old(usb.torn) && Extends(old(history), history, [])
      ensures usb.written == old(Handed()) + term && stageWords == 0
      ensures Ended(usb.capacity, history) == old(Ended(usb.capacity, history)) && usb.writes <= old(usb.writes) + 2
      ensures old(Going(term)) ==> Going([])
    {
      hide Matches, Extends, Going, Ended;
      StageFlush(term);
      ghost var h := history;
      WriteDirect(term);
      ExtendsStill(old(history), h, history);
      assert stage[..0] == [];
    }

    /** A packet of a message being abandoned: dropped, with a terminator if one is
        due and fits, written after all that went before it. */
    method Drop(head: Word, ghost u: Unit)
      requires Valid() && Suppressed(gate.Contents(), head) && u.head == head
      modifies this`stageWords, this`history, stage, gate.state, usb
      ensures Valid() && usb.torn == old(usb.torn) && Extends(old(history), history, [u])
      ensures stageWords <= old(stageWords)
      ensures old(Going([])) ==> Going([]) && Cheap(old(Spent()), Spent())
    {
      hide Matches, Extends, Suppressed, OwesEnd, Finished, Terminator, Decide, Ended;
      ghost var h, g := history, gate.Contents();
      ExtendsNone(h);
      var term := gate.TerminatorFor(head);
      var n := 0;
      if |term| == 2 { n := RoomWords(g, []); }
      ghost var h' := history;
      DropOutcome(usb.capacity, h', g, Handed() + [], usb.room - stageWords, u, term);
      EndedOffer(usb.capacity, h', g, Handed() + [], usb.room - stageWords, u);
      history := history + [Offer(u)];
      ExtendsFirst(h, h', history, u);
      assert Handed() + [] == Handed();
      if |term| == 2 && n >= 2 {
        ghost var h'' := history;
        WriteTerminator(term);
        ExtendsLast(h, h'', history, u);
      }
    }

    /** Is there room for `pw` words on top of what is pending? If not, the run is
        flushed and the room asked for again. */
    method MakeRoom(run: seq<Word>, pw: nat) returns (fits: bool, kept: bool)
      requires Valid() && stageWords + |run| <= usb.room
      modifies this`stageWords, this`history, stage, usb
      ensures Valid() && usb.torn == old(usb.torn) && Extends(old(history), history, [])
      ensures stageWords + (if kept then |run| else 0) <= usb.room
      ensures fits <==> stageWords + (if kept then |run| else 0) + pw <= usb.room
      ensures kept ==> fits && stageWords == old(stageWords)
      ensures old(usb.room) - old(stageWords) >= |run| + pw ==> kept
      ensures old(stageWords) + |run| <= STAGE_WORDS ==> stageWords <= old(stageWords) + if kept then 0 else |run|
      ensures old(Going(run)) ==> Going(if kept then run else [])
      ensures old(Going(run)) && old(stageWords) + |run| <= STAGE_WORDS ==> Spent() == old(Spent())
    {
      hide Matches, Extends, Pending, Ended;
      var room := RoomWords(gate.Contents(), run);
      if room >= |run| + pw { return true, true; }
      ghost var h := history;
      FlushRun(run);
      ExtendsStill(old(history), h, history);
      h := history;
      room := RoomWords(gate.Contents(), []);
      ExtendsStill(old(history), h, history);
      fits, kept := room >= pw, false;
    }

    /** The run is the `n` words at `start`; it ends at `off` and fits the driver. */
    ghost predicate Ready(words: seq<Word>, off: nat, start: nat, n: nat)
      reads this, gate, usb
    {
      && Valid() && start + n <= off <= |words| && (n > 0 ==> start + n == off)
      && stageWords + n <= usb.room
    }

    ghost predicate GoingAt(words: seq<Word>, start: nat, n: nat)
      reads this, stage, gate, gate.state, usb
    {
      Valid() && start + n <= |words| && Going(words[start..start + n])
    }

    method OnPacket(words: seq<Word>, off: nat, pw: nat, runStart: nat, runWords: nat, ghost u: Unit)
      returns (start: nat, n: nat)
      requires Ready(words, off, runStart, runWords)
      requires off + pw <= |words| && u.Words() == words[off..off + pw]
      modifies this`stageWords, this`history, stage, gate.state, usb
      ensures Valid() && Ready(words, off + pw, start, n) && start + n <= |words|
      ensures usb.torn == old(usb.torn) && Extends(old(history), history, [u])
      ensures old(GoingAt(words, runStart, runWords)) ==> GoingAt(words, start, n)
      ensures old(stageWords) + runWords + pw <= STAGE_WORDS ==> stageWords + n <= old(stageWords) + runWords + pw
      ensures old(stageWords) + runWords + pw <= STAGE_WORDS && old(GoingAt(words, runStart, runWords)) ==>
        Cheap(old(Spent()), Spent())
    {
      hide Matches, Extends, Suppressed, Going, Ended, Cheap;
      NoCost();
      start, n := runStart, runWords;
      var s := gate.Suppress(words[off]);
      ghost var h := history;
      if s {
        FlushRun(words[start..start + n]);
        n := 0;
        ghost var h' := history;
        Drop(words[off], u);
        ExtendsFirst(h, h', history, u);
        assert words[start..start] == [];
      } else {
        start, n := Place(words, off, pw, start, n, u);
      }
    }

    lemma NoCost()
      ensures Cheap(Spent(), Spent())
    {}

    /** A packet that the gate lets through joins the run, or is refused. */
    method Place(words: seq<Word>, off: nat, pw: nat, runStart: nat, runWords: nat, ghost u: Unit)
      returns (start: nat, n: nat)
      requires Ready(words, off, runStart, runWords) && !Suppressed(gate.Contents(), u.head)
      requires off + pw <= |words| && u.Words() == words[off..off + pw]
      modifies this`stageWords, this`history, stage, gate.state, usb
      ensures Valid() && Ready(words, off + pw, start, n)
      ensures usb.torn == old(usb.torn) && Extends(old(history), history, [u])
      ensures old(GoingAt(words, runStart, runWords)) ==> GoingAt(words, start, n)
      ensures old(stageWords) + runWords + pw <= STAGE_WORDS ==> stageWords + n <= old(stageWords) + runWords + pw
      ensures old(stageWords) + runWords + pw <= STAGE_WORDS && old(GoingAt(words, runStart, runWords)) ==>
        Spent() == old(Spent())
    {
      hide Matches, Extends, Suppressed, Going, Ended;
      start, n := runStart, runWords;
      var fits, kept := MakeRoom(words[start..start + n], pw);
      if !kept { n := 0; }
      ghost var h, run := history, words[start..start + n];
      assert !kept ==> run == [];
      if fits {
        Accept(run, words[off..off + pw], u);
        if n == 0 { start := off; }
        assert words[start..start + n] == run;
        RunGrows(words, start, n, off, pw);
        n := n + pw;
      } else {
        Refuse(words[off..off + pw], u);
      }
      ExtendsFirst(old(history), h, history, u);
    }

    /** `us[..k]` are disposed of since `before`; the next packet is at `off`. */
    ghost predicate InLoop(words: seq<Word>, us: seq<Unit>, before: seq<Event>, off: nat, k: nat, start: nat, n: nat)
      reads this, gate, usb
    {
      && Ready(words, off, start, n) && At(words, us, off, k) && k <= |us| && Extends(before, history, us[..k])
    }

    method Next(words: seq<Word>, ghost us: seq<Unit>, ghost before: seq<Event>, off: nat, ghost k: nat,
                runStart: nat, runWords: nat, pw: nat)
      returns (start: nat, n: nat)
      requires InLoop(words, us, before, off, k, runStart, runWords)
      requires off < |words| && pw == WordCount(words[off]) && off + pw <= |words|
      modifies this`stageWords, this`history, stage, gate.state, usb
      ensures InLoop(words, us, before, off + pw, k + 1, start, n) && usb.torn == old(usb.torn)
      ensures old(GoingAt(words, runStart, runWords)) ==> GoingAt(words, start, n)
      ensures old(stageWords) + runWords + pw <= STAGE_WORDS ==> stageWords + n <= old(stageWords) + runWords + pw
      ensures old(stageWords) + runWords + pw <= STAGE_WORDS && old(GoingAt(words, runStart, runWords)) ==>
        Cheap(old(Spent()), Spent())
    {
      hide Ready, At, Extends, GoingAt, WordCount, Spent, Cheap;
      AtNext(words, us, off, k);
      ghost var h := history;
      start, n := OnPacket(words, off, pw, runStart, runWords, us[k]);
      ExtendsTrans(before, h, history, us[..k], [us[k]]);
    }

    lemma EnterLoop(words: seq<Word>, us: seq<Unit>)
      requires Valid() && Delivery(words, us)
      ensures InLoop(words, us, history, 0, 0, 0, 0)
      ensures Tracked() ==> GoingAt(words, 0, 0)
    {
      AtStart(words, us);
      ExtendsNone(history);
      assert words[0..0] == [] && Handed() + [] == Handed();
    }

    method LeaveLoop(words: seq<Word>, ghost us: seq<Unit>, ghost before: seq<Event>, off: nat, ghost k: nat,
                     start: nat, n: nat)
      requires InLoop(words, us, before, off, k, start, n)
      requires off == |words| || off + WordCount(words[off]) > |words|
      modifies this`stageWords, this`history, stage, usb
      ensures Valid() && usb.torn == old(usb.torn) && Extends(before, history, us)
      ensures old(GoingAt(words, start, n)) ==> Tracked()
      ensures old(stageWords) + n <= STAGE_WORDS ==> Spent() == old(Spent())
    {
      hide At, Extends, WordCount, Matches, Ended;
      ghost var h := history;
      AtEnd(words, us, off, k);
      FlushRun(words[start..start + n]);
      ExtendsTrans(before, h, history, us, []);
      assert us + [] == us && Handed() + [] == Handed();
    }

    method OnPackets(words: seq<Word>, ghost us: seq<Unit>)
      requires Valid() && Delivery(words, us)
      modifies this`stageWords, this`history, stage, gate.state, usb
      ensures Valid() && usb.torn == old(usb.torn) && Extends(old(history), history, us)
      ensures old(Tracked()) ==> Tracked()
      ensures old(Tracked()) && old(stageWords) + |words| <= STAGE_WORDS ==> Cheap(old(Spent()), Spent())
    {
      hide *;
      NoCost();
      var off: nat, runStart: nat, runWords: nat := 0, 0, 0;
      ghost var k: nat := 0;
      EnterLoop(words, us);
      while off < |words|
        invariant off <= |words| && usb.torn == old(usb.torn)
        invariant InLoop(words, us, old(history), off, k, runStart, runWords)
        invariant old(Tracked()) ==> GoingAt(words, runStart, runWords)
        invariant old(stageWords) + |words| <= STAGE_WORDS ==> stageWords + runWords <= old(stageWords) + off
        invariant old(Tracked()) && old(stageWords) + |words| <= STAGE_WORDS ==> Cheap(old(Spent()), Spent())
      {
        var pw := WordCount(words[off]);
        if off + pw > |words| { break; }
        ghost var spent := Spent();
        runStart, runWords := Next(words, us, old(history), off, k, runStart, runWords, pw);
        if Cheap(old(Spent()), spent) && Cheap(spent, Spent()) { CheapTrans(old(Spent()), spent, Spent()); }
        off, k := off + pw, k + 1;
      }
      LeaveLoop(words, us, old(history), off, k, runStart, runWords);
    }

    /** A delivery from the session; `us` are its packets. If it fits the stage, nothing
        is written but terminators, with what was staged before them. */
    method OnUmp(words: seq<Word>, ghost us: seq<Unit>)
      requires Valid() && Delivery(words, us)
      modifies this`stageWords, this`history, stage, gate.state, usb
      ensures Valid() && usb.torn == old(usb.torn)
      ensures mounted ==> Extends(old(history), history, us)
      ensures !mounted ==> Handed() == old(Handed()) && gate.Contents() == old(gate.Contents())
                           && history == old(history) && Spent() == old(Spent()) && stageWords == old(stageWords)
      ensures old(Tracked()) ==> Tracked()
      ensures old(Tracked()) && old(stageWords) + |words| <= STAGE_WORDS ==> Cheap(old(Spent()), Spent())
    {
      NoCost();
      if mounted { OnPackets(words, us); }
    }
  }

  lemma RunGrows(words: seq<Word>, start: nat, n: nat, off: nat, pw: nat)
    requires start + n == off && off + pw <= |words|
    ensures words[start..start + (n + pw)] == words[start..start + n] + words[off..off + pw]
  {}
}
