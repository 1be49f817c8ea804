// NXP, HOST role: a ring of words between the session and the USB driver.
module HostQueue {
  import opened Ump
  import opened SysEx
  import opened DropGate
  import opened UsbDriver
  import opened Egress

  const WORDS := 4096

  // ---- the ring as a value ----

  /** The place of the `i`th word behind `head`. */
  function Place(head: nat, i: nat): nat
    requires head < WORDS && i <= WORDS
  {
    if head + i < WORDS then head + i else head + i - WORDS
  }

  lemma PlaceIsModulo(head: nat, i: nat)
    requires head < WORDS && i <= WORDS
    ensures (head + i) % WORDS == Place(head, i) < WORDS
  {}

  function Queued(ring: seq<Word>, head: nat, count: nat): (q: seq<Word>)
    requires |ring| == WORDS && head < WORDS && count <= WORDS
    ensures |q| == count
  {
    seq(count, i requires 0 <= i < count => ring[Place(head, i)])
  }

  lemma QueuedPush(ring: seq<Word>, head: nat, n: nat, v: Word)
    requires |ring| == WORDS && head < WORDS && n < WORDS
    ensures Queued(ring[Place(head, n) := v], head, n + 1) == Queued(ring, head, n) + [v]
  {}

  lemma QueuedAt(ring: seq<Word>, head: nat, count: nat, i: nat)
    requires |ring| == WORDS && head < WORDS && i < count <= WORDS && head + i < WORDS
    ensures Queued(ring, head, count)[i] == ring[head + i]
  {}

  lemma QueuedSlice(ring: seq<Word>, head: nat, count: nat, n: nat)
    requires |ring| == WORDS && head < WORDS && n <= count <= WORDS && head + n <= WORDS
    ensures ring[head..head + n] == Queued(ring, head, count)[..n]
  {}

  lemma QueuedAdvance(ring: seq<Word>, head: nat, count: nat, n: nat)
    requires |ring| == WORDS && head < WORDS && n <= count <= WORDS
    ensures Queued(ring, (head + n) % WORDS, count - n) == Queued(ring, head, count)[n..]
  {
    PlaceIsModulo(head, n);
  }

  /** How many words of `ws` can go: as many packets from the front, each complete, as fit. */
  function Fitting(ws: seq<Word>, room: nat): (n: nat)
    ensures n <= |ws| && n <= room
    decreases |ws|
  {
    if StartsWhole(ws) && WordCount(ws[0]) <= room then
      var n := WordCount(ws[0]);
      n + Fitting(ws[n..], room - n)
    else 0
  }

  lemma FittingFirst(ws: seq<Word>, room: nat)
    requires StartsWhole(ws) && WordCount(ws[0]) <= room
    ensures Fitting(ws, room) == WordCount(ws[0]) + Fitting(ws[WordCount(ws[0])..], room - WordCount(ws[0]))
  {}

  lemma TakeOne(q: seq<Word>, take: nat, room: nat)
    requires take < |q| && take + WordCount(q[take]) <= |q| && take + WordCount(q[take]) <= room
    ensures
      var n := WordCount(q[take]);
      Fitting(q[take..], room - take) == n + Fitting(q[take + n..], room - (take + n))
  {
    FittingFirst(q[take..], room - take);
    assert q[take..][WordCount(q[take])..] == q[take + WordCount(q[take])..];
  }

  lemma SliceMore(q: seq<Word>, i: nat, n: nat)
    requires i + n <= |q|
    ensures q[..i + n] == q[..i] + q[i..][..n]
    ensures q[i..][n..] == q[i + n..]
  {}

  lemma FittingNone(ws: seq<Word>, room: nat)
    requires !StartsWhole(ws) || room < WordCount(ws[0])
    ensures Fitting(ws, room) == 0
  {}

  lemma ResiduePrefix(ws: seq<Word>, m: nat)
    requires StartsWhole(ws) && m <= |ws|
    ensures
      var n := WordCount(ws[0]);
      if n <= m then Residue(ws[..m]) == Residue(ws[n..][..m - n])
      else Residue(ws[..m]) == ws[..m]
  {
    var n := WordCount(ws[0]);
    if 0 < m { assert ws[..m][0] == ws[0]; }
    if n <= m {
      assert ws[..m][n..] == ws[n..][..m - n];
      ParseOne(ws[..m]);
    }
  }

  lemma {:induction false} FittingIsWhole(ws: seq<Word>, room: nat)
    ensures Residue(ws[..Fitting(ws, room)]) == []
    decreases |ws|
  {
    hide Fitting, WordCount, Residue;
    if StartsWhole(ws) && WordCount(ws[0]) <= room {
      var n := WordCount(ws[0]);
      FittingFirst(ws, room);
      FittingIsWhole(ws[n..], room - n);
      ResiduePrefix(ws, n + Fitting(ws[n..], room - n));
    } else {
      FittingNone(ws, room);
      NoResidue(ws);
    }
  }

  lemma NoResidue(ws: seq<Word>)
    ensures Residue(ws[..0]) == []
  {}

  /** Every longer run of whole packets is too long for the room. */
  lemma {:induction false} FittingIsLongest(ws: seq<Word>, room: nat, m: nat)
    requires Fitting(ws, room) < m <= |ws| && Residue(ws[..m]) == []
    ensures room < m
    decreases |ws|
  {
    assert ws[..m][0] == ws[0];
    if StartsWhole(ws) {
      var n := WordCount(ws[0]);
      ResiduePrefix(ws, m);
      if n <= room {
        assert Fitting(ws, room) == n + Fitting(ws[n..], room - n);
        hide *;
        if n <= m { FittingIsLongest(ws[n..], room - n, m - n); }
      }
    }
  }

  // ---- one write at a time ----

  lemma {:induction false} NothingFitsBehind(ws: seq<Word>, room: nat)
    ensures Fitting(ws[Fitting(ws, room)..], room - Fitting(ws, room)) == 0
    decreases |ws|
  {
    hide Fitting, WordCount;
    if StartsWhole(ws) && WordCount(ws[0]) <= room {
      var n := WordCount(ws[0]);
      FittingFirst(ws, room);
      NothingFitsBehind(ws[n..], room - n);
      SliceMore(ws, n, Fitting(ws[n..], room - n));
    } else {
      FittingNone(ws, room);
      assert ws[0..] == ws;
    }
  }

  /** How many words go in one write from the front of `q`, when `toEnd` places are left
      before the end of the array: a contiguous run, or one packet copied out. */
  function OneWrite(q: seq<Word>, toEnd: nat, room: nat): (n: nat)
    ensures n <= |q| && n <= room
  {
    var run := Fitting(q[..if |q| < toEnd then |q| else toEnd], room);
    if run > 0 then run else if StartsWhole(q) && WordCount(q[0]) <= room then WordCount(q[0]) else 0
  }

  /** A bound on the writes that it takes to move what fits. */
  function WritesLeft(q: seq<Word>, toEnd: nat, room: nat): nat {
    if Fitting(q, room) == 0 then 0
    else if |q| <= toEnd then 1
    else if Fitting(q[..toEnd], room) == 0 then 2
    else 3
  }

  lemma AtMostThree(q: seq<Word>, toEnd: nat, room: nat)
    ensures WritesLeft(q, toEnd, room) <= 3
  {}

  /** Nothing wraps: one write takes all that fits. */
  lemma LastWrite(q: seq<Word>, toEnd: nat, room: nat)
    requires |q| <= toEnd && OneWrite(q, toEnd, room) > 0
    ensures WritesLeft(q, toEnd, room) == 1
    ensures Fitting(q[OneWrite(q, toEnd, room)..], room - OneWrite(q, toEnd, room)) == 0
  {
    hide Fitting, WordCount;
    assert q[..|q|] == q;
    NothingFitsBehind(q, room);
    if StartsWhole(q) && WordCount(q[0]) <= room { FittingFirst(q, room); }
  }

  /** The packet at the front lies across the end of the array. */
  lemma WriteAcross(q: seq<Word>, toEnd: nat, room: nat)
    requires 0 < toEnd < |q| && Fitting(q[..toEnd], room) == 0 && OneWrite(q, toEnd, room) > 0
    ensures toEnd < OneWrite(q, toEnd, room) && WritesLeft(q, toEnd, room) == 2
  {
    hide Fitting;
    assert q[..toEnd][0] == q[0];
    FittingFirst(q, room);
    if WordCount(q[0]) <= toEnd { FittingFirst(q[..toEnd], room); }
  }

  lemma WriteRun(q: seq<Word>, toEnd: nat, room: nat)
    requires toEnd < |q| && Fitting(q[..toEnd], room) > 0
    ensures OneWrite(q, toEnd, room) == Fitting(q[..toEnd], room)
    ensures
      var w := Fitting(q[..toEnd], room);
      w <= toEnd && Fitting(q[w..][..toEnd - w], room - w) == 0
  {
    hide Fitting;
    var w := Fitting(q[..toEnd], room);
    NothingFitsBehind(q[..toEnd], room);
    assert q[..toEnd][w..] == q[w..][..toEnd - w];
  }

  /** Every write brings the end nearer. */
  lemma {:induction false} WriteLess(q: seq<Word>, head: nat, room: nat)
    requires |q| <= WORDS && head < WORDS && OneWrite(q, WORDS - head, room) > 0
    requires
      var w := OneWrite(q, WORDS - head, room);
      Fitting(q, room) == w + Fitting(q[w..], room - w)
    ensures
      var w := OneWrite(q, WORDS - head, room);
      WritesLeft(q[w..], WORDS - (head + w) % WORDS, room - w) < WritesLeft(q, WORDS - head, room)
  {
    hide Fitting, OneWrite;
    var toEnd := WORDS - head;
    var w := OneWrite(q, toEnd, room);
    if |q| <= toEnd {
      LastWrite(q, toEnd, room);
    } else if Fitting(q[..toEnd], room) == 0 {
      WriteAcross(q, toEnd, room);
      PlaceIsModulo(head, w);
    } else {
      WriteRun(q, toEnd, room);
      PlaceIsModulo(head, w);
    }
  }

  lemma StillWhole(ws: seq<Word>, more: seq<Word>)
    requires Residue(ws) == [] && Residue(more) == []
    ensures Residue(ws + more) == []
  {
    ParseInTwoReads(ws, more);
    assert [] + more == more;
  }

  /** What the driver has, followed by what is queued, is what the simple outlet
      of 4096 words would have written; the driver was only given whole packets. */
  ghost predicate InLine(history: seq<Event>, gate: Gate, written: seq<Word>, queued: seq<Word>) {
    && |queued| <= WORDS && Matches(WORDS, history, gate, written + queued, WORDS - |queued|)
    && Residue(written) == []
  }

  lemma DrainInLine(history: seq<Event>, gate: Gate, written: seq<Word>, queued: seq<Word>, n: nat)
    requires InLine(history, gate, written, queued)
    requires n <= |queued| && Residue(queued[..n]) == []
    ensures InLine(history + [Free(n)], gate, written + queued[..n], queued[n..])
  {
    hide Residue, Matches;
    FreeMatches(WORDS, history, gate, written + queued, WORDS - |queued|, n);
    StillWhole(written, queued[..n]);
    assert queued == queued[..n] + queued[n..];
    Assoc(written, queued[..n], queued[n..]);
  }

  lemma OfferInLine(history: seq<Event>, gate: Gate, written: seq<Word>, queued: seq<Word>, u: Unit)
    requires InLine(history, gate, written, queued)
    ensures
      var d := Decide(gate, WORDS - |queued|, u);
      InLine(history + [Offer(u)], d.gate, written, queued + Wire(d.out))
  {
    hide Residue, Wire, Decide, Matches;
    var d := Decide(gate, WORDS - |queued|, u);
    OfferMatches(WORDS, history, gate, written + queued, WORDS - |queued|, u);
    Assoc(written, queued, Wire(d.out));
  }

  /** What has become of the driver. */
  datatype Tx = Tx(written: seq<Word>, writes: nat, asked: nat, torn: nat)

  class HostBridge {
    const ring: array<Word>
    var head: nat        // oldest word
    var count: nat       // words queued
    var highWater: nat
    var mounted: bool
    const gate: SysExDropGate
    const usb: UsbTx
    ghost var history: seq<Event>

    ghost predicate Valid()
      reads this, ring, gate, gate.state, usb
    {
      && ring.Length == WORDS && head < WORDS && count <= WORDS
      && gate.Valid() && usb.Valid()
    }

    ghost function Contents(): seq<Word>
      reads this, ring
      requires ring.Length == WORDS && head < WORDS && count <= WORDS
    {
      Queued(ring[..], head, count)
    }

    ghost predicate Tracked()
      reads this, ring, gate, gate.state, usb
      requires Valid()
    {
      InLine(history, gate.Contents(), usb.written, Contents())
    }

    constructor (capacity: nat)
      requires capacity <= 0xFFFF
      ensures Valid() && Tracked() && mounted && history == []
      ensures usb.capacity == capacity && usb.torn == usb.asked == usb.writes == 0
      ensures fresh(ring) && fresh(gate) && fresh(gate.state) && fresh(usb)
    {
      ring := new Word[WORDS](_ => 0);
      head, count, highWater, mounted, history := 0, 0, 0, true, [];
      gate := new SysExDropGate();
      usb := new UsbTx(capacity);
    }

    function Room(): nat
      reads this
      requires count <= WORDS
    {
      WORDS - count
    }

    method Push(w: seq<Word>)
      requires Valid() && |w| <= Room()
      modifies this`count, this`highWater, ring
      ensures Valid()
      ensures Contents() == old(Contents()) + w
      ensures highWater == if old(highWater) < count then count else old(highWater)
    {
      hide Queued, Place;
      ghost var q := Contents();
      for i := 0 to |w|
        modifies ring
        invariant Queued(ring[..], head, count + i) == q + w[..i]
      {
        QueuedPush(ring[..], head, count + i, w[i]);
        PlaceIsModulo(head, count + i);
        ring[(head + count + i) % WORDS] := w[i];
        assert w[..i + 1] == w[..i] + [w[i]];
        Assoc(q, w[..i], [w[i]]);
      }
      count := count + |w|;
      if highWater < count { highWater := count; }
    }

    /** How many words a single write can take: whole packets, none beyond the end of
        the array or the room. */
    method LongestRun(contig: nat, room: nat) returns (take: nat)
      requires Valid() && contig <= count && head + contig <= WORDS
      ensures take == Fitting(Contents()[..contig], room)
      ensures take <= contig && take <= room
      ensures Fitting(Contents(), room) == take + Fitting(Contents()[take..], room - take)
    {
      hide Fitting, WordCount, Queued;
      ghost var q, p := Contents(), Contents()[..contig];
      assert q[0..] == q && p[0..] == p;
      take := 0;
      while take < contig
        invariant take <= contig && take <= room
        invariant Fitting(q, room) == take + Fitting(q[take..], room - take)
        invariant Fitting(p, room) == take + Fitting(p[take..], room - take)
      {
        QueuedAt(ring[..], head, count, take);
        var pw := WordCount(ring[head + take]);
        assert p[take] == q[take] == ring[head + take];
        if take + pw > contig || take + pw > room {
          FittingNone(p[take..], room - take);
          return;
        }
        TakeOne(q, take, room);
        TakeOne(p, take, room);
        take := take + pw;
      }
      FittingNone(p[take..], room - take);
    }

    /** A copy of the packet at the front, which straddles the ring's end. */
    method CopyOut(n: nat) returns (tmp: array<Word>)
      requires Valid() && n <= count && n <= 4
      ensures fresh(tmp) && tmp.Length == 4 && tmp[..n] == Contents()[..n]
    {
      tmp := new Word[4](_ => 0);
      for i := 0 to n
        invariant forall j :: 0 <= j < i ==> tmp[j] == Contents()[j]
      {
        PlaceIsModulo(head, i);
        tmp[i] := ring[(head + i) % WORDS];
      }
    }

    /** One write, of a contiguous run or of one packet that had to be copied out. */
    method WriteFront(room: nat) returns (wrote: nat)
      requires Valid() && count > 0 && room <= usb.room
      modifies usb
      ensures Valid() && usb.torn == old(usb.torn) && old(usb.room) <= usb.room + wrote
      ensures wrote <= room && wrote <= count && wrote == OneWrite(Contents(), WORDS - head, room)
      ensures usb.writes == old(usb.writes) + (if wrote == 0 then 0 else 1) && usb.asked == old(usb.asked)
      ensures usb.written == old(usb.written) + Contents()[..wrote]
      ensures Fitting(Contents(), room) == wrote + Fitting(Contents()[wrote..], room - wrote)
      ensures wrote == 0 ==> Fitting(Contents(), room) == 0
    {
      hide Fitting, WordCount, Queued;
      ghost var q := Contents();
      var toEnd := WORDS - head;
      var contig := if count < toEnd then count else toEnd;
      var take := LongestRun(contig, room);
      if take == 0 {
        var pw := WordCount(ring[head]);
        QueuedAt(ring[..], head, count, 0);
        if pw > room || pw > count {
          FittingNone(q, room);
          return 0;
        }
        FittingFirst(q, room);
        var tmp := CopyOut(pw);
        ghost var freed;
        wrote, freed := usb.Write(tmp[..pw]);
      } else {
        QueuedSlice(ring[..], head, count, take);
        assert ring[head..head + take] == ring[..][head..head + take];
        ghost var freed;
        wrote, freed := usb.Write(ring[head..head + take]);
      }
    }

    /** Drops `n` words from the front of the queue. */
    method Advance(n: nat)
      requires Valid() && n <= count
      modifies this`head, this`count
      ensures Valid() && Contents() == old(Contents())[n..] && head == (old(head) + n) % WORDS
    {
      QueuedAdvance(ring[..], head, count, n);
      head := (head + n) % WORDS;
      count := count - n;
    }

    /** `done` words of the queue `q` have gone, of those that fit into `free`. */
    ghost predicate Draining(q: seq<Word>, free: nat, start: Tx, done: nat, room: nat)
      reads this, ring, gate, gate.state, usb
    {
      && Valid() && room <= usb.room && done <= |q| && done + room == free
      && Contents() == q[done..] && usb.written == start.written + q[..done]
      && Fitting(q, free) == done + Fitting(q[done..], room)
      && usb.writes + WritesLeft(q[done..], WORDS - head, room) <= start.writes + 3
      && usb.asked == start.asked && usb.torn == start.torn
    }

    lemma DrainStarts(free: nat)
      requires Valid() && free <= usb.room
      ensures Draining(Contents(), free, Tx(usb.written, usb.writes, usb.asked, usb.torn), 0, free)
    {
      hide Fitting, WordCount, Queued;
      AtMostThree(Contents(), WORDS - head, free);
      assert Contents()[0..] == Contents();
    }

    lemma Drained(q: seq<Word>, free: nat, start: Tx, done: nat, room: nat)
      requires Draining(q, free, start, done, room)
      requires count == 0 || room == 0 || Fitting(Contents(), room) == 0
      ensures done == Fitting(q, free) && usb.writes <= start.writes + 3
    {
      hide Fitting, WordCount, Queued, WritesLeft;
      if count == 0 || room == 0 { FittingNone(q[done..], room); }
    }

    /** One turn of the loop. */
    method DrainStep(ghost q: seq<Word>, ghost free: nat, ghost start: Tx, ghost done: nat, room: nat)
      returns (wrote: nat)
      requires Draining(q, free, start, done, room) && count > 0
      modifies this`head, this`count, usb
      ensures wrote <= room && Draining(q, free, start, done + wrote, room - wrote)
      ensures wrote == 0 ==> Fitting(Contents(), room) == 0
      ensures count == old(count) - wrote
    {
      hide Fitting, WordCount, Queued, OneWrite, WritesLeft;
      wrote := WriteFront(room);
      if wrote == 0 { return; }
      SliceMore(q, done, wrote);
      WriteLess(q[done..], head, room);
      Assoc(start.written, q[..done], q[done..][..wrote]);
      Advance(wrote);
    }

    method DrainInto(free: nat) returns (ghost done: nat)
      requires Valid() && free <= usb.room
      modifies this`head, this`count, usb
      ensures Valid() && usb.torn == old(usb.torn)
      ensures usb.writes <= old(usb.writes) + 3 && usb.asked == old(usb.asked)
      ensures done == Fitting(old(Contents()), free)
      ensures usb.written == old(usb.written) + old(Contents())[..done]
      ensures Contents() == old(Contents())[done..]
    {
      hide Fitting, WordCount, Queued, OneWrite, WritesLeft;
      ghost var q, start := Contents(), Tx(usb.written, usb.writes, usb.asked, usb.torn);
      DrainStarts(free);
      done := 0;
      var room: nat := free;
      while count > 0 && room > 0
        invariant Draining(q, free, start, done, room)
        decreases count
      {
        var wrote := DrainStep(q, free, start, done, room);
        if wrote == 0 { break; }
        room := if room > wrote then room - wrote else 0;
        done := done + wrote;
      }
      Drained(q, free, start, done, room);
    }

    method DrainMounted() returns (ghost freed: nat)
      requires Valid() && mounted
      modifies this`head, this`count, this`history, usb
      ensures Valid() && usb.torn == old(usb.torn)
      ensures usb.writes <= old(usb.writes) + 3 && usb.asked == old(usb.asked) + 1
      ensures
        var n := Fitting(old(Contents()), old(usb.room) + freed);
        && usb.written == old(usb.written) + old(Contents())[..n]
        && Contents() == old(Contents())[n..]
        && history == old(history) + [Free(n)]
      ensures old(Tracked()) ==> Tracked()
    {
      hide Fitting, Queued, InLine;
      var room;
      room, freed := usb.Writeable();
      ghost var q, w := Contents(), usb.written;
      ghost var n := DrainInto(room);
      history := history + [Free(n)];
      FittingIsWhole(q, room);
      if InLine(old(history), gate.Contents(), w, q) {
        DrainInLine(old(history), gate.Contents(), w, q, n);
      }
    }

    /** Moves packets into the driver: all the whole packets at the front of the
        queue that fit the room there was at the start, in order, and no others; and in
        three writes at most, for one end of the array and one packet across it. */
    method Drain() returns (ghost freed: nat)
      requires Valid()
      modifies this`head, this`count, this`history, usb
      ensures Valid() && usb.torn == old(usb.torn)
      ensures !mounted ==>
        Contents() == [] && usb.written == old(usb.written) && usb.asked == old(usb.asked)
      ensures usb.writes <= old(usb.writes) + (if mounted then 3 else 0)
      ensures mounted ==> usb.asked == old(usb.asked) + 1
      ensures mounted ==>
        var n := Fitting(old(Contents()), old(usb.room) + freed);
        && usb.written == old(usb.written) + old(Contents())[..n]
        && Contents() == old(Contents())[n..]
        && history == old(history) + [Free(n)]
      ensures mounted && old(Tracked()) ==> Tracked()
    {
      hide Queued, Fitting, InLine;
      if !mounted {
        head, count, freed := 0, 0, 0;
        return;
      }
      freed := DrainMounted();
    }

    /** One packet of a delivery: queued whole, refused whole, or dropped with the
        rest of its message. */
    method OnPacket(pkt: seq<Word>, ghost u: Unit)
      requires Valid() && pkt == u.Words()
      modifies this`count, this`highWater, this`history, ring, gate.state
      ensures Valid()
      ensures gate.Contents() == Decide(old(gate.Contents()), old(Room()), u).gate
      ensures Contents() == old(Contents()) + Wire(Decide(old(gate.Contents()), old(Room()), u).out)
      ensures history == old(history) + [Offer(u)]
      ensures old(Tracked()) ==> Tracked()
    {
      hide InLine, Queued, Wire, Finished, OwesEnd, Sent, Refused, Suppressed, Finishes;
      ghost var g, q := gate.Contents(), Contents();
      DecisionWords(g, u);
      var s := gate.Suppress(pkt[0]);
      if s {
        var term := gate.TerminatorFor(pkt[0]);
        if |term| == 2 && Room() >= 2 { Push(term); }
      } else if Room() < |pkt| {
        gate.NoteRefused(pkt[0]);
      } else {
        Push(pkt);
        gate.NoteSent(pkt[0]);
      }
      history := history + [Offer(u)];
      if InLine(old(history), g, usb.written, q) {
        OfferInLine(old(history), g, usb.written, q, u);
      }
    }

    method OnPackets(words: seq<Word>, ghost us: seq<Unit>)
      requires Valid() && Delivery(words, us)
      modifies this`count, this`highWater, this`history, ring, gate.state
      ensures Valid()
      ensures Extends(old(history), history, us)
      ensures old(Tracked()) ==> Tracked()
    {
      hide *;
      ExtendsNone(history);
      var off := 0;
      ghost var k := 0;
      AtStart(words, us);
      while off < |words|
        invariant Valid() && At(words, us, off, k) && off <= |words| && k <= |us|
        invariant Extends(old(history), history, us[..k])
        invariant old(Tracked()) ==> Tracked()
      {
        var pw := WordCount(words[off]);
        if off + pw > |words| { break; }
        AtNext(words, us, off, k);
        ExtendsOffer(old(history), history, us[..k], us[k]);
        OnPacket(words[off..off + pw], us[k]);
        off, k := off + pw, k + 1;
      }
      AtEnd(words, us, off, k);
    }

    /** A delivery from the session, packet by packet; `us` are its packets. */
    method OnUmp(words: seq<Word>, ghost us: seq<Unit>)
      requires Valid() && Delivery(words, us)
      modifies this`count, this`highWater, this`history, ring, gate.state
      ensures Valid()
      ensures !mounted ==> Contents() == old(Contents()) && gate.Contents() == old(gate.Contents())
                           && history == old(history)
      ensures mounted ==> Extends(old(history), history, us)
      ensures old(Tracked()) ==> Tracked()
    {
      if mounted { OnPackets(words, us); }
    }
  }
}
