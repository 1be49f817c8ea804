// Universal MIDI Packets: the fields of a first word, the length of a packet,
// and how a stream of words falls into whole packets.
//
// A 32-bit word is a natural number below 2^32. A shift-and-mask such as
// (w >> 28) & 0xF is written with division and remainder.
module Ump {
  const WORD_RANGE := 0x1_0000_0000

  type Word = w: nat | w < WORD_RANGE

  function MessageType(w: Word): nat { w / 0x1000_0000 % 16 }
  function Group(w: Word): nat { w / 0x100_0000 % 16 }
  function Status(w: Word): nat { w / 0x10_0000 % 16 }
  function ByteCount(w: Word): nat { w / 0x1_0000 % 16 }
  function StreamId(w: Word): nat { w / 0x100 % 256 }

  /** The first word of a System Exclusive packet in base 256 is four fields of four
      bits and two bytes, and these are what the accessors read. */
  lemma FirstWordFields(t: nat, g: nat, st: nat, n: nat, id: nat, last: nat)
    requires t < 16 && g < 16 && st < 16 && n < 16 && id < 256 && last < 256
    ensures
      var w := (((t * 16 + g) * 256 + (st * 16 + n)) * 256 + id) * 256 + last;
      w < WORD_RANGE && MessageType(w) == t && Group(w) == g && Status(w) == st && ByteCount(w) == n
      && StreamId(w) == id
  {
    var a := t * 16 + g;
    var b := a * 256 + (st * 16 + n);
    var c := b * 256 + id;
    var w := c * 256 + last;
    assert w / 0x100 == c && w / 0x1_0000 == b;
    assert w / 0x10_0000 == b / 16 == a * 16 + st;
    assert w / 0x100_0000 == a && w / 0x1000_0000 == t;
  }

  /** Words in the packet that begins with `w`; unknown types get the maximum. */
  function WordCount(w: Word): (n: nat)
    ensures 1 <= n <= 4
  {
    match MessageType(w)
    case 0 => 1
    case 1 => 1
    case 2 => 1
    case 6 => 1
    case 7 => 1
    case 3 => 2
    case 4 => 2
    case 8 => 2
    case 9 => 2
    case 10 => 2
    case 11 => 3
    case 12 => 3
    case _ => 4
  }

  /** The same length read from a table with one entry per message type. */
  const SIZE_BY_TYPE: seq<nat> := [1, 1, 1, 2, 2, 4, 1, 1, 2, 2, 2, 3, 3, 4, 4, 4]

  lemma TableAgrees(w: Word)
    ensures w / 0x1000_0000 < 16
    ensures SIZE_BY_TYPE[w / 0x1000_0000] == WordCount(w)
  {
    assert w / 0x1000_0000 == MessageType(w);
  }

  /** The message types of each length, in words. */
  lemma SizeClasses(w: Word)
    ensures WordCount(w) == 1 <==> MessageType(w) in {0, 1, 2, 6, 7}
    ensures WordCount(w) == 2 <==> MessageType(w) in {3, 4, 8, 9, 10}
    ensures WordCount(w) == 3 <==> MessageType(w) in {11, 12}
    ensures WordCount(w) == 4 <==> MessageType(w) in {5, 13, 14, 15}
  {
    assert MessageType(w) < 16;
  }

  predicate Whole(p: seq<Word>) {
    p != [] && |p| == WordCount(p[0])
  }

  predicate AllWhole(ps: seq<seq<Word>>) {
    forall i :: 0 <= i < |ps| ==> Whole(ps[i])
  }

  function Flatten(ps: seq<seq<Word>>): seq<Word> {
    if ps == [] then [] else ps[0] + Flatten(ps[1..])
  }

  predicate StartsWhole(ws: seq<Word>) {
    ws != [] && WordCount(ws[0]) <= |ws|
  }

  /** The whole packets at the front of `ws`, up to the first incomplete one. */
  function Packets(ws: seq<Word>): (ps: seq<seq<Word>>)
    ensures AllWhole(ps)
  {
    if StartsWhole(ws) then
      var n := WordCount(ws[0]);
      [ws[..n]] + Packets(ws[n..])
    else []
  }

  /** What is left of `ws` after its whole packets: an incomplete packet. */
  function Residue(ws: seq<Word>): (r: seq<Word>)
    ensures |r| <= 3 && |r| <= |ws|
  {
    if StartsWhole(ws) then Residue(ws[WordCount(ws[0])..]) else ws
  }

  lemma Assoc<T>(a: seq<T>, b: seq<T>, c: seq<T>)
    ensures a + (b + c) == (a + b) + c
  {}

  lemma FlattenCons(p: seq<Word>, ps: seq<seq<Word>>)
    ensures Flatten([p] + ps) == p + Flatten(ps)
  {
    assert ([p] + ps)[1..] == ps;
  }

  lemma ParseOne(ws: seq<Word>)
    requires StartsWhole(ws)
    ensures Packets(ws) == [ws[..WordCount(ws[0])]] + Packets(ws[WordCount(ws[0])..])
    ensures Residue(ws) == Residue(ws[WordCount(ws[0])..])
  {}

  lemma {:induction false} FlattenAppend(ps: seq<seq<Word>>, qs: seq<seq<Word>>)
    ensures Flatten(ps + qs) == Flatten(ps) + Flatten(qs)
  {
    if ps == [] {
      assert ps + qs == qs;
    } else {
      hide *;
      var p, rest := ps[0], ps[1..];
      FlattenAppend(rest, qs);
      assert ps == [p] + rest && ps + qs == [p] + (rest + qs);
      FlattenCons(p, rest);
      FlattenCons(p, rest + qs);
      Assoc(p, Flatten(rest), Flatten(qs));
    }
  }

  lemma FlattenOne(p: seq<Word>)
    ensures Flatten([p]) == p
  {
    assert [p][1..] == [];
  }

  /** Parsing only cuts: packets and residue put together are the stream. */
  lemma {:induction false} PacketsPlusResidue(ws: seq<Word>)
    ensures Flatten(Packets(ws)) + Residue(ws) == ws
  {
    if StartsWhole(ws) {
      hide *;
      ParseOne(ws);
      var p, rest := ws[..WordCount(ws[0])], ws[WordCount(ws[0])..];
      assert ws == p + rest;
      FlattenCons(p, Packets(rest));
      PacketsPlusResidue(rest);
      Assoc(p, Flatten(Packets(rest)), Residue(rest));
    }
  }

  /** Cutting a stream anywhere and carrying the residue over changes nothing. */
  lemma {:induction false} ParseInTwoReads(a: seq<Word>, b: seq<Word>)
    ensures Packets(a + b) == Packets(a) + Packets(Residue(a) + b)
    ensures Residue(a + b) == Residue(Residue(a) + b)
  {
    if StartsWhole(a) {
      var n := WordCount(a[0]);
      var p, rest := a[..n], a[n..];
      assert StartsWhole(a + b) && (a + b)[0] == a[0] && (a + b)[..n] == p && (a + b)[n..] == rest + b;
      hide *;
      ParseOne(a);
      ParseOne(a + b);
      ParseInTwoReads(rest, b);
      Assoc([p], Packets(rest), Packets(Residue(rest) + b));
    }
  }

  /** Whole packets laid end to end are parsed back as the same packets. */
  lemma {:induction false} ParseWhole(ps: seq<seq<Word>>)
    requires AllWhole(ps)
    ensures Packets(Flatten(ps)) == ps && Residue(Flatten(ps)) == []
  {
    if ps != [] {
      ParseWhole(ps[1..]);
      var ws := Flatten(ps);
      assert ws[..|ps[0]|] == ps[0];
      assert ws[|ps[0]|..] == Flatten(ps[1..]);
    }
  }

  /** A packet-aligned prefix of a run of whole packets is some first packets of it. */
  lemma {:induction false} AlignedPrefix(done: seq<Word>, rest: seq<Word>, ps: seq<seq<Word>>)
    requires AllWhole(ps)
    requires Residue(done) == [] && done + rest == Flatten(ps)
    ensures Packets(done) <= ps
    ensures done == Flatten(ps[..|Packets(done)|])
    ensures rest == Flatten(ps[|Packets(done)|..])
  {
    ParseWhole(ps);
    ParseInTwoReads(done, rest);
    PacketsPlusResidue(done);
    var k := |Packets(done)|;
    assert ps == ps[..k] + ps[k..];
    FlattenAppend(ps[..k], ps[k..]);
    assert (done + rest)[|done|..] == rest;
  }

  // Re-framing a stream that arrives in reads.

  datatype Reframed = Reframed(packets: seq<seq<Word>>, held: seq<Word>)

  /** One read, then every packet that is complete taken out. */
  function TakeRead(r: Reframed, read: seq<Word>): Reframed {
    Reframed(r.packets + Packets(r.held + read), Residue(r.held + read))
  }

  function TakeReads(chunks: seq<seq<Word>>): Reframed {
    if chunks == [] then Reframed([], [])
    else TakeRead(TakeReads(chunks[..|chunks|-1]), chunks[|chunks|-1])
  }

  lemma {:induction false} TakeReadsParses(chunks: seq<seq<Word>>)
    ensures TakeReads(chunks) == Reframed(Packets(Flatten(chunks)), Residue(Flatten(chunks)))
  {
    if chunks != [] {
      var init, last := chunks[..|chunks|-1], chunks[|chunks|-1];
      assert chunks == init + [last];
      assert TakeReads(chunks) == TakeRead(TakeReads(init), last);
      assert Flatten(init + [last]) == Flatten(init) + last by {
        FlattenAppend(init, [last]);
        FlattenOne(last);
      }
      hide Flatten, Packets, Residue, TakeReads;
      TakeReadsParses(init);
      ParseInTwoReads(Flatten(init), last);
    }
  }

  /** However the words were split into reads, the same packets come out and the
      same words are held back; nothing is lost, and the held words leave room in
      an eight-word framer for the next four-word read. */
  lemma ChunkingIsInvisible(chunks: seq<seq<Word>>, others: seq<seq<Word>>)
    requires Flatten(chunks) == Flatten(others)
    ensures TakeReads(chunks) == TakeReads(others)
    ensures Flatten(TakeReads(chunks).packets) + TakeReads(chunks).held == Flatten(chunks)
    ensures AllWhole(TakeReads(chunks).packets)
    ensures |TakeReads(chunks).held| + 4 <= 8
  {
    TakeReadsParses(chunks);
    TakeReadsParses(others);
    PacketsPlusResidue(Flatten(chunks));
  }
}
