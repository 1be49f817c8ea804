// The framer between a word-oriented read and whole packets.
module UmpFramer {
  import opened Ump

  const CAPACITY := 8

  /** The packet at the front, or nothing while it is incomplete. */
  function Front(ws: seq<Word>): seq<Word> {
    if StartsWhole(ws) then ws[..WordCount(ws[0])] else []
  }

  /** A framer too full for another four-word read always has a packet to offer. */
  lemma FullHasPacket(ws: seq<Word>)
    requires |ws| + 4 > CAPACITY
    ensures Front(ws) != [] && |Front(ws)| <= 4
  {}

  class UmpFramer {
    const buf: array<Word>
    var n: nat

    ghost predicate Valid()
      reads this
    {
      buf.Length == CAPACITY && n <= CAPACITY
    }

    ghost function Contents(): seq<Word>
      reads this, buf
      requires Valid()
    {
      buf[..n]
    }

    constructor ()
      ensures Valid() && fresh(buf) && Contents() == []
    {
      buf := new Word[CAPACITY](_ => 0);
      n := 0;
    }

    method Pending() returns (k: nat)
      requires Valid()
      ensures k == |Contents()|
    {
      k := n;
    }

    method HasRoomFor(words: nat) returns (b: bool)
      requires Valid()
      ensures b <==> |Contents()| + words <= CAPACITY
    {
      b := n + words <= CAPACITY;
    }

    /** Takes all the words, or none when they do not fit. */
    method Push(words: seq<Word>) returns (ok: bool)
      requires Valid()
      modifies this`n, buf
      ensures Valid() && (ok <==> |old(Contents())| + |words| <= CAPACITY)
      ensures Contents() == if ok then old(Contents()) + words else old(Contents())
    {
      var room := HasRoomFor(|words|);
      if !room { return false; }
      for i := 0 to |words|
        invariant n == old(n) + i
        invariant buf[..n] == old(buf[..n]) + words[..i]
      {
        buf[n] := words[i];
        n := n + 1;
        assert buf[..n] == buf[..n - 1] + [words[i]];
      }
      return true;
    }

    method Peek() returns (pkt: seq<Word>)
      requires Valid()
      ensures pkt == Front(Contents())
    {
      if n == 0 { return []; }
      var need := WordCount(buf[0]);
      if need > n { return []; }
      return buf[..need];
    }

    /** Drops words from the front, moving the others down in place. */
    method Consume(words: nat)
      requires Valid()
      modifies this`n, buf
      ensures Valid()
      ensures Contents() == if words <= |old(Contents())| then old(Contents())[words..] else []
    {
      if words >= n { n := 0; return; }
      ghost var was := buf[..n];
      var i := 0;
      while i + words < n
        modifies buf
        invariant i + words <= n
        invariant forall j :: 0 <= j < i ==> buf[j] == was[j + words]
        invariant forall j :: i <= j < n ==> buf[j] == was[j]
      {
        buf[i] := buf[i + words];
        i := i + 1;
      }
      n := n - words;
      assert buf[..n] == was[words..];
    }

    method Reset()
      requires Valid()
      modifies this`n
      ensures Valid() && Contents() == []
    {
      n := 0;
    }
  }

  // ---- the framer at work ----

  lemma FrontIsParsed(ws: seq<Word>)
    ensures Front(ws) != [] ==> Packets(ws) == [Front(ws)] + Packets(ws[|Front(ws)|..])
                                && Residue(ws) == Residue(ws[|Front(ws)|..]) && |Front(ws)| <= |ws|
    ensures Front(ws) == [] ==> Packets(ws) == [] && Residue(ws) == ws
  {}

  /** Takes out packets until none is complete: what parsing would give. */
  method TakeAll(framer: UmpFramer) returns (packets: seq<seq<Word>>)
    requires framer.Valid()
    modifies framer`n, framer.buf
    ensures framer.Valid() && packets == Packets(old(framer.Contents()))
    ensures framer.Contents() == Residue(old(framer.Contents()))
  {
    hide Front, Packets, Residue;
    packets := [];
    var pkt := framer.Peek();
    while pkt != []
      invariant framer.Valid() && pkt == Front(framer.Contents())
      invariant packets + Packets(framer.Contents()) == Packets(old(framer.Contents()))
      invariant Residue(framer.Contents()) == Residue(old(framer.Contents()))
      decreases |framer.Contents()|
    {
      ghost var held := framer.Contents();
      FrontIsParsed(held);
      framer.Consume(|pkt|);
      Assoc(packets, [pkt], Packets(held[|pkt|..]));
      packets := packets + [pkt];
      pkt := framer.Peek();
    }
    FrontIsParsed(framer.Contents());
    assert packets + [] == packets;
  }

  /** Reads of at most four words, pushed without a look at the answer and taken out
      again, are re-framed as `TakeReads` has it: however the words were cut. */
  method Reframe(chunks: seq<seq<Word>>) returns (packets: seq<seq<Word>>, framer: UmpFramer)
    requires forall i :: 0 <= i < |chunks| ==> |chunks[i]| <= 4
    ensures framer.Valid() && Reframed(packets, framer.Contents()) == TakeReads(chunks)
  {
    packets := [];
    framer := new UmpFramer();
    assert chunks[..0] == [] && TakeReads([]) == Reframed([], []);
    hide TakeReads, Packets, Residue;
    for i := 0 to |chunks|
      invariant fresh(framer) && fresh(framer.buf) && framer.Valid()
      invariant Reframed(packets, framer.Contents()) == TakeReads(chunks[..i]) && |framer.Contents()| <= 3
    {
      TakeReadsSnoc(chunks, i);
      var pushed := framer.Push(chunks[i]);
      var more := TakeAll(framer);
      packets := packets + more;
    }
    assert chunks[..|chunks|] == chunks;
  }

  lemma TakeReadsSnoc(chunks: seq<seq<Word>>, i: nat)
    requires i < |chunks|
    ensures TakeReads(chunks[..i + 1]) == TakeRead(TakeReads(chunks[..i]), chunks[i])
  {
    assert chunks[..i + 1][..i] == chunks[..i];
  }
}
