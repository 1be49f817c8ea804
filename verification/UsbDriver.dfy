// The transmit side of the USB driver: a FIFO that another task drains at any time,
// before a question about its room and before a write alike.
module UsbDriver {
  import opened Ump

  class UsbTx {
    // A transfer length is a 16-bit number in the driver's interface.
    const capacity: nat
    var room: nat
    ghost var written: seq<Word>   // all words taken so far
    ghost var torn: nat            // writes that were not taken whole
    ghost var asked: nat           // questions about the room
    ghost var writes: nat          // calls of Write

    ghost predicate Valid()
      reads this
    {
      room <= capacity <= 0xFFFF
    }

    constructor (capacity: nat)
      requires capacity <= 0xFFFF
      ensures Valid() && this.capacity == capacity && room == capacity && written == [] && torn == asked == writes == 0
    {
      this.capacity, room, written, torn, asked, writes := capacity, capacity, [], 0, 0, 0;
    }

    /** Free words. Transfers may have completed since the last call. */
    method Writeable() returns (n: nat, ghost freed: nat)
      requires Valid()
      modifies this`room, this`asked
      ensures Valid() && room == old(room) + freed && n == room && asked == old(asked) + 1
    {
      var more :| 0 <= more <= capacity - room;
      room, freed, asked := room + more, more, asked + 1;
      n := room;
    }

    /** Takes what fits by then and says how much that was. */
    method Write(ws: seq<Word>) returns (wrote: nat, ghost freed: nat)
      requires Valid() && |ws| <= 0xFFFF
      modifies this`room, this`written, this`torn, this`writes
      ensures Valid()
      ensures wrote == if |ws| <= old(room) + freed then |ws| else old(room) + freed
      ensures room == old(room) + freed - wrote && written == old(written) + ws[..wrote]
      ensures torn == old(torn) + (if wrote < |ws| then 1 else 0) && writes == old(writes) + 1
    {
      var more :| 0 <= more <= capacity - room;
      freed := more;
      var free := room + more;
      wrote := if |ws| <= free then |ws| else free;
      room, written, writes := free - wrote, written + ws[..wrote], writes + 1;
      if wrote < |ws| { torn := torn + 1; }
    }
  }
}
