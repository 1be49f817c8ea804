// The drop gate: abandons the rest of a SysEx message once one of its packets
// could not be written, and closes it with a zero-length End.
module DropGate {
  import opened Ump
  import opened SysEx

  datatype Slot = Slot(abandoning: bool, owesEnd: bool, isSysEx8: bool, streamId: nat)

  const CLEAR := Slot(false, false, false, 0)

  /** One slot for each Group, shared by SysEx7 and SysEx8. */
  type Gate = g: seq<Slot> | |g| == GROUPS witness seq(GROUPS, _ => CLEAR)

  function Fresh(): Gate { seq(GROUPS, _ => CLEAR) }

  /** Does the slot hold an abandoned message with key `k`? */
  predicate Abandons(s: Slot, k: Key) {
    s.abandoning && s.isSysEx8 == k.Key8? && (k.Key8? ==> s.streamId == k.stream)
  }

  predicate Suppressed(g: Gate, w: Word) {
    var r := RoleOf(w);
    r.Part? && Abandons(g[r.key.group], r.key)
  }

  function Refused(g: Gate, w: Word): Gate {
    var r := RoleOf(w);
    if r.Other? || r.status == COMPLETE then g
    else g[r.key.group := Slot(true, r.status != START, r.key.Key8?, if r.key.Key8? then r.key.stream else 0)]
  }

  function Cleared(g: Gate, i: nat): Gate
    requires i < GROUPS
  {
    g[i := g[i].(abandoning := false, owesEnd := false)]
  }

  function Sent(g: Gate, w: Word): Gate {
    var r := RoleOf(w);
    if r.Part? && (r.status == END || r.status == COMPLETE) then Cleared(g, r.key.group) else g
  }

  /** Does this packet finish the abandoned message of its Group? */
  predicate Finishes(g: Gate, w: Word) {
    var r := RoleOf(w);
    r.Part? && g[r.key.group].abandoning && (r.status == END || r.status == COMPLETE)
  }

  function Finished(g: Gate, w: Word): Gate {
    if Finishes(g, w) then Cleared(g, RoleOf(w).key.group) else g
  }

  predicate OwesEnd(g: Gate, w: Word) {
    Finishes(g, w) && g[RoleOf(w).key.group].owesEnd
  }

  /** The terminator: always two words, whatever the message type. */
  function Terminator(w: Word): Unit
    requires RoleOf(w).Part?
  {
    Unit(EndWord(RoleOf(w).key), [0], GateEnd)
  }

  /** A terminator ends the message of the packet it stands for, and it is a whole
      packet if and only if that message is a SysEx7. */
  lemma {:induction false} TerminatorIsEnd(w: Word)
    requires RoleOf(w).Part?
    ensures RoleOf(Terminator(w).head) == Part(RoleOf(w).key, END)
    ensures Terminator(w).Whole() <==> RoleOf(w).key.Key7?
  {
    EndWordRole(RoleOf(w).key);
  }

  /** Nor has it any data: the second word is zero like the bytes of the first. */
  lemma {:induction false} TerminatorIsEmpty(w: Word)
    requires RoleOf(w).Part?
    ensures PacketData(Terminator(w)) == [] && Terminator(w).Words() == [EndWord(RoleOf(w).key), 0]
  {
    hide EndWord, RoleOf, PacketData;
    EndHasNoData(Terminator(w), RoleOf(w).key);
  }

  /** A refusal abandons exactly the message of the packet refused, unless that packet
      is a message by itself; at its last packet an End is owed exactly when the packet
      refused was no Start. The other Groups are left alone. */
  lemma {:induction false} RefusedIsAbandoned(g: Gate, w: Word, v: Word)
    requires RoleOf(v).Part?
    ensures
      var r, s, g' := RoleOf(w), RoleOf(v), Refused(g, w);
      if r.Other? || r.status == COMPLETE then g' == g
      else if s.key.group != r.key.group then g'[s.key.group] == g[s.key.group]
      else
        && (Suppressed(g', v) <==> s.key == r.key)
        && (OwesEnd(g', v) <==> (s.status == END || s.status == COMPLETE) && r.status != START)
  {
    hide RoleOf;
  }

  class SysExDropGate {
    const state: array<Slot>

    ghost predicate Valid() reads this { state.Length == GROUPS }

    ghost function Contents(): Gate
      reads this, state
      requires Valid()
    {
      state[..]
    }

    constructor ()
      ensures Valid() && fresh(state) && Contents() == Fresh()
    {
      state := new Slot[GROUPS](_ => CLEAR);
      new;
      assert state[..] == Fresh();
    }

    method Reset()
      requires Valid()
      modifies state
      ensures Contents() == Fresh()
    {
      for g := 0 to GROUPS
        invariant forall i :: 0 <= i < g ==> state[i] == CLEAR
      {
        state[g] := CLEAR;
      }
      assert state[..] == Fresh();
    }

    method Suppress(w: Word) returns (b: bool)
      requires Valid()
      ensures b == Suppressed(Contents(), w)
    {
      var k := RoleOf(w);
      if k.Other? { return false; }
      var s := state[k.key.group];
      if !s.abandoning { return false; }
      if s.isSysEx8 != k.key.Key8? { return false; }
      if k.key.Key8? && s.streamId != k.key.stream { return false; }
      return true;
    }

    method NoteRefused(w: Word)
      requires Valid()
      modifies state
      ensures Contents() == Refused(old(Contents()), w)
    {
      var k := RoleOf(w);
      if k.Other? { return; }
      if k.status == COMPLETE { return; }
      state[k.key.group] :=
        Slot(true, k.status != START, k.key.Key8?, if k.key.Key8? then k.key.stream else 0);
    }

    method NoteSent(w: Word)
      requires Valid()
      modifies state
      ensures Contents() == Sent(old(Contents()), w)
    {
      var k := RoleOf(w);
      if k.Other? { return; }
      if k.status == END || k.status == COMPLETE {
        state[k.key.group] := state[k.key.group].(abandoning := false, owesEnd := false);
      }
    }

    /** Clears the abandoned state at the message's last packet; the answer is the
        words of the terminator, or nothing. */
    method TerminatorFor(w: Word) returns (term: seq<Word>)
      requires Valid()
      modifies state
      ensures Contents() == Finished(old(Contents()), w)
      ensures OwesEnd(old(Contents()), w) ==> term == Terminator(w).Words()
      ensures !OwesEnd(old(Contents()), w) ==> term == []
    {
      var k := RoleOf(w);
      if k.Other? { return []; }
      var s := state[k.key.group];
      if !s.abandoning { return []; }
      if k.status != END && k.status != COMPLETE { return []; }
      state[k.key.group] := s.(abandoning := false, owesEnd := false);
      if !s.owesEnd { return []; }
      match k.key
      case Key8(g, id) =>
        return [0x5000_0000 + g * 0x100_0000 + END * 0x10_0000 + 0x1_0000 + id * 0x100, 0];
      case Key7(g) =>
        return [0x3000_0000 + g * 0x100_0000 + END * 0x10_0000, 0];
    }
  }
}
