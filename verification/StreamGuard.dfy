// The stream guard: keeps SysEx whole across a hole in the delivered stream.
module StreamGuard {
  import opened Ump
  import opened SysEx

  const STREAM_BYTES := 32

  // ---- specification on a plain set of open keys ----

  /** The zero-length End the guard makes for `k`, a whole packet. */
  function EndUnit(k: Key): Unit
  {
    Unit(EndWord(k), if k.Key7? then [0] else [0, 0, 0], GuardEnd)
  }

  /** May a message with first word `w` be delivered? */
  predicate Admits(open: set<Key>, w: Word) {
    var r := RoleOf(w);
    r.Part? && (r.status == CONTINUE || r.status == END) ==> r.key in open
  }

  function OpenAfter(open: set<Key>, w: Word): set<Key> {
    var r := RoleOf(w);
    if r.Other? then open
    else if r.status == START then open + {r.key}
    else if r.status == COMPLETE || r.status == END then open - {r.key}
    else open
  }

  /** A Start or Complete for a message that is already open. */
  predicate Clashes(open: set<Key>, w: Word) {
    var r := RoleOf(w);
    r.Part? && (r.status == START || r.status == COMPLETE) && r.key in open
  }

  // The open keys in the order in which breakStream visits them.

  function ByteOpen(open: set<Key>, g: nat, i: nat, n: nat): (ks: seq<Key>)
    requires g < GROUPS && i < STREAM_BYTES && n <= 8
    decreases |open|, n
  {
    if n == 0 then []
    else ByteOpen(open, g, i, n - 1) + if Key8(g, i * 8 + n - 1) in open then [Key8(g, i * 8 + n - 1)] else []
  }

  function GroupOpen(open: set<Key>, g: nat, n: nat): (ks: seq<Key>)
    requires g < GROUPS && n <= STREAM_BYTES
    decreases |open|, n
  {
    if n == 0 then if Key7(g) in open then [Key7(g)] else []
    else GroupOpen(open, g, n - 1) + ByteOpen(open, g, n - 1, 8)
  }

  lemma GroupOpenStart(open: set<Key>, g: nat)
    requires g < GROUPS
    ensures GroupOpen(open, g, 0) == if Key7(g) in open then [Key7(g)] else []
  {}

  lemma GroupOpenNext(open: set<Key>, g: nat, i: nat)
    requires g < GROUPS && i < STREAM_BYTES
    ensures GroupOpen(open, g, i + 1) == GroupOpen(open, g, i) + ByteOpen(open, g, i, 8)
  {}

  function GroupsOpen(open: set<Key>, n: nat): (ks: seq<Key>)
    requires n <= GROUPS
    decreases |open|, n
  {
    if n == 0 then [] else GroupsOpen(open, n - 1) + GroupOpen(open, n - 1, STREAM_BYTES)
  }

  function EndsFor(ks: seq<Key>): (us: seq<Unit>)
    ensures |us| == |ks|
    ensures forall i :: 0 <= i < |ks| ==> us[i] == EndUnit(ks[i])
  {
    if ks == [] then [] else EndsFor(ks[..|ks|-1]) + [EndUnit(ks[|ks|-1])]
  }

  function BreakEnds(open: set<Key>): seq<Unit> { EndsFor(GroupsOpen(open, GROUPS)) }

  /** A 32-bit counter after `n` more. */
  function Bump(c: Word, n: nat): Word { (c + n) % WORD_RANGE }

  lemma BumpTwice(c: Word, m: nat, n: nat)
    ensures Bump(Bump(c, m), n) == Bump(c, m + n)
  {}

  predicate Distinct(ks: seq<Key>) {
    forall i, j :: 0 <= i < j < |ks| ==> ks[i] != ks[j]
  }

  lemma DistinctAppend(a: seq<Key>, b: seq<Key>)
    requires Distinct(a) && Distinct(b) && forall k :: k in a ==> k !in b
    ensures Distinct(a + b)
    ensures forall k :: k in a + b <==> k in a || k in b
  {
    forall i, j | 0 <= i < j < |a + b| ensures (a + b)[i] != (a + b)[j] {
      if i < |a| && |a| <= j { assert a[i] in a && b[j - |a|] in b; }
    }
  }

  lemma {:induction false} ByteOpenExact(open: set<Key>, g: nat, i: nat, n: nat)
    requires g < GROUPS && i < STREAM_BYTES && n <= 8
    ensures forall k :: k in ByteOpen(open, g, i, n) <==>
      k in open && k.Key8? && k.group == g && i * 8 <= k.stream < i * 8 + n
    ensures Distinct(ByteOpen(open, g, i, n))
  {
    if n != 0 { ByteOpenExact(open, g, i, n - 1); }
  }

  lemma {:induction false} GroupOpenExact(open: set<Key>, g: nat, n: nat)
    requires g < GROUPS && n <= STREAM_BYTES
    ensures forall k :: k in GroupOpen(open, g, n) <==>
      k in open && k.group == g && (k.Key8? ==> k.stream < n * 8)
    ensures Distinct(GroupOpen(open, g, n))
  {
    if n != 0 {
      GroupOpenExact(open, g, n - 1);
      ByteOpenExact(open, g, n - 1, 8);
      DistinctAppend(GroupOpen(open, g, n - 1), ByteOpen(open, g, n - 1, 8));
    }
  }

  lemma {:induction false} GroupsOpenExact(open: set<Key>, n: nat)
    requires n <= GROUPS
    ensures forall k :: k in GroupsOpen(open, n) <==> k in open && k.group < n
    ensures Distinct(GroupsOpen(open, n))
  {
    if n != 0 {
      GroupsOpenExact(open, n - 1);
      GroupOpenExact(open, n - 1, STREAM_BYTES);
      DistinctAppend(GroupsOpen(open, n - 1), GroupOpen(open, n - 1, STREAM_BYTES));
    }
  }

  /** The order in which keys are visited: by Group, SysEx7 before SysEx8, by Stream ID. */
  function Rank(k: Key): nat { k.group * 257 + if k.Key7? then 0 else 1 + k.stream }

  predicate Ascending(ks: seq<Key>) {
    forall i, j :: 0 <= i < j < |ks| ==> Rank(ks[i]) < Rank(ks[j])
  }

  lemma AscendingAppend(a: seq<Key>, b: seq<Key>)
    requires Ascending(a) && Ascending(b) && forall k, q :: k in a && q in b ==> Rank(k) < Rank(q)
    ensures Ascending(a + b)
  {
    hide Rank;
    forall i, j | 0 <= i < j < |a + b| ensures Rank((a + b)[i]) < Rank((a + b)[j]) {
      if i < |a| && |a| <= j { assert a[i] in a && b[j - |a|] in b; }
    }
  }

  lemma {:induction false} ByteOpenAscends(open: set<Key>, g: nat, i: nat, n: nat)
    requires g < GROUPS && i < STREAM_BYTES && n <= 8
    ensures Ascending(ByteOpen(open, g, i, n))
  {
    if n != 0 {
      ByteOpenAscends(open, g, i, n - 1);
      ByteOpenExact(open, g, i, n - 1);
    }
  }

  lemma {:induction false} GroupOpenAscends(open: set<Key>, g: nat, n: nat)
    requires g < GROUPS && n <= STREAM_BYTES
    ensures Ascending(GroupOpen(open, g, n))
  {
    if n != 0 {
      GroupOpenAscends(open, g, n - 1);
      ByteOpenAscends(open, g, n - 1, 8);
      GroupOpenExact(open, g, n - 1);
      ByteOpenExact(open, g, n - 1, 8);
      AscendingAppend(GroupOpen(open, g, n - 1), ByteOpen(open, g, n - 1, 8));
    }
  }

  lemma {:induction false} GroupsOpenAscends(open: set<Key>, n: nat)
    requires n <= GROUPS
    ensures Ascending(GroupsOpen(open, n))
  {
    if n != 0 {
      GroupsOpenAscends(open, n - 1);
      GroupOpenAscends(open, n - 1, STREAM_BYTES);
      GroupsOpenExact(open, n - 1);
      GroupOpenExact(open, n - 1, STREAM_BYTES);
      AscendingAppend(GroupsOpen(open, n - 1), GroupOpen(open, n - 1, STREAM_BYTES));
    }
  }

  lemma {:induction false} DistinctCount(ks: seq<Key>, s: set<Key>)
    requires Distinct(ks) && forall k :: k in ks <==> k in s
    ensures |ks| == |s|
  {
    if ks == [] {
      assert s == {};
    } else {
      var k := ks[|ks|-1];
      var init := ks[..|ks|-1];
      assert forall q :: q in ks <==> q in init || q == k;
      DistinctCount(init, s - {k});
    }
  }

  lemma EndUnitRole(k: Key)
    ensures EndUnit(k).Whole() && RoleOf(EndUnit(k).head) == Part(k, END)
  {
    EndWordRole(k);
  }

  /** The End has no data, and every word behind the first is zero. */
  lemma {:induction false} EndUnitIsEmpty(k: Key)
    ensures PacketData(EndUnit(k)) == []
    ensures EndUnit(k).Words()[0] == EndWord(k)
    ensures forall i :: 0 < i < |EndUnit(k).Words()| ==> EndUnit(k).Words()[i] == 0
  {
    EndHasNoData(EndUnit(k), k);
  }

  lemma EndsForRoles(ks: seq<Key>)
    ensures forall i :: 0 <= i < |ks| ==> EndsFor(ks)[i].Whole() && RoleOf(EndsFor(ks)[i].head) == Part(ks[i], END)
  {
    forall i | 0 <= i < |ks| ensures EndsFor(ks)[i].Whole() && RoleOf(EndsFor(ks)[i].head) == Part(ks[i], END) {
      EndUnitRole(ks[i]);
    }
  }

  /** breakStream emits one End for each open key, correctly addressed and whole,
      in ascending order, and none for any other key. */
  lemma BreakEndsExact(open: set<Key>)
    ensures |BreakEnds(open)| == |open|
    ensures forall k :: k in open ==> EndUnit(k) in BreakEnds(open)
    ensures forall u :: u in BreakEnds(open) ==>
      u.Whole() && RoleOf(u.head).Part? && RoleOf(u.head).key in open && RoleOf(u.head).status == END
    ensures forall i, j :: 0 <= i < j < |open| ==>
      && RoleOf(BreakEnds(open)[i].head).Part? && RoleOf(BreakEnds(open)[j].head).Part?
      && Rank(RoleOf(BreakEnds(open)[i].head).key) < Rank(RoleOf(BreakEnds(open)[j].head).key)
  {
    var ks := GroupsOpen(open, GROUPS);
    hide GroupsOpen, RoleOf, WordCount, EndWord, Rank;
    GroupsOpenExact(open, GROUPS);
    GroupsOpenAscends(open, GROUPS);
    DistinctCount(ks, open);
    EndsForRoles(ks);
    hide EndsFor;
    forall k | k in open ensures EndUnit(k) in BreakEnds(open) {
      assert k in ks;
      var i :| 0 <= i < |ks| && ks[i] == k;
      assert EndsFor(ks)[i] == EndUnit(k);
    }
    assert forall i :: 0 <= i < |ks| ==> ks[i] in ks;
  }

  // ---- bits of a byte ----

  predicate BitOn(x: bv8, b: nat)
    requires b < 8
  {
    x & (1 << b) != 0
  }

  lemma BitSet(x: bv8, b: nat, c: nat)
    requires b < 8 && c < 8
    ensures BitOn(x | (1 << b), c) <==> b == c || BitOn(x, c)
  {}

  lemma BitClear(x: bv8, b: nat, c: nat)
    requires b < 8 && c < 8
    ensures BitOn(x & !(1 << b), c) <==> b != c && BitOn(x, c)
  {}

  lemma NoBits(x: bv8)
    ensures x == 0 <==> forall b :: 0 <= b < 8 ==> !BitOn(x, b)
  {
    if x != 0 {
      assert BitOn(x, 0) || BitOn(x, 1) || BitOn(x, 2) || BitOn(x, 3)
          || BitOn(x, 4) || BitOn(x, 5) || BitOn(x, 6) || BitOn(x, 7);
    }
  }

  // ---- the guard itself ----

  /** The Ends as the callback gets them; none when there is no callback. */
  function Emitted(us: seq<Unit>, emit: bool): seq<seq<Word>> {
    if emit then WordsOf(us) else []
  }

  lemma EndsForAppend(ks: seq<Key>, ls: seq<Key>)
    ensures EndsFor(ks + ls) == EndsFor(ks) + EndsFor(ls)
  {
    forall i | 0 <= i < |ks + ls| ensures EndsFor(ks + ls)[i] == (EndsFor(ks) + EndsFor(ls))[i] {
    }
  }

  lemma EmittedAppend(ks: seq<Key>, ls: seq<Key>, emit: bool)
    ensures Emitted(EndsFor(ks + ls), emit) == Emitted(EndsFor(ks), emit) + Emitted(EndsFor(ls), emit)
  {
    EndsForAppend(ks, ls);
    WordsOfAppend(EndsFor(ks), EndsFor(ls));
  }

  /** The bitmap of one Group: a bit for each Stream ID. */
  type Row = r: seq<bv8> | |r| == STREAM_BYTES witness seq(STREAM_BYTES, _ => 0)

  const NO_STREAMS: Row := seq(STREAM_BYTES, _ => 0)

  ghost predicate RowHolds(r: Row, open: set<Key>, g: nat)
    requires g < GROUPS
  {
    forall id :: 0 <= id < 256 ==> (BitOn(r[id / 8], id % 8) <==> Key8(g, id) in open)
  }

  lemma EmptyRowHolds(open: set<Key>, g: nat)
    requires g < GROUPS && forall k :: k in open ==> k.group != g
    ensures RowHolds(NO_STREAMS, open, g)
  {
    NoBits(0);
  }

  method TestBit(x: bv8, b: nat) returns (on: bool)
    requires b < 8
    ensures on <==> BitOn(x, b)
  {
    on := x & (1 << b) != 0;
  }

  method WithBit(x: bv8, b: nat, on: bool) returns (y: bv8)
    requires b < 8
    ensures forall c :: 0 <= c < 8 ==> (BitOn(y, c) <==> if c == b then on else BitOn(x, c))
  {
    y := if on then x | (1 << b) else x & !(1 << b);
    forall c | 0 <= c < 8 ensures BitOn(y, c) <==> if c == b then on else BitOn(x, c) {
      BitSet(x, b, c);
      BitClear(x, b, c);
    }
  }

  method WithStream(r: Row, g: nat, id: nat, on: bool, ghost open: set<Key>) returns (r': Row)
    requires g < GROUPS && id < 256 && RowHolds(r, open, g)
    ensures RowHolds(r', if on then open + {Key8(g, id)} else open - {Key8(g, id)}, g)
  {
    hide BitOn;
    var y := WithBit(r[id / 8], id % 8, on);
    r' := r[id / 8 := y];
    forall j | 0 <= j < 256
      ensures BitOn(r'[j / 8], j % 8) <==> if j == id then on else Key8(g, j) in open
    {
      if j / 8 == id / 8 {
        assert j == id <==> j % 8 == id % 8;
      }
    }
  }

  class SysExStreamGuard {
    const open7: array<bool>
    const open8: array<Row>
    var cutOff: Word
    var orphans: Word
    ghost var open: set<Key>

    /** The flags and the bitmap hold exactly the set `open`. */
    ghost predicate Valid()
      reads this, open7, open8
    {
      && open7.Length == GROUPS && open8.Length == GROUPS
      && (forall g :: 0 <= g < GROUPS ==> (open7[g] <==> Key7(g) in open))
      && (forall g :: 0 <= g < GROUPS ==> RowHolds(open8[g], open, g))
    }

    constructor ()
      ensures Valid() && fresh(open7) && fresh(open8)
      ensures open == {} && cutOff == 0 && orphans == 0
    {
      open7 := new bool[GROUPS](_ => false);
      open8 := new Row[GROUPS](_ => NO_STREAMS);
      cutOff, orphans, open := 0, 0, {};
      new;
      NoBits(0);
    }

    method Reset()
      requires Valid()
      modifies this`open, open7, open8
      ensures Valid() && open == {}
    {
      for g := 0 to GROUPS
        invariant forall h :: 0 <= h < g ==> !open7[h] && open8[h] == NO_STREAMS
      {
        open7[g] := false;
        for i := 0 to STREAM_BYTES
          modifies open8
          invariant forall h :: 0 <= h < g ==> open8[h] == NO_STREAMS
          invariant forall j :: 0 <= j < i ==> open8[g][j] == 0
        {
          open8[g] := open8[g][i := 0];
        }
        assert open8[g] == NO_STREAMS;
      }
      open := {};
      NoBits(0);
    }

    method IsOpen(k: Key) returns (b: bool)
      requires Valid()
      ensures b <==> k in open
    {
      match k {
        case Key7(g) => b := open7[g];
        case Key8(g, id) =>
          b := TestBit(open8[g][id / 8], id % 8);
      }
    }

    method SetOpen(k: Key, on: bool)
      requires Valid()
      modifies this`open, open7, open8
      ensures Valid()
      ensures open == if on then old(open) + {k} else old(open) - {k}
    {
      hide BitOn;
      match k {
        case Key7(g) =>
          open7[g] := on;
        case Key8(g, id) =>
          var r := WithStream(open8[g], g, id, on, open);
          open8[g] := r;
      }
      open := if on then open + {k} else open - {k};
    }

    /** False if the message must not be delivered; `ends` are the packets handed
        to the callback first. */
    method Admit(w: Word, emit: bool) returns (ok: bool, ends: seq<seq<Word>>)
      requires Valid()
      modifies this, open7, open8
      ensures Valid()
      ensures ok <==> Admits(old(open), w)
      ensures open == if ok then OpenAfter(old(open), w) else old(open)
      ensures cutOff == Bump(old(cutOff), if Clashes(old(open), w) then 1 else 0)
      ensures orphans == Bump(old(orphans), if ok then 0 else 1)
      ensures ends == if Clashes(old(open), w) then Emitted(EndsFor([RoleOf(w).key]), emit) else []
      ensures !emit ==> ends == []
    {
      hide Emitted, EndsFor, EndUnit, RowHolds;
      ends := [];
      var r := RoleOf(w);
      if r.Other? { return true, []; }
      var isOpen := IsOpen(r.key);
      if r.status == COMPLETE || r.status == START {
        if isOpen {
          ends := EndOpen(r.key, emit);
          cutOff := Bump(cutOff, 1);
        }
        SetOpen(r.key, r.status == START);
        return true, ends;
      } else if r.status == CONTINUE {
        if !isOpen { orphans := Bump(orphans, 1); return false, ends; }
        return true, ends;
      } else if r.status == END {
        if !isOpen { orphans := Bump(orphans, 1); return false, ends; }
        SetOpen(r.key, false);
        return true, ends;
      } else {
        return true, ends;
      }
    }

    method EndOpen(k: Key, emit: bool) returns (ends: seq<seq<Word>>)
      ensures ends == Emitted(EndsFor([k]), emit)
      ensures ends == if emit then [EndUnit(k).Words()] else []
    {
      if !emit { return []; }
      match k {
        case Key8(g, id) =>
          ends := [[0x5000_0000 + g * 0x100_0000 + END * 0x10_0000 + 0x1_0000 + id * 0x100, 0, 0, 0]];
        case Key7(g) =>
          ends := [[0x3000_0000 + g * 0x100_0000 + END * 0x10_0000, 0]];
      }
      assert EndsFor([k]) == [EndUnit(k)];
      assert ends[0] == EndUnit(k).Words();
    }

    /** Ends every open message; the callback gets the Ends in order. */
    method BreakStream(emit: bool) returns (ends: seq<seq<Word>>)
      requires Valid()
      modifies this`open, this`cutOff, open7, open8
      ensures Valid() && open == {}
      ensures ends == Emitted(BreakEnds(old(open)), emit)
      ensures !emit ==> ends == []
      ensures cutOff == Bump(old(cutOff), |old(open)|)
    {
      hide Announced, BitOn, RowHolds;
      ends := [];
      ghost var ks: seq<Key> := [];
      AnnounceNone(emit, cutOff);
      for g := 0 to GROUPS
        invariant ks == GroupsOpen(open, g)
        invariant Announced(ks, ends, emit, old(cutOff), cutOff)
        invariant open == old(open) && Holds(g)
      {
        label L:
        ghost var ls := GroupOpen(open, g, STREAM_BYTES);
        var e := BreakGroup(g, emit);
        AnnounceMore(ks, ends, old(cutOff), ls, e, old@L(cutOff), emit, cutOff);
        ends, ks := ends + e, ks + ls;
      }
      GroupsOpenExact(open, GROUPS);
      DistinctCount(ks, open);
      AnnouncedMeans(ks, ends, emit, old(cutOff), cutOff);
      open := {};
      forall g | 0 <= g < GROUPS ensures RowHolds(open8[g], open, g) { EmptyRowHolds(open, g); }
    }

    /** Groups below `n` are closed; the others hold `open`. */
    ghost predicate Holds(n: nat)
      reads this, open7, open8
    {
      && open7.Length == GROUPS && open8.Length == GROUPS
      && (forall g :: 0 <= g < GROUPS ==> (open7[g] <==> n <= g && Key7(g) in open))
      && (forall g :: 0 <= g < n && g < GROUPS ==> open8[g] == NO_STREAMS)
      && (forall g :: n <= g < GROUPS ==> RowHolds(open8[g], open, g))
    }

    method BreakGroup(g: nat, emit: bool) returns (ends: seq<seq<Word>>)
      requires g < GROUPS && Holds(g)
      modifies this`cutOff, open7, open8
      ensures Holds(g + 1)
      ensures Announced(GroupOpen(open, g, STREAM_BYTES), ends, emit, old(cutOff), cutOff)
    {
      hide Announced, BitOn, RowHolds, GroupOpen, ByteOpen, ByteHolds;
      ends := [];
      AnnounceNone(emit, cutOff);
      GroupOpenStart(open, g);
      if open7[g] {
        ends := EndOpen(Key7(g), emit);
        AnnounceOne(Key7(g), ends, emit, cutOff);
        open7[g] := false;
        cutOff := Bump(cutOff, 1);
      }
      ghost var ks := GroupOpen(open, g, 0);
      for i := 0 to STREAM_BYTES
        modifies this`cutOff, open8
        invariant ks == GroupOpen(open, g, i)
        invariant Announced(ks, ends, emit, old(cutOff), cutOff)
        invariant forall j :: 0 <= j < i ==> open8[g][j] == 0
        invariant forall j :: i <= j < STREAM_BYTES ==> open8[g][j] == old(open8[g])[j]
        invariant forall h :: 0 <= h < GROUPS && h != g ==> open8[h] == old(open8[h])
      {
        ghost var ls, c := ByteOpen(open, g, i, 8), cutOff;
        ByteOfRow(old(open8[g]), open, g, i);
        GroupOpenNext(open, g, i);
        var e := BreakByte(g, i, emit);
        AnnounceMore(ks, ends, old(cutOff), ls, e, c, emit, cutOff);
        open8[g] := open8[g][i := 0];
        ends, ks := ends + e, ks + ls;
      }
      assert open8[g] == NO_STREAMS;
    }

    method BreakByte(g: nat, i: nat, emit: bool) returns (ends: seq<seq<Word>>)
      requires g < GROUPS && i < STREAM_BYTES && open8.Length == GROUPS
      requires ByteHolds(open8[g][i], open, g, i)
      modifies this`cutOff
      ensures Announced(ByteOpen(open, g, i, 8), ends, emit, old(cutOff), cutOff)
    {
      hide Announced, BitOn;
      ends := [];
      AnnounceNone(emit, cutOff);
      if open8[g][i] == 0 {
        ZeroByte(open, g, i, 8);
        return;
      }
      ghost var ks: seq<Key> := [];
      for b := 0 to 8
        invariant ks == ByteOpen(open, g, i, b)
        invariant Announced(ks, ends, emit, old(cutOff), cutOff)
      {
        var on := TestBit(open8[g][i], b);
        if !on { continue; }
        var k := Key8(g, i * 8 + b);
        var e := EndOpen(k, emit);
        AnnounceOne(k, e, emit, cutOff);
        AnnounceMore(ks, ends, old(cutOff), [k], e, cutOff, emit, Bump(cutOff, 1));
        ends, ks := ends + e, ks + [k];
        cutOff := Bump(cutOff, 1);
      }
    }
  }

  /** The bits of one byte are eight consecutive Stream IDs. */
  ghost predicate ByteHolds(x: bv8, open: set<Key>, g: nat, i: nat)
    requires g < GROUPS && i < STREAM_BYTES
  {
    forall b :: 0 <= b < 8 ==> (BitOn(x, b) <==> Key8(g, i * 8 + b) in open)
  }

  lemma ByteOfRow(r: Row, open: set<Key>, g: nat, i: nat)
    requires g < GROUPS && i < STREAM_BYTES && RowHolds(r, open, g)
    ensures ByteHolds(r[i], open, g, i)
  {
    forall b | 0 <= b < 8 ensures BitOn(r[i], b) <==> Key8(g, i * 8 + b) in open {
      var id := i * 8 + b;
      assert id / 8 == i && id % 8 == b;
    }
  }

  lemma {:induction false} ZeroByte(open: set<Key>, g: nat, i: nat, n: nat)
    requires g < GROUPS && i < STREAM_BYTES && n <= 8 && ByteHolds(0, open, g, i)
    ensures ByteOpen(open, g, i, n) == []
  {
    if n != 0 {
      ZeroByte(open, g, i, n - 1);
      assert !BitOn(0, n - 1);
    }
  }

  /** `ends` are the packets for `ks`, and the counter went from `c0` to `c1`. */
  ghost predicate Announced(ks: seq<Key>, ends: seq<seq<Word>>, emit: bool, c0: Word, c1: Word) {
    ends == Emitted(EndsFor(ks), emit) && c1 == Bump(c0, |ks|)
  }

  lemma AnnouncedMeans(ks: seq<Key>, ends: seq<seq<Word>>, emit: bool, c0: Word, c1: Word)
    requires Announced(ks, ends, emit, c0, c1)
    ensures ends == Emitted(EndsFor(ks), emit) && c1 == Bump(c0, |ks|)
  {}

  lemma AnnounceNone(emit: bool, c: Word)
    ensures Announced([], [], emit, c, c)
  {}

  lemma AnnounceOne(k: Key, ends: seq<seq<Word>>, emit: bool, c: Word)
    requires ends == Emitted(EndsFor([k]), emit)
    ensures Announced([k], ends, emit, c, Bump(c, 1))
  {}

  lemma AnnounceMore(ks: seq<Key>, ends: seq<seq<Word>>, c0: Word,
                     ls: seq<Key>, more: seq<seq<Word>>, c1: Word, emit: bool, c2: Word)
    requires Announced(ks, ends, emit, c0, c1) && Announced(ls, more, emit, c1, c2)
    ensures Announced(ks + ls, ends + more, emit, c0, c2)
  {
    assert Emitted(EndsFor(ks + ls), emit) == ends + more by { EmittedAppend(ks, ls, emit); }
    assert c2 == Bump(c0, |ks + ls|) by { BumpTwice(c0, |ks|, |ls|); }
  }
}
