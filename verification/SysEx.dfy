// System Exclusive messages as the receiver of a UMP stream sees them.
//
// A SysEx message is a run of packets that share a key: SysEx7 (type 0x3) is
// keyed by Group, SysEx8 (type 0x5) by Group and Stream ID. Messages with
// different keys may be interleaved. The receiver of this module is the
// reference against which the guard, the gate and the bridges are judged; it is
// no part of the program itself.
module SysEx {
  import opened Ump
  import opened Subsequences

  const GROUPS := 16

  const COMPLETE := 0
  const START := 1
  const CONTINUE := 2
  const END := 3

  datatype AnyKey = Key7(group: nat) | Key8(group: nat, stream: nat)

  type Key = k: AnyKey | k.group < GROUPS && (k.Key8? ==> k.stream < 256) witness Key7(0)

  datatype Role = Other | Part(key: Key, status: nat)

  function RoleOf(w: Word): Role {
    if MessageType(w) == 3 then Part(Key7(Group(w)), Status(w))
    else if MessageType(w) == 5 then Part(Key8(Group(w), StreamId(w)), Status(w))
    else Other
  }

  /** First word of a zero-length End for `k`. */
  function EndWord(k: Key): Word {
    match k
    case Key7(g) => 0x3000_0000 + g * 0x100_0000 + END * 0x10_0000
    case Key8(g, id) => 0x5000_0000 + g * 0x100_0000 + END * 0x10_0000 + 0x1_0000 + id * 0x100
  }

  lemma EndWord7Fields(g: nat)
    requires g < 16
    ensures MessageType(EndWord(Key7(g))) == 3 && Group(EndWord(Key7(g))) == g && Status(EndWord(Key7(g))) == END
  {
    assert EndWord(Key7(g)) / 0x10_0000 == 0x300 + g * 16 + END;
  }

  lemma EndWord8Fields(g: nat, id: nat)
    requires g < 16 && id < 256
    ensures MessageType(EndWord(Key8(g, id))) == 5 && Group(EndWord(Key8(g, id))) == g
    ensures Status(EndWord(Key8(g, id))) == END && StreamId(EndWord(Key8(g, id))) == id
  {
    var w := EndWord(Key8(g, id));
    assert w / 0x100 == 0x50_0000 + g * 0x1_0000 + END * 0x1000 + 0x100 + id;
    assert w / 0x10_0000 == 0x500 + g * 16 + END;
  }

  lemma EndWordRole(k: Key)
    ensures RoleOf(EndWord(k)) == Part(k, END)
    ensures WordCount(EndWord(k)) == if k.Key7? then 2 else 4
  {
    match k {
      case Key7(g) => EndWord7Fields(g);
      case Key8(g, id) => EndWord8Fields(g, id);
    }
    hide EndWord, MessageType, Group, Status, StreamId;
  }

  lemma EndWord7Empty(g: nat)
    requires g < 16
    ensures ByteCount(EndWord(Key7(g))) == 0 && EndWord(Key7(g)) % 0x1_0000 == 0
  {
    assert EndWord(Key7(g)) / 0x1_0000 == 0x3000 + g * 256 + END * 16;
  }

  lemma EndWord8Empty(g: nat, id: nat)
    requires g < 16 && id < 256
    ensures ByteCount(EndWord(Key8(g, id))) == 1 && EndWord(Key8(g, id)) % 0x1_0000 == id * 0x100
  {
    assert EndWord(Key8(g, id)) / 0x1_0000 == 0x5000 + g * 256 + END * 16 + 1;
  }

  /** It says that there is no data: the byte count is that of the Stream ID alone, and
      every byte behind it is zero. */
  lemma {:induction false} EndWordIsEmpty(k: Key)
    ensures ByteCount(EndWord(k)) == if k.Key7? then 0 else 1
    ensures EndWord(k) % 0x1_0000 == if k.Key7? then 0 else k.stream * 0x100
  {
    match k {
      case Key7(g) => EndWord7Empty(g);
      case Key8(g, id) => EndWord8Empty(g, id);
    }
    hide EndWord, ByteCount;
  }

  /** Where a packet comes from: the sender's stream, a zero-length End made by
      the stream guard, or one made by the drop gate. */
  datatype Tag = Own(index: nat) | GuardEnd | GateEnd

  /** A packet with its provenance. Only `Words` exists in the program. */
  datatype Unit = Unit(head: Word, rest: seq<Word>, tag: Tag) {
    function Words(): (ws: seq<Word>)
      ensures |ws| == 1 + |rest|
    {
      [head] + rest
    }

    predicate Whole() { Ump.Whole(Words()) }
  }

  type Message = seq<Unit>

  function WordsOf(us: seq<Unit>): (ps: seq<seq<Word>>)
    ensures |ps| == |us|
    ensures forall i :: 0 <= i < |us| ==> ps[i] == us[i].Words()
  {
    if us == [] then [] else WordsOf(us[..|us|-1]) + [us[|us|-1].Words()]
  }

  lemma WordsOfAppend(us: seq<Unit>, vs: seq<Unit>)
    ensures WordsOf(us + vs) == WordsOf(us) + WordsOf(vs)
  {
    forall i | 0 <= i < |us + vs| ensures WordsOf(us + vs)[i] == (WordsOf(us) + WordsOf(vs))[i] {
    }
  }

  /** The words of a run of packets, as they appear on the wire. */
  function Wire(us: seq<Unit>): seq<Word> {
    if us == [] then [] else Wire(us[..|us|-1]) + us[|us|-1].Words()
  }

  lemma WireSnoc(us: seq<Unit>, u: Unit)
    ensures Wire(us + [u]) == Wire(us) + u.Words()
  {
    assert (us + [u])[..|us|] == us;
  }

  lemma {:induction false} WireAppend(us: seq<Unit>, vs: seq<Unit>)
    ensures Wire(us + vs) == Wire(us) + Wire(vs)
  {
    if vs == [] {
      assert us + vs == us;
    } else {
      hide *;
      var init, last := vs[..|vs|-1], vs[|vs|-1];
      WireAppend(us, init);
      assert vs == init + [last] && us + vs == (us + init) + [last];
      WireSnoc(init, last);
      WireSnoc(us + init, last);
      Assoc(Wire(us), Wire(init), last.Words());
    }
  }

  lemma {:induction false} WireIsFlatten(us: seq<Unit>)
    ensures Wire(us) == Flatten(WordsOf(us))
  {
    if us != [] {
      var init, last := us[..|us|-1], us[|us|-1];
      WireIsFlatten(init);
      FlattenAppend(WordsOf(init), [last.Words()]);
      FlattenOne(last.Words());
    }
  }

  // ---- the receiver ----

  /** A receiver of one key: messages closed so far, messages broken off by the
      Start or Complete of the next one, the message being assembled (empty when
      none is), and Continue or End packets that belonged to nothing. */
  datatype Receiver = Receiver(done: seq<Message>, cut: seq<Message>, open: Message, strays: nat) {
    predicate Sound() { cut == [] && strays == 0 }
  }

  const IDLE := Receiver([], [], [], 0)

  function Interrupt(r: Receiver): Receiver {
    if r.open == [] then r else r.(cut := r.cut + [r.open], open := [])
  }

  function Accept(r: Receiver, status: nat, u: Unit): Receiver {
    if status == COMPLETE then
      var q := Interrupt(r);
      q.(done := q.done + [[u]])
    else if status == START then
      Interrupt(r).(open := [u])
    else if status == CONTINUE then
      if r.open == [] then r.(strays := r.strays + 1) else r.(open := r.open + [u])
    else if status == END then
      if r.open == [] then r.(strays := r.strays + 1)
      else r.(done := r.done + [r.open + [u]], open := [])
    else r
  }

  function Receive(r: Receiver, k: Key, u: Unit): Receiver {
    var role := RoleOf(u.head);
    if role.Part? && role.key == k then Accept(r, role.status, u) else r
  }

  function Receives(us: seq<Unit>, k: Key): Receiver {
    if us == [] then IDLE else Receive(Receives(us[..|us|-1], k), k, us[|us|-1])
  }

  lemma ReceivesSnoc(us: seq<Unit>, u: Unit, k: Key)
    ensures Receives(us + [u], k) == Receive(Receives(us, k), k, u)
  {
    assert (us + [u])[..|us|] == us;
  }

  /** A stream that a correct sender produces, as far as key `k` goes. */
  predicate WellFormed(us: seq<Unit>, k: Key) {
    Receives(us, k).Sound()
  }

  /** `p` is the beginning of a message of `r`: of a closed one but not all of
      it, or of the one still open. */
  predicate Begun(p: Message, r: Receiver) {
    p <= r.open || exists m :: m in r.done && p < m
  }

  lemma {:induction false} PrefixSound(us: seq<Unit>, n: nat, k: Key)
    requires n <= |us| && Receives(us, k).Sound()
    ensures Receives(us[..n], k).Sound()
  {
    if n == |us| {
      assert us[..n] == us;
    } else {
      PrefixSound(us[..|us|-1], n, k);
      assert us[..|us|-1][..n] == us[..n];
    }
  }

  /** What has begun stays begun while the sender goes on correctly. */
  lemma BegunGrows(p: Message, r: Receiver, k: Key, u: Unit)
    requires Begun(p, r) && Receive(r, k, u).Sound()
    ensures Begun(p, Receive(r, k, u))
    ensures forall m :: m in r.done ==> m in Receive(r, k, u).done
  {
    var s := Receive(r, k, u);
    if p <= r.open {
      if p == [] {
        assert p <= s.open;
      } else if s.open == [] {
        assert s.done == r.done + [r.open + [u]];
        assert r.open + [u] in s.done && p < r.open + [u];
      }
    } else {
      var m :| m in r.done && p < m;
      assert m in s.done;
    }
  }

  /** Messages that have arrived in order are still in order when one more is closed. */
  lemma DoneStays(ms: seq<Message>, r: Receiver, k: Key, u: Unit)
    requires Subseq(ms, r.done) && Receive(r, k, u).Sound()
    ensures Subseq(ms, Receive(r, k, u).done)
  {
    var done := Receive(r, k, u).done;
    if done != r.done {
      assert done == r.done + [done[|r.done|]];
      SkipLast(ms, r.done, done[|r.done|]);
    }
  }

  // ---- what packets a receiver has ----

  predicate MadeOf(r: Receiver, us: seq<Unit>) {
    && (forall v :: v in r.open ==> v in us)
    && (forall m, v :: m in r.done && v in m ==> v in us)
  }

  lemma {:induction false} ReceivedAreOffered(us: seq<Unit>, k: Key)
    ensures MadeOf(Receives(us, k), us)
  {
    if us != [] {
      var init, u := us[..|us|-1], us[|us|-1];
      assert us == init + [u];
      ReceivedAreOffered(init, k);
      ReceivesSnoc(init, u, k);
      hide Receives, RoleOf;
      var r := Receives(init, k);
      forall m, v | m in Receives(us, k).done && v in m ensures v in us {
        assert m in r.done || m == [u] || m == r.open + [u];
      }
    }
  }

  // ---- the data of a message ----

  function Bytes(ws: seq<Word>): (bs: seq<nat>)
    ensures |bs| == 4 * |ws|
  {
    if ws == [] then []
    else [ws[0] / 0x100_0000, ws[0] / 0x1_0000 % 256, ws[0] / 0x100 % 256, ws[0] % 256] + Bytes(ws[1..])
  }

  /** The data bytes of one packet: as many as its byte count says, of those behind the
      status byte; in SysEx8 the first of them is the Stream ID and no data. */
  function PacketData(u: Unit): seq<nat> {
    var r, bytes := RoleOf(u.head), Bytes(u.Words())[2..];
    var n := if ByteCount(u.head) < |bytes| then ByteCount(u.head) else |bytes|;
    if r.Other? then [] else if r.key.Key7? then bytes[..n] else if n == 0 then [] else bytes[1..n]
  }

  function Data(m: Message): seq<nat> {
    if m == [] then [] else Data(m[..|m|-1]) + PacketData(m[|m|-1])
  }

  lemma EndHasNoData(u: Unit, k: Key)
    requires u.head == EndWord(k)
    ensures PacketData(u) == []
  {
    EndWordRole(k);
    EndWordIsEmpty(k);
    hide EndWord, RoleOf, ByteCount;
  }

  lemma DataSnoc(m: Message, u: Unit)
    ensures Data(m + [u]) == Data(m) + PacketData(u)
  {
    assert (m + [u])[..|m|] == m;
  }

  lemma {:induction false} DataPrefix(p: Message, m: Message)
    requires p <= m
    ensures Data(p) <= Data(m)
  {
    if p != m { DataPrefix(p, m[..|m|-1]); }
  }
}
