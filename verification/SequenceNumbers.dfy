// 16-bit sequence numbers, compared in two's complement as in section 3.2 of
// RFC 1982.
module SequenceNumbers {
  const RANGE := 0x1_0000
  const HALF := 0x8000

  type Seq16 = n: nat | n < RANGE
  type Byte = n: nat | n < 256

  function Next(n: Seq16): Seq16 { (n + 1) % RANGE }

  /** The conversion of an int to int16_t. */
  function ToInt16(i: int): int {
    var r := i % RANGE;
    if r < HALF then r else r - RANGE
  }

  predicate After(a: Seq16, b: Seq16) { ToInt16(a - b) > 0 }

  predicate Before(a: Seq16, b: Seq16) { After(b, a) }

  function FromCsd(hi: Byte, lo: Byte): Seq16 { hi * 256 + lo }

  /** The number carried for the `n`th command. */
  function Wire(n: nat): Seq16 { n % RANGE }

  lemma NextCounts(n: nat)
    ensures Next(Wire(n)) == Wire(n + 1)
    ensures After(Next(Wire(n)), Wire(n))
  {}

  lemma WireDifference(m: nat, n: nat)
    ensures (Wire(m) - Wire(n)) % RANGE == (m - n) % RANGE
  {
    assert m == m / RANGE * RANGE + Wire(m) && n == n / RANGE * RANGE + Wire(n);
  }

  /** Within 32767 of each other the comparison is that of the unbounded counters. */
  lemma AfterIsGreater(m: nat, n: nat)
    requires -HALF < m - n < HALF
    ensures After(Wire(m), Wire(n)) <==> m > n
    ensures Before(Wire(m), Wire(n)) <==> m < n
  {
    hide Wire;
    WireDifference(m, n);
    WireDifference(n, m);
  }

  /** Two numbers are ordered one way or the other, and only one way, exactly when
      they differ and are not half the range apart. */
  lemma OrderedIff(a: Seq16, b: Seq16)
    ensures (After(a, b) || After(b, a)) <==> a != b && (a - b) % RANGE != HALF
    ensures !(After(a, b) && After(b, a))
  {}

  /** On any window of 32768 counters it is a strict total order. */
  lemma WindowIsOrdered(base: nat, i: nat, j: nat, k: nat)
    requires i < HALF && j < HALF && k < HALF
    ensures
      var a, b, c := Wire(base + i), Wire(base + j), Wire(base + k);
      && !After(a, a)
      && (After(a, b) && After(b, c) ==> After(a, c))
      && (i != j ==> (After(a, b) <==> !After(b, a)))
  {
    AfterIsGreater(base + i, base + i);
    AfterIsGreater(base + i, base + j);
    AfterIsGreater(base + j, base + k);
    AfterIsGreater(base + i, base + k);
    AfterIsGreater(base + j, base + i);
  }

  /** No wider window is: three numbers a third of the range apart form a cycle. */
  lemma CycleExists()
    ensures After(0x5555, 0) && After(0xAAAA, 0x5555) && After(0, 0xAAAA)
  {}

  /** The two CSD bytes, most significant first, carry the number exactly. */
  lemma CsdRoundTrip(n: Seq16, hi: Byte, lo: Byte)
    ensures FromCsd(n / 256, n % 256) == n
    ensures FromCsd(hi, lo) / 256 == hi && FromCsd(hi, lo) % 256 == lo
  {}
}
