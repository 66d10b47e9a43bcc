/** Little-endian loads and stores, byte by byte, in C's unsigned arithmetic. */
module ByteOrder {

  type Byte = b: int | 0 <= b < 0x100

  const TWO_TO_32 := 0x1_0000_0000
  const TWO_TO_64 := 0x1_0000_0000_0000_0000

  function Shl32(v: int, factor: int): int
    requires 0 <= v && 0 < factor
  {
    (v * factor) % TWO_TO_32
  }

  /** Four bytes combined in 32-bit unsigned arithmetic. */
  function Uint4Korr(a: seq<Byte>): int
    requires |a| == 4
  {
    (a[0] + Shl32(a[1], 0x100) + Shl32(a[2], 0x1_0000) + Shl32(a[3], 0x100_0000)) % TWO_TO_32
  }

  function Uint8Korr(a: seq<Byte>): int
    requires |a| == 8
  {
    Join(Uint4Korr(a[..4]), Uint4Korr(a[4..]))
  }

  /** Two 32-bit halves as one 64-bit unsigned value. */
  function Join(low: int, high: int): int {
    (low + (high * TWO_TO_32) % TWO_TO_64) % TWO_TO_64
  }

  function Bytes4(v: int): seq<Byte>
    requires 0 <= v < TWO_TO_32
  {
    [v % 0x100, (v / 0x100) % 0x100, (v / 0x1_0000) % 0x100, (v / 0x100_0000) % 0x100]
  }

  function Bytes8(v: int): seq<Byte>
    requires 0 <= v < TWO_TO_64
  {
    Bytes4(v % TWO_TO_32) + Bytes4(v / TWO_TO_32)
  }

  method Int4Store(t: array<Byte>, at: nat, v: int)
    requires at + 4 <= t.Length && 0 <= v < TWO_TO_32
    modifies t
    ensures t[..] == old(t[..at]) + Bytes4(v) + old(t[at + 4..])
  {
    t[at] := v % 0x100;
    t[at + 1] := (v / 0x100) % 0x100;
    t[at + 2] := (v / 0x1_0000) % 0x100;
    t[at + 3] := (v / 0x100_0000) % 0x100;
  }

  method Int8Store(t: array<Byte>, at: nat, v: int)
    requires at + 8 <= t.Length && 0 <= v < TWO_TO_64
    modifies t
    ensures t[..] == old(t[..at]) + Bytes8(v) + old(t[at + 8..])
    ensures t[at..at + 8] == Bytes8(v)
  {
    Int4Store(t, at, v % TWO_TO_32);
    assert t[..at] == old(t[..at]) && t[at..at + 4] == Bytes4(v % TWO_TO_32);
    assert t[at + 8..] == old(t[at + 8..]);
    label low:
    Int4Store(t, at + 4, v / TWO_TO_32);
    assert old@low(t[..at + 4]) == old@low(t[..at]) + old@low(t[at..at + 4]);
  }

  lemma Korr4IsPolynomial(a: seq<Byte>)
    requires |a| == 4
    ensures Uint4Korr(a) == a[0] + 0x100 * a[1] + 0x1_0000 * a[2] + 0x100_0000 * a[3] < TWO_TO_32
  {
    var a1: int, a2: int, a3: int := a[1], a[2], a[3];
    assert Shl32(a1, 0x100) == 0x100 * a1;
    assert Shl32(a2, 0x1_0000) == 0x1_0000 * a2;
    assert Shl32(a3, 0x100_0000) == 0x100_0000 * a3;
  }

  lemma Korr4Bytes4(v: int)
    requires 0 <= v < TWO_TO_32
    ensures Uint4Korr(Bytes4(v)) == v
  {
    var q1, q2, q3 := v / 0x100, v / 0x1_0000, v / 0x100_0000;
    assert q1 / 0x100 == q2 && q2 / 0x100 == q3 && q3 % 0x100 == q3;
    assert v == v % 0x100 + 0x100 * (q1 % 0x100) + 0x1_0000 * (q2 % 0x100) + 0x100_0000 * q3;
    Korr4IsPolynomial(Bytes4(v));
  }

  lemma Digit(b: Byte, rest: int)
    requires 0 <= rest
    ensures (b + 0x100 * rest) % 0x100 == b && (b + 0x100 * rest) / 0x100 == rest
  {}

  lemma Bytes4Korr4(a: seq<Byte>)
    requires |a| == 4
    ensures 0 <= Uint4Korr(a) < TWO_TO_32 && Bytes4(Uint4Korr(a)) == a
  {
    Korr4IsPolynomial(a);
    var a0: int, a1: int, a2: int, a3: int := a[0], a[1], a[2], a[3];
    var v := Uint4Korr(a);
    var r1, r2 := a1 + 0x100 * a2 + 0x1_0000 * a3, a2 + 0x100 * a3;
    assert v == a0 + 0x100 * r1 && r1 == a1 + 0x100 * r2;
    Digit(a[0], r1);
    Digit(a[1], r2);
    Digit(a[2], a[3]);
    assert v / 0x1_0000 == r1 / 0x100;
    assert v / 0x100_0000 == r2 / 0x100;
  }

  lemma JoinHalves(v: int)
    requires 0 <= v < TWO_TO_64
    ensures Join(v % TWO_TO_32, v / TWO_TO_32) == v
  {}

  /** A store followed by a load gives the value back. */
  lemma LoadAfterStore(v: int)
    requires 0 <= v < TWO_TO_64
    ensures Uint8Korr(Bytes8(v)) == v
  {
    var low, high := Bytes4(v % TWO_TO_32), Bytes4(v / TWO_TO_32);
    assert (low + high)[..4] == low && (low + high)[4..] == high;
    Korr4Bytes4(v % TWO_TO_32);
    Korr4Bytes4(v / TWO_TO_32);
    JoinHalves(v);
  }

  lemma JoinBytes(low: int, high: int)
    requires 0 <= low < TWO_TO_32 && 0 <= high < TWO_TO_32
    ensures 0 <= Join(low, high) < TWO_TO_64
    ensures Bytes8(Join(low, high)) == Bytes4(low) + Bytes4(high)
  {
    var v := Join(low, high);
    assert v == low + high * TWO_TO_32;
    assert v % TWO_TO_32 == low && v / TWO_TO_32 == high;
  }

  /** A load followed by a store gives the bytes back; so loads are injective. */
  lemma StoreAfterLoad(a: seq<Byte>)
    requires |a| == 8
    ensures 0 <= Uint8Korr(a) < TWO_TO_64 && Bytes8(Uint8Korr(a)) == a
  {
    Bytes4Korr4(a[..4]);
    Bytes4Korr4(a[4..]);
    JoinBytes(Uint4Korr(a[..4]), Uint4Korr(a[4..]));
    assert a == a[..4] + a[4..];
  }

  /** An aligned word as a big-endian machine (SPARC) reads it. */
  function WordAt(a: seq<Byte>): int {
    if a == [] then 0 else 0x100 * WordAt(a[..|a| - 1]) + a[|a| - 1]
  }

  lemma LastByte(v: int, x: Byte, w: int, y: Byte)
    requires 0x100 * v + x == 0x100 * w + y
    ensures v == w && x == y
  {}

  lemma {:induction false} WordInjective(a: seq<Byte>, b: seq<Byte>)
    requires |a| == |b| && WordAt(a) == WordAt(b)
    ensures a == b
    decreases |a|
  {
    if a != [] {
      var n := |a| - 1;
      LastByte(WordAt(a[..n]), a[n], WordAt(b[..n]), b[n]);
      WordInjective(a[..n], b[..n]);
      assert a == a[..n] + [a[n]] && b == b[..n] + [b[n]];
    }
  }
}
