/** Bytes as small integers, little-endian numerals and the base-128 varint of Go's encoding/binary. */
module Bytes {

  type byte = x: int | 0 <= x < 256

  const TWO_TO_THE_63: nat := 0x8000_0000_0000_0000
  const TWO_TO_THE_64: nat := 0x1_0000_0000_0000_0000

  /** The `k` low-order base-256 digits of `n`, least significant first. */
  function LittleEndian(n: nat, k: nat): (b: seq<byte>)
    ensures |b| == k
  {
    if k == 0 then [] else [n % 256] + LittleEndian(n / 256, k - 1)
  }

  /** The number a little-endian byte string denotes. */
  function Numeral(b: seq<byte>): nat
  {
    if b == [] then 0 else b[0] + 256 * Numeral(b[1..])
  }

  function Pow256(k: nat): (p: nat)
    ensures p > 0
  {
    if k == 0 then 1 else 256 * Pow256(k - 1)
  }

  lemma {:induction false} NumeralInvertsLittleEndian(n: nat, k: nat)
    requires n < Pow256(k)
    ensures Numeral(LittleEndian(n, k)) == n
  {
    if k > 0 {
      NumeralInvertsLittleEndian(n / 256, k - 1);
      assert LittleEndian(n, k)[1..] == LittleEndian(n / 256, k - 1);
    }
  }

  // ---------- varints ----------

  /** What binary.PutUvarint writes. */
  function Varint(x: nat): (b: seq<byte>)
    ensures |b| >= 1
  {
    if x < 128 then [x] else [128 + x % 128] + Varint(x / 128)
  }

  /** binary.Uvarint: the value and the number of bytes read; 0 bytes when the
      buffer ends too early and a negative count when 64 bits overflow. */
  function Uvarint(b: seq<byte>): (r: (nat, int))
    ensures r.0 < TWO_TO_THE_64
    ensures r.1 <= |b|
  {
    RoomAtTheStart();
    UvarintFits(b, 0);
    UvarintFrom(b, 0)
  }

  /** The value spelt by `b`, which starts at index `i` of the buffer, in Horner form
      instead of a growing shift. */
  function UvarintFrom(b: seq<byte>, i: nat): (r: (nat, int))
    ensures r.1 > 0 ==> i < r.1 <= i + |b|
    ensures r.1 <= 0 ==> r.0 == 0
    ensures i > 9 ==> r.1 <= 0
  {
    if b == [] then (0, 0)
    else if b[0] < 128 then
      if i > 9 || (i == 9 && b[0] > 1) then (0, -(i + 1)) else (b[0], i + 1)
    else
      var (x, n) := UvarintFrom(b[1..], i + 1);
      if n <= 0 then (0, n) else (b[0] % 128 + 128 * x, n)
  }

  /** The values that fit the 64 - 7 * i bits left from index `i` on. */
  function Room(i: nat): (r: nat)
    ensures r >= 2
    decreases 9 - i
  {
    if i >= 9 then 2 else 128 * Room(i + 1)
  }

  lemma RoomAtTheStart()
    ensures Room(0) == TWO_TO_THE_64
  {
    assert Room(5) == 0x2000_0000;
  }

  lemma {:induction false} UvarintFits(b: seq<byte>, i: nat)
    requires i <= 9
    ensures UvarintFrom(b, i).0 < Room(i)
    decreases |b|
  {
    if b != [] && b[0] >= 128 && i < 9 {
      UvarintFits(b[1..], i + 1);
    }
  }

  /** A header written by PutUvarint is read back exactly, whatever follows it. */
  lemma UvarintInvertsVarint(x: nat, rest: seq<byte>)
    requires x < TWO_TO_THE_64
    ensures Uvarint(Varint(x) + rest) == (x, |Varint(x)|)
    ensures |Varint(x)| <= 10
  {
    RoomAtTheStart();
    UvarintReads(0, x, rest);
  }

  lemma {:induction false} UvarintReads(i: nat, x: nat, rest: seq<byte>)
    requires i <= 9 && x < Room(i)
    ensures UvarintFrom(Varint(x) + rest, i) == (x, i + |Varint(x)|)
    ensures i + |Varint(x)| <= 10
    decreases x
  {
    if x >= 128 {
      UvarintReads(i + 1, x / 128, rest);
      assert (Varint(x) + rest)[1..] == Varint(x / 128) + rest;
    }
  }

  /** binary.PutUvarint into `dst` from index 0. */
  method PutUvarint(dst: array<byte>, value: nat) returns (n: nat)
    requires |Varint(value)| <= dst.Length
    modifies dst
    ensures n == |Varint(value)| && dst[..n] == Varint(value)
  {
    var x := value;
    n := 0;
    while x >= 0x80
      invariant n <= dst.Length && dst[..n] + Varint(x) == Varint(value)
    {
      dst[n] := 128 + x % 128;
      x := x / 128;
      n := n + 1;
    }
    dst[n] := x;
    n := n + 1;
  }

  /** Go's copy into dst[d..], when there is room. */
  method CopyBytes(dst: array<byte>, d: nat, bytes: seq<byte>)
    requires d + |bytes| <= dst.Length
    modifies dst
    ensures dst[..] == old(dst[..d]) + bytes + old(dst[d + |bytes|..])
  {
    for k := 0 to |bytes|
      invariant dst[..d + k] == old(dst[..d]) + bytes[..k]
      invariant dst[d + k..] == old(dst[d + k..])
    {
      dst[d + k] := bytes[k];
    }
  }
}
