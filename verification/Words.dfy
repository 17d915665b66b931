/** Machine words of the hash functions: little-endian loads and the steps that can be undone. */
module Words {

  type Byte = bv8

  /** A Go byte slice: a window of an array. */
  datatype Slice = Slice(arr: array<Byte>, lo: nat, hi: nat) {
    ghost predicate InBounds() {
      lo <= hi <= arr.Length
    }

    ghost function Bytes(): seq<Byte>
      requires InBounds()
      reads arr
    {
      arr[lo..hi]
    }
  }

  /** A way of cutting `n` bytes into consecutive writes. */
  ghost predicate Cutting(cuts: seq<nat>, n: nat)
  {
    && cuts != [] && cuts[0] == 0 && cuts[|cuts| - 1] == n
    && forall i, j | 0 <= i < j < |cuts| :: cuts[i] <= cuts[j]
  }

  /** The next write of a cutting. */
  lemma NextCut(cuts: seq<nat>, n: nat, i: nat)
    requires Cutting(cuts, n) && 0 < i < |cuts|
    ensures cuts[i - 1] <= cuts[i] <= n
  {
    if i < |cuts| - 1 {
      assert cuts[i] <= cuts[|cuts| - 1];
    }
  }

  lemma NextPiece(p: Slice, from: nat, to: nat)
    requires p.InBounds() && from <= to <= p.hi - p.lo
    ensures p.Bytes()[..to] == p.Bytes()[..from] + Slice(p.arr, p.lo + from, p.lo + to).Bytes()
  {
  }

  // ---------- loads ----------

  function Load32(b: seq<Byte>, i: nat): bv32
    requires i + 4 <= |b|
  {
    Word32(b[i], b[i + 1], b[i + 2], b[i + 3])
  }

  function Word32(b0: Byte, b1: Byte, b2: Byte, b3: Byte): bv32
  {
    b0 as bv32 | (b1 as bv32 << 8) | (b2 as bv32 << 16) | (b3 as bv32 << 24)
  }

  lemma Word32Injective(a0: Byte, a1: Byte, a2: Byte, a3: Byte, b0: Byte, b1: Byte, b2: Byte, b3: Byte)
    requires Word32(a0, a1, a2, a3) == Word32(b0, b1, b2, b3)
    ensures a0 == b0 && a1 == b1 && a2 == b2 && a3 == b3
  {
  }

  function Load64(b: seq<Byte>, i: nat): bv64
    requires i + 8 <= |b|
  {
    Word64(Load32(b, i), Load32(b, i + 4))
  }

  function Word64(low: bv32, high: bv32): bv64
  {
    low as bv64 | (high as bv64 << 32)
  }

  lemma Word64Injective(a0: bv32, a1: bv32, b0: bv32, b1: bv32)
    requires Word64(a0, a1) == Word64(b0, b1)
    ensures a0 == b0 && a1 == b1
  {
  }

  lemma Load32Injective(a: seq<Byte>, b: seq<Byte>, i: nat)
    requires i + 4 <= |a| && i + 4 <= |b| && Load32(a, i) == Load32(b, i)
    ensures a[i..i + 4] == b[i..i + 4]
  {
    hide Word32;
    Word32Injective(a[i], a[i + 1], a[i + 2], a[i + 3], b[i], b[i + 1], b[i + 2], b[i + 3]);
    assert a[i..i + 4] == [a[i], a[i + 1], a[i + 2], a[i + 3]];
    assert b[i..i + 4] == [b[i], b[i + 1], b[i + 2], b[i + 3]];
  }

  lemma Load64Injective(a: seq<Byte>, b: seq<Byte>, i: nat)
    requires i + 8 <= |a| && i + 8 <= |b| && Load64(a, i) == Load64(b, i)
    ensures a[i..i + 8] == b[i..i + 8]
  {
    hide Load32, Word64;
    Word64Injective(Load32(a, i), Load32(a, i + 4), Load32(b, i), Load32(b, i + 4));
    Load32Injective(a, b, i);
    Load32Injective(a, b, i + 4);
    assert a[i..i + 8] == a[i..i + 4] + a[i + 4..i + 8];
    assert b[i..i + 8] == b[i..i + 4] + b[i + 4..i + 8];
  }

  /** Go's unsafe load of a 32-bit word, on a little-endian machine. */
  method LoadWord(p: Slice, at: nat) returns (k: bv32)
    requires p.InBounds() && at + 4 <= p.hi - p.lo
    ensures k == Load32(p.Bytes(), at)
  {
    hide Word32;
    var i := p.lo + at;
    k := Word32(p.arr[i], p.arr[i + 1], p.arr[i + 2], p.arr[i + 3]);
  }

  lemma SliceParts(p: Slice, k: nat)
    requires p.InBounds() && k <= p.hi - p.lo
    ensures Slice(p.arr, p.lo, p.lo + k).Bytes() == p.Bytes()[..k]
    ensures Slice(p.arr, p.lo + k, p.hi).Bytes() == p.Bytes()[k..]
  {
  }

  /** Go's copy(dst[d:], p) when there is room; `p` may be a view of dst itself. */
  method CopySlice(dst: array<Byte>, d: nat, p: Slice)
    requires p.InBounds() && d + p.hi - p.lo <= dst.Length
    requires p.arr == dst ==> d <= p.lo
    modifies dst
    ensures dst[d..d + p.hi - p.lo] == old(p.Bytes())
    ensures dst[..d] == old(dst[..d])
  {
    for k := 0 to p.hi - p.lo
      invariant dst[d..d + k] == old(p.Bytes())[..k] && dst[..d] == old(dst[..d])
      invariant forall i | p.lo + k <= i < p.hi :: p.arr[i] == old(p.arr[i])
    {
      dst[d + k] := p.arr[p.lo + k];
    }
  }
}
