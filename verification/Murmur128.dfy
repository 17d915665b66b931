/** The 128-bit arithmetic of MurmurHash3 (murmur128.go) and, beside every step, its inverse. */
module Murmur128 {

  /** The two 64-bit lanes of the hash, or of a block. */
  datatype Lanes = Lanes(h1: bv64, h2: bv64)

  function Scramble1(k: bv64): bv64
  {
    MulC2(Rotl31(MulC1(k)))
  }

  function Scramble2(k: bv64): bv64
  {
    MulC1(Rotl33(MulC2(k)))
  }

  /** One block. The first lane takes in the old second lane, the second the new first. */
  function Step(h: Lanes, k: Lanes): Lanes
  {
    var h1 := Mul5AddA(Add(Rotl27(Xor(h.h1, Scramble1(k.h1))), h.h2));
    var h2 := Mul5AddB(Add(Rotl31(Xor(h.h2, Scramble2(k.h2))), h1));
    Lanes(h1, h2)
  }

  function Fmix(h: bv64): bv64
  {
    Shift33(MulF2(Shift33(MulF1(Shift33(h)))))
  }

  /** The end of Sum128 after the tail. */
  function Final(h: Lanes, length: bv64): Lanes
  {
    var a := Lanes(Xor(h.h1, length), Xor(h.h2, length));
    var b := Cross(a);
    Cross(Lanes(Fmix(b.h1), Fmix(b.h2)))
  }

  /** h1 += h2, then h2 += h1. */
  function Cross(h: Lanes): Lanes
  {
    var h1 := Add(h.h1, h.h2);
    Lanes(h1, Add(h.h2, h1))
  }

  function Xor(a: bv64, b: bv64): bv64 { a ^ b }
  function Add(a: bv64, b: bv64): bv64 { a + b }
  function MulC1(k: bv64): bv64 { k * 0x87c37b91114253d5 }
  function MulC2(k: bv64): bv64 { k * 0x4cf5ad432745937f }
  function MulF1(h: bv64): bv64 { h * 0xff51afd7ed558ccd }
  function MulF2(h: bv64): bv64 { h * 0xc4ceb9fe1a85ec53 }
  function Mul5AddA(h: bv64): bv64 { h * 5 + 0x52dce729 }
  function Mul5AddB(h: bv64): bv64 { h * 5 + 0x38495ab5 }
  function Rotl27(h: bv64): bv64 { (h << 27) | (h >> 37) }
  function Rotl31(h: bv64): bv64 { (h << 31) | (h >> 33) }
  function Rotl33(k: bv64): bv64 { (k << 33) | (k >> 31) }
  function Shift33(h: bv64): bv64 { h ^ (h >> 33) }

  // ---------- the inverses: an odd factor has one modulo 1 << 64 ----------

  function Sub(a: bv64, b: bv64): bv64 { a - b }
  function DivC1(k: bv64): bv64 { k * 0xa98409e882ce4d7d }
  function DivC2(k: bv64): bv64 { k * 0xa81e14edd9de2c7f }
  function DivF1(h: bv64): bv64 { h * 0x4f74430c22a54005 }
  function DivF2(h: bv64): bv64 { h * 0x9cb4b2f8129337db }
  function Sub5DivA(h: bv64): bv64 { (h - 0x52dce729) * 0xcccccccccccccccd }
  function Sub5DivB(h: bv64): bv64 { (h - 0x38495ab5) * 0xcccccccccccccccd }
  function Rotr27(h: bv64): bv64 { (h >> 27) | (h << 37) }
  function Rotr31(h: bv64): bv64 { (h >> 31) | (h << 33) }
  function Rotr33(k: bv64): bv64 { (k >> 33) | (k << 31) }

  function Unscramble1(k: bv64): bv64
  {
    DivC1(Rotr31(DivC2(k)))
  }

  function Unscramble2(k: bv64): bv64
  {
    DivC2(Rotr33(DivC1(k)))
  }

  function Unfmix(h: bv64): bv64
  {
    Shift33(DivF1(Shift33(DivF2(Shift33(h)))))
  }

  function Uncross(h: Lanes): Lanes
  {
    var h2 := Sub(h.h2, h.h1);
    Lanes(Sub(h.h1, h2), h2)
  }

  function Unfinal(h: Lanes, length: bv64): Lanes
  {
    var c := Uncross(h);
    var a := Uncross(Lanes(Unfmix(c.h1), Unfmix(c.h2)));
    Lanes(Xor(a.h1, length), Xor(a.h2, length))
  }

  /** The hash before a known block. */
  function UnstepHash(g: Lanes, k: Lanes): Lanes
  {
    var h2 := Xor(Rotr31(Sub(Sub5DivB(g.h2), g.h1)), Scramble2(k.h2));
    Lanes(Xor(Rotr27(Sub(Sub5DivA(g.h1), h2)), Scramble1(k.h1)), h2)
  }

  /** The block that took a known hash here. */
  function UnstepBlock(g: Lanes, h: Lanes): Lanes
  {
    Lanes(Unscramble1(Xor(Rotr27(Sub(Sub5DivA(g.h1), h.h2)), h.h1)),
          Unscramble2(Xor(Rotr31(Sub(Sub5DivB(g.h2), g.h1)), h.h2)))
  }

  // Each primitive is undone on its raw term, which the solver simplifies to the argument.
  lemma RawProducts(x: bv64)
    ensures DivC1(x * 0x87c37b91114253d5) == x && DivC2(x * 0x4cf5ad432745937f) == x
    ensures DivF1(x * 0xff51afd7ed558ccd) == x && DivF2(x * 0xc4ceb9fe1a85ec53) == x
    ensures Sub5DivA(x * 5 + 0x52dce729) == x && Sub5DivB(x * 5 + 0x38495ab5) == x
  {
  }

  lemma RawBits(x: bv64)
    ensures Rotr27((x << 27) | (x >> 37)) == x && Rotr31((x << 31) | (x >> 33)) == x
    ensures Rotr33((x << 33) | (x >> 31)) == x && Shift33(x ^ (x >> 33)) == x
  {
  }

  lemma RawXor(a: bv64, b: bv64)
    ensures Xor(a ^ b, b) == a && Xor(a ^ b, a) == b
  {
  }

  lemma RawAdd(a: bv64, b: bv64)
    ensures Sub(a + b, b) == a && Sub(a + b, a) == b
  {
  }

  lemma UndoXor(a: bv64, b: bv64)
    ensures Xor(Xor(a, b), b) == a && Xor(Xor(a, b), a) == b
  {
    RawXor(a, b);
    assert Xor(a, b) == a ^ b;
  }

  lemma UndoAdd(a: bv64, b: bv64)
    ensures Sub(Add(a, b), b) == a && Sub(Add(a, b), a) == b
  {
    hide Sub;
    RawAdd(a, b);
  }

  lemma UndoProducts(x: bv64)
    ensures DivC1(MulC1(x)) == x && DivC2(MulC2(x)) == x && DivF1(MulF1(x)) == x && DivF2(MulF2(x)) == x
    ensures Sub5DivA(Mul5AddA(x)) == x && Sub5DivB(Mul5AddB(x)) == x
  {
    hide DivC1, DivC2, DivF1, DivF2, Sub5DivA, Sub5DivB;
    RawProducts(x);
  }

  lemma UndoBits(x: bv64)
    ensures Rotr27(Rotl27(x)) == x && Rotr31(Rotl31(x)) == x && Rotr33(Rotl33(x)) == x
    ensures Shift33(Shift33(x)) == x
  {
    hide Rotr27, Rotr31, Rotr33;
    RawBits(x);
    assert Shift33(x) == x ^ (x >> 33);
  }

  lemma UndoScrambles(k: bv64)
    ensures Unscramble1(Scramble1(k)) == k && Unscramble2(Scramble2(k)) == k
  {
    hide MulC1, MulC2, DivC1, DivC2, MulF1, MulF2, DivF1, DivF2, Mul5AddA, Mul5AddB, Sub5DivA, Sub5DivB,
      Rotl27, Rotr27, Rotl31, Rotr31, Rotl33, Rotr33, Shift33;
    UndoProducts(Rotl31(MulC1(k)));
    UndoBits(MulC1(k));
    UndoProducts(Rotl33(MulC2(k)));
    UndoBits(MulC2(k));
    UndoProducts(k);
  }

  lemma UndoFmix(h: bv64)
    ensures Unfmix(Fmix(h)) == h
  {
    hide MulC1, MulC2, DivC1, DivC2, MulF1, MulF2, DivF1, DivF2, Mul5AddA, Mul5AddB, Sub5DivA, Sub5DivB,
      Rotl27, Rotr27, Rotl31, Rotr31, Rotl33, Rotr33, Shift33;
    var a := MulF1(Shift33(h));
    UndoBits(MulF2(Shift33(a)));
    UndoProducts(Shift33(a));
    UndoBits(a);
    UndoProducts(Shift33(h));
    UndoBits(h);
  }

  lemma UndoCross(h: Lanes)
    ensures Uncross(Cross(h)) == h
  {
    hide Add, Sub;
    UndoAdd(h.h1, h.h2);
    UndoAdd(h.h2, Add(h.h1, h.h2));
  }

  /** The end of Sum128 is a bijection for every length. */
  lemma UndoFinal(h: Lanes, length: bv64)
    ensures Unfinal(Final(h, length), length) == h
  {
    hide Xor, Cross, Uncross, Fmix, Unfmix;
    var a := Lanes(Xor(h.h1, length), Xor(h.h2, length));
    var b := Cross(a);
    UndoCross(Lanes(Fmix(b.h1), Fmix(b.h2)));
    UndoFmix(b.h1);
    UndoFmix(b.h2);
    UndoCross(a);
    UndoXor(h.h1, length);
    UndoXor(h.h2, length);
  }

  /** For a fixed block a step is undone in the hash, for a fixed hash in the block. */
  lemma UndoStep(h: Lanes, k: Lanes)
    ensures UnstepHash(Step(h, k), k) == h
    ensures UnstepBlock(Step(h, k), h) == k
  {
    hide Scramble1, Scramble2, Unscramble1, Unscramble2, Xor, Add, Sub,
      MulC1, MulC2, DivC1, DivC2, MulF1, MulF2, DivF1, DivF2, Mul5AddA, Mul5AddB, Sub5DivA, Sub5DivB,
      Rotl27, Rotr27, Rotl31, Rotr31, Rotl33, Rotr33, Shift33;
    var s1, s2, g1 := Scramble1(k.h1), Scramble2(k.h2), Step(h, k).h1;
    var x1, x2 := Xor(h.h1, s1), Xor(h.h2, s2);
    UndoProducts(Add(Rotl27(x1), h.h2));
    UndoAdd(Rotl27(x1), h.h2);
    UndoBits(x1);
    UndoXor(h.h1, s1);
    UndoProducts(Add(Rotl31(x2), g1));
    UndoAdd(Rotl31(x2), g1);
    UndoBits(x2);
    UndoXor(h.h2, s2);
    UndoScrambles(k.h1);
    UndoScrambles(k.h2);
  }
}
