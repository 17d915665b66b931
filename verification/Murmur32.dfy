/** The 32-bit arithmetic of MurmurHash3 (murmur32.go) and, beside every step, its inverse. */
module Murmur32 {

  const C1: bv32 := 0xcc9e2d51
  const C2: bv32 := 0x1b873593

  /** What is done to a block before it meets the hash. */
  function Scramble(k: bv32): bv32
  {
    MulC2(Rotl15(MulC1(k)))
  }

  /** What is done to the hash after it met a block. */
  function Stir(h: bv32): bv32
  {
    Mul5Add(Rotl13(h))
  }

  function Step(h: bv32, k: bv32): bv32
  {
    Stir(Xor(h, Scramble(k)))
  }

  /** The finalizer. */
  function Fmix(h: bv32): bv32
  {
    Shift16(MulF2(Shift13(MulF1(Shift16(h)))))
  }

  function Xor(a: bv32, b: bv32): bv32 { a ^ b }
  function MulC1(k: bv32): bv32 { k * 0xcc9e2d51 }
  function MulC2(k: bv32): bv32 { k * 0x1b873593 }
  function MulF1(h: bv32): bv32 { h * 0x85ebca6b }
  function MulF2(h: bv32): bv32 { h * 0xc2b2ae35 }
  function Mul5Add(h: bv32): bv32 { h * 5 + 0xe6546b64 }
  function Rotl15(k: bv32): bv32 { (k << 15) | (k >> 17) }
  function Rotl13(h: bv32): bv32 { (h << 13) | (h >> 19) }
  function Shift16(h: bv32): bv32 { h ^ (h >> 16) }
  function Shift13(h: bv32): bv32 { h ^ (h >> 13) }

  // ---------- the inverses: an odd factor has one modulo 1 << 32 ----------

  function DivC1(k: bv32): bv32 { k * 0xdee13bb1 }
  function DivC2(k: bv32): bv32 { k * 0x56ed309b }
  function DivF1(h: bv32): bv32 { h * 0xa5cb9243 }
  function DivF2(h: bv32): bv32 { h * 0x7ed1b41d }
  function Sub5Div(h: bv32): bv32 { (h - 0xe6546b64) * 0xcccccccd }
  function Rotr15(k: bv32): bv32 { (k >> 15) | (k << 17) }
  function Rotr13(h: bv32): bv32 { (h >> 13) | (h << 19) }
  function Unshift13(h: bv32): bv32 { h ^ (h >> 13) ^ (h >> 26) }

  function Unscramble(k: bv32): bv32
  {
    DivC1(Rotr15(DivC2(k)))
  }

  function Unstir(h: bv32): bv32
  {
    Rotr13(Sub5Div(h))
  }

  function Unfmix(h: bv32): bv32
  {
    Shift16(DivF1(Unshift13(DivF2(Shift16(h)))))
  }

  // Each primitive is undone on its raw term, which the solver simplifies to the argument.
  lemma RawProducts(x: bv32)
    ensures DivC1(x * 0xcc9e2d51) == x && DivC2(x * 0x1b873593) == x
    ensures DivF1(x * 0x85ebca6b) == x && DivF2(x * 0xc2b2ae35) == x
    ensures Sub5Div(x * 5 + 0xe6546b64) == x
  {
  }

  lemma RawBits(x: bv32)
    ensures Rotr15((x << 15) | (x >> 17)) == x && Rotr13((x << 13) | (x >> 19)) == x
    ensures Shift16(x ^ (x >> 16)) == x && Unshift13(x ^ (x >> 13)) == x
  {
  }

  lemma RawXor(a: bv32, b: bv32)
    ensures Xor(a ^ b, b) == a && Xor(a ^ b, a) == b
  {
  }

  lemma UndoXor(a: bv32, b: bv32)
    ensures Xor(Xor(a, b), b) == a && Xor(Xor(a, b), a) == b
  {
    RawXor(a, b);
    assert Xor(a, b) == a ^ b;
  }

  lemma UndoProducts(x: bv32)
    ensures DivC1(MulC1(x)) == x && DivC2(MulC2(x)) == x && DivF1(MulF1(x)) == x && DivF2(MulF2(x)) == x
    ensures Sub5Div(Mul5Add(x)) == x
  {
    hide DivC1, DivC2, DivF1, DivF2, Sub5Div;
    RawProducts(x);
  }

  lemma UndoBits(x: bv32)
    ensures Rotr15(Rotl15(x)) == x && Rotr13(Rotl13(x)) == x
    ensures Shift16(Shift16(x)) == x && Unshift13(Shift13(x)) == x
  {
    hide Rotr15, Rotr13, Unshift13;
    RawBits(x);
    assert Shift16(x) == x ^ (x >> 16);
  }

  lemma UnscrambleInvertsScramble(k: bv32)
    ensures Unscramble(Scramble(k)) == k
  {
    hide MulC1, MulC2, DivC1, DivC2, Rotl15, Rotr15, MulF1, MulF2, DivF1, DivF2, Mul5Add, Sub5Div,
      Rotl13, Rotr13, Shift16, Shift13, Unshift13;
    UndoProducts(Rotl15(MulC1(k)));
    UndoBits(MulC1(k));
    UndoProducts(k);
  }

  lemma UnstirInvertsStir(h: bv32)
    ensures Unstir(Stir(h)) == h
  {
    hide MulC1, MulC2, DivC1, DivC2, Rotl15, Rotr15, MulF1, MulF2, DivF1, DivF2, Mul5Add, Sub5Div,
      Rotl13, Rotr13, Shift16, Shift13, Unshift13;
    UndoProducts(Rotl13(h));
    UndoBits(h);
  }

  lemma UnfmixInvertsFmix(h: bv32)
    ensures Unfmix(Fmix(h)) == h
  {
    hide MulC1, MulC2, DivC1, DivC2, Rotl15, Rotr15, MulF1, MulF2, DivF1, DivF2, Mul5Add, Sub5Div,
      Rotl13, Rotr13, Shift16, Shift13, Unshift13;
    var a := MulF1(Shift16(h));
    UndoBits(MulF2(Shift13(a)));
    UndoProducts(Shift13(a));
    UndoBits(a);
    UndoProducts(Shift16(h));
    UndoBits(h);
  }

  /** For a fixed block a step is undone in the hash, for a fixed hash in the block. */
  lemma UndoStep(h: bv32, k: bv32)
    ensures Xor(Unstir(Step(h, k)), Scramble(k)) == h
    ensures Unscramble(Xor(Unstir(Step(h, k)), h)) == k
  {
    hide Xor, Scramble, Unscramble, Stir, Unstir;
    var s := Scramble(k);
    UnstirInvertsStir(Xor(h, s));
    UndoXor(h, s);
    UnscrambleInvertsScramble(k);
  }
}
