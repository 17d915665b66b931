/** MurmurHash3 as a fold over blocks: what the sums are, and why close inputs never collide. */
module Murmur3 {
  import opened Words
  import Murmur32
  import Murmur128

  /** The unfinished hash of either width, and also its finished sum. */
  datatype State = State32(h: bv32) | State128(lanes: Murmur128.Lanes)

  const ZERO32: State := State32(0)
  const ZERO128: State := State128(Murmur128.Lanes(0, 0))

  /** The block size. */
  function Size(m: State): (n: nat)
    ensures 0 < n <= 16
  {
    if m.State32? then 4 else 16
  }

  /** One full block, read as little-endian words. */
  function Absorb(m: State, b: seq<Byte>): (r: State)
    requires |b| == Size(m)
    ensures Size(r) == Size(m)
  {
    match m
    case State32(h) => State32(Murmur32.Step(h, Load32(b, 0)))
    case State128(h) => State128(Murmur128.Step(h, Murmur128.Lanes(Load64(b, 0), Load64(b, 8))))
  }

  /** All full blocks of `data`, in order. */
  function Fold(m: State, data: seq<Byte>): (r: State)
    ensures Size(r) == Size(m)
    decreases |data|
  {
    if |data| < Size(m) then m else Fold(Absorb(m, data[..Size(m)]), data[Size(m)..])
  }

  /** Where the tail of `n` bytes starts. */
  function Whole(m: State, n: nat): (w: nat)
    ensures w <= n < w + Size(m)
  {
    n / Size(m) * Size(m)
  }

  function Pad(tail: seq<Byte>, n: nat): (b: seq<Byte>)
    requires |tail| <= n
    ensures |b| == n
  {
    tail + seq(n - |tail|, _ => 0)
  }

  function Length32(n: nat): bv32
  {
    (n % 0x1_0000_0000) as bv32
  }

  function Length64(n: nat): bv64
  {
    (n % 0x1_0000_0000_0000_0000) as bv64
  }

  /** The tail, zero-extended to a block, and the total length; then the finalizer. */
  function Finish(m: State, tail: seq<Byte>, length: nat): State
    requires |tail| < Size(m)
  {
    var b := Pad(tail, Size(m));
    match m
    case State32(h) =>
      State32(Murmur32.Fmix(Murmur32.Xor(Murmur32.Xor(h, Murmur32.Scramble(Load32(b, 0))), Length32(length))))
    case State128(h) =>
      var h1 := Murmur128.Xor(h.h1, Murmur128.Scramble1(Load64(b, 0)));
      var h2 := Murmur128.Xor(h.h2, Murmur128.Scramble2(Load64(b, 8)));
      State128(Murmur128.Final(Murmur128.Lanes(h1, h2), Length64(length)))
  }

  /** The sum of `data`, starting from ZERO32 or ZERO128. */
  function Sum(zero: State, data: seq<Byte>): State
  {
    Finish(Fold(zero, data), data[Whole(zero, |data|)..], |data|)
  }

  // ---------- folding in pieces ----------

  lemma {:induction false} FoldAppend(m: State, a: seq<Byte>, b: seq<Byte>)
    requires |a| % Size(m) == 0
    ensures Fold(m, a + b) == Fold(Fold(m, a), b)
    decreases |a|
  {
    var n := Size(m);
    if a == [] {
      assert a + b == b;
    } else {
      assert |a| >= n;
      assert (a + b)[..n] == a[..n] && (a + b)[n..] == a[n..] + b;
      FoldAppend(Absorb(m, a[..n]), a[n..], b);
    }
  }

  // ---------- no collisions between close inputs ----------

  lemma AbsorbInjective(m: State, n: State, a: seq<Byte>, b: seq<Byte>)
    requires Size(m) == Size(n) == |a| == |b|
    requires Absorb(m, a) == Absorb(n, b) && (m == n || a == b)
    ensures m == n && a == b
  {
    hide Load32, Load64, Murmur32.Step, Murmur128.Step;
    hide Murmur32.Xor, Murmur32.Unstir, Murmur32.Scramble, Murmur32.Unscramble;
    hide Murmur128.UnstepHash, Murmur128.UnstepBlock;
    if m.State32? {
      Murmur32.UndoStep(m.h, Load32(a, 0));
      Murmur32.UndoStep(n.h, Load32(b, 0));
      Load32Injective(a, b, 0);
      assert a == a[0..4] && b == b[0..4];
    } else {
      var k, l := Murmur128.Lanes(Load64(a, 0), Load64(a, 8)), Murmur128.Lanes(Load64(b, 0), Load64(b, 8));
      Murmur128.UndoStep(m.lanes, k);
      Murmur128.UndoStep(n.lanes, l);
      Load64Injective(a, b, 0);
      Load64Injective(a, b, 8);
      assert a == a[0..8] + a[8..16] && b == b[0..8] + b[8..16];
    }
  }

  lemma {:induction false} FoldInjective(m: State, n: State, data: seq<Byte>)
    requires Size(m) == Size(n) && Fold(m, data) == Fold(n, data)
    ensures m == n
    decreases |data|
  {
    hide Absorb;
    var w := Size(m);
    if |data| >= w {
      FoldInjective(Absorb(m, data[..w]), Absorb(n, data[..w]), data[w..]);
      AbsorbInjective(m, n, data[..w], data[..w]);
    }
  }

  lemma FinishInjective(m: State, n: State, t: seq<Byte>, u: seq<Byte>, length: nat)
    requires Size(m) == Size(n) && |t| == |u| < Size(m)
    requires Finish(m, t, length) == Finish(n, u, length) && (m == n || t == u)
    ensures m == n && t == u
  {
    hide Load32, Load64, Length32, Length64, Pad;
    hide Murmur32.Xor, Murmur32.Fmix, Murmur32.Unfmix, Murmur32.Scramble, Murmur32.Unscramble;
    hide Murmur128.Xor, Murmur128.Final, Murmur128.Unfinal, Murmur128.Scramble1, Murmur128.Scramble2;
    hide Murmur128.Unscramble1, Murmur128.Unscramble2;
    var a, b := Pad(t, Size(m)), Pad(u, Size(m));
    if m.State32? {
      Finish32Injective(m.h, n.h, Load32(a, 0), Load32(b, 0), Length32(length));
      Load32Injective(a, b, 0);
      assert a == a[0..4] && b == b[0..4];
    } else {
      Finish128Injective(m.lanes, n.lanes, Murmur128.Lanes(Load64(a, 0), Load64(a, 8)),
                         Murmur128.Lanes(Load64(b, 0), Load64(b, 8)), Length64(length));
      Load64Injective(a, b, 0);
      Load64Injective(a, b, 8);
      assert a == a[0..8] + a[8..16] && b == b[0..8] + b[8..16];
    }
    PadInjective(t, u, Size(m));
  }

  lemma PadInjective(t: seq<Byte>, u: seq<Byte>, n: nat)
    requires |t| == |u| <= n && Pad(t, n) == Pad(u, n)
    ensures t == u
  {
    assert t == Pad(t, n)[..|t|] && u == Pad(u, n)[..|t|];
  }

  lemma Finish32Injective(h: bv32, g: bv32, k: bv32, l: bv32, length: bv32)
    requires Murmur32.Fmix(Murmur32.Xor(Murmur32.Xor(h, Murmur32.Scramble(k)), length))
          == Murmur32.Fmix(Murmur32.Xor(Murmur32.Xor(g, Murmur32.Scramble(l)), length))
    requires h == g || k == l
    ensures h == g && k == l
  {
    hide Murmur32.Xor, Murmur32.Fmix, Murmur32.Unfmix, Murmur32.Scramble, Murmur32.Unscramble;
    var x, y := Murmur32.Xor(h, Murmur32.Scramble(k)), Murmur32.Xor(g, Murmur32.Scramble(l));
    Murmur32.UnfmixInvertsFmix(Murmur32.Xor(x, length));
    Murmur32.UnfmixInvertsFmix(Murmur32.Xor(y, length));
    Murmur32.UndoXor(x, length);
    Murmur32.UndoXor(y, length);
    Murmur32.UndoXor(h, Murmur32.Scramble(k));
    Murmur32.UndoXor(g, Murmur32.Scramble(l));
    Murmur32.UnscrambleInvertsScramble(k);
    Murmur32.UnscrambleInvertsScramble(l);
  }

  /** The hash with the tail's two words mixed in. */
  function WithTail(h: Murmur128.Lanes, k: Murmur128.Lanes): Murmur128.Lanes
  {
    Murmur128.Lanes(Murmur128.Xor(h.h1, Murmur128.Scramble1(k.h1)), Murmur128.Xor(h.h2, Murmur128.Scramble2(k.h2)))
  }

  lemma Finish128Injective(h: Murmur128.Lanes, g: Murmur128.Lanes, k: Murmur128.Lanes, l: Murmur128.Lanes,
                           length: bv64)
    requires Murmur128.Final(WithTail(h, k), length) == Murmur128.Final(WithTail(g, l), length)
    requires h == g || k == l
    ensures h == g && k == l
  {
    hide Murmur128.Xor, Murmur128.Final, Murmur128.Unfinal, Murmur128.Scramble1, Murmur128.Scramble2;
    hide Murmur128.Unscramble1, Murmur128.Unscramble2;
    Murmur128.UndoFinal(WithTail(h, k), length);
    Murmur128.UndoFinal(WithTail(g, l), length);
    Murmur128.UndoXor(h.h1, Murmur128.Scramble1(k.h1));
    Murmur128.UndoXor(g.h1, Murmur128.Scramble1(l.h1));
    Murmur128.UndoXor(h.h2, Murmur128.Scramble2(k.h2));
    Murmur128.UndoXor(g.h2, Murmur128.Scramble2(l.h2));
    Murmur128.UndoScrambles(k.h1);
    Murmur128.UndoScrambles(l.h1);
    Murmur128.UndoScrambles(k.h2);
    Murmur128.UndoScrambles(l.h2);
  }

  lemma WholeOf(m: State, a: nat, b: nat)
    requires a % Size(m) == 0
    ensures Whole(m, a + b) >= a
    ensures b < Size(m) ==> Whole(m, a + b) == a
  {
  }

  lemma FoldBlock(m: State, before: seq<Byte>, x: seq<Byte>, rest: seq<Byte>)
    requires |before| % Size(m) == 0 && |x| == Size(m)
    ensures Fold(m, before + x + rest) == Fold(Absorb(Fold(m, before), x), rest)
  {
    hide Absorb;
    assert before + x + rest == before + (x + rest);
    FoldAppend(m, before, x + rest);
    assert (x + rest)[..|x|] == x && (x + rest)[|x|..] == rest;
  }

  /** Main result: inputs of equal length that differ only inside one aligned block have different sums. */
  lemma BlockChangesSum(zero: State, before: seq<Byte>, x: seq<Byte>, y: seq<Byte>, rest: seq<Byte>)
    requires |before| % Size(zero) == 0 && |x| == |y| == Size(zero) && x != y
    ensures Sum(zero, before + x + rest) != Sum(zero, before + y + rest)
  {
    hide Absorb, Fold, Finish, Whole;
    var a, b := before + x + rest, before + y + rest;
    var w := Whole(zero, |a|);
    assert |a| == |b| == |before + x| + |rest|;
    if Sum(zero, a) == Sum(zero, b) {
      WholeOf(zero, |before + x|, |rest|);
      assert a[w..] == rest[w - |before + x|..] == b[w..];
      FinishInjective(Fold(zero, a), Fold(zero, b), a[w..], b[w..], |a|);
      FoldBlock(zero, before, x, rest);
      FoldBlock(zero, before, y, rest);
      var m := Fold(zero, before);
      FoldInjective(Absorb(m, x), Absorb(m, y), rest);
      AbsorbInjective(m, m, x, y);
    }
  }

  /** Main result: and so do inputs that differ only in the tail. */
  lemma TailChangesSum(zero: State, before: seq<Byte>, t: seq<Byte>, u: seq<Byte>)
    requires |before| % Size(zero) == 0 && |t| == |u| < Size(zero) && t != u
    ensures Sum(zero, before + t) != Sum(zero, before + u)
  {
    hide Absorb, Fold, Finish, Whole;
    WholeOf(zero, |before|, |t|);
    assert (before + t)[|before|..] == t && (before + u)[|before|..] == u;
    if Sum(zero, before + t) == Sum(zero, before + u) {
      FoldTail(zero, before, t);
      FoldTail(zero, before, u);
      FinishInjective(Fold(zero, before), Fold(zero, before), t, u, |before| + |t|);
    }
  }

  lemma FoldTail(m: State, before: seq<Byte>, t: seq<Byte>)
    requires |before| % Size(m) == 0 && |t| < Size(m)
    ensures Fold(m, before + t) == Fold(m, before)
  {
    hide Absorb;
    FoldAppend(m, before, t);
  }

  // ---------- sums of the table in murmur_test.go ----------

  const HELLO: seq<Byte> := [0x68, 0x65, 0x6c, 0x6c, 0x6f]

  lemma HelloWords()
    ensures Load32(HELLO[..4], 0) == 0x6c6c6568 && Load32(Pad(HELLO[4..], 4), 0) == 0x6f
    ensures Load64(Pad(HELLO, 16), 0) == 0x6f6c6c6568 && Load64(Pad(HELLO, 16), 8) == 0
  {
  }

  lemma FiveBytes()
    ensures Length32(5) == 5 && Length64(5) == 5
  {
    var n: nat := 5;
    assert n % 0x1_0000_0000 == 5 && n % 0x1_0000_0000_0000_0000 == 5;
  }

  lemma KnownSum32()
    ensures Sum(ZERO32, HELLO) == State32(0x248bfa47)
  {
    hide Load32, Length32, Pad;
    HelloWords();
    FiveBytes();
    assert Fold(ZERO32, HELLO) == State32(Murmur32.Step(0, 0x6c6c6568));
  }

  lemma KnownSum128()
    ensures Sum(ZERO128, HELLO) == State128(Murmur128.Lanes(0xcbd8a7b341bd9b02, 0x5b1e906a48ae1d19))
  {
    hide Load64, Length64, Pad, Murmur128.Scramble1, Murmur128.Scramble2, Murmur128.Final;
    assert HELLO[0..] == HELLO;
    HelloWords();
    FiveBytes();
    KnownTail();
    KnownFinal();
  }

  lemma KnownTail()
    ensures Murmur128.Scramble1(0x6f6c6c6568) == 0x8c3f01c9e77511c7 && Murmur128.Scramble2(0) == 0
  {
  }

  lemma KnownFinal()
    ensures Murmur128.Final(Murmur128.Lanes(0x8c3f01c9e77511c7, 0), 5)
         == Murmur128.Lanes(0xcbd8a7b341bd9b02, 0x5b1e906a48ae1d19)
  {
    assert Murmur128.Fmix(0x8c3f01c9e77511c7) == 0x3c92befc3acd18eb;
    assert Murmur128.Fmix(0x8c3f01c9e77511cc) == 0x8f45e8b706f08217;
  }

  /** "19 Jan 2038 at 3:14:07 AM": for Sum32 six blocks and one byte, for Sum128 a block and nine. */
  const DATE: seq<Byte> := [
    0x31, 0x39, 0x20, 0x4a, 0x61, 0x6e, 0x20, 0x32, 0x30, 0x33, 0x38, 0x20, 0x61, 0x74, 0x20, 0x33,
    0x3a, 0x31, 0x34, 0x3a, 0x30, 0x37, 0x20, 0x41, 0x4d]

  lemma DateWords32()
    ensures Load32(DATE[0..4], 0) == 0x4a203931 && Load32(DATE[4..8], 0) == 0x32206e61
    ensures Load32(DATE[8..12], 0) == 0x20383330 && Load32(DATE[12..16], 0) == 0x33207461
    ensures Load32(DATE[16..20], 0) == 0x3a34313a && Load32(DATE[20..24], 0) == 0x41203730
    ensures Load32(Pad(DATE[24..], 4), 0) == 0x4d
  {
    assert DATE[0..4] == [0x31, 0x39, 0x20, 0x4a];
    assert DATE[4..8] == [0x61, 0x6e, 0x20, 0x32];
    assert DATE[8..12] == [0x30, 0x33, 0x38, 0x20];
    assert DATE[12..16] == [0x61, 0x74, 0x20, 0x33];
    assert DATE[16..20] == [0x3a, 0x31, 0x34, 0x3a];
    assert DATE[20..24] == [0x30, 0x37, 0x20, 0x41];
    assert Pad(DATE[24..], 4) == [0x4d, 0, 0, 0];
  }

  lemma DateSteps32()
    ensures Murmur32.Step(0, 0x4a203931) == 0xbef52a58 && Murmur32.Step(0xbef52a58, 0x32206e61) == 0x2e198409
    ensures Murmur32.Step(0x2e198409, 0x20383330) == 0x61dcba3d && Murmur32.Step(0x61dcba3d, 0x33207461) == 0x8f603c86
    ensures Murmur32.Step(0x8f603c86, 0x3a34313a) == 0x3a0d6042 && Murmur32.Step(0x3a0d6042, 0x41203730) == 0x22daefdd
    ensures Murmur32.Fmix(Murmur32.Xor(Murmur32.Xor(0x22daefdd, Murmur32.Scramble(0x4d)), 25)) == 0xe31e8a70
  {
  }

  /** One block off the front of what is left. */
  lemma OneBlock(m: State, data: seq<Byte>, i: nat)
    requires i + Size(m) <= |data|
    ensures |data[i..i + Size(m)]| == Size(m)
    ensures Fold(m, data[i..]) == Fold(Absorb(m, data[i..i + Size(m)]), data[i + Size(m)..])
  {
    hide Absorb;
    var rest, n := data[i..], Size(m);
    assert rest[..n] == data[i..i + n] && rest[n..] == data[i + n..];
  }

  lemma DateLengths()
    ensures |DATE| == 25 && Length32(25) == 25 && Length64(25) == 25
  {
    Length32Is(25);
    Length64Is(25);
  }

  lemma Length32Is(n: nat)
    requires n < 0x1_0000_0000
    ensures Length32(n) == n as bv32
  {
    assert n % 0x1_0000_0000 == n;
  }

  lemma Length64Is(n: nat)
    requires n < 0x1_0000_0000_0000_0000
    ensures Length64(n) == n as bv64
  {
    assert n % 0x1_0000_0000_0000_0000 == n;
  }

  lemma KnownBlocks32()
    ensures Sum(ZERO32, DATE) == State32(0xe31e8a70)
  {
    hide Fold, Load32, Length32, Pad, Murmur32.Step, Murmur32.Fmix, Murmur32.Xor, Murmur32.Scramble;
    DateLengths();
    DateWords32();
    DateSteps32();
    assert DATE[0..] == DATE;
    OneBlock(ZERO32, DATE, 0);
    OneBlock(State32(0xbef52a58), DATE, 4);
    OneBlock(State32(0x2e198409), DATE, 8);
    OneBlock(State32(0x61dcba3d), DATE, 12);
    OneBlock(State32(0x8f603c86), DATE, 16);
    OneBlock(State32(0x3a0d6042), DATE, 20);
    LastBlock(State32(0x22daefdd), DATE[24..]);
  }

  lemma LastBlock(m: State, rest: seq<Byte>)
    requires |rest| < Size(m)
    ensures Fold(m, rest) == m
  {
  }

  lemma DateWords128()
    ensures Load64(DATE[0..16], 0) == 0x32206e614a203931 && Load64(DATE[0..16], 8) == 0x3320746120383330
    ensures Load64(Pad(DATE[16..], 16), 0) == 0x412037303a34313a && Load64(Pad(DATE[16..], 16), 8) == 0x4d
  {
  }

  lemma DateScrambles()
    ensures Murmur128.Scramble1(0x32206e614a203931) == 0x338f7c70aff01d95
    ensures Murmur128.Scramble2(0x3320746120383330) == 0x85fff9466021b38a
    ensures Murmur128.Scramble1(0x412037303a34313a) == 0xa433dffd07efac37
    ensures Murmur128.Scramble2(0x4d) == 0x9a5cd3e8633b5509
  {
  }

  lemma DateStep()
    ensures Murmur128.Step(Murmur128.Lanes(0, 0), Murmur128.Lanes(0x32206e614a203931, 0x3320746120383330))
         == Murmur128.Lanes(0x9b7d849fa2eb5298, 0xf9c7d7f8b5e1e6dc)
  {
    hide Murmur128.Scramble1, Murmur128.Scramble2;
    DateScrambles();
  }

  lemma DateFinal()
    ensures Murmur128.Xor(0x9b7d849fa2eb5298, 0xa433dffd07efac37) == 0x3f4e5b62a504feaf
    ensures Murmur128.Xor(0xf9c7d7f8b5e1e6dc, 0x9a5cd3e8633b5509) == 0x639b0410d6dab3d5
    ensures Murmur128.Final(Murmur128.Lanes(0x3f4e5b62a504feaf, 0x639b0410d6dab3d5), 25)
         == Murmur128.Lanes(0xb89e5988b737affc, 0x664fc2950231b2cb)
  {
    assert Murmur128.Fmix(0xa2e95f737bdfb282) == 0xaecf07c6c3dad2d;
    assert Murmur128.Fmix(0x684638452ba664e) == 0xadb1690c4afa02cf;
  }

  lemma KnownBlocks128()
    ensures Sum(ZERO128, DATE) == State128(Murmur128.Lanes(0xb89e5988b737affc, 0x664fc2950231b2cb))
  {
    hide Fold, Load64, Length64, Pad, Murmur128.Step, Murmur128.Final, Murmur128.Xor;
    hide Murmur128.Scramble1, Murmur128.Scramble2;
    DateLengths();
    DateWords128();
    DateScrambles();
    DateStep();
    DateFinal();
    assert DATE[0..] == DATE;
    OneBlock(ZERO128, DATE, 0);
    LastBlock(State128(Murmur128.Lanes(0x9b7d849fa2eb5298, 0xf9c7d7f8b5e1e6dc)), DATE[16..]);
  }
}
