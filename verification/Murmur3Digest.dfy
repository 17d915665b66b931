/** The streaming digest of murmur.go with its two block mixers, and the one-shot sums. */
module Murmur3Digest {
  import opened Words
  import opened Murmur3
  import Murmur32
  import Murmur128

  class Digest {
    const zero: State         // which mixer: the hash of nothing
    const buf: array<Byte>    // 16 bytes, expected to hold a block
    var clen: nat             // digested length
    var tail: Slice           // pending bytes, a view of buf
    var mix: State            // the unfinished hash, h1 (and h2) of the mixer
    ghost var input: seq<Byte>

    /** The state is always: the fold over the full blocks, the last bytes at the start of
        the digest's own buffer, and the total length. */
    ghost predicate Valid()
      reads this, buf, tail.arr
    {
      && buf.Length == 16 && Size(mix) == Size(zero)
      && clen == |input|
      && mix == Fold(zero, input)
      && tail.arr == buf && tail.lo == 0 && tail.InBounds()
      && tail.Bytes() == input[Whole(zero, |input|)..]
    }

    constructor (zero: State)
      requires zero == ZERO32 || zero == ZERO128
      ensures Valid() && fresh(buf) && input == [] && this.zero == zero
    {
      this.zero := zero;
      buf := new Byte[16](_ => 0);
      clen, mix := 0, zero;
      input := [];
      new;
      tail := Slice(buf, 0, 0);
    }

    method Reset()
      requires Valid()
      modifies this
      ensures Valid() && input == []
    {
      clen := 0;
      tail := Slice(buf, 0, 0);
      mix := zero;
      input := [];
    }

    method Sum32() returns (h1: bv32)
      requires Valid() && zero == ZERO32
      ensures State32(h1) == Sum(ZERO32, input)
    {
      h1 := FinishSum32(mix.h, tail, clen);
    }

    method Sum128() returns (h1: bv64, h2: bv64)
      requires Valid() && zero == ZERO128
      ensures State128(Murmur128.Lanes(h1, h2)) == Sum(ZERO128, input)
    {
      h1, h2 := FinishSum128(mix.lanes, tail, clen);
    }

    /** bmix: digest as many blocks as possible and return the rest of the slice. */
    method Bmix(p: Slice) returns (rest: Slice)
      requires p.InBounds() && Size(mix) == Size(zero)
      modifies this`mix
      ensures mix == Fold(old(mix), p.Bytes())
      ensures rest == Slice(p.arr, p.lo + Whole(zero, p.hi - p.lo), p.hi)
    {
      match mix {
        case State32(h) =>
          var h1 := BlockLoop32(h, p);
          mix := State32(h1);
        case State128(h) =>
          var h' := BlockLoop128(h, p);
          mix := State128(h');
      }
      rest := Slice(p.arr, p.lo + (p.hi - p.lo) / Size(zero) * Size(zero), p.hi);
    }

    method Write(p0: Slice) returns (n: nat)
      requires Valid() && p0.InBounds() && p0.arr != buf
      modifies this, buf
      ensures Valid()
      ensures n == |p0.Bytes()| && input == old(input) + p0.Bytes()
    {
      hide Fold, Whole;
      n := p0.hi - p0.lo;
      clen := clen + n;
      Resume(zero, input, p0.Bytes());
      input := input + p0.Bytes();
      var p := StickBack(p0);
      var rest := Bmix(p);
      assert rest.Bytes() == p.Bytes()[Whole(zero, |p.Bytes()|)..];
      tail := KeepTail(rest);
    }

    /** The pending bytes go back in front of `p`: what is still to be digested. */
    method StickBack(p0: Slice) returns (p: Slice)
      requires buf.Length == 16 && tail.arr == buf && tail.lo == 0 && tail.InBounds()
      requires Size(mix) == Size(zero) && tail.hi < Size(zero) && p0.InBounds() && p0.arr != buf
      modifies this`mix, buf
      ensures p.InBounds() && Size(mix) == Size(zero)
      ensures Fold(mix, p.Bytes()) == Fold(old(mix), old(tail.Bytes()) + p0.Bytes())
      ensures p.Bytes()[Whole(zero, |p.Bytes()|)..]
           == (old(tail.Bytes()) + p0.Bytes())[Whole(zero, |old(tail.Bytes()) + p0.Bytes()|)..]
    {
      hide Fold, Whole;
      p := p0;
      ghost var all := tail.Bytes() + p0.Bytes();
      if tail.hi > 0 {
        var nfree := Size(zero) - tail.hi;
        if nfree < p.hi - p.lo {
          // One full block can be formed.
          ghost var was, data := tail.Bytes(), p0.Bytes();
          var head := Slice(p.arr, p.lo, p.lo + nfree);
          SliceParts(p0, nfree);
          var block := AppendInPlace(head);
          p := Slice(p.arr, p.lo + nfree, p.hi);
          SliceParts(p0, nfree);
          Rejoined(was, data, nfree);
          FoldAppend(mix, block.Bytes(), p.Bytes());
          TailOfConcat(zero, block.Bytes(), p.Bytes());
          var _ := Bmix(block);
        } else {
          p := AppendInPlace(p);
        }
      } else {
        assert all == p0.Bytes();
      }
    }

    /** append(d.tail, p...): there is room behind the tail, so it grows inside buf. */
    method AppendInPlace(p: Slice) returns (r: Slice)
      requires buf.Length == 16 && tail.arr == buf && tail.lo == 0 && tail.InBounds()
      requires p.InBounds() && p.arr != buf && tail.hi + p.hi - p.lo <= 16
      modifies buf
      ensures r == Slice(buf, 0, tail.hi + p.hi - p.lo)
      ensures r.Bytes() == old(tail.Bytes()) + p.Bytes()
    {
      CopySlice(buf, tail.hi, p);
      r := Slice(buf, 0, tail.hi + p.hi - p.lo);
      assert r.Bytes() == buf[..tail.hi] + buf[tail.hi..r.hi];
    }

    /** copy(d.buf[:], t), where t may be a view of buf itself. */
    method KeepTail(t: Slice) returns (r: Slice)
      requires t.InBounds() && t.hi - t.lo <= buf.Length
      modifies buf
      ensures r == Slice(buf, 0, t.hi - t.lo) && r.Bytes() == old(t.Bytes())
    {
      CopySlice(buf, 0, t);
      r := Slice(buf, 0, t.hi - t.lo);
    }
  }

  lemma Rejoined(a: seq<Byte>, b: seq<Byte>, k: nat)
    requires k <= |b|
    ensures a + b == (a + b[..k]) + b[k..]
  {
  }

  /** The tail of a + b is the tail of b when a is whole blocks. */
  lemma TailOfConcat(m: State, a: seq<Byte>, b: seq<Byte>)
    requires |a| % Size(m) == 0
    ensures (a + b)[Whole(m, |a + b|)..] == b[Whole(m, |b|)..]
  {
    hide Whole;
    WholeShifts(m, |a|, |b|);
  }

  lemma WholeShifts(m: State, a: nat, b: nat)
    requires a % Size(m) == 0
    ensures Whole(m, a + b) == a + Whole(m, b)
  {
    if m.State32? {
      assert (a + b) / 4 == a / 4 + b / 4;
    } else {
      assert (a + b) / 16 == a / 16 + b / 16;
    }
  }

  lemma WholeOfBlocks(m: State, n: nat)
    ensures Whole(m, n) % Size(m) == 0
  {
    if m.State32? {
      assert n / 4 * 4 % 4 == 0;
    } else {
      assert n / 16 * 16 % 16 == 0;
    }
  }

  /** Going on with `p` after `input` is going on with the pending tail and p. */
  lemma Resume(zero: State, input: seq<Byte>, p: seq<Byte>)
    ensures var tail := input[Whole(zero, |input|)..];
      && Fold(zero, input + p) == Fold(Fold(zero, input), tail + p)
      && (input + p)[Whole(zero, |input + p|)..] == (tail + p)[Whole(zero, |tail + p|)..]
  {
    hide Fold, Whole, Size;
    WholeOfBlocks(zero, |input|);
    var w := Whole(zero, |input|);
    var full, tail := input[..w], input[w..];
    assert input == full + tail && input + p == full + (tail + p);
    FoldTail(zero, full, tail);
    FoldAppend(zero, full, tail + p);
    TailOfConcat(zero, full, tail + p);
  }

  // ---------- the mixers ----------

  /** The block loop of digest32.bmix and of Sum32. */
  method BlockLoop32(h: bv32, p: Slice) returns (h1: bv32)
    requires p.InBounds()
    ensures State32(h1) == Fold(State32(h), p.Bytes())
  {
    hide Fold, Murmur32.Step, Word32;
    h1 := h;
    var nblocks := (p.hi - p.lo) / 4;
    ghost var data := p.Bytes();
    assert data[0..] == data;
    for i := 0 to nblocks
      invariant Fold(State32(h1), data[i * 4..]) == Fold(State32(h), data)
    {
      var k1 := LoadWord(p, i * 4);
      FoldStep32(h1, data, i * 4);
      h1 := Mix32(h1, k1);
    }
    FoldNone(State32(h1), data[nblocks * 4..]);
  }

  lemma FoldNone(m: State, rest: seq<Byte>)
    requires |rest| < Size(m)
    ensures Fold(m, rest) == m
  {
  }

  lemma FoldStep32(h: bv32, data: seq<Byte>, at: nat)
    requires at + 4 <= |data|
    ensures Fold(State32(h), data[at..]) == Fold(State32(Murmur32.Step(h, Load32(data, at))), data[at + 4..])
  {
    hide Word32, Murmur32.Step;
    assert data[at..][4..] == data[at + 4..];
  }

  /** The body of the block loop. */
  method Mix32(h: bv32, k: bv32) returns (h1: bv32)
    ensures h1 == Murmur32.Step(h, k)
  {
    hide Murmur32.MulC1, Murmur32.MulC2, Murmur32.Rotl15, Murmur32.Rotl13, Murmur32.Xor, Murmur32.Mul5Add;
    var k1 := k;
    k1 := Murmur32.MulC1(k1);
    k1 := Murmur32.Rotl15(k1);
    k1 := Murmur32.MulC2(k1);
    h1 := Murmur32.Xor(h, k1);
    h1 := Murmur32.Rotl13(h1);
    h1 := Murmur32.Mul5Add(h1);
  }

  /** The block loop of digest128.bmix. */
  method BlockLoop128(h: Murmur128.Lanes, p: Slice) returns (r: Murmur128.Lanes)
    requires p.InBounds()
    ensures State128(r) == Fold(State128(h), p.Bytes())
  {
    hide Fold, Murmur128.Step, Word32, Word64;
    r := h;
    var nblocks := (p.hi - p.lo) / 16;
    ghost var data := p.Bytes();
    assert data[0..] == data;
    for i := 0 to nblocks
      invariant Fold(State128(r), data[i * 16..]) == Fold(State128(h), data)
    {
      var t0 := LoadAt(p, i * 16);
      var t1 := LoadAt(p, i * 16 + 8);
      FoldStep128(r, data, i * 16);
      r := Mix128(r, t0, t1);
    }
    FoldNone(State128(r), data[nblocks * 16..]);
  }

  /** Go's unsafe load of a 64-bit word. */
  method LoadAt(p: Slice, at: nat) returns (k: bv64)
    requires p.InBounds() && at + 8 <= p.hi - p.lo
    ensures k == Load64(p.Bytes(), at)
  {
    hide Load32, Word64;
    var low := LoadWord(p, at);
    var high := LoadWord(p, at + 4);
    k := Word64(low, high);
  }

  lemma FoldStep128(h: Murmur128.Lanes, data: seq<Byte>, at: nat)
    requires at + 16 <= |data|
    ensures Fold(State128(h), data[at..])
         == Fold(State128(Murmur128.Step(h, Murmur128.Lanes(Load64(data, at), Load64(data, at + 8)))), data[at + 16..])
  {
    hide Word32, Word64, Murmur128.Step;
    assert data[at..][16..] == data[at + 16..];
  }

  method Mix128(h: Murmur128.Lanes, t0: bv64, t1: bv64) returns (r: Murmur128.Lanes)
    ensures r == Murmur128.Step(h, Murmur128.Lanes(t0, t1))
  {
    hide Murmur128.MulC1, Murmur128.MulC2, Murmur128.Mul5AddA, Murmur128.Mul5AddB, Murmur128.Add, Murmur128.Xor;
    hide Murmur128.Rotl27, Murmur128.Rotl31, Murmur128.Rotl33;
    var h1, h2, k1, k2 := h.h1, h.h2, t0, t1;
    k1 := Murmur128.MulC1(k1);
    k1 := Murmur128.Rotl31(k1);
    k1 := Murmur128.MulC2(k1);
    h1 := Murmur128.Xor(h1, k1);
    h1 := Murmur128.Rotl27(h1);
    h1 := Murmur128.Add(h1, h2);
    h1 := Murmur128.Mul5AddA(h1);
    k2 := Murmur128.MulC2(k2);
    k2 := Murmur128.Rotl33(k2);
    k2 := Murmur128.MulC1(k2);
    h2 := Murmur128.Xor(h2, k2);
    h2 := Murmur128.Rotl31(h2);
    h2 := Murmur128.Add(h2, h1);
    h2 := Murmur128.Mul5AddB(h2);
    r := Murmur128.Lanes(h1, h2);
  }

  // ---------- tails ----------

  function At(t: seq<Byte>, i: nat): Byte
  {
    if i < |t| then t[i] else 0
  }

  lemma PadAt(t: seq<Byte>, n: nat, i: nat)
    requires |t| <= n && i < n
    ensures Pad(t, n)[i] == At(t, i)
  {
  }

  /** The bytes of a word, high byte first, as the fallthrough cases collect them. */
  lemma Collect32(b0: Byte, b1: Byte, b2: Byte)
    ensures ((b2 as bv32 << 16) ^ (b1 as bv32 << 8)) ^ b0 as bv32 == Word32(b0, b1, b2, 0)
  {
  }

  /** A byte moved to its place in a word. */
  function Placed(b: Byte, shift: nat): bv64
    requires shift < 64
  {
    b as bv64 << shift
  }

  lemma Collect64(b0: Byte, b1: Byte, b2: Byte, b3: Byte, b4: Byte, b5: Byte, b6: Byte, b7: Byte)
    ensures (b7 as bv64 << 56) ^ (b6 as bv64 << 48) ^ (b5 as bv64 << 40) ^ (b4 as bv64 << 32)
            ^ (b3 as bv64 << 24) ^ (b2 as bv64 << 16) ^ (b1 as bv64 << 8) ^ b0 as bv64
         == Word64(Word32(b0, b1, b2, b3), Word32(b4, b5, b6, b7))
  {
  }

  /** The parts of a word put together, high byte first. */
  lemma CollectPlaced(b0: Byte, b1: Byte, b2: Byte, b3: Byte, b4: Byte, b5: Byte, b6: Byte, b7: Byte)
    ensures Joined(Joined(Joined(Joined(Joined(Joined(Joined(Joined(0, b7, 56), b6, 48), b5, 40), b4, 32), b3, 24),
                                 b2, 16), b1, 8), b0, 0)
         == Word64(Word32(b0, b1, b2, b3), Word32(b4, b5, b6, b7))
  {
    hide Word32, Word64;
    Collect64(b0, b1, b2, b3, b4, b5, b6, b7);
  }

  /** One more part. */
  function Joined(k: bv64, b: Byte, shift: nat): bv64
    requires shift < 64
  {
    k ^ Placed(b, shift)
  }

  lemma NothingJoined(k: bv64, shift: nat)
    requires shift in {0, 8, 16, 24, 32, 40, 48, 56}
    ensures Joined(k, 0, shift) == k
  {
  }

  /** One case of the switch of Sum128 falls through to the next. */
  method Case(k: bv64, t: Slice, i: nat, shift: nat) returns (r: bv64)
    requires t.InBounds() && shift in {0, 8, 16, 24, 32, 40, 48, 56}
    ensures r == Joined(k, At(t.Bytes(), i), shift)
  {
    hide Joined;
    r := k;
    if t.hi - t.lo > i {
      r := Joined(r, t.arr[t.lo + i], shift);
    } else {
      NothingJoined(k, shift);
    }
  }

  /** The switch on the tail of Sum32 up to the mixing. */
  method TailWord32(t: Slice) returns (k1: bv32)
    requires t.InBounds() && t.hi - t.lo < 4
    ensures k1 == Load32(Pad(t.Bytes(), 4), 0)
  {
    hide Word32;
    var n := t.hi - t.lo;
    k1 := 0;
    if n >= 3 {
      k1 := k1 ^ (t.arr[t.lo + 2] as bv32 << 16);
    }
    if n >= 2 {
      k1 := k1 ^ (t.arr[t.lo + 1] as bv32 << 8);
    }
    if n >= 1 {
      k1 := k1 ^ t.arr[t.lo] as bv32;
    }
    ghost var b := t.Bytes();
    PadAt(b, 4, 0);
    PadAt(b, 4, 1);
    PadAt(b, 4, 2);
    PadAt(b, 4, 3);
    Collect32(At(b, 0), At(b, 1), At(b, 2));
  }

  /** The cases 15 to 9 of the switch of Sum128. */
  method TailWordHigh(t: Slice) returns (k2: bv64)
    requires t.InBounds() && t.hi - t.lo < 16
    ensures k2 == Load64(Pad(t.Bytes(), 16), 8)
    ensures t.hi - t.lo <= 8 ==> k2 == 0
  {
    hide Word32, Word64, Joined, Load64, Pad;
    ghost var b := t.Bytes();
    NothingJoined(0, 56);
    k2 := Case(0, t, 14, 48);
    k2 := Case(k2, t, 13, 40);
    k2 := Case(k2, t, 12, 32);
    k2 := Case(k2, t, 11, 24);
    k2 := Case(k2, t, 10, 16);
    k2 := Case(k2, t, 9, 8);
    k2 := Case(k2, t, 8, 0);
    CollectPlaced(At(b, 8), At(b, 9), At(b, 10), At(b, 11), At(b, 12), At(b, 13), At(b, 14), 0);
    PadWord(b, 8);
    if t.hi - t.lo <= 8 {
      NothingAtAll();
    }
  }

  lemma NothingAtAll()
    ensures forall shift | shift in {0, 8, 16, 24, 32, 40, 48, 56} :: Joined(0, 0, shift) == 0
  {
    hide Joined;
    forall shift: nat | shift in {0, 8, 16, 24, 32, 40, 48, 56}
      ensures Joined(0, 0, shift) == 0
    {
      NothingJoined(0, shift);
    }
  }

  /** The cases 8 to 1 of the switch of Sum128. */
  method TailWordLow(t: Slice) returns (k1: bv64)
    requires t.InBounds() && t.hi - t.lo < 16
    ensures k1 == Load64(Pad(t.Bytes(), 16), 0)
    ensures t.hi == t.lo ==> k1 == 0
  {
    hide Word32, Word64, Joined, Load64, Pad;
    ghost var b := t.Bytes();
    k1 := Case(0, t, 7, 56);
    k1 := Case(k1, t, 6, 48);
    k1 := Case(k1, t, 5, 40);
    k1 := Case(k1, t, 4, 32);
    k1 := Case(k1, t, 3, 24);
    k1 := Case(k1, t, 2, 16);
    k1 := Case(k1, t, 1, 8);
    k1 := Case(k1, t, 0, 0);
    CollectPlaced(At(b, 0), At(b, 1), At(b, 2), At(b, 3), At(b, 4), At(b, 5), At(b, 6), At(b, 7));
    PadWord(b, 0);
    if t.hi == t.lo {
      NothingAtAll();
    }
  }

  lemma PadWord(t: seq<Byte>, i: nat)
    requires |t| < 16 && i + 8 <= 16
    ensures Load64(Pad(t, 16), i)
         == Word64(Word32(At(t, i), At(t, i + 1), At(t, i + 2), At(t, i + 3)),
                   Word32(At(t, i + 4), At(t, i + 5), At(t, i + 6), At(t, i + 7)))
  {
    hide Word32, Word64;
  }

  // ---------- sums ----------

  lemma XorZero(h: bv32) ensures Murmur32.Xor(h, 0) == h {}
  lemma XorZero64(h: bv64) ensures Murmur128.Xor(h, 0) == h {}
  lemma ScrambleZero() ensures Murmur32.Scramble(0) == 0 {}
  lemma ScrambleZero64() ensures Murmur128.Scramble1(0) == 0 && Murmur128.Scramble2(0) == 0 {}

  /** Sum32 after the blocks: the tail, the length, the finalizer. */
  method FinishSum32(h: bv32, tail: Slice, clen: nat) returns (h1: bv32)
    requires tail.InBounds() && tail.hi - tail.lo < 4
    ensures State32(h1) == Finish(State32(h), tail.Bytes(), clen)
  {
    hide Load32, Pad, Length32;
    hide Murmur32.MulC1, Murmur32.MulC2, Murmur32.Rotl15, Murmur32.Xor;
    hide Murmur32.MulF1, Murmur32.MulF2, Murmur32.Shift13, Murmur32.Shift16;
    h1 := h;
    var k1 := TailWord32(tail);
    if tail.hi - tail.lo > 0 {
      k1 := Murmur32.MulC1(k1);
      k1 := Murmur32.Rotl15(k1);
      k1 := Murmur32.MulC2(k1);
      h1 := Murmur32.Xor(h1, k1);
    } else {
      NoTail(tail.Bytes());
      ScrambleZero();
      XorZero(h);
    }
    h1 := Murmur32.Xor(h1, Length32(clen));
    h1 := Murmur32.Shift16(h1);
    h1 := Murmur32.MulF1(h1);
    h1 := Murmur32.Shift13(h1);
    h1 := Murmur32.MulF2(h1);
    h1 := Murmur32.Shift16(h1);
  }

  lemma NoTail(t: seq<Byte>)
    requires t == []
    ensures Load32(Pad(t, 4), 0) == 0
  {
    PadAt(t, 4, 0);
    PadAt(t, 4, 1);
    PadAt(t, 4, 2);
    PadAt(t, 4, 3);
    assert Word32(0, 0, 0, 0) == 0;
  }

  /** Sum128 after the blocks. */
  method FinishSum128(h: Murmur128.Lanes, tail: Slice, clen: nat) returns (h1: bv64, h2: bv64)
    requires tail.InBounds() && tail.hi - tail.lo < 16
    ensures State128(Murmur128.Lanes(h1, h2)) == Finish(State128(h), tail.Bytes(), clen)
  {
    hide Load64, Pad, Length64, Murmur128.Fmix, Murmur128.Add, Murmur128.Xor;
    hide Murmur128.MulC1, Murmur128.MulC2, Murmur128.Rotl31, Murmur128.Rotl33;
    h1, h2 := h.h1, h.h2;
    ScrambleZero64();
    XorZero64(h1);
    XorZero64(h2);
    var k2 := TailWordHigh(tail);
    if tail.hi - tail.lo >= 9 {
      k2 := Murmur128.MulC2(k2);
      k2 := Murmur128.Rotl33(k2);
      k2 := Murmur128.MulC1(k2);
      h2 := Murmur128.Xor(h2, k2);
    }
    var k1 := TailWordLow(tail);
    if tail.hi - tail.lo >= 1 {
      k1 := Murmur128.MulC1(k1);
      k1 := Murmur128.Rotl31(k1);
      k1 := Murmur128.MulC2(k1);
      h1 := Murmur128.Xor(h1, k1);
    }
    h1 := Murmur128.Xor(h1, Length64(clen));
    h2 := Murmur128.Xor(h2, Length64(clen));
    h1 := Murmur128.Add(h1, h2);
    h2 := Murmur128.Add(h2, h1);
    h1 := Fmix64(h1);
    h2 := Fmix64(h2);
    h1 := Murmur128.Add(h1, h2);
    h2 := Murmur128.Add(h2, h1);
  }

  method Fmix64(k: bv64) returns (r: bv64)
    ensures r == Murmur128.Fmix(k)
  {
    hide Murmur128.MulF1, Murmur128.MulF2, Murmur128.Shift33;
    r := Murmur128.Shift33(k);
    r := Murmur128.MulF1(r);
    r := Murmur128.Shift33(r);
    r := Murmur128.MulF2(r);
    r := Murmur128.Shift33(r);
  }

  /** The one-shot Sum32. */
  method Sum32(data: Slice) returns (h1: bv32)
    requires data.InBounds()
    ensures State32(h1) == Sum(ZERO32, data.Bytes())
  {
    hide Fold, Finish;
    h1 := BlockLoop32(0, data);
    var nblocks := (data.hi - data.lo) / 4;
    h1 := FinishSum32(h1, Slice(data.arr, data.lo + nblocks * 4, data.hi), data.hi - data.lo);
    assert data.arr[data.lo + nblocks * 4..data.hi] == data.Bytes()[nblocks * 4..];
  }

  /** The one-shot Sum128, whose tail is a view of the data. */
  method Sum128(data: Slice) returns (h1: bv64, h2: bv64)
    requires data.InBounds()
    ensures State128(Murmur128.Lanes(h1, h2)) == Sum(ZERO128, data.Bytes())
  {
    hide Fold, Finish;
    var h := BlockLoop128(Murmur128.Lanes(0, 0), data);
    var nblocks := (data.hi - data.lo) / 16;
    h1, h2 := FinishSum128(h, Slice(data.arr, data.lo + nblocks * 16, data.hi), data.hi - data.lo);
    assert data.arr[data.lo + nblocks * 16..data.hi] == data.Bytes()[nblocks * 16..];
  }

  /** The loop of TestIncremental in murmur_test.go, for every way of cutting the data. */
  method Digested(zero: State, data: Slice, cuts: seq<nat>) returns (d: Digest)
    requires zero == ZERO32 || zero == ZERO128
    requires data.InBounds() && Cutting(cuts, data.hi - data.lo)
    ensures fresh(d) && d.Valid() && d.zero == zero && d.input == data.Bytes()
  {
    hide Digest.Valid;
    d := new Digest(zero);
    for i := 1 to |cuts|
      invariant fresh(d) && fresh(d.buf) && d.Valid() && d.zero == zero
      invariant d.input == data.Bytes()[..cuts[i - 1]]
    {
      NextCut(cuts, data.hi - data.lo, i);
      NextPiece(data, cuts[i - 1], cuts[i]);
      var piece := Slice(data.arr, data.lo + cuts[i - 1], data.lo + cuts[i]);
      var _ := d.Write(piece);
    }
    assert data.Bytes()[..cuts[|cuts| - 1]] == data.Bytes();
  }

  /** TestIncremental: the streamed sums are those of the whole data. */
  method Incremental(data: Slice, cuts: seq<nat>) returns (h32: bv32, h1: bv64, h2: bv64)
    requires data.InBounds() && Cutting(cuts, data.hi - data.lo)
    ensures State32(h32) == Sum(ZERO32, data.Bytes())
    ensures State128(Murmur128.Lanes(h1, h2)) == Sum(ZERO128, data.Bytes())
  {
    hide Digest.Valid, Sum;
    var d32 := Digested(ZERO32, data, cuts);
    h32 := d32.Sum32();
    var d128 := Digested(ZERO128, data, cuts);
    h1, h2 := d128.Sum128();
  }
}
