/** The streaming xxHash32 of xxhash.go and its one-shot form. */
module XXHashStream {
  import opened Options
  import opened Words
  import opened XXHash32

  const MAX_WRITE: nat := 0x4000_0000
  const TWO_TO_THE_64: nat := 0x1_0000_0000_0000_0000

  /** How a call of Write ends: with a count, with an error, or with an index out of range. */
  datatype Written = Took(nn: nat) | Refused | Crashed

  class XXHash {
    const seed: bv32
    var v1: bv32
    var v2: bv32
    var v3: bv32
    var v4: bv32
    var totalLen: nat         // a uint64 in the source
    const memory: array<Byte> // 16 bytes
    var memsize: nat
    ghost var input: seq<Byte>

    ghost predicate Valid()
      reads this, memory
    {
      && memory.Length == 16
      && totalLen == |input| < TWO_TO_THE_64
      && memsize == |input| - Whole(|input|) == |input| % 16
      && memory[..memsize] == input[Whole(|input|)..]
      && Lanes(v1, v2, v3, v4) == Stripes(Start(seed), input)
    }

    constructor (seed: bv32)
      ensures Valid() && fresh(memory) && input == [] && this.seed == seed
    {
      this.seed := seed;
      v1 := seed + 2654435761 + 2246822519;
      v2 := seed + 2246822519;
      v3 := seed;
      v4 := seed - 2654435761;
      memory := new Byte[16](_ => 0);
      totalLen, memsize, input := 0, 0, [];
    }

    /** Back to the state New left. */
    method Reset()
      requires Valid()
      modifies this
      ensures Valid() && input == []
    {
      v1 := seed + 2654435761 + 2246822519;
      v2 := seed + 2246822519;
      v3 := seed;
      v4 := seed - 2654435761;
      totalLen, memsize, input := 0, 0, [];
    }

    method Feed(data: Slice)
      requires Valid() && data.InBounds() && data.arr != memory && data.lo < data.hi
      requires |input| + data.hi - data.lo < TWO_TO_THE_64
      modifies this, memory
      ensures Valid() && input == old(input) + data.Bytes()
    {
      hide Stripes, Whole, Start;
      var l := data.hi - data.lo;
      ghost var pending := memory[..memsize] + data.Bytes();
      Resume(seed, input, data.Bytes());
      totalLen := totalLen + l;
      input := input + data.Bytes();
      if memsize + l < 16 {
        Keep(data);
        StripesNone(Lanes(v1, v2, v3, v4), pending);
        return;
      }
      var p := TopUp(data);
      Digest(p);
      RestLength(input);
    }

    /** Less than a stripe in all: nothing to digest yet. */
    method Keep(data: Slice)
      requires memory.Length == 16 && data.InBounds() && data.arr != memory && memsize + data.hi - data.lo < 16
      modifies this`memsize, memory
      ensures memsize == old(memsize) + data.hi - data.lo
      ensures memory[..memsize] == old(memory[..memsize]) + data.Bytes()
    {
      CopySlice(memory, memsize, data);
      ghost var before := memsize;
      memsize := memsize + data.hi - data.lo;
      assert memory[..memsize] == memory[..before] + memory[before..memsize];
    }

    /** All full stripes of `p`, and the rest kept for later. */
    method Digest(p: Slice)
      requires memory.Length == 16 && memsize == 0 && p.InBounds() && p.arr != memory
      modifies this`v1, this`v2, this`v3, this`v4, this`memsize, memory
      ensures Lanes(v1, v2, v3, v4) == Stripes(old(Lanes(v1, v2, v3, v4)), p.Bytes())
      ensures memsize < 16 && memory[..memsize] == p.Bytes()[Whole(|p.Bytes()|)..]
    {
      hide Stripes, Whole;
      var lanes := StripeLoop(Lanes(v1, v2, v3, v4), p);
      v1, v2, v3, v4 := lanes.v1, lanes.v2, lanes.v3, lanes.v4;
      var rest := Slice(p.arr, p.lo + Whole(p.hi - p.lo), p.hi);
      if rest.lo < rest.hi {
        CopySlice(memory, 0, rest);
        memsize := rest.hi - rest.lo;
      }
      assert memory[..memsize] == rest.Bytes();
    }

    /** When bytes are pending: fill up the block, digest it, and go on behind it. */
    method TopUp(data: Slice) returns (p: Slice)
      requires memory.Length == 16 && memsize < 16 && data.InBounds() && data.arr != memory
      requires memsize + data.hi - data.lo >= 16
      modifies this`v1, this`v2, this`v3, this`v4, this`memsize, memory
      ensures memsize == 0 && p.InBounds() && p.arr == data.arr
      ensures var pending := old(memory[..memsize]) + data.Bytes();
        && Stripes(Lanes(v1, v2, v3, v4), p.Bytes()) == Stripes(old(Lanes(v1, v2, v3, v4)), pending)
        && p.Bytes()[Whole(|p.Bytes()|)..] == pending[Whole(|pending|)..]
    {
      hide Stripes, Whole;
      p := data;
      ghost var pending := memory[..memsize] + data.Bytes();
      if memsize > 0 {
        var nfree := 16 - memsize;
        ghost var before := memory[..memsize];
        var free := Slice(data.arr, data.lo, data.lo + nfree);
        CopySlice(memory, memsize, free);
        var block := Slice(memory, 0, 16);
        p := Slice(data.arr, data.lo + nfree, data.hi);
        FilledUp(memory[..], before, free.Bytes());
        assert pending == block.Bytes() + p.Bytes();
        StripesBlock(Lanes(v1, v2, v3, v4), block.Bytes(), p.Bytes());
        RestOfConcat(block.Bytes(), p.Bytes());
        var lanes := Rounds(Lanes(v1, v2, v3, v4), block, 0);
        assert block.Bytes()[0..16] == block.Bytes();
        v1, v2, v3, v4 := lanes.v1, lanes.v2, lanes.v3, lanes.v4;
        memsize := 0;
      } else {
        assert pending == data.Bytes();
      }
    }

    /** A nil slice, `None` here, and one above the limit are refused; an empty one makes feed panic. */
    method Write(data: Option<Slice>) returns (r: Written)
      requires Valid()
      requires data.Some? ==> data.value.InBounds() && data.value.arr != memory
      requires data.Some? ==> |input| + data.value.hi - data.value.lo < TWO_TO_THE_64
      modifies this, memory
      ensures Valid()
      ensures r == Refused <==> data.None? || |data.value.Bytes()| > 0x4000_0000
      ensures r == Crashed <==> data.Some? && data.value.Bytes() == []
      ensures r.Took? ==> r.nn == |data.value.Bytes()| && input == old(input) + data.value.Bytes()
      ensures !r.Took? ==> input == old(input)
    {
      hide Stripes, Whole;
      if data == None {
        return Refused;
      }
      var l := data.value.hi - data.value.lo;
      if l > MAX_WRITE {
        return Refused;
      }
      if l == 0 {
        // feed would take the address of data[0]
        return Crashed;
      }
      Feed(data.value);
      return Took(l);
    }

    method Sum32() returns (h32: bv32)
      requires Valid()
      ensures h32 == Sum(seed, input)
    {
      hide Stripes, Rest, Merge, Length32;
      if totalLen >= 16 {
        h32 := MergeLanes(Lanes(v1, v2, v3, v4));
      } else {
        h32 := seed + 374761393;
      }
      h32 := Add(h32, Length32(totalLen));
      h32 := RestLoop(h32, Slice(memory, 0, memsize));
      h32 := Finalize(h32);
    }
  }

  lemma FilledUp(all: seq<Byte>, a: seq<Byte>, b: seq<Byte>)
    requires |all| == |a| + |b| && all[..|a|] == a && all[|a|..] == b
    ensures all == a + b
  {
  }

  lemma StripesNone(l: Lanes, b: seq<Byte>)
    requires |b| < 16
    ensures Stripes(l, b) == l && Whole(|b|) == 0
  {
  }

  lemma RestLength(input: seq<Byte>)
    ensures |input| - Whole(|input|) == |input| % 16
  {
  }

  lemma StripesBlock(l: Lanes, b: seq<Byte>, rest: seq<Byte>)
    requires |b| == 16
    ensures Stripes(l, b + rest) == Stripes(Stripe(l, b), rest)
  {
    hide Stripe;
    assert (b + rest)[..16] == b && (b + rest)[16..] == rest;
  }

  // ---------- the loops, shared by both forms ----------

  /** The four rounds on 16 bytes. */
  method Rounds(l: Lanes, p: Slice, at: nat) returns (r: Lanes)
    requires p.InBounds() && at + 16 <= p.hi - p.lo
    ensures r == Stripe(l, p.Bytes()[at..at + 16])
  {
    hide Load32, Add, MulP1, MulP2, Rotl13;
    LoadsOfBlock(p.Bytes(), at);
    var w := LoadWord(p, at);
    var v1 := Add(l.v1, MulP2(w));
    v1 := MulP1(Rotl13(v1));
    w := LoadWord(p, at + 4);
    var v2 := Add(l.v2, MulP2(w));
    v2 := MulP1(Rotl13(v2));
    w := LoadWord(p, at + 8);
    var v3 := Add(l.v3, MulP2(w));
    v3 := MulP1(Rotl13(v3));
    w := LoadWord(p, at + 12);
    var v4 := Add(l.v4, MulP2(w));
    v4 := MulP1(Rotl13(v4));
    r := Lanes(v1, v2, v3, v4);
  }

  lemma LoadsOfBlock(b: seq<Byte>, at: nat)
    requires at + 16 <= |b|
    ensures Load32(b[at..at + 16], 0) == Load32(b, at) && Load32(b[at..at + 16], 4) == Load32(b, at + 4)
    ensures Load32(b[at..at + 16], 8) == Load32(b, at + 8) && Load32(b[at..at + 16], 12) == Load32(b, at + 12)
  {
    hide Word32;
  }

  method StripeLoop(l: Lanes, data: Slice) returns (r: Lanes)
    requires data.InBounds()
    ensures r == Stripes(l, data.Bytes())
  {
    hide Stripe;
    r := l;
    var p, n := 0, data.hi - data.lo;
    ghost var b := data.Bytes();
    assert b[0..] == b;
    while p + 16 <= n
      invariant p % 16 == 0 && p <= n
      invariant Stripes(r, b[p..]) == Stripes(l, b)
    {
      assert b[p..][..16] == b[p..p + 16] && b[p..][16..] == b[p + 16..];
      r := Rounds(r, data, p);
      p := p + 16;
    }
  }

  method MergeLanes(l: Lanes) returns (h32: bv32)
    ensures h32 == Merge(l)
  {
    hide Add, Rotl1, Rotl7, Rotl12, Rotl18;
    h32 := Add(Add(Add(Rotl1(l.v1), Rotl7(l.v2)), Rotl12(l.v3)), Rotl18(l.v4));
  }

  /** The two loops over what is left: words, then bytes. */
  method RestLoop(h: bv32, t: Slice) returns (h32: bv32)
    requires t.InBounds()
    ensures h32 == Rest(h, t.Bytes())
  {
    hide Rest, Load32, Add, MulP1, MulP3, MulP4, MulP5, Rotl11, Rotl17;
    h32 := h;
    var p, n := 0, t.hi - t.lo;
    ghost var b := t.Bytes();
    assert b[0..] == b;
    while p + 4 <= n
      invariant p <= n && Rest(h32, b[p..]) == Rest(h, b)
    {
      RestWord(h32, b, p);
      var w := LoadWord(t, p);
      h32 := Add(h32, MulP3(w));
      h32 := MulP4(Rotl17(h32));
      p := p + 4;
    }
    while p < n
      invariant n < p + 4 && p <= n && Rest(h32, b[p..]) == Rest(h, b)
    {
      RestByte(h32, b, p);
      h32 := Add(h32, MulP5(t.arr[t.lo + p] as bv32));
      h32 := MulP1(Rotl11(h32));
      p := p + 1;
    }
    RestNothing(h32, b[p..]);
  }

  lemma RestWord(h: bv32, b: seq<Byte>, p: nat)
    requires p + 4 <= |b|
    ensures Rest(h, b[p..]) == Rest(WordStep(h, Load32(b, p)), b[p + 4..])
  {
    hide Word32, WordStep;
    assert b[p..][4..] == b[p + 4..];
  }

  lemma RestByte(h: bv32, b: seq<Byte>, p: nat)
    requires p < |b| < p + 4
    ensures Rest(h, b[p..]) == Rest(ByteStep(h, b[p]), b[p + 1..])
  {
    hide ByteStep;
    assert b[p..][1..] == b[p + 1..];
  }

  lemma RestNothing(h: bv32, b: seq<Byte>)
    requires b == []
    ensures Rest(h, b) == h
  {
  }

  method Finalize(h: bv32) returns (h32: bv32)
    ensures h32 == Avalanche(h)
  {
    hide MulP2, MulP3, Shift13, Shift15, Shift16;
    h32 := Shift15(h);
    h32 := MulP2(h32);
    h32 := Shift13(h32);
    h32 := MulP3(h32);
    h32 := Shift16(h32);
  }

  /** The one-shot form; empty data makes it panic. */
  method Checksum32Seed(data: Slice, seed: bv32) returns (sum: Option<bv32>)
    requires data.InBounds()
    ensures sum == if data.Bytes() == [] then None else Some(Sum(seed, data.Bytes()))
  {
    hide Stripes, Rest, Merge, Length32, Stripe;
    var l := data.hi - data.lo;
    if l == 0 {
      // it takes the address of data[0]
      return None;
    }
    var p := 0;
    var h32: bv32;
    if l >= 16 {
      var lanes := StripeLoop(Start(seed), data);
      h32 := MergeLanes(lanes);
      p := l / 16 * 16;
    } else {
      h32 := seed + 374761393;
    }
    h32 := Add(h32, Length32(l));
    assert data.arr[data.lo + p..data.hi] == data.Bytes()[p..];
    h32 := RestLoop(h32, Slice(data.arr, data.lo + p, data.hi));
    h32 := Finalize(h32);
    sum := Some(h32);
  }

  /** Test_New32 of xxhash_test.go for every way of cutting non-empty data into non-empty writes. */
  method Streamed(data: Slice, seed: bv32, cuts: seq<nat>) returns (h32: bv32)
    requires data.InBounds() && Cutting(cuts, data.hi - data.lo) && data.hi - data.lo < TWO_TO_THE_64
    requires forall i | 0 < i < |cuts| :: cuts[i - 1] < cuts[i] <= cuts[i - 1] + 0x4000_0000
    ensures h32 == Sum(seed, data.Bytes())
  {
    hide XXHash.Valid, Sum;
    var digest := new XXHash(seed);
    for i := 1 to |cuts|
      invariant fresh(digest) && fresh(digest.memory) && digest.Valid() && digest.seed == seed
      invariant digest.input == data.Bytes()[..cuts[i - 1]]
    {
      NextCut(cuts, data.hi - data.lo, i);
      NextPiece(data, cuts[i - 1], cuts[i]);
      var r := digest.Write(Some(Slice(data.arr, data.lo + cuts[i - 1], data.lo + cuts[i])));
    }
    assert data.Bytes()[..cuts[|cuts| - 1]] == data.Bytes();
    h32 := digest.Sum32();
  }

  /** Going on with `p` after `input` is going on with the pending bytes and p. */
  lemma Resume(seed: bv32, input: seq<Byte>, p: seq<Byte>)
    ensures var pending := input[Whole(|input|)..];
      && Stripes(Start(seed), input + p) == Stripes(Stripes(Start(seed), input), pending + p)
      && (input + p)[Whole(|input + p|)..] == (pending + p)[Whole(|pending + p|)..]
  {
    hide Stripes;
    var w := Whole(|input|);
    var full, pending := input[..w], input[w..];
    assert input + p == full + (pending + p);
    StripesOfWhole(Start(seed), input);
    StripesAppend(Start(seed), full, pending + p);
    RestOfConcat(full, pending + p);
  }

  lemma RestOfConcat(a: seq<Byte>, b: seq<Byte>)
    requires |a| % 16 == 0
    ensures (a + b)[Whole(|a + b|)..] == b[Whole(|b|)..]
  {
    assert Whole(|a| + |b|) == |a| + Whole(|b|) by { assert (|a| + |b|) / 16 == |a| / 16 + |b| / 16; }
  }
}
