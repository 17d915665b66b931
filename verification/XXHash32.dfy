/** xxHash32 (xxhash.go) as folds, each step beside its inverse, and why close inputs never collide. */
module XXHash32 {
  import opened Words

  datatype Lanes = Lanes(v1: bv32, v2: bv32, v3: bv32, v4: bv32)

  // ---------- the arithmetic ----------

  function Round(v: bv32, w: bv32): bv32
  {
    MulP1(Rotl13(Add(v, MulP2(w))))
  }

  function WordStep(h: bv32, w: bv32): bv32
  {
    MulP4(Rotl17(Add(h, MulP3(w))))
  }

  function ByteStep(h: bv32, b: Byte): bv32
  {
    MulP1(Rotl11(Add(h, MulP5(b as bv32))))
  }

  function Merge(l: Lanes): bv32
  {
    Add(Add(Add(Rotl1(l.v1), Rotl7(l.v2)), Rotl12(l.v3)), Rotl18(l.v4))
  }

  function Avalanche(h: bv32): bv32
  {
    Shift16(MulP3(Shift13(MulP2(Shift15(h)))))
  }

  function Add(a: bv32, b: bv32): bv32 { a + b }
  function MulP1(x: bv32): bv32 { x * 2654435761 }
  function MulP2(x: bv32): bv32 { x * 2246822519 }
  function MulP3(x: bv32): bv32 { x * 3266489917 }
  function MulP4(x: bv32): bv32 { x * 668265263 }
  function MulP5(x: bv32): bv32 { x * 374761393 }
  function Rotl1(x: bv32): bv32 { (x << 1) | (x >> 31) }
  function Rotl7(x: bv32): bv32 { (x << 7) | (x >> 25) }
  function Rotl11(x: bv32): bv32 { (x << 11) | (x >> 21) }
  function Rotl12(x: bv32): bv32 { (x << 12) | (x >> 20) }
  function Rotl13(x: bv32): bv32 { (x << 13) | (x >> 19) }
  function Rotl17(x: bv32): bv32 { (x << 17) | (x >> 15) }
  function Rotl18(x: bv32): bv32 { (x << 18) | (x >> 14) }
  function Shift13(x: bv32): bv32 { x ^ (x >> 13) }
  function Shift15(x: bv32): bv32 { x ^ (x >> 15) }
  function Shift16(x: bv32): bv32 { x ^ (x >> 16) }

  // ---------- the sum ----------

  function Start(seed: bv32): Lanes
  {
    Lanes(seed + 2654435761 + 2246822519, seed + 2246822519, seed, seed - 2654435761)
  }

  function Stripe(l: Lanes, b: seq<Byte>): Lanes
    requires |b| == 16
  {
    Lanes(Round(l.v1, Load32(b, 0)), Round(l.v2, Load32(b, 4)), Round(l.v3, Load32(b, 8)), Round(l.v4, Load32(b, 12)))
  }

  /** All full 16-byte stripes. */
  function Stripes(l: Lanes, data: seq<Byte>): Lanes
    decreases |data|
  {
    if |data| < 16 then l else Stripes(Stripe(l, data[..16]), data[16..])
  }

  /** What is left: words first, then bytes. */
  function Rest(h: bv32, t: seq<Byte>): bv32
    decreases |t|
  {
    if |t| >= 4 then Rest(WordStep(h, Load32(t, 0)), t[4..])
    else if |t| > 0 then Rest(ByteStep(h, t[0]), t[1..])
    else h
  }

  function Length32(n: nat): bv32
  {
    (n % 0x1_0000_0000) as bv32
  }

  /** The hash before the rest: merged lanes from 16 bytes on, otherwise the seed alone. */
  function Merged(seed: bv32, data: seq<Byte>): bv32
  {
    Add(if |data| >= 16 then Merge(Stripes(Start(seed), data)) else seed + 374761393, Length32(|data|))
  }

  /** Where the rest starts. */
  function Whole(n: nat): (w: nat)
    ensures w <= n < w + 16 && w % 16 == 0
  {
    n / 16 * 16
  }

  function Sum(seed: bv32, data: seq<Byte>): bv32
  {
    Avalanche(Rest(Merged(seed, data), data[Whole(|data|)..]))
  }

  // ---------- the inverses ----------

  function Sub(a: bv32, b: bv32): bv32 { a - b }
  function DivP1(x: bv32): bv32 { x * 0xe8b2f51 }
  function DivP2(x: bv32): bv32 { x * 0xb6c92f47 }
  function DivP3(x: bv32): bv32 { x * 0xa89ed915 }
  function DivP4(x: bv32): bv32 { x * 0xa0fe3bcf }
  function DivP5(x: bv32): bv32 { x * 0xae398151 }
  function Rotr1(x: bv32): bv32 { (x >> 1) | (x << 31) }
  function Rotr7(x: bv32): bv32 { (x >> 7) | (x << 25) }
  function Rotr11(x: bv32): bv32 { (x >> 11) | (x << 21) }
  function Rotr12(x: bv32): bv32 { (x >> 12) | (x << 20) }
  function Rotr13(x: bv32): bv32 { (x >> 13) | (x << 19) }
  function Rotr17(x: bv32): bv32 { (x >> 17) | (x << 15) }
  function Rotr18(x: bv32): bv32 { (x >> 18) | (x << 14) }
  function Unshift13(x: bv32): bv32 { x ^ (x >> 13) ^ (x >> 26) }
  function Unshift15(x: bv32): bv32 { x ^ (x >> 15) ^ (x >> 30) }

  // Each primitive is undone on its raw term, which the solver simplifies to the argument.
  lemma RawProducts(x: bv32)
    ensures DivP1(x * 2654435761) == x && DivP2(x * 2246822519) == x && DivP3(x * 3266489917) == x
    ensures DivP4(x * 668265263) == x && DivP5(x * 374761393) == x
  {
  }

  lemma RawRotations(x: bv32)
    ensures Rotr1((x << 1) | (x >> 31)) == x && Rotr7((x << 7) | (x >> 25)) == x
    ensures Rotr11((x << 11) | (x >> 21)) == x && Rotr12((x << 12) | (x >> 20)) == x
    ensures Rotr13((x << 13) | (x >> 19)) == x && Rotr17((x << 17) | (x >> 15)) == x
    ensures Rotr18((x << 18) | (x >> 14)) == x
  {
  }

  lemma RawShifts(x: bv32)
    ensures Unshift13(x ^ (x >> 13)) == x && Unshift15(x ^ (x >> 15)) == x && Shift16(x ^ (x >> 16)) == x
  {
  }

  lemma RawAdd(a: bv32, b: bv32)
    ensures Sub(a + b, b) == a && Sub(a + b, a) == b
  {
  }

  lemma UndoAdd(a: bv32, b: bv32)
    ensures Sub(Add(a, b), b) == a && Sub(Add(a, b), a) == b
  {
    hide Sub;
    RawAdd(a, b);
  }

  lemma UndoProducts(x: bv32)
    ensures DivP1(MulP1(x)) == x && DivP2(MulP2(x)) == x && DivP3(MulP3(x)) == x
    ensures DivP4(MulP4(x)) == x && DivP5(MulP5(x)) == x
  {
    hide DivP1, DivP2, DivP3, DivP4, DivP5;
    RawProducts(x);
  }

  lemma UndoRotations(x: bv32)
    ensures Rotr1(Rotl1(x)) == x && Rotr7(Rotl7(x)) == x && Rotr11(Rotl11(x)) == x && Rotr12(Rotl12(x)) == x
    ensures Rotr13(Rotl13(x)) == x && Rotr17(Rotl17(x)) == x && Rotr18(Rotl18(x)) == x
  {
    hide Rotr1, Rotr7, Rotr11, Rotr12, Rotr13, Rotr17, Rotr18;
    RawRotations(x);
  }

  lemma UndoShifts(x: bv32)
    ensures Unshift13(Shift13(x)) == x && Unshift15(Shift15(x)) == x && Shift16(Shift16(x)) == x
  {
    hide Unshift13, Unshift15;
    RawShifts(x);
    assert Shift16(x) == x ^ (x >> 16);
  }

  lemma ByteInjective(a: Byte, b: Byte)
    requires a as bv32 == b as bv32
    ensures a == b
  {
  }

  /** For a fixed word a lane round is undone in the lane, for a fixed lane in the word. */
  lemma RoundInjective(v: bv32, u: bv32, w: bv32, x: bv32)
    requires Round(v, w) == Round(u, x) && (v == u || w == x)
    ensures v == u && w == x
  {
    hide Add, Sub, MulP1, MulP2, MulP3, MulP4, MulP5, DivP1, DivP2, DivP3, DivP4, DivP5,
      Rotl1, Rotl7, Rotl11, Rotl12, Rotl13, Rotl17, Rotl18,
      Rotr1, Rotr7, Rotr11, Rotr12, Rotr13, Rotr17, Rotr18;
    UndoProducts(Rotl13(Add(v, MulP2(w))));
    UndoProducts(Rotl13(Add(u, MulP2(x))));
    UndoRotations(Add(v, MulP2(w)));
    UndoRotations(Add(u, MulP2(x)));
    UndoAdd(v, MulP2(w));
    UndoAdd(u, MulP2(x));
    UndoProducts(w);
    UndoProducts(x);
  }

  lemma WordStepInjective(h: bv32, g: bv32, w: bv32, x: bv32)
    requires WordStep(h, w) == WordStep(g, x) && (h == g || w == x)
    ensures h == g && w == x
  {
    hide Add, Sub, MulP1, MulP2, MulP3, MulP4, MulP5, DivP1, DivP2, DivP3, DivP4, DivP5,
      Rotl1, Rotl7, Rotl11, Rotl12, Rotl13, Rotl17, Rotl18,
      Rotr1, Rotr7, Rotr11, Rotr12, Rotr13, Rotr17, Rotr18;
    UndoProducts(Rotl17(Add(h, MulP3(w))));
    UndoProducts(Rotl17(Add(g, MulP3(x))));
    UndoRotations(Add(h, MulP3(w)));
    UndoRotations(Add(g, MulP3(x)));
    UndoAdd(h, MulP3(w));
    UndoAdd(g, MulP3(x));
    UndoProducts(w);
    UndoProducts(x);
  }

  lemma ByteStepInjective(h: bv32, g: bv32, a: Byte, b: Byte)
    requires ByteStep(h, a) == ByteStep(g, b) && (h == g || a == b)
    ensures h == g && a == b
  {
    hide Add, Sub, MulP1, MulP2, MulP3, MulP4, MulP5, DivP1, DivP2, DivP3, DivP4, DivP5,
      Rotl1, Rotl7, Rotl11, Rotl12, Rotl13, Rotl17, Rotl18,
      Rotr1, Rotr7, Rotr11, Rotr12, Rotr13, Rotr17, Rotr18;
    var w, x := a as bv32, b as bv32;
    UndoProducts(Rotl11(Add(h, MulP5(w))));
    UndoProducts(Rotl11(Add(g, MulP5(x))));
    UndoRotations(Add(h, MulP5(w)));
    UndoRotations(Add(g, MulP5(x)));
    UndoAdd(h, MulP5(w));
    UndoAdd(g, MulP5(x));
    UndoProducts(w);
    UndoProducts(x);
    if w == x {
      ByteInjective(a, b);
    }
  }

  lemma AvalancheInjective(a: bv32, b: bv32)
    requires Avalanche(a) == Avalanche(b)
    ensures a == b
  {
    UndoAvalanche(a);
    UndoAvalanche(b);
  }

  function Unavalanche(h: bv32): bv32
  {
    Unshift15(DivP2(Unshift13(DivP3(Shift16(h)))))
  }

  lemma UndoAvalanche(h: bv32)
    ensures Unavalanche(Avalanche(h)) == h
  {
    hide MulP1, MulP2, MulP3, MulP4, MulP5, DivP1, DivP2, DivP3, DivP4, DivP5, Shift13, Shift15, Shift16,
      Unshift13, Unshift15;
    var a := MulP2(Shift15(h));
    UndoShifts(MulP3(Shift13(a)));
    UndoProducts(Shift13(a));
    UndoShifts(a);
    UndoProducts(Shift15(h));
    UndoShifts(h);
  }

  // ---------- folding in pieces ----------

  lemma {:induction false} StripesAppend(l: Lanes, a: seq<Byte>, b: seq<Byte>)
    requires |a| % 16 == 0
    ensures Stripes(l, a + b) == Stripes(Stripes(l, a), b)
    decreases |a|
  {
    hide Stripe;
    if a == [] {
      assert a + b == b;
    } else {
      assert (a + b)[..16] == a[..16] && (a + b)[16..] == a[16..] + b;
      StripesAppend(Stripe(l, a[..16]), a[16..], b);
    }
  }

  lemma {:induction false} RestAppend(h: bv32, a: seq<Byte>, b: seq<Byte>)
    requires |a| % 4 == 0
    ensures Rest(h, a + b) == Rest(Rest(h, a), b)
    decreases |a|
  {
    hide WordStep, ByteStep, Word32;
    if a == [] {
      assert a + b == b;
    } else {
      assert (a + b)[4..] == a[4..] + b;
      RestAppend(WordStep(h, Load32(a, 0)), a[4..], b);
    }
  }

  lemma {:induction false} RestInjective(h: bv32, g: bv32, t: seq<Byte>)
    requires Rest(h, t) == Rest(g, t)
    ensures h == g
    decreases |t|
  {
    hide WordStep, ByteStep, Load32;
    if |t| >= 4 {
      RestInjective(WordStep(h, Load32(t, 0)), WordStep(g, Load32(t, 0)), t[4..]);
      WordStepInjective(h, g, Load32(t, 0), Load32(t, 0));
    } else if |t| > 0 {
      RestInjective(ByteStep(h, t[0]), ByteStep(g, t[0]), t[1..]);
      ByteStepInjective(h, g, t[0], t[0]);
    }
  }

  // ---------- no collisions between close inputs ----------

  /** Exactly lane `j` differs. */
  predicate OnlyLane(l: Lanes, m: Lanes, j: nat)
    requires j < 4
  {
    && (l.v1 == m.v1 <==> j != 0) && (l.v2 == m.v2 <==> j != 1)
    && (l.v3 == m.v3 <==> j != 2) && (l.v4 == m.v4 <==> j != 3)
  }

  lemma MergeSees(l: Lanes, m: Lanes, j: nat)
    requires j < 4 && OnlyLane(l, m, j)
    ensures Merge(l) != Merge(m)
  {
    hide Add, Sub, Rotl1, Rotl7, Rotl11, Rotl12, Rotl13, Rotl17, Rotl18,
      Rotr1, Rotr7, Rotr11, Rotr12, Rotr13, Rotr17, Rotr18;
    UndoMerge(l);
    UndoMerge(m);
    UndoRotations(l.v1);
    UndoRotations(m.v1);
    UndoRotations(l.v2);
    UndoRotations(m.v2);
    UndoRotations(l.v3);
    UndoRotations(m.v3);
    UndoRotations(l.v4);
    UndoRotations(m.v4);
  }

  /** Each rotated lane follows from the merged value and the other three. */
  lemma UndoMerge(l: Lanes)
    ensures var (a, b, c, d) := (Rotl1(l.v1), Rotl7(l.v2), Rotl12(l.v3), Rotl18(l.v4));
      && a == Sub(Sub(Sub(Merge(l), d), c), b)
      && b == Sub(Sub(Sub(Merge(l), d), c), a)
      && c == Sub(Sub(Merge(l), d), Add(a, b))
      && d == Sub(Merge(l), Add(Add(a, b), c))
  {
    hide Add, Sub, Rotl1, Rotl7, Rotl12, Rotl18;
    var (a, b, c, d) := (Rotl1(l.v1), Rotl7(l.v2), Rotl12(l.v3), Rotl18(l.v4));
    UndoAdd(Add(Add(a, b), c), d);
    UndoAdd(Add(a, b), c);
    UndoAdd(a, b);
  }

  lemma {:induction false} StripesKeepLane(l: Lanes, m: Lanes, j: nat, data: seq<Byte>)
    requires j < 4 && OnlyLane(l, m, j)
    ensures OnlyLane(Stripes(l, data), Stripes(m, data), j)
    decreases |data|
  {
    hide Stripe;
    if |data| >= 16 {
      StripeKeepsLane(l, m, j, data[..16]);
      StripesKeepLane(Stripe(l, data[..16]), Stripe(m, data[..16]), j, data[16..]);
    }
  }

  lemma StripeKeepsLane(l: Lanes, m: Lanes, j: nat, b: seq<Byte>)
    requires j < 4 && OnlyLane(l, m, j) && |b| == 16
    ensures OnlyLane(Stripe(l, b), Stripe(m, b), j)
  {
    hide Round, Load32;
    var (w1, w2, w3, w4) := (Load32(b, 0), Load32(b, 4), Load32(b, 8), Load32(b, 12));
    if Round(l.v1, w1) == Round(m.v1, w1) { RoundInjective(l.v1, m.v1, w1, w1); }
    if Round(l.v2, w2) == Round(m.v2, w2) { RoundInjective(l.v2, m.v2, w2, w2); }
    if Round(l.v3, w3) == Round(m.v3, w3) { RoundInjective(l.v3, m.v3, w3, w3); }
    if Round(l.v4, w4) == Round(m.v4, w4) { RoundInjective(l.v4, m.v4, w4, w4); }
  }

  /** Two stripes that differ in word `j` only drive exactly lane `j` apart. */
  lemma StripeSplitsLane(l: Lanes, a: seq<Byte>, b: seq<Byte>, j: nat)
    requires j < 4 && |a| == |b| == 16
    requires forall i | 0 <= i < 4 :: Load32(a, 4 * i) == Load32(b, 4 * i) <==> i != j
    ensures OnlyLane(Stripe(l, a), Stripe(l, b), j)
  {
    hide Round, Load32;
    assert Load32(a, 4 * 0) == Load32(b, 4 * 0) <==> j != 0;
    assert Load32(a, 4 * 1) == Load32(b, 4 * 1) <==> j != 1;
    assert Load32(a, 4 * 2) == Load32(b, 4 * 2) <==> j != 2;
    assert Load32(a, 4 * 3) == Load32(b, 4 * 3) <==> j != 3;
    if Round(l.v1, Load32(a, 0)) == Round(l.v1, Load32(b, 0)) {
      RoundInjective(l.v1, l.v1, Load32(a, 0), Load32(b, 0));
    }
    if Round(l.v2, Load32(a, 4)) == Round(l.v2, Load32(b, 4)) {
      RoundInjective(l.v2, l.v2, Load32(a, 4), Load32(b, 4));
    }
    if Round(l.v3, Load32(a, 8)) == Round(l.v3, Load32(b, 8)) {
      RoundInjective(l.v3, l.v3, Load32(a, 8), Load32(b, 8));
    }
    if Round(l.v4, Load32(a, 12)) == Round(l.v4, Load32(b, 12)) {
      RoundInjective(l.v4, l.v4, Load32(a, 12), Load32(b, 12));
    }
  }

  lemma StripesOfWhole(l: Lanes, data: seq<Byte>)
    ensures Stripes(l, data) == Stripes(l, data[..Whole(|data|)])
  {
    hide Stripe;
    var w := Whole(|data|);
    assert data == data[..w] + data[w..];
    StripesAppend(l, data[..w], data[w..]);
  }

  /** Sums differ as soon as what reaches the finalizer differs. */
  lemma SumsDiffer(seed: bv32, a: seq<Byte>, b: seq<Byte>)
    requires Rest(Merged(seed, a), a[Whole(|a|)..]) != Rest(Merged(seed, b), b[Whole(|b|)..])
    ensures Sum(seed, a) != Sum(seed, b)
  {
    hide Rest, Merged, Whole, Avalanche;
    if Sum(seed, a) == Sum(seed, b) {
      AvalancheInjective(Rest(Merged(seed, a), a[Whole(|a|)..]), Rest(Merged(seed, b), b[Whole(|b|)..]));
    }
  }

  lemma StripeWordSplitsLane(l: Lanes, u: seq<Byte>, x: seq<Byte>, y: seq<Byte>, v: seq<Byte>)
    requires |u| % 4 == 0 && |x| == |y| == 4 && x != y && |u| + 4 + |v| == 16
    ensures OnlyLane(Stripe(l, u + x + v), Stripe(l, u + y + v), |u| / 4)
  {
    hide Stripe, Word32;
    var a, b, j := u + x + v, u + y + v, |u| / 4;
    forall i | 0 <= i < 4
      ensures Load32(a, 4 * i) == Load32(b, 4 * i) <==> i != j
    {
      if i == j {
        assert a[4 * i..4 * i + 4] == x && b[4 * i..4 * i + 4] == y;
        if Load32(a, 4 * i) == Load32(b, 4 * i) { Load32Injective(a, b, 4 * i); }
      } else {
        assert forall k | 4 * i <= k < 4 * i + 4 :: a[k] == b[k];
      }
    }
    StripeSplitsLane(l, a, b, j);
  }

  /** A changed word inside the stripes changes the merged hash. */
  lemma StripeWordChangesMerged(seed: bv32, pre: seq<Byte>, u: seq<Byte>, x: seq<Byte>, y: seq<Byte>, v: seq<Byte>,
                                post: seq<Byte>)
    requires |pre| % 16 == 0 && |u| % 4 == 0 && |x| == |y| == 4 && x != y && |u| + 4 + |v| == 16
    ensures Merged(seed, pre + (u + x + v + post)) != Merged(seed, pre + (u + y + v + post))
  {
    hide Stripe, Length32, Merge, Add, Sub;
    var a, b := pre + (u + x + v + post), pre + (u + y + v + post);
    var l := Stripes(Start(seed), pre);
    StripesAppend(Start(seed), pre, u + x + v + post);
    StripesAppend(Start(seed), pre, u + y + v + post);
    assert (u + x + v + post)[..16] == u + x + v && (u + x + v + post)[16..] == post;
    assert (u + y + v + post)[..16] == u + y + v && (u + y + v + post)[16..] == post;
    StripeWordSplitsLane(l, u, x, y, v);
    StripesKeepLane(Stripe(l, u + x + v), Stripe(l, u + y + v), |u| / 4, post);
    MergeSees(Stripes(Start(seed), a), Stripes(Start(seed), b), |u| / 4);
    UndoAdd(Merge(Stripes(Start(seed), a)), Length32(|a|));
    UndoAdd(Merge(Stripes(Start(seed), b)), Length32(|b|));
  }

  /** Main result: inputs of equal length that differ in one aligned word have different sums. */
  lemma WordChangesSum(seed: bv32, before: seq<Byte>, x: seq<Byte>, y: seq<Byte>, rest: seq<Byte>)
    requires |before| % 4 == 0 && |x| == |y| == 4 && x != y
    ensures Sum(seed, before + x + rest) != Sum(seed, before + y + rest)
  {
    hide Sum, Whole;
    var e := Whole(|before|);
    var pre, u := before[..e], before[e..];
    assert before == pre + u;
    AlignedPart(|before|, e);
    if e + 16 <= |before| + 4 + |rest| {
      WordInStripeChanges(seed, pre, u, x, y, rest);
    } else {
      WordInRestChanges(seed, pre, u, x, y, rest);
    }
  }

  lemma AlignedPart(n: nat, e: nat)
    requires n % 4 == 0 && e % 16 == 0 && e <= n < e + 16
    ensures (n - e) % 4 == 0 && n - e <= 12
  {
    var q, r := e / 16, n / 4;
    assert e == 16 * q && n == 4 * r;
    FourTimes(n - e, r - 4 * q);
  }

  lemma FourTimes(n: nat, k: int)
    requires n == 4 * k && n < 16
    ensures n % 4 == 0 && n <= 12
  {
  }

  lemma WordInStripeChanges(seed: bv32, pre: seq<Byte>, u: seq<Byte>, x: seq<Byte>, y: seq<Byte>, rest: seq<Byte>)
    requires |pre| % 16 == 0 && |u| % 4 == 0 && |x| == |y| == 4 && x != y && |u| + 4 <= 16 <= |u| + 4 + |rest|
    ensures Sum(seed, pre + u + x + rest) != Sum(seed, pre + u + y + rest)
  {
    hide Sum, Rest, Merged;
    var a, b := pre + u + x + rest, pre + u + y + rest;
    var k := 12 - |u|;
    var v, post := rest[..k], rest[k..];
    assert a == pre + (u + x + v + post) && b == pre + (u + y + v + post);
    StripeWordChangesMerged(seed, pre, u, x, y, v, post);
    assert a[Whole(|a|)..] == b[Whole(|b|)..];
    if Rest(Merged(seed, a), a[Whole(|a|)..]) == Rest(Merged(seed, b), a[Whole(|a|)..]) {
      RestInjective(Merged(seed, a), Merged(seed, b), a[Whole(|a|)..]);
    }
    SumsDiffer(seed, a, b);
  }

  lemma WordInRestChanges(seed: bv32, pre: seq<Byte>, u: seq<Byte>, x: seq<Byte>, y: seq<Byte>, rest: seq<Byte>)
    requires |pre| % 16 == 0 && |u| % 4 == 0 && |x| == |y| == 4 && x != y && |u| + 4 + |rest| < 16
    ensures Sum(seed, pre + u + x + rest) != Sum(seed, pre + u + y + rest)
  {
    hide Sum, Rest, Merged;
    var a, b := pre + u + x + rest, pre + u + y + rest;
    assert Whole(|a|) == |pre|;
    assert a[..|pre|] == pre == b[..|pre|];
    SameMerged(seed, a, b);
    assert a[|pre|..] == u + x + rest && b[|pre|..] == u + y + rest;
    RestWordChanges(Merged(seed, a), u, x, y, rest);
    SumsDiffer(seed, a, b);
  }

  lemma SameMerged(seed: bv32, a: seq<Byte>, b: seq<Byte>)
    requires |a| == |b| && a[..Whole(|a|)] == b[..Whole(|a|)]
    ensures Merged(seed, a) == Merged(seed, b)
  {
    hide Stripes, Merge, Length32;
    StripesOfWhole(Start(seed), a);
    StripesOfWhole(Start(seed), b);
  }

  lemma RestWordChanges(h: bv32, u: seq<Byte>, x: seq<Byte>, y: seq<Byte>, rest: seq<Byte>)
    requires |u| % 4 == 0 && |x| == |y| == 4 && x != y
    ensures Rest(h, u + x + rest) != Rest(h, u + y + rest)
  {
    hide WordStep, Word32;
    assert u + x + rest == u + (x + rest) && u + y + rest == u + (y + rest);
    RestAppend(h, u, x + rest);
    RestAppend(h, u, y + rest);
    var g, k, l := Rest(h, u), Load32(x + rest, 0), Load32(y + rest, 0);
    assert (x + rest)[4..] == rest && (y + rest)[4..] == rest;
    if Rest(h, u + x + rest) == Rest(h, u + y + rest) {
      RestInjective(WordStep(g, k), WordStep(g, l), rest);
      WordStepInjective(g, g, k, l);
      assert (x + rest)[0..4] == x && (y + rest)[0..4] == y;
      Load32Injective(x + rest, y + rest, 0);
    }
  }

  lemma {:induction false} BytesAppend(h: bv32, u: seq<Byte>, t: seq<Byte>)
    requires |u| + |t| < 4
    ensures Rest(h, u + t) == Rest(Rest(h, u), t)
    decreases |u|
  {
    hide ByteStep;
    if u == [] {
      assert u + t == t;
    } else {
      assert (u + t)[1..] == u[1..] + t;
      BytesAppend(ByteStep(h, u[0]), u[1..], t);
    }
  }

  /** Main result: and so do inputs that differ in one of the up to three trailing bytes. */
  lemma ByteChangesSum(seed: bv32, words: seq<Byte>, u: seq<Byte>, p: Byte, q: Byte, rest: seq<Byte>)
    requires |words| % 4 == 0 && |u| + 1 + |rest| < 4 && p != q
    ensures Sum(seed, words + (u + [p] + rest)) != Sum(seed, words + (u + [q] + rest))
  {
    hide Sum, Rest, Merged, ByteStep;
    var t, s := u + [p] + rest, u + [q] + rest;
    var a, b := words + t, words + s;
    var w := Whole(|a|);
    SameMerged(seed, a, b);
    assert a[w..] == words[w..] + t && b[w..] == words[w..] + s;
    var h := Merged(seed, a);
    RestAppend(h, words[w..], t);
    RestAppend(h, words[w..], s);
    TrailingByteChanges(Rest(h, words[w..]), u, p, q, rest);
    SumsDiffer(seed, a, b);
  }

  lemma TrailingByteChanges(h: bv32, u: seq<Byte>, p: Byte, q: Byte, rest: seq<Byte>)
    requires |u| + 1 + |rest| < 4 && p != q
    ensures Rest(h, u + [p] + rest) != Rest(h, u + [q] + rest)
  {
    hide ByteStep;
    assert u + [p] + rest == u + ([p] + rest) && u + [q] + rest == u + ([q] + rest);
    BytesAppend(h, u, [p] + rest);
    BytesAppend(h, u, [q] + rest);
    var g := Rest(h, u);
    assert ([p] + rest)[1..] == rest && ([q] + rest)[1..] == rest;
    if Rest(h, u + [p] + rest) == Rest(h, u + [q] + rest) {
      RestInjective(ByteStep(g, p), ByteStep(g, q), rest);
      ByteStepInjective(g, g, p, q);
    }
  }

  // ---------- two sums of xxhash_test.go ----------

  const DIGITS: seq<Byte> := [
    0x31, 0x32, 0x33, 0x34, 0x35, 0x36, 0x37, 0x38, 0x39, 0x30, 0x31, 0x32, 0x33, 0x34, 0x35, 0x36]
  const COOKIES: seq<Byte> := [0x43, 0x6f, 0x6f, 0x6b, 0x69, 0x65, 0x73]

  lemma KnownStripe()
    ensures Stripe(Start(1), DIGITS) == Lanes(0xc7e293b0, 0xd1ed4880, 0x5caf9897, 0x5f31e030)
  {
    assert Load32(DIGITS, 0) == 0x34333231 && Load32(DIGITS, 4) == 0x38373635;
    assert Load32(DIGITS, 8) == 0x32313039 && Load32(DIGITS, 12) == 0x36353433;
  }

  lemma KnownLength(n: nat)
    requires n == 7 || n == 16
    ensures Length32(n) == if n == 7 then 7 else 16
  {
    assert n % 0x1_0000_0000 == n;
  }

  lemma KnownMerge()
    ensures Add(Merge(Lanes(0xc7e293b0, 0xd1ed4880, 0x5caf9897, 0x5f31e030)), 16) == 0xb45a6a
    ensures Avalanche(0xb45a6a) == 0x606913c4
  {
  }

  lemma KnownSumOfStripe()
    ensures Sum(1, DIGITS) == 0x606913c4
  {
    hide Stripe, Length32, Merge, Avalanche, Add;
    assert DIGITS[..16] == DIGITS && DIGITS[16..] == [];
    assert Stripes(Start(1), DIGITS) == Stripe(Start(1), DIGITS);
    KnownStripe();
    KnownLength(16);
    KnownMerge();
  }

  lemma KnownSteps()
    ensures WordStep(0x16eefcea, 0x6b6f6f43) == 0xa349ed5c
    ensures ByteStep(0xa349ed5c, 0x69) == 0x661050d5 && ByteStep(0x661050d5, 0x65) == 0xcd992461
    ensures ByteStep(0xcd992461, 0x73) == 0xb2715cc3 && Avalanche(0xb2715cc3) == 0xcd3ae44c
    ensures Load32(COOKIES, 0) == 0x6b6f6f43
  {
  }

  lemma KnownSumOfRest()
    ensures Sum(9999666, COOKIES) == 0xcd3ae44c
  {
    hide WordStep, ByteStep, Load32, Length32, Avalanche;
    KnownSteps();
    KnownLength(7);
    assert Merged(9999666, COOKIES) == 0x16eefcea;
    assert COOKIES[0..] == COOKIES && COOKIES[4..] == [0x69, 0x65, 0x73];
    assert COOKIES[4..][1..] == [0x65, 0x73] && [0x65, 0x73][1..] == [0x73 as Byte];
    assert Rest(0xcd992461, [0x73]) == 0xb2715cc3;
    assert Rest(0x661050d5, [0x65, 0x73]) == 0xb2715cc3;
    assert Rest(0xa349ed5c, COOKIES[4..]) == 0xb2715cc3;
  }
}
