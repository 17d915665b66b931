/** Counting in digits with bounds of their own, and counting in one machine word (bigcounter.go):
    what the two counters compute, and when they agree. */
module Odometer {
  import opened Options
  import opened Bytes

  // ---------- digits with bounds ----------

  datatype Bounds = Bounds(init: seq<byte>, max: seq<byte>)

  /** Every digit lies between its bounds. */
  predicate Within(b: Bounds, count: seq<byte>) {
    |b.init| == |b.max| == |count| &&
    forall i | 0 <= i < |count| :: b.init[i] <= count[i] <= b.max[i]
  }

  /** Without the last digit. */
  function Shorter(b: Bounds): Bounds
    requires |b.init| == |b.max| > 0
  {
    Bounds(b.init[..|b.init| - 1], b.max[..|b.max| - 1])
  }

  /** The last digit's radix. */
  function Radix(b: Bounds): (r: nat)
    requires Within(b, b.init) && b.init != []
    ensures r > 0
  {
    b.max[|b.max| - 1] as int - b.init[|b.init| - 1] as int + 1
  }

  /** A digit `d` of radix `r` behind a number. */
  function Mix(hi: nat, r: nat, d: nat): nat
  {
    hi * r + d
  }

  lemma Times(a: nat, b: nat, r: nat)
    requires a <= b
    ensures a * r <= b * r
  {
  }

  lemma MixRange(hi: nat, cap: nat, r: nat, d: nat)
    requires hi < cap && d < r
    ensures Mix(hi, r, d) < Mix(cap, r, 0)
    ensures Mix(hi, r, d) == 0 <==> hi == 0 && d == 0
    ensures Mix(hi, r, d) == Mix(cap, r, 0) - 1 <==> hi == cap - 1 && d == r - 1
  {
    MixCarry(hi, r);
    if hi < cap - 1 {
      Times(hi + 2, cap, r);
      MixCarry(hi + 1, r);
    }
    if hi > 0 {
      Times(1, hi, r);
    }
  }

  lemma MixCarry(hi: nat, r: nat)
    requires r > 0
    ensures Mix(hi + 1, r, 0) == Mix(hi, r, r - 1) + 1
  {
    assert (hi + 1) * r == hi * r + r;
  }

  lemma MixNext(hi: nat, r: nat, d: nat)
    ensures Mix(hi, r, d + 1) == Mix(hi, r, d) + 1
  {
  }

  /** How many values the digits can take. */
  function Capacity(b: Bounds): (c: nat)
    requires Within(b, b.init)
    ensures c > 0
    decreases |b.init|
  {
    if b.init == [] then 1 else
    MixRange(0, Capacity(Shorter(b)), Radix(b), 0);
    Mix(Capacity(Shorter(b)), Radix(b), 0)
  }

  /** The number the digits stand for, in the mixed radix of their bounds. */
  function Value(b: Bounds, count: seq<byte>): nat
    requires Within(b, count)
    decreases |count|
  {
    if count == [] then 0 else
    var n := |count| - 1;
    Mix(Value(Shorter(b), count[..n]), Radix(b), count[n] as int - b.init[n] as int)
  }

  lemma ValueStep(b: Bounds, p: seq<byte>, d: byte)
    requires |b.init| == |b.max| == |p| + 1 && Within(Shorter(b), p) && b.init[|p|] <= d <= b.max[|p|]
    ensures Within(b, p + [d]) && Within(b, b.init)
    ensures Value(b, p + [d]) == Mix(Value(Shorter(b), p), Radix(b), d as int - b.init[|p|] as int)
  {
    hide Mix;
    assert (p + [d])[..|p|] == p;
  }

  lemma SameLength(b: Bounds, count: seq<byte>)
    requires Within(b, count)
    ensures |b.init| == |b.max| == |count| && Within(b, b.init) && Within(b, b.max)
  {
  }

  /** Digits within their bounds, with and without the last. */
  lemma LastDigit(b: Bounds, count: seq<byte>)
    requires Within(b, count) && count != []
    ensures |b.init| == |b.max| == |count| && Within(b, b.init) && Within(Shorter(b), b.init[..|count| - 1])
    ensures var n := |count| - 1; Within(Shorter(b), count[..n]) && b.init[n] <= count[n] <= b.max[n]
    ensures var n := |count| - 1; count == b.init <==> count[..n] == b.init[..n] && count[n] == b.init[n]
    ensures var n := |count| - 1; count == b.max <==> count[..n] == b.max[..n] && count[n] == b.max[n]
  {
    SameByLast(count, b.init);
    SameByLast(count, b.max);
  }

  lemma SameByLast(a: seq<byte>, c: seq<byte>)
    requires |a| == |c| > 0
    ensures var n := |a| - 1; a == c <==> a[..n] == c[..n] && a[n] == c[n]
  {
    var n := |a| - 1;
    assert a == a[..n] + [a[n]] && c == c[..n] + [c[n]];
  }

  /** The digits count from zero, all at their lower bounds, to the capacity, all at their upper. */
  lemma {:induction false} ValueRange(b: Bounds, count: seq<byte>)
    requires Within(b, count)
    ensures Value(b, count) < Capacity(b)
    ensures Value(b, count) == 0 <==> count == b.init
    ensures Value(b, count) == Capacity(b) - 1 <==> count == b.max
    decreases |count|
  {
    hide Mix, Within;
    SameLength(b, count);
    if count != [] {
      var n := |count| - 1;
      LastDigit(b, count);
      ValueRange(Shorter(b), count[..n]);
      MixRange(Value(Shorter(b), count[..n]), Capacity(Shorter(b)), Radix(b), count[n] as int - b.init[n] as int);
    }
  }

  /** Plus, from the last digit; None where it runs over the first. */
  function PlusDigits(b: Bounds, count: seq<byte>): (r: Option<seq<byte>>)
    requires Within(b, count)
    ensures r.Some? ==> Within(b, r.value)
    decreases |count|
  {
    if count == [] then None else
    var n := |count| - 1;
    if count[n] == b.max[n] then
      match PlusDigits(Shorter(b), count[..n])
      case None => None
      case Some(p) => Some(p + [b.init[n]])
    else Some(count[..n] + [(count[n] as int + 1) as byte])
  }

  /** Plus adds one, and fails exactly at the top. */
  lemma {:induction false} PlusCounts(b: Bounds, count: seq<byte>)
    requires Within(b, count)
    ensures PlusDigits(b, count) == None <==> count == b.max
    ensures PlusDigits(b, count).Some? ==> Value(b, PlusDigits(b, count).value) == Value(b, count) + 1
    decreases |count|
  {
    hide Mix, Value, Radix, Within;
    SameLength(b, count);
    if count != [] {
      var n := |count| - 1;
      LastDigit(b, count);
      PlusCounts(Shorter(b), count[..n]);
      assert count == count[..n] + [count[n]];
      if count[n] != b.max[n] {
        PlusStays(b, count[..n], count[n]);
      } else if PlusDigits(Shorter(b), count[..n]).Some? {
        var q := PlusDigits(Shorter(b), count[..n]).value;
        SameLength(Shorter(b), q);
        PlusCarries(b, count[..n], q);
      }
    }
  }

  /** The last digit is at its upper bound: it starts over, and the digits before it go on. */
  lemma PlusCarries(b: Bounds, p: seq<byte>, q: seq<byte>)
    requires |b.init| == |b.max| == |p| + 1 && b.init[|p|] <= b.max[|p|] && |q| == |p|
    requires Within(Shorter(b), p) && Within(Shorter(b), q) && Value(Shorter(b), q) == Value(Shorter(b), p) + 1
    ensures Within(b, p + [b.max[|p|]]) && Within(b, q + [b.init[|p|]])
    ensures Value(b, q + [b.init[|p|]]) == Value(b, p + [b.max[|p|]]) + 1
  {
    hide Mix, Value, Radix, PlusDigits;
    ValueStep(b, p, b.max[|p|]);
    ValueStep(b, q, b.init[|p|]);
    LastCarries(b, Value(Shorter(b), p));
  }

  /** The last digit goes on. */
  lemma PlusStays(b: Bounds, p: seq<byte>, d: byte)
    requires |b.init| == |b.max| == |p| + 1 && Within(Shorter(b), p) && b.init[|p|] <= d < b.max[|p|]
    ensures Within(b, p + [d]) && Within(b, p + [(d as int + 1) as byte])
    ensures Value(b, p + [(d as int + 1) as byte]) == Value(b, p + [d]) + 1
  {
    hide Mix, Value, Radix, PlusDigits;
    ValueStep(b, p, d);
    ValueStep(b, p, (d as int + 1) as byte);
    MixNext(Value(Shorter(b), p), Radix(b), d as int - b.init[|p|] as int);
  }

  lemma LastCarries(b: Bounds, hi: nat)
    requires Within(b, b.init) && b.init != []
    ensures var n := |b.init| - 1;
            Mix(hi + 1, Radix(b), 0) == Mix(hi, Radix(b), b.max[n] as int - b.init[n] as int) + 1
  {
    MixCarry(hi, Radix(b));
  }

  /** What an operation leaves, and whether it failed. */
  datatype Done<T> = Done(count: T, failed: bool)

  /** AddUint64: Plus, `m` times, up to the first failure. */
  function AddDigits(b: Bounds, count: seq<byte>, m: nat): (r: Done<seq<byte>>)
    requires Within(b, b.init) && Within(b, count)
    ensures Within(b, r.count)
    decreases m
  {
    if m == 0 then Done(count, false) else
    match PlusDigits(b, count)
    case None => Done(b.init, true)
    case Some(c) => AddDigits(b, c, m - 1)
  }

  /** AddUint64 adds, or starts over when the sum does not fit. */
  lemma {:induction false} AddCounts(b: Bounds, count: seq<byte>, m: nat)
    requires Within(b, b.init) && Within(b, count)
    ensures var r := AddDigits(b, count, m);
            if Value(b, count) + m < Capacity(b) then !r.failed && Value(b, r.count) == Value(b, count) + m
            else r.failed && r.count == b.init
    decreases m
  {
    hide Value, Capacity, PlusDigits;
    ValueRange(b, count);
    PlusCounts(b, count);
    if m > 0 && PlusDigits(b, count).Some? {
      AddCounts(b, PlusDigits(b, count).value, m - 1);
    }
  }

  // ---------- one machine word ----------

  /** fix64base.max for a size of 1 to 8. */
  function WordMax(size: nat): (m: nat)
    requires 1 <= size <= 8
    ensures m < TWO_TO_THE_64
  {
    Pow256Bound(size);
    if size == 8 then TWO_TO_THE_64 - 2 else Pow256(size) - 1
  }

  lemma Pow256Bound(size: nat)
    requires size <= 8
    ensures Pow256(size) <= TWO_TO_THE_64
  {
    assert Pow256(2) == 0x1_0000;
    assert Pow256(4) == 0x1_0000_0000;
    assert Pow256(6) == 0x1_0000_0000_0000;
    assert Pow256(8) == TWO_TO_THE_64;
  }

  function PlusWord(max: nat, count: nat): Done<nat>
    requires count <= max
  {
    if count >= max then Done(0, true) else Done(count + 1, false)
  }

  function AddWord(max: nat, count: nat, m: nat): (r: Done<nat>)
    requires count <= max
    ensures r == if count + m <= max then Done(count + m, false) else Done(0, true)
    decreases m
  {
    if m == 0 then Done(count, false)
    else if count >= max then Done(0, true)
    else AddWord(max, count + 1, m - 1)
  }

  /** The `size` low-order bytes of a word, most significant first. */
  function BigEndian(n: nat, size: nat): (s: seq<byte>)
    ensures |s| == size
  {
    if size == 0 then [] else BigEndian(n / 256, size - 1) + [n % 256]
  }

  // ---------- the two counters ----------

  datatype Op = Plus | Add(m: nat) | Reset(over: bool)

  /** What a caller sees of one operation: its error and the bytes afterwards. */
  datatype Seen = Seen(failed: bool, bytes: seq<byte>)

  /** The bounds NewAny255Base sets. */
  function Default(size: nat): (b: Bounds)
    ensures Within(b, b.init) && Within(b, b.max) && |b.init| == size
  {
    Bounds(seq(size, _ => 0 as byte), seq(size, _ => 255 as byte))
  }

  function DigitsOp(b: Bounds, count: seq<byte>, op: Op): (r: Done<seq<byte>>)
    requires Within(b, b.init) && Within(b, b.max) && Within(b, count)
    ensures Within(b, r.count)
  {
    match op
    case Plus =>
      (match PlusDigits(b, count)
       case None => Done(b.init, true)
       case Some(c) => Done(c, false))
    case Add(m) => AddDigits(b, count, m)
    case Reset(over) => Done(if over then b.init else b.max, false)
  }

  function WordOp(max: nat, count: nat, op: Op): (r: Done<nat>)
    requires count <= max
    ensures r.count <= max
  {
    match op
    case Plus => PlusWord(max, count)
    case Add(m) => AddWord(max, count, m)
    case Reset(over) => Done(if over then 0 else max, false)
  }

  function RunDigits(b: Bounds, count: seq<byte>, ops: seq<Op>): seq<Seen>
    requires Within(b, b.init) && Within(b, b.max) && Within(b, count)
    decreases |ops|
  {
    if ops == [] then [] else
    var d := DigitsOp(b, count, ops[0]);
    [Seen(d.failed, d.count)] + RunDigits(b, d.count, ops[1..])
  }

  function RunWord(size: nat, max: nat, count: nat, ops: seq<Op>): seq<Seen>
    requires count <= max
    decreases |ops|
  {
    if ops == [] then [] else
    var d := WordOp(max, count, ops[0]);
    [Seen(d.failed, BigEndian(d.count, size))] + RunWord(size, max, d.count, ops[1..])
  }

  /** Newfix64base keeps at most eight bytes. */
  function WordSize(size: nat): nat
  {
    if size > 8 then 8 else size
  }

  ghost predicate Agree(size: nat, ops: seq<Op>)
    requires size > 0
  {
    RunDigits(Default(size), Default(size).init, ops) == RunWord(WordSize(size), WordMax(WordSize(size)), 0, ops)
  }

  // ---------- agreement ----------

  lemma {:induction false} DefaultCapacity(size: nat)
    ensures Capacity(Default(size)) == Pow256(size)
  {
    if size > 0 {
      DefaultCapacity(size - 1);
      assert Shorter(Default(size)) == Default(size - 1);
    }
  }

  /** With default bounds the digits are the bytes of the number they stand for. */
  lemma {:induction false} DefaultBytes(count: seq<byte>)
    ensures Within(Default(|count|), count)
    ensures BigEndian(Value(Default(|count|), count), |count|) == count
  {
    hide Value, Mix;
    var size := |count|;
    if size > 0 {
      var n := size - 1;
      DefaultBytes(count[..n]);
      assert count == count[..n] + [count[n]];
      DefaultStep(count[..n], count[n]);
      MixBytes(Value(Default(n), count[..n]), count[n]);
    }
  }

  lemma DefaultStep(p: seq<byte>, d: byte)
    ensures Within(Default(|p|), p) && Within(Default(|p| + 1), p + [d])
    ensures Value(Default(|p| + 1), p + [d]) == Mix(Value(Default(|p|), p), 256, d)
  {
    hide Value, Mix, Within, Default;
    DefaultWithin(p);
    DefaultWithin(p + [d]);
    DefaultShorter(|p|);
    ValueStep(Default(|p| + 1), p, d);
  }

  lemma DefaultShorter(n: nat)
    ensures Shorter(Default(n + 1)) == Default(n) && Radix(Default(n + 1)) == 256
    ensures Default(n + 1).init[n] == 0 && Default(n + 1).max[n] == 255
  {
  }

  lemma DefaultWithin(count: seq<byte>)
    ensures Within(Default(|count|), count)
  {
  }

  lemma MixBytes(hi: nat, d: byte)
    ensures Mix(hi, 256, d) / 256 == hi && Mix(hi, 256, d) % 256 == d as int
  {
  }

  /** One operation keeps a digit counter and a word counter of up to seven bytes in step. */
  lemma OpAgrees(size: nat, count: seq<byte>, op: Op)
    requires 1 <= size <= 7 && |count| == size
    ensures Within(Default(size), count) && Value(Default(size), count) <= WordMax(size)
    ensures var d, w := DigitsOp(Default(size), count, op), WordOp(WordMax(size), Value(Default(size), count), op);
            d.failed == w.failed && Value(Default(size), d.count) == w.count
  {
    hide Value, Capacity, PlusDigits, AddDigits, Default, Within, WordMax, Pow256;
    var b := Default(size);
    DefaultRange(size, count);
    match op
    case Plus =>
      PlusCounts(b, count);
    case Add(m) =>
      AddCounts(b, count, m);
    case Reset(_) =>
  }

  /** Default bounds of up to seven bytes against the word counter's. */
  lemma DefaultRange(size: nat, count: seq<byte>)
    requires 1 <= size <= 7 && |count| == size
    ensures var b := Default(size);
            Within(b, count) && Value(b, count) <= WordMax(size) && Capacity(b) == WordMax(size) + 1 &&
            (Value(b, count) == WordMax(size) <==> count == b.max) &&
            Value(b, b.init) == 0 && Value(b, b.max) == WordMax(size)
  {
    hide Value, Capacity, Within;
    var b := Default(size);
    DefaultWithin(count);
    DefaultCapacity(size);
    ValueRange(b, count);
    ValueRange(b, b.init);
    ValueRange(b, b.max);
  }

  lemma {:induction false} RunsAgree(size: nat, count: seq<byte>, ops: seq<Op>)
    requires 1 <= size <= 7 && |count| == size
    ensures Within(Default(size), count) && Value(Default(size), count) <= WordMax(size)
    ensures RunDigits(Default(size), count, ops) == RunWord(size, WordMax(size), Value(Default(size), count), ops)
    decreases |ops|
  {
    if ops == [] {
      OpAgrees(size, count, Plus);
    } else {
      OpAgrees(size, count, ops[0]);
      var d := DigitsOp(Default(size), count, ops[0]);
      DefaultBytes(d.count);
      RunsAgree(size, d.count, ops[1..]);
    }
  }

  /** The two counters give the same errors and the same bytes in every run exactly for sizes of one
      to seven bytes. At eight, the word counter's maximum is one too small; above, it is too short. */
  lemma AgreeExactly(size: nat)
    requires size > 0
    ensures (forall ops :: Agree(size, ops)) <==> size <= 7
  {
    if size <= 7 {
      forall ops
        ensures Agree(size, ops)
      {
        var b := Default(size);
        ValueRange(b, b.init);
        RunsAgree(size, b.init, ops);
      }
    } else {
      var ops := [Reset(false)];
      var b := Default(size);
      assert RunDigits(b, b.init, ops)[0] == Seen(false, b.max);
      var max := WordMax(WordSize(size));
      assert RunWord(WordSize(size), max, 0, ops)[0] == Seen(false, BigEndian(max, 8));
      if size == 8 {
        assert BigEndian(max, 8)[7] == 254;
      }
      assert !Agree(size, ops);
    }
  }

  // ---------- eight bytes ----------

  /** The bytes of a number that fits stand for it. */
  lemma {:induction false} BytesValue(n: nat, size: nat)
    requires n < Pow256(size)
    ensures Within(Default(size), BigEndian(n, size)) && Value(Default(size), BigEndian(n, size)) == n
  {
    hide Value, Within, Default;
    DefaultWithin(BigEndian(n, size));
    if size == 0 {
      NoDigits();
    } else {
      var p, d := BigEndian(n / 256, size - 1), n % 256;
      BytesValue(n / 256, size - 1);
      DefaultStep(p, d);
      assert Mix(n / 256, 256, d) == n;
    }
  }

  lemma NoDigits()
    ensures Value(Default(0), []) == 0
  {
  }

  /** Two to the 64th. */
  lemma EightBytes()
    ensures Pow256(8) == 0x1_0000_0000_0000_0000
  {
    assert Pow256(2) == 0x1_0000;
    assert Pow256(4) == 0x1_0000_0000;
    assert Pow256(6) == 0x1_0000_0000_0000;
  }

  /** Eight digits below their top, and what stands at the top. */
  lemma EightRange(count: seq<byte>)
    requires |count| == 8
    ensures var b := Default(8);
            Within(b, count) && Within(b, b.max) && Value(b, b.init) == 0 && Capacity(b) == 0x1_0000_0000_0000_0000 &&
            Value(b, count) < Capacity(b) && (Value(b, count) == 0xFFFF_FFFF_FFFF_FFFF <==> count == b.max)
  {
    hide Value, Capacity, Within;
    var b := Default(8);
    EightBytes();
    DefaultWithin(count);
    DefaultWithin(b.init);
    DefaultWithin(b.max);
    DefaultCapacity(8);
    ValueRange(b, count);
    ValueRange(b, b.init);
  }

  /** As long as eight digits do not reach their top, the word counter keeps up with them. */
  lemma EightAgrees(count: seq<byte>, op: Op)
    requires |count| == 8 && count != Default(8).max
    ensures Within(Default(8), count) && Value(Default(8), count) <= WordMax(8)
    ensures var d, w := DigitsOp(Default(8), count, op), WordOp(WordMax(8), Value(Default(8), count), op);
            (Seen(d.failed, d.count) == Seen(w.failed, BigEndian(w.count, 8)) <==> d.count != Default(8).max) &&
            (d.count != Default(8).max ==> Value(Default(8), d.count) == w.count)
  {
    hide Value, Capacity, PlusDigits, AddDigits, Default, Within, Pow256, BigEndian;
    var b := Default(8);
    EightRange(count);
    PlusCounts(b, count);
    if op.Add? {
      AddCounts(b, count, op.m);
    }
    var d, w := DigitsOp(b, count, op), WordOp(WordMax(8), Value(b, count), op);
    SameLength(b, d.count);
    EightRange(d.count);
    DefaultBytes(d.count);
    EightBytes();
    BytesValue(w.count, 8);
  }

  lemma {:induction false} EightRuns(count: seq<byte>, ops: seq<Op>)
    requires |count| == 8 && count != Default(8).max
    ensures Within(Default(8), count) && Value(Default(8), count) <= WordMax(8)
    ensures RunDigits(Default(8), count, ops) == RunWord(8, WordMax(8), Value(Default(8), count), ops) <==>
            BelowTop(8, RunDigits(Default(8), count, ops))
    decreases |ops|
  {
    hide Value, Default, Within, WordMax, BigEndian, DigitsOp, WordOp;
    if ops == [] {
      EightAgrees(count, Plus);
    } else {
      var b := Default(8);
      EightAgrees(count, ops[0]);
      var d, w := DigitsOp(b, count, ops[0]), WordOp(WordMax(8), Value(b, count), ops[0]);
      assert RunDigits(b, count, ops)[0] == Seen(d.failed, d.count);
      assert RunWord(8, WordMax(8), Value(b, count), ops)[0] == Seen(w.failed, BigEndian(w.count, 8));
      if d.count != b.max {
        EightRuns(d.count, ops[1..]);
        FirstSeen(Seen(d.failed, d.count), RunDigits(b, d.count, ops[1..]),
                  RunWord(8, WordMax(8), w.count, ops[1..]));
      }
    }
  }

  lemma FirstSeen(s: Seen, a: seq<Seen>, c: seq<Seen>)
    ensures [s] + a == [s] + c <==> a == c
    ensures s.bytes != Default(8).max ==> (BelowTop(8, [s] + a) <==> BelowTop(8, a))
  {
    assert ([s] + a)[1..] == a && ([s] + c)[1..] == c;
    assert forall i | 0 <= i < |a| :: ([s] + a)[i + 1] == a[i];
  }

  /** All digits at their upper bound are never seen. */
  predicate BelowTop(size: nat, seen: seq<Seen>) {
    forall i | 0 <= i < |seen| :: seen[i].bytes != Default(size).max
  }

  /** In which runs the two counters agree: up to seven bytes in all; at eight exactly as long as the digits
      do not reach their top, 2^64 - 1, which the word counter fails to reach; above eight in none. */
  lemma RunAgreesExactly(size: nat, ops: seq<Op>)
    requires size > 0 && ops != []
    ensures Agree(size, ops) <==>
            size <= 7 || (size == 8 && BelowTop(8, RunDigits(Default(8), Default(8).init, ops)))
  {
    hide RunDigits, RunWord, Value, Within;
    if size <= 7 {
      AgreeExactly(size);
    } else if size == 8 {
      var b := Default(8);
      EightRange(b.init);
      assert b.init[0] != b.max[0];
      assert |b.init| == 8;
      EightRuns(b.init, ops);
    } else {
      LongerDigits(size, ops);
    }
  }

  lemma LongerDigits(size: nat, ops: seq<Op>)
    requires size > 8 && ops != []
    ensures !Agree(size, ops)
  {
    hide DigitsOp, WordOp, Within;
    var b := Default(size);
    var d, w := DigitsOp(b, b.init, ops[0]), WordOp(WordMax(8), 0, ops[0]);
    assert RunDigits(b, b.init, ops)[0] == Seen(d.failed, d.count) && |d.count| == size by {
      SameLength(b, d.count);
    }
    assert RunWord(8, WordMax(8), 0, ops)[0] == Seen(w.failed, BigEndian(w.count, 8));
  }

  /** The word counter of eight bytes counts to 2^64 - 2 and fails at the next increment. */
  lemma EightFails(n: nat)
    requires n <= WordMax(8)
    ensures WordOp(WordMax(8), n, Plus) ==
            if n < 0xFFFF_FFFF_FFFF_FFFE then Done(n + 1, false) else Done(0, true)
  {
    EightBytes();
  }
}
