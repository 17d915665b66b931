/** The two counters as the source updates them in place (bigcounter.go). */
module Counters {
  import opened Options
  import opened Bytes
  import opened Odometer

  /** The low end of `bytes` right-aligned in a buffer that held `p`. */
  function Filled(p: seq<byte>, bytes: seq<byte>): (r: seq<byte>)
    ensures |r| == |p|
  {
    if |p| <= |bytes| then bytes[|bytes| - |p|..] else p[..|p| - |bytes|] + bytes
  }

  /** A buffer filled from its end down to index `f`, exclusive. */
  ghost predicate Aligned(was: seq<byte>, bytes: seq<byte>, now: seq<byte>, f: int) {
    |now| == |was| && -1 <= f < |now| && |now| - 1 - f <= |bytes| &&
    (forall j | f < j < |now| :: now[j] == bytes[j - |now| + |bytes|]) &&
    (forall j | 0 <= j <= f :: now[j] == was[j])
  }

  lemma AlignedIsFilled(was: seq<byte>, bytes: seq<byte>, now: seq<byte>, f: int)
    requires Aligned(was, bytes, now, f) && (f == -1 || |now| - 1 - f == |bytes|)
    ensures now == Filled(was, bytes)
  {
  }

  lemma AlignedStep(was: seq<byte>, bytes: seq<byte>, now: seq<byte>, f: int)
    requires Aligned(was, bytes, now, f) && f >= 0 && |now| - 1 - f < |bytes|
    ensures Aligned(was, bytes, now[f := bytes[f - |now| + |bytes|]], f - 1)
  {
  }

  class Fix64Base {
    const size: int
    const last: int
    const init: nat
    const max: nat
    var count: nat
    /** Scratch space of FillBytes. */
    var disp: nat

    ghost predicate Valid()
      reads this
    {
      1 <= size <= 8 && last == size - 1 && init == 0 && max == WordMax(size) && count <= max
    }

    /** Newfix64base. */
    constructor (size: int)
      ensures Valid() && count == 0
      ensures this.size ==
              (if size == 0 then 1 else if size < -8 || size > 8 then 8 else if size < 0 then -size else size)
      ensures max == if this.size == 8 then 0xFFFF_FFFF_FFFF_FFFE else PowerOfTwo(this.size * 8) - 1
    {
      var s := size;
      if s < 0 {
        s := -s;
      }
      if s == 0 {
        s := 1;
      }
      if s > 8 {
        s := 8;
      }
      var m: nat := 1;
      if s == 8 {
        m := 0xFFFF_FFFF_FFFF_FFFE;
      } else {
        for i := 0 to s * 8
          invariant m == PowerOfTwo(i)
        {
          m := m * 2;
        }
        BitsAreBytes(s);
        m := m - 1;
      }
      this.size, last, init, max, count, disp := s, s - 1, 0, m, 0, 0;
    }

    /** The number as its low-order bytes. */
    ghost function Content(): seq<byte>
      requires Valid()
      reads this
    {
      BigEndian(count, size)
    }

    method Plus() returns (failed: bool)
      requires Valid()
      modifies this
      ensures Valid() && Done(count, failed) == WordOp(max, old(count), Op.Plus)
    {
      if count >= max {
        Reset(true);
        return true;
      }
      count := count + 1;
      return false;
    }

    method AddUint64(m: nat) returns (failed: bool)
      requires Valid()
      modifies this
      ensures Valid() && Done(count, failed) == WordOp(max, old(count), Add(m))
    {
      for i := 0 to m
        invariant Valid() && count == old(count) + i
      {
        if count >= max {
          Reset(true);
          return true;
        }
        count := count + 1;
      }
      return false;
    }

    method Reset(over: bool)
      requires Valid()
      modifies this
      ensures Valid() && Done(count, false) == WordOp(max, old(count), Op.Reset(over))
    {
      if over {
        count := init;
      } else {
        count := max;
      }
    }

    method FillBytes(p: array<byte>)
      requires Valid()
      modifies p, this`disp
      ensures Valid() && p[..] == Filled(old(p[..]), Content())
    {
      if p.Length == 0 {
        return;
      }
      var fptr := p.Length - 1;
      var i := last;
      while i >= 0 && fptr >= 0
        invariant -1 <= i <= last && -1 <= fptr < p.Length && last - i == p.Length - 1 - fptr
        invariant Aligned(old(p[..]), Content(), p[..], fptr)
        decreases i
      {
        disp := count;
        for j := 0 to last - i
          invariant disp == Shifted(count, j)
          modifies this`disp
        {
          disp := disp / 256;
        }
        BigEndianAt(count, size, i);
        AlignedStep(old(p[..]), Content(), p[..], fptr);
        p[fptr] := disp % 256;
        fptr := fptr - 1;
        i := i - 1;
      }
      AlignedIsFilled(old(p[..]), Content(), p[..], fptr);
    }
  }

  function PowerOfTwo(n: nat): nat
  {
    if n == 0 then 1 else PowerOfTwo(n - 1) * 2
  }

  lemma {:induction false} BitsAreBytes(k: nat)
    ensures PowerOfTwo(k * 8) == Pow256(k)
  {
    if k > 0 {
      BitsAreBytes(k - 1);
      var n := (k - 1) * 8;
      assert PowerOfTwo(n + 2) == 4 * PowerOfTwo(n);
      assert PowerOfTwo(n + 4) == 4 * PowerOfTwo(n + 2);
      assert PowerOfTwo(n + 6) == 4 * PowerOfTwo(n + 4);
    }
  }

  /** `n >> 8`, `k` times. */
  function Shifted(n: nat, k: nat): nat
  {
    if k == 0 then n else Shifted(n, k - 1) / 256
  }

  lemma {:induction false} ShiftedIn(n: nat, k: nat)
    ensures Shifted(n / 256, k) == Shifted(n, k + 1)
  {
    if k > 0 {
      ShiftedIn(n, k - 1);
    }
  }

  lemma {:induction false} BigEndianAt(n: nat, size: nat, k: nat)
    requires k < size
    ensures BigEndian(n, size)[k] == Shifted(n, size - 1 - k) % 256
  {
    if k < size - 1 {
      BigEndianAt(n / 256, size - 1, k);
      ShiftedIn(n, size - 2 - k);
    }
  }

  class Any255Base {
    const size: int
    const last: int
    /** The first digit that may differ from its lower bound. */
    var ptr: int
    const init: array<byte>
    const max: array<byte>
    const count: array<byte>

    ghost predicate Valid()
      reads this, init, max, count
    {
      1 <= size && last == size - 1 && init.Length == max.Length == count.Length == size &&
      init != max && init != count && max != count &&
      Within(Limits(), Limits().init) && Within(Limits(), Limits().max) && Within(Limits(), Content()) &&
      0 <= ptr <= last && forall i | 0 <= i < ptr :: count[i] == init[i]
    }

    ghost function Limits(): Bounds
      reads this, init, max
    {
      Bounds(init[..], max[..])
    }

    ghost function Content(): seq<byte>
      reads this, count
    {
      count[..]
    }

    /** NewAny255Base. */
    constructor (size: int)
      ensures Valid() && fresh(init) && fresh(max) && fresh(count)
      ensures this.size == (if size == 0 then 1 else if size < 0 then -size else size)
      ensures Limits() == Default(this.size) && Content() == Default(this.size).init
    {
      var s := size;
      if s < 0 {
        s := -s;
      }
      if s == 0 {
        s := 1;
      }
      init, max, count := new byte[s](_ => 0), new byte[s](_ => 0), new byte[s](_ => 0);
      this.size, last, ptr := s, s - 1, s - 1;
      new;
      for i := 0 to s
        invariant ptr == s - 1 && fresh(max) && max != init && max != count && max.Length == s
        invariant forall j | 0 <= j < i :: max[j] == 255
        invariant init[..] == Default(s).init && count[..] == init[..]
      {
        max[i] := 255;
      }
      assert max[..] == Default(s).max;
      assert Limits() == Default(s) && Content() == Default(s).init;
      assert forall i | 0 <= i < s :: count[i] == Content()[i] == 0 && init[i] == Limits().init[i] == 0;
    }

    method Reset(over: bool)
      requires Valid()
      modifies this`ptr, count
      ensures Valid() && Limits() == old(Limits())
      ensures Done(Content(), false) == DigitsOp(Limits(), old(Content()), Op.Reset(over))
    {
      for i := 0 to last + 1
        invariant init[..] == old(init[..]) && max[..] == old(max[..])
        invariant forall j | 0 <= j < i :: count[j] == if over then init[j] else max[j]
      {
        if over {
          count[i] := init[i];
        } else {
          count[i] := max[i];
        }
      }
      if over {
        ptr := last;
      } else {
        ptr := 0;
      }
      assert Content() == if over then Limits().init else Limits().max;
    }

    method Plus() returns (failed: bool)
      requires Valid()
      modifies this`ptr, count
      ensures Valid() && Limits() == old(Limits())
      ensures Done(Content(), failed) == DigitsOp(Limits(), old(Content()), Op.Plus)
    {
      hide PlusDigits;
      var p := last;
      while true
        invariant 0 <= p <= last && ptr == old(ptr)
        invariant init[..] == old(init[..]) && max[..] == old(max[..])
        invariant forall i | 0 <= i <= p :: count[i] == old(count[i])
        invariant forall i | p < i <= last :: old(count[i]) == max[i] && count[i] == init[i]
        decreases p
      {
        if count[p] == max[p] {
          count[p] := init[p];
          p := p - 1;
          if p == -1 {
            TopFails(Limits(), old(Content()));
            Reset(true);
            return true;
          }
        } else {
          count[p] := (count[p] as int + 1) as byte;
          CarryStops(Limits(), old(Content()), p, Content());
          if p < ptr {
            ptr := p;
          }
          return false;
        }
      }
    }

    method AddUint64(m: nat) returns (failed: bool)
      requires Valid()
      modifies this`ptr, count
      ensures Valid() && Limits() == old(Limits())
      ensures Done(Content(), failed) == DigitsOp(Limits(), old(Content()), Add(m))
    {
      for i := 0 to m
        invariant Valid() && Limits() == old(Limits())
        invariant AddDigits(Limits(), Content(), m - i) == AddDigits(Limits(), old(Content()), m)
      {
        var err := Plus();
        if err {
          return true;
        }
      }
      return false;
    }

    method FillBytes(p: array<byte>)
      requires Valid() && p != init && p != max && p != count
      modifies p
      ensures Valid() && p[..] == Filled(old(p[..]), Content())
    {
      if p.Length == 0 {
        return;
      }
      var fptr := p.Length - 1;
      var i := last;
      while i >= 0 && fptr >= 0
        invariant -1 <= i <= last && -1 <= fptr < p.Length && last - i == p.Length - 1 - fptr
        invariant Aligned(old(p[..]), Content(), p[..], fptr) && Content() == old(Content())
        decreases i
      {
        AlignedStep(old(p[..]), Content(), p[..], fptr);
        p[fptr] := count[i];
        fptr := fptr - 1;
        i := i - 1;
      }
      AlignedIsFilled(old(p[..]), Content(), p[..], fptr);
    }
  }

  /** All digits at their upper bounds: the carry runs over the first. */
  lemma TopFails(b: Bounds, count: seq<byte>)
    requires Within(b, count) && forall i | 0 <= i < |count| :: count[i] == b.max[i]
    ensures PlusDigits(b, count) == None
  {
    assert count == b.max;
    PlusCounts(b, count);
  }

  /** The carry stops at digit `p`. */
  lemma {:induction false} CarryStops(b: Bounds, count: seq<byte>, p: nat, r: seq<byte>)
    requires Within(b, count) && p < |count| == |r|
    requires count[p] != b.max[p] && r[p] as int == count[p] as int + 1
    requires forall i | 0 <= i < p :: r[i] == count[i]
    requires forall i | p < i < |count| :: count[i] == b.max[i] && r[i] == b.init[i]
    ensures PlusDigits(b, count) == Some(r)
    decreases |count|
  {
    var n := |count| - 1;
    assert r == r[..n] + [r[n]];
    if p == n {
      assert r[..n] == count[..n];
    } else {
      CarryStops(Shorter(b), count[..n], p, r[..n]);
    }
  }
}
