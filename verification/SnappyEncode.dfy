/** The block compressor (encode.go): a greedy matcher over a hash table of positions. */
module SnappyEncode {
  import opened Options
  import opened Bytes
  import opened SnappyFormat

  const MAX_OFFSET: nat := 0x8000
  const MAX_TABLE_BITS: nat := 14

  function MaxEncodedLen(srcLen: nat): nat
  {
    32 + srcLen + srcLen / 6
  }

  // ---------- the hash table ----------

  function Pow2(k: nat): (p: nat)
    ensures p > 0
  {
    if k == 0 then 1 else 2 * Pow2(k - 1)
  }

  /** The table has 1 << bits entries in use: it doubles from `bits` until it covers
      the source or reaches 1 << 14. */
  function TableBits(srcLen: nat, bits: nat): (r: nat)
    requires bits <= MAX_TABLE_BITS
    ensures bits <= r <= MAX_TABLE_BITS
    ensures srcLen <= Pow2(r) || r == MAX_TABLE_BITS
    ensures r == bits || Pow2(r - 1) < srcLen
    decreases MAX_TABLE_BITS - bits
  {
    if bits < MAX_TABLE_BITS && Pow2(bits) < srcLen then TableBits(srcLen, bits + 1) else bits
  }

  /** The four bytes at `s` as a word times a constant, in 32 bits. */
  function Hash(src: seq<byte>, s: nat): (h: nat)
    requires s + 4 <= |src|
    ensures h < 0x1_0000_0000
  {
    Numeral(src[s..s + 4]) * 0x1e35a7bd % 0x1_0000_0000
  }

  /** The table slot of src[s..s+4]: the hash shifted down to `bits` bits. */
  function Slot(src: seq<byte>, s: nat, bits: nat): (p: nat)
    requires s + 4 <= |src| && bits <= 32
    ensures p < Pow2(bits)
  {
    ShiftDown(Hash(src, s), bits)
  }

  function ShiftDown(h: nat, bits: nat): (p: nat)
    requires h < 0x1_0000_0000 && bits <= 32
    ensures p < Pow2(bits)
  {
    var m := Pow2(32 - bits);
    ShiftBound(h, Pow2(bits), m, bits);
    h / m
  }

  lemma ShiftBound(h: nat, a: nat, m: nat, bits: nat)
    requires h < 0x1_0000_0000 && bits <= 32 && a == Pow2(bits) && m == Pow2(32 - bits)
    ensures 0 <= h / m < a
  {
    assert a * m == 0x1_0000_0000 by {
      Pow2Product(bits, 32 - bits);
      Pow2Of32();
    }
    QuotientBound(h, a, m);
  }

  lemma Pow2Of32()
    ensures Pow2(32) == 0x1_0000_0000
  {
    assert Pow2(16) == 0x1_0000 by { assert Pow2(8) == 0x100; }
    assert Pow2(24) == 0x100_0000;
  }

  lemma QuotientBound(h: nat, a: nat, m: nat)
    requires m > 0 && h < a * m
    ensures 0 <= h / m < a
  {
    var q := h / m;
    assert q * m <= h;
    if q >= a {
      ProductMonotone(a, q, m);
    }
  }

  lemma ProductMonotone(a: nat, b: nat, m: nat)
    requires a <= b
    ensures a * m <= b * m
  {
  }

  lemma {:induction false} Pow2Product(a: nat, b: nat)
    ensures Pow2(a) * Pow2(b) == Pow2(a + b)
  {
    if a > 0 {
      Pow2Product(a - 1, b);
      assert Pow2(a) * Pow2(b) == 2 * (Pow2(a - 1) * Pow2(b));
    }
  }

  lemma {:induction false} Pow2Monotone(a: nat, b: nat)
    requires a <= b
    ensures Pow2(a) <= Pow2(b)
  {
    if a < b {
      Pow2Monotone(a, b - 1);
    }
  }

  // ---------- the chunks the compressor chooses ----------

  /** Where a match that already covers src[..s] against src[..t] stops. */
  function MatchEnd(src: seq<byte>, s: nat, t: nat): (e: nat)
    requires t < s <= |src|
    ensures s <= e <= |src|
    ensures forall i | s <= i < e :: src[i] == src[i - (s - t)]
    ensures e == |src| || src[e] != src[e - (s - t)]
    decreases |src| - s
  {
    if s < |src| && src[s] == src[t] then MatchEnd(src, s + 1, t + 1) else s
  }

  function LiteralRun(bytes: seq<byte>): (cs: seq<Chunk>)
    ensures AllWritable(cs)
  {
    if bytes == [] then [] else [Literal(bytes)]
  }

  /** emitCopy's split of one match: 64 bytes at a time, and a short copy when one will do. */
  function CopyRun(offset: nat, length: nat): (cs: seq<Chunk>)
    requires offset < 0x1_0000
    ensures AllWritable(cs)
    ensures forall i | 0 <= i < |cs| :: cs[i].Copy? && cs[i].offset == offset
    decreases length
  {
    if length == 0 then []
    else if IsShort(Copy(offset, length)) then [Copy(offset, length)]
    else
      var x := if length > 64 then 64 else length;
      [Copy(offset, x)] + CopyRun(offset, length - x)
  }

  /** A usable table for position `s`: every entry is one more than an earlier position, or 0. */
  ghost predicate TableAt(table: seq<int>, s: nat, bits: nat)
  {
    && bits <= MAX_TABLE_BITS
    && |table| == Pow2(MAX_TABLE_BITS)
    && forall i | 0 <= i < |table| :: 0 <= table[i] <= s
  }

  predicate Matches(src: seq<byte>, s: nat, t: int)
    requires s + 4 <= |src| && t < s
  {
    && 0 <= t && s - t < MAX_OFFSET
    && src[s] == src[t] && src[s + 1] == src[t + 1] && src[s + 2] == src[t + 2] && src[s + 3] == src[t + 3]
  }

  /** The chunks for src[lit..] once the matcher stands at `s`. */
  function Matcher(src: seq<byte>, s: nat, lit: nat, table: seq<int>, bits: nat): (cs: seq<Chunk>)
    requires lit <= s <= |src| && TableAt(table, s, bits)
    ensures AllWritable(cs)
    decreases |src| - s
  {
    if s + 4 <= |src| then
      Pow2Monotone(bits, MAX_TABLE_BITS);
      var p := Slot(src, s, bits);
      var t := table[p] - 1;
      var table' := table[p := s + 1];
      if !Matches(src, s, t) then Matcher(src, s + 1, lit, table', bits)
      else
        var e := MatchEnd(src, s + 4, t + 4);
        LiteralRun(src[lit..s]) + CopyRun(s - t, e - s) + Matcher(src, e, e, table', bits)
    else LiteralRun(src[lit..])
  }

  function ZeroTable(): (table: seq<int>)
    ensures TableAt(table, 0, 0)
  {
    seq(Pow2(MAX_TABLE_BITS), _ => 0)
  }

  /** The chunks of a whole block. */
  function Chunks(src: seq<byte>): (cs: seq<Chunk>)
    ensures AllWritable(cs)
  {
    if |src| <= 4 then LiteralRun(src)
    else Matcher(src, 0, 0, ZeroTable(), TableBits(|src|, 8))
  }

  /** The bytes of a whole block: the length, then the chunks. */
  function Block(src: seq<byte>): seq<byte>
  {
    Varint(|src|) + WireAll(Chunks(src))
  }

  // ---------- the chunks stand for the source ----------

  lemma LiteralExpands(out: seq<byte>, bytes: seq<byte>)
    ensures Expand(out, LiteralRun(bytes)) == Some(out + bytes)
  {
    if bytes == [] {
      assert out + bytes == out;
    } else {
      assert LiteralRun(bytes)[1..] == [];
    }
  }

  lemma {:induction false} CopyExpands(out: seq<byte>, offset: nat, length: nat)
    requires 1 <= offset <= |out| && offset < 0x1_0000
    ensures Expand(out, CopyRun(offset, length)) == Some(CopyOut(out, offset, length))
    decreases length
  {
    if length > 0 && !IsShort(Copy(offset, length)) {
      var x := if length > 64 then 64 else length;
      assert CopyRun(offset, length)[1..] == CopyRun(offset, length - x);
      CopyExpands(CopyOut(out, offset, x), offset, length - x);
      CopySplits(out, offset, x, length - x);
    }
  }

  /** The matcher's invariant: from any position and any usable table, what it emits
      continues src[..lit] to exactly src. */
  lemma {:induction false} MatcherExpands(src: seq<byte>, s: nat, lit: nat, table: seq<int>, bits: nat)
    requires lit <= s <= |src| && TableAt(table, s, bits)
    ensures Expand(src[..lit], Matcher(src, s, lit, table, bits)) == Some(src)
    decreases |src| - s
  {
    hide Slot, Expand, LiteralRun, CopyRun, MatchEnd, Pow2, AllWritable;
    if s + 4 <= |src| {
      Pow2Monotone(bits, MAX_TABLE_BITS);
      var p := Slot(src, s, bits);
      var t := table[p] - 1;
      var table' := table[p := s + 1];
      if !Matches(src, s, t) {
        MatcherExpands(src, s + 1, lit, table', bits);
      } else {
        var e := MatchEnd(src, s + 4, t + 4);
        MatcherExpands(src, e, e, table', bits);
        ItemExpands(src, lit, s, t, e, Matcher(src, e, e, table', bits));
      }
    } else {
      LiteralExpands(src[..lit], src[lit..]);
      assert src[..lit] + src[lit..] == src;
    }
  }

  /** One pending literal and one match take the expansion from src[..lit] to src[..e]. */
  lemma ItemExpands(src: seq<byte>, lit: nat, s: nat, t: nat, e: nat, rest: seq<Chunk>)
    requires lit <= s && t < s && s + 4 <= e <= |src| && Matches(src, s, t)
    requires forall i | s + 4 <= i < e :: src[i] == src[i - (s - t)]
    ensures Expand(src[..lit], LiteralRun(src[lit..s]) + CopyRun(s - t, e - s) + rest) == Expand(src[..e], rest)
  {
    hide LiteralRun, CopyRun, Expand, CopyOut;
    var run, copies := LiteralRun(src[lit..s]), CopyRun(s - t, e - s);
    assert src[..lit] + src[lit..s] == src[..s];
    LiteralExpands(src[..lit], src[lit..s]);
    ExpandAppend(src[..lit], run, copies);
    CopyExpands(src[..s], s - t, e - s);
    MatchIsCopy(src, s, t, e);
    ExpandAppend(src[..lit], run + copies, rest);
  }

  lemma MatchIsCopy(src: seq<byte>, s: nat, t: nat, e: nat)
    requires t < s && s + 4 <= e <= |src| && Matches(src, s, t)
    requires forall i | s + 4 <= i < e :: src[i] == src[i - (s - t)]
    ensures CopyOut(src[..s], s - t, e - s) == src[..e]
  {
    forall i | s <= i < e
      ensures src[..e][i] == src[..e][i - (s - t)]
    {
      assert i < s + 4 ==> i == s || i == s + 1 || i == s + 2 || i == s + 3;
    }
    CopyIsPeriodic(src[..s], s - t, e - s, src[..e]);
  }

  /** Main result about the compressor: its chunks stand for the source, for every source. */
  lemma ChunksExpand(src: seq<byte>)
    ensures Expand([], Chunks(src)) == Some(src)
  {
    if |src| <= 4 {
      LiteralExpands([], src);
      assert [] + src == src;
    } else {
      MatcherExpands(src, 0, 0, ZeroTable(), TableBits(|src|, 8));
      assert src[..0] == [];
    }
  }

  // ---------- the output bound ----------

  lemma {:induction false} CopyRunBound(offset: nat, length: nat)
    requires offset < 0x1_0000
    ensures |WireAll(CopyRun(offset, length))| * 64 <= 3 * (length + 63)
    ensures length <= 64 ==> |WireAll(CopyRun(offset, length))| <= 3
    decreases length
  {
    if length > 0 && !IsShort(Copy(offset, length)) {
      var x := if length > 64 then 64 else length;
      assert CopyRun(offset, length)[1..] == CopyRun(offset, length - x);
      CopyRunBound(offset, length - x);
    }
  }

  lemma LiteralRunBound(bytes: seq<byte>)
    ensures 6 * |WireAll(LiteralRun(bytes))| <= 7 * |bytes| + 30
    ensures 0 < |bytes| <= 60 ==> |WireAll(LiteralRun(bytes))| == |bytes| + 1
    ensures 60 < |bytes| ==> 6 * |WireAll(LiteralRun(bytes))| <= 7 * |bytes| + 6
  {
    if bytes != [] {
      var b := WireAll(LiteralRun(bytes));
      assert LiteralRun(bytes)[1..] == [];
      assert WireAll([Literal(bytes)][1..]) == [];
      assert b == Wire(Literal(bytes));
      assert |b| == 1 + LengthBytes(|bytes| - 1) + |bytes|;
    }
  }

  /** Each literal-and-copy item costs at most its source length plus a sixth. */
  lemma ItemBound(bytes: seq<byte>, offset: nat, length: nat)
    requires offset < 0x1_0000 && length >= 4
    ensures 6 * (|WireAll(LiteralRun(bytes))| + |WireAll(CopyRun(offset, length))|) <= 7 * (|bytes| + length)
  {
    CopyRunBound(offset, length);
    LiteralRunBound(bytes);
  }

  lemma {:induction false} MatcherBound(src: seq<byte>, s: nat, lit: nat, table: seq<int>, bits: nat)
    requires lit <= s <= |src| && TableAt(table, s, bits)
    ensures 6 * |WireAll(Matcher(src, s, lit, table, bits))| <= 7 * (|src| - lit) + 30
    decreases |src| - s
  {
    hide Slot, LiteralRun, CopyRun, MatchEnd, Pow2, Wire, WireAll;
    if s + 4 <= |src| {
      Pow2Monotone(bits, MAX_TABLE_BITS);
      var p := Slot(src, s, bits);
      var t := table[p] - 1;
      var table' := table[p := s + 1];
      if !Matches(src, s, t) {
        MatcherBound(src, s + 1, lit, table', bits);
      } else {
        var e := MatchEnd(src, s + 4, t + 4);
        var run, copies, rest := LiteralRun(src[lit..s]), CopyRun(s - t, e - s), Matcher(src, e, e, table', bits);
        WireAllAppend(run, copies);
        WireAllAppend(run + copies, rest);
        ItemBound(src[lit..s], s - t, e - s);
        MatcherBound(src, e, e, table', bits);
      }
    } else {
      LiteralRunBound(src[lit..]);
    }
  }

  /** The encoded block never exceeds MaxEncodedLen. */
  lemma BlockBound(src: seq<byte>)
    requires |src| < TWO_TO_THE_63
    ensures |Block(src)| <= MaxEncodedLen(|src|) == 32 + |src| + |src| / 6
  {
    UvarintInvertsVarint(|src|, []);
    if |src| <= 4 {
      LiteralRunBound(src);
    } else {
      MatcherBound(src, 0, 0, ZeroTable(), TableBits(|src|, 8));
    }
  }

  // ---------- the code ----------

  /** emitLiteral into dst[d..]; a literal over 1 << 32 bytes is the source's panic. */
  method EmitLiteral(dst: array<byte>, d: nat, lit: seq<byte>) returns (ok: bool, count: nat)
    requires lit != [] && d + |Wire(Literal(lit))| <= dst.Length
    modifies dst
    ensures ok <==> Expressible(Literal(lit))
    ensures ok ==> d + count <= dst.Length && dst[..d + count] == old(dst[..d]) + Wire(Literal(lit))
  {
    hide LiteralHeader, Wire;
    LiteralWire(dst[..d], lit);
    if |lit| > MAX_LITERAL {
      return false, 0;
    }
    var i := EmitHeader(dst, d, |lit| - 1);
    CopyBytes(dst, d + i, lit);
    return true, i + |lit|;
  }

  lemma LiteralWire(before: seq<byte>, lit: seq<byte>)
    requires lit != []
    ensures |Wire(Literal(lit))| == |LiteralHeader(|lit|)| + |lit|
    ensures before + LiteralHeader(|lit|) + lit == before + Wire(Literal(lit))
  {
    hide LiteralHeader;
  }

  /** The switch of emitLiteral on n, the literal's length minus one. */
  method EmitHeader(dst: array<byte>, d: nat, n: nat) returns (i: nat)
    requires n < MAX_LITERAL && d + |LiteralHeader(n + 1)| <= dst.Length
    modifies dst
    ensures i == |LiteralHeader(n + 1)| && dst[..d + i] == old(dst[..d]) + LiteralHeader(n + 1)
  {
    HeaderBytes(n);
    hide LiteralHeader, LittleEndian;
    if n < 60 {
      dst[d] := n * 4;
      i := 1;
    } else if n < 0x100 {
      dst[d] := 60 * 4;
      dst[d + 1] := n;
      i := 2;
    } else if n < 0x1_0000 {
      dst[d] := 61 * 4;
      dst[d + 1] := n % 256;
      dst[d + 2] := n / 0x100;
      i := 3;
    } else if n < 0x100_0000 {
      dst[d] := 62 * 4;
      dst[d + 1] := n % 256;
      dst[d + 2] := n / 0x100 % 256;
      dst[d + 3] := n / 0x1_0000;
      i := 4;
    } else {
      dst[d] := 63 * 4;
      dst[d + 1] := n % 256;
      dst[d + 2] := n / 0x100 % 256;
      dst[d + 3] := n / 0x1_0000 % 256;
      dst[d + 4] := n / 0x100_0000;
      i := 5;
    }
  }

  /** The header in terms of shifts and masks. */
  lemma HeaderBytes(n: nat)
    requires n < MAX_LITERAL
    ensures n < 60 ==> LiteralHeader(n + 1) == [n * 4]
    ensures 60 <= n < 0x100 ==> LiteralHeader(n + 1) == [60 * 4, n]
    ensures 0x100 <= n < 0x1_0000 ==> LiteralHeader(n + 1) == [61 * 4, n % 256, n / 0x100]
    ensures 0x1_0000 <= n < 0x100_0000 ==>
              LiteralHeader(n + 1) == [62 * 4, n % 256, n / 0x100 % 256, n / 0x1_0000]
    ensures 0x100_0000 <= n ==>
              LiteralHeader(n + 1) == [63 * 4, n % 256, n / 0x100 % 256, n / 0x1_0000 % 256, n / 0x100_0000]
  {
    assert n / 0x100 / 256 == n / 0x1_0000;
    assert n / 0x1_0000 / 256 == n / 0x100_0000;
    assert LittleEndian(n / 0x100_0000, 1) == [n / 0x100_0000 % 256];
    assert LittleEndian(n / 0x1_0000, 2) == [n / 0x1_0000 % 256, n / 0x100_0000 % 256];
    assert LittleEndian(n / 0x1_0000, 1) == [n / 0x1_0000 % 256];
    assert LittleEndian(n / 0x100, 1) == [n / 0x100 % 256];
    assert LittleEndian(n / 0x100, 2) == [n / 0x100 % 256, n / 0x1_0000 % 256];
    assert LittleEndian(n / 0x100, 3) == [n / 0x100 % 256, n / 0x1_0000 % 256, n / 0x100_0000 % 256];
  }

  /** emitCopy into dst[d..]. */
  method EmitCopy(dst: array<byte>, d: nat, offset: nat, length: nat) returns (i: nat)
    requires offset < 0x1_0000
    requires d + |WireAll(CopyRun(offset, length))| <= dst.Length
    modifies dst
    ensures i == |WireAll(CopyRun(offset, length))|
    ensures dst[..d + i] == old(dst[..d]) + WireAll(CopyRun(offset, length))
  {
    hide CopyRun, WireAll;
    i := 0;
    var rest: nat := length;
    CopyRunStep(offset, 0);
    while rest > 0
      invariant i + |WireAll(CopyRun(offset, rest))| == |WireAll(CopyRun(offset, length))|
      invariant dst[..d + i] + WireAll(CopyRun(offset, rest)) == old(dst[..d]) + WireAll(CopyRun(offset, length))
    {
      CopyRunStep(offset, rest);
      var x: int := rest - 4;
      if 0 <= x < 8 && offset < 2048 {
        dst[d + i] := offset / 256 % 8 * 32 + x * 4 + 1;
        dst[d + i + 1] := offset % 256;
        i := i + 2;
        break;
      }
      x := rest;
      if x > 64 {
        x := 64;
      }
      dst[d + i] := (x - 1) * 4 + 2;
      dst[d + i + 1] := offset % 256;
      dst[d + i + 2] := offset / 256;
      i := i + 3;
      rest := rest - x;
    }
  }

  /** The bytes of the first chunk of a run, and what is left. */
  lemma CopyRunStep(offset: nat, length: nat)
    requires offset < 0x1_0000
    ensures length == 0 ==> WireAll(CopyRun(offset, length)) == []
    ensures IsShort(Copy(offset, length)) ==>
              WireAll(CopyRun(offset, length)) == [offset / 256 % 8 * 32 + (length - 4) * 4 + 1, offset % 256]
    ensures length > 0 && !IsShort(Copy(offset, length)) ==>
              var x := if length > 64 then 64 else length;
              WireAll(CopyRun(offset, length))
              == [(x - 1) * 4 + 2, offset % 256, offset / 256] + WireAll(CopyRun(offset, length - x))
  {
    var cs := CopyRun(offset, length);
    if IsShort(Copy(offset, length)) {
      assert cs[1..] == [];
      assert WireAll(cs) == Wire(cs[0]) + [];
    } else if length > 0 {
      var x := if length > 64 then 64 else length;
      assert cs[1..] == CopyRun(offset, length - x);
      assert !IsShort(Copy(offset, x));
    }
  }

  /** The pending literal, if any. */
  method EmitPending(dst: array<byte>, d: nat, lit: seq<byte>) returns (ok: bool, d': nat)
    requires d + |WireAll(LiteralRun(lit))| <= dst.Length
    modifies dst
    ensures ok <==> AllExpressible(LiteralRun(lit))
    ensures ok ==> d' == d + |WireAll(LiteralRun(lit))|
    ensures ok ==> dst[..d'] == old(dst[..d]) + WireAll(LiteralRun(lit))
  {
    hide Wire, Expressible;
    LiteralRunWire(lit);
    ok, d' := true, d;
    if lit != [] {
      var count;
      ok, count := EmitLiteral(dst, d, lit);
      d' := d + count;
    }
  }

  lemma LiteralRunWire(bytes: seq<byte>)
    ensures bytes != [] ==> WireAll(LiteralRun(bytes)) == Wire(Literal(bytes))
    ensures bytes == [] ==> WireAll(LiteralRun(bytes)) == []
    ensures AllExpressible(LiteralRun(bytes)) <==> bytes == [] || Expressible(Literal(bytes))
  {
    if bytes != [] {
      assert LiteralRun(bytes)[0] == Literal(bytes);
      assert LiteralRun(bytes)[1..] == [];
      assert WireAll(LiteralRun(bytes)) == Wire(Literal(bytes)) + [];
    }
  }

  /** Encode: false stands for the panic on a literal over 1 << 32 bytes. */
  method Encode(dst: array<byte>, src: seq<byte>) returns (ok: bool, out: array<byte>, d: nat)
    requires |src| < TWO_TO_THE_63
    modifies dst
    ensures out == dst || fresh(out)
    ensures ok <==> AllExpressible(Chunks(src))
    ensures ok ==> d <= out.Length && out[..d] == Block(src)
  {
    hide Matcher, LiteralRun, WireAll, AllExpressible;
    out := dst;
    var n := MaxEncodedLen(|src|);
    if dst.Length < n {
      out := new byte[n](_ => 0);
    }
    BlockBound(src);
    d := PutUvarint(out, |src|);

    if |src| <= 4 {
      ok, d := EmitPending(out, d, src);
      return;
    }

    var bits, tableSize := 8, 0x100;
    while bits < MAX_TABLE_BITS && tableSize < |src|
      invariant bits <= MAX_TABLE_BITS && tableSize == Pow2(bits)
      invariant TableBits(|src|, bits) == TableBits(|src|, 8)
    {
      bits := bits + 1;
      tableSize := tableSize * 2;
    }
    ok, d := Compress(out, d, src, bits);
  }

  /** The main loop of Encode, after the length header. */
  method Compress(dst: array<byte>, header: nat, src: seq<byte>, bits: nat) returns (ok: bool, d: nat)
    requires bits <= MAX_TABLE_BITS
    requires header + |WireAll(Matcher(src, 0, 0, ZeroTable(), bits))| <= dst.Length
    modifies dst
    ensures ok <==> AllExpressible(Matcher(src, 0, 0, ZeroTable(), bits))
    ensures ok ==> d <= dst.Length
    ensures ok ==> dst[..d] == old(dst[..header]) + WireAll(Matcher(src, 0, 0, ZeroTable(), bits))
  {
    hide Standing, Matcher, Slot, LiteralRun, CopyRun, WireAll, MatchEnd, AllExpressible, Pow2;
    ghost var all := Matcher(src, 0, 0, ZeroTable(), bits);
    ghost var goal := dst[..header] + WireAll(all);
    var table := new int[Pow2(MAX_TABLE_BITS)](_ => 0);
    assert table[..] == ZeroTable();
    d := header;
    var s: nat, lit: nat := 0, 0;
    StandingStart(dst[..header], src, bits);
    while s + 3 < |src|
      invariant lit <= s <= |src| && d <= dst.Length && |goal| <= dst.Length
      invariant table.Length == Pow2(MAX_TABLE_BITS)
      invariant Standing(dst[..d], src, s, lit, table[..], bits, goal, AllExpressible(all))
      decreases |src| - s
    {
      StandingBounds(dst[..d], src, s, lit, table[..], bits, goal, AllExpressible(all));
      var p := Slot(src, s, bits);
      ghost var before := table[..];
      var t := table[p] - 1;
      table[p] := s + 1;
      assert table[..] == before[p := s + 1];
      if t < 0 || s - t >= MAX_OFFSET || src[s] != src[t] || src[s + 1] != src[t + 1]
         || src[s + 2] != src[t + 2] || src[s + 3] != src[t + 3] {
        assert !Matches(src, s, t);
        StandingMiss(dst[..d], src, s, lit, before, bits, goal, AllExpressible(all));
        s := s + 1;
        continue;
      }
      ok, d, s := TakeMatch(dst, d, src, s, t, lit, before, bits, goal, AllExpressible(all));
      if !ok {
        return;
      }
      lit := s;
    }
    StandingDone(dst[..d], src, s, lit, table[..], bits, goal, AllExpressible(all));
    ok, d := EmitPending(dst, d, src[lit..]);
  }

  /** A match at `s`: the pending literal, then a copy as long as possible. */
  method TakeMatch(dst: array<byte>, d: nat, src: seq<byte>, s: nat, t: nat, lit: nat,
                   ghost table: seq<int>, ghost bits: nat, ghost goal: seq<byte>, ghost fits: bool)
    returns (ok: bool, d': nat, e: nat)
    requires d <= dst.Length && |goal| <= dst.Length && s + 4 <= |src|
    requires Standing(dst[..d], src, s, lit, table, bits, goal, fits)
    requires Slot(src, s, bits) < |table| && t == table[Slot(src, s, bits)] - 1 && t < s && Matches(src, s, t)
    modifies dst
    ensures !ok ==> !fits
    ensures ok ==> s < e <= |src| && d' <= dst.Length
    ensures ok ==> Standing(dst[..d'], src, e, e, table[Slot(src, s, bits) := s + 1], bits, goal, fits)
  {
    hide Standing, Slot, LiteralRun, CopyRun, WireAll, MatchEnd, AllExpressible, Pow2;
    StandingHit(dst[..d], src, s, lit, table, bits, goal, fits);
    StandingBounds(dst[..d], src, s, lit, table, bits, goal, fits);
    e := ExtendMatch(src, s + 4, t + 4);
    ok, d' := EmitItem(dst, d, src[lit..s], s - t, e - s);
  }

  /** The pending literal, then the copy of a match. */
  method EmitItem(dst: array<byte>, d: nat, pending: seq<byte>, offset: nat, length: nat)
    returns (ok: bool, d': nat)
    requires offset < 0x1_0000
    requires d + |WireAll(LiteralRun(pending))| + |WireAll(CopyRun(offset, length))| <= dst.Length
    modifies dst
    ensures ok <==> AllExpressible(LiteralRun(pending))
    ensures ok ==> d' == d + |WireAll(LiteralRun(pending))| + |WireAll(CopyRun(offset, length))|
    ensures ok ==> dst[..d'] == old(dst[..d]) + (WireAll(LiteralRun(pending)) + WireAll(CopyRun(offset, length)))
  {
    hide LiteralRun, CopyRun, WireAll, AllExpressible;
    ok, d' := EmitPending(dst, d, pending);
    if ok {
      var count := EmitCopy(dst, d', offset, length);
      d' := d' + count;
    }
  }

  /** The inner loop of Encode, which makes a match as long as possible. */
  method ExtendMatch(src: seq<byte>, s0: nat, t0: nat) returns (s: nat)
    requires t0 < s0 <= |src|
    ensures s == MatchEnd(src, s0, t0)
  {
    s := s0;
    var t := t0;
    while s < |src| && src[s] == src[t]
      invariant s0 <= s <= |src| && t == t0 + s - s0
      invariant MatchEnd(src, s, t) == MatchEnd(src, s0, t0)
    {
      s := s + 1;
      t := t + 1;
    }
  }

  // ---------- the loop's invariant ----------

  /** `done` is written and the matcher stands at `s`: what is left completes the goal. */
  ghost predicate Standing(done: seq<byte>, src: seq<byte>, s: nat, lit: nat, table: seq<int>, bits: nat,
                           goal: seq<byte>, fits: bool)
  {
    && lit <= s <= |src| && TableAt(table, s, bits)
    && done + WireAll(Matcher(src, s, lit, table, bits)) == goal
    && AllExpressible(Matcher(src, s, lit, table, bits)) == fits
  }

  lemma StandingStart(done: seq<byte>, src: seq<byte>, bits: nat)
    requires bits <= MAX_TABLE_BITS
    ensures Standing(done, src, 0, 0, ZeroTable(), bits, done + WireAll(Matcher(src, 0, 0, ZeroTable(), bits)),
                     AllExpressible(Matcher(src, 0, 0, ZeroTable(), bits)))
  {
    hide Matcher, WireAll, AllExpressible, Pow2;
  }

  lemma StandingBounds(done: seq<byte>, src: seq<byte>, s: nat, lit: nat, table: seq<int>, bits: nat,
                       goal: seq<byte>, fits: bool)
    requires Standing(done, src, s, lit, table, bits, goal, fits) && s + 4 <= |src|
    ensures Slot(src, s, bits) < |table| && 0 <= table[Slot(src, s, bits)] <= s
    ensures lit <= s
  {
    hide Matcher, WireAll, AllExpressible, Slot;
    Pow2Monotone(bits, MAX_TABLE_BITS);
  }

  lemma StandingMiss(done: seq<byte>, src: seq<byte>, s: nat, lit: nat, table: seq<int>, bits: nat,
                     goal: seq<byte>, fits: bool)
    requires Standing(done, src, s, lit, table, bits, goal, fits) && s + 4 <= |src|
    requires Slot(src, s, bits) < |table| && !Matches(src, s, table[Slot(src, s, bits)] - 1)
    ensures Standing(done, src, s + 1, lit, table[Slot(src, s, bits) := s + 1], bits, goal, fits)
  {
    hide Slot, MatchEnd, WireAll, Pow2, LiteralRun, CopyRun, AllExpressible;
  }

  lemma StandingHit(done: seq<byte>, src: seq<byte>, s: nat, lit: nat, table: seq<int>, bits: nat,
                    goal: seq<byte>, fits: bool)
    requires Standing(done, src, s, lit, table, bits, goal, fits) && s + 4 <= |src|
    requires Slot(src, s, bits) < |table| && Matches(src, s, table[Slot(src, s, bits)] - 1)
    ensures var t := table[Slot(src, s, bits)] - 1;
      var e := MatchEnd(src, s + 4, t + 4);
      var item := WireAll(LiteralRun(src[lit..s])) + WireAll(CopyRun(s - t, e - s));
      && |done| + |item| <= |goal|
      && (fits ==> AllExpressible(LiteralRun(src[lit..s])))
      && (AllExpressible(LiteralRun(src[lit..s])) ==>
            Standing(done + item, src, e, e, table[Slot(src, s, bits) := s + 1], bits, goal, fits))
  {
    hide Slot, MatchEnd, WireAll, Pow2, LiteralRun, CopyRun, AllExpressible, AllWritable;
    var p := Slot(src, s, bits);
    var t := table[p] - 1;
    var e := MatchEnd(src, s + 4, t + 4);
    ItemWire(LiteralRun(src[lit..s]), s - t, e - s, Matcher(src, e, e, table[p := s + 1], bits));
  }

  lemma StandingDone(done: seq<byte>, src: seq<byte>, s: nat, lit: nat, table: seq<int>, bits: nat,
                     goal: seq<byte>, fits: bool)
    requires Standing(done, src, s, lit, table, bits, goal, fits) && s + 4 > |src|
    ensures done + WireAll(LiteralRun(src[lit..])) == goal
    ensures AllExpressible(LiteralRun(src[lit..])) == fits
  {
    hide Slot, WireAll, AllExpressible, LiteralRun;
  }

  lemma ItemWire(run: seq<Chunk>, offset: nat, length: nat, rest: seq<Chunk>)
    requires AllWritable(run) && AllWritable(rest) && offset < 0x1_0000
    ensures AllWritable(run + CopyRun(offset, length) + rest)
    ensures WireAll(run + CopyRun(offset, length) + rest)
         == WireAll(run) + WireAll(CopyRun(offset, length)) + WireAll(rest)
    ensures AllExpressible(run + CopyRun(offset, length) + rest) <==> AllExpressible(run) && AllExpressible(rest)
  {
    var copies := CopyRun(offset, length);
    WireAllAppend(run, copies);
    WireAllAppend(run + copies, rest);
    ExpressibleAppend(run, copies);
    ExpressibleAppend(run + copies, rest);
    assert AllExpressible(copies);
  }

  lemma ExpressibleAppend(a: seq<Chunk>, b: seq<Chunk>)
    ensures AllExpressible(a + b) <==> AllExpressible(a) && AllExpressible(b)
  {
    if AllExpressible(a + b) {
      forall i | 0 <= i < |a| ensures Expressible(a[i]) { assert (a + b)[i] == a[i]; }
      forall i | 0 <= i < |b| ensures Expressible(b[i]) { assert (a + b)[|a| + i] == b[i]; }
    }
  }
}
