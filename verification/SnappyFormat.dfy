/** The Snappy block format (snappy.go): chunks, their bytes, and what they expand to. */
module SnappyFormat {
  import opened Options
  import opened Bytes

  datatype Chunk = Literal(bytes: seq<byte>) | Copy(offset: nat, length: nat)

  datatype Error = Corrupt | UnsupportedCopy4

  datatype Result<+T> = Ok(value: T) | Err(error: Error)

  const MAX_LITERAL: nat := 0x1_0000_0000

  // ---------- from chunks to bytes ----------

  /** How many bytes hold a literal's length minus one; none below 60. */
  function LengthBytes(n: nat): (k: nat)
    ensures k <= 4
  {
    if n < 60 then 0 else if n < 0x100 then 1 else if n < 0x1_0000 then 2 else if n < 0x100_0000 then 3 else 4
  }

  function LiteralHeader(length: nat): (b: seq<byte>)
    requires length > 0
    ensures |b| == 1 + LengthBytes(length - 1)
  {
    var n := length - 1;
    var k := LengthBytes(n);
    [4 * if k == 0 then n else 59 + k] + LittleEndian(n, k)
  }

  predicate IsShort(c: Chunk)
    requires c.Copy?
  {
    4 <= c.length < 12 && c.offset < 2048
  }

  /** The chunks the format can express. */
  predicate Expressible(c: Chunk) {
    Writable(c) && (c.Literal? ==> |c.bytes| <= MAX_LITERAL)
  }

  /** The chunks that have a byte form; the header of an over-long literal is cut off. */
  predicate Writable(c: Chunk) {
    match c
    case Literal(b) => b != []
    case Copy(offset, length) => offset < 0x1_0000 && 1 <= length <= 64
  }

  predicate AllWritable(cs: seq<Chunk>) {
    forall i | 0 <= i < |cs| :: Writable(cs[i])
  }

  predicate AllExpressible(cs: seq<Chunk>) {
    forall i | 0 <= i < |cs| :: Expressible(cs[i])
  }

  function Wire(c: Chunk): seq<byte>
    requires Writable(c)
  {
    match c
    case Literal(b) => LiteralHeader(|b|) + b
    case Copy(offset, length) =>
      if IsShort(c) then [offset / 256 * 32 + (length - 4) * 4 + 1, offset % 256]
      else [(length - 1) * 4 + 2, offset % 256, offset / 256]
  }

  // ---------- from bytes to chunks ----------

  /** The first chunk of `b` and the number of bytes it takes. The tag is the first
      byte's low 2 bits `l`, the rest of that byte is `m`. */
  function ParseChunk(b: seq<byte>): (r: Result<(Chunk, nat)>)
    requires b != []
    ensures r.Ok? ==> 1 <= r.value.1 <= |b|
  {
    var tag: nat := b[0];
    var l, m := tag % 4, tag / 4;
    if l == 0 then ParseLiteral(b, m)
    else if l == 1 then
      if |b| < 2 then Err(Corrupt) else
      var low: nat := b[1];
      Ok((Copy(m / 8 * 256 + low, 4 + m % 8), 2))
    else if l == 2 then
      if |b| < 3 then Err(Corrupt) else
      var low: nat, high: nat := b[1], b[2];
      Ok((Copy(low + 256 * high, 1 + m), 3))
    else Err(UnsupportedCopy4)
  }

  /** A literal chunk whose first byte carries `m`: below 60 the length minus one itself,
      otherwise how many bytes (plus 59) spell it. */
  function ParseLiteral(b: seq<byte>, m: nat): (r: Result<(Chunk, nat)>)
    requires m < 64 && b != []
    ensures r.Ok? ==> r.value.0.Literal? && 1 <= |r.value.0.bytes| < r.value.1 <= |b|
  {
    var k := if m < 60 then 0 else m - 59;
    if |b| < 1 + k then Err(Corrupt) else
    var length := 1 + if m < 60 then m else Numeral(b[1..1 + k]);
    if |b| < 1 + k + length then Err(Corrupt) else
    Ok((Literal(b[1 + k..1 + k + length]), 1 + k + length))
  }

  function Parse(b: seq<byte>): Result<seq<Chunk>>
  {
    if b == [] then Ok([]) else
    match ParseChunk(b)
    case Err(e) => Err(e)
    case Ok((c, n)) =>
      match Parse(b[n..])
      case Err(e) => Err(e)
      case Ok(cs) => Ok([c] + cs)
  }

  function WireAll(cs: seq<Chunk>): seq<byte>
    requires AllWritable(cs)
  {
    if cs == [] then [] else Wire(cs[0]) + WireAll(cs[1..])
  }

  lemma ParseChunkInvertsWire(c: Chunk, rest: seq<byte>)
    requires Expressible(c)
    ensures Wire(c) + rest != []
    ensures ParseChunk(Wire(c) + rest) == Ok((c, |Wire(c)|))
  {
    match c
    case Literal(bytes) => ParseLiteralInvertsWire(bytes, rest);
    case Copy(offset, length) => ParseCopyInvertsWire(offset, length, rest);
  }

  lemma ParseCopyInvertsWire(offset: nat, length: nat, rest: seq<byte>)
    requires Expressible(Copy(offset, length))
    ensures ParseChunk(Wire(Copy(offset, length)) + rest)
         == Ok((Copy(offset, length), |Wire(Copy(offset, length))|))
  {
    hide ParseChunk;
    var c := Copy(offset, length);
    var b := Wire(c) + rest;
    assert b[0] == Wire(c)[0] && b[1] == Wire(c)[1];
    if IsShort(c) {
      ShortTag(offset, length);
      ParseTag1(b);
    } else {
      assert b[2] == Wire(c)[2];
      LongTag(length);
      ParseTag2(b);
    }
  }

  lemma ParseTag1(b: seq<byte>)
    requires |b| >= 2 && b[0] % 4 == 1
    ensures ParseChunk(b) == Ok((Copy(b[0] as int / 4 / 8 * 256 + b[1] as int, 4 + b[0] as int / 4 % 8), 2))
  {
    hide ParseLiteral;
  }

  lemma ParseTag2(b: seq<byte>)
    requires |b| >= 3 && b[0] % 4 == 2
    ensures ParseChunk(b) == Ok((Copy(b[1] as int + 256 * b[2] as int, 1 + b[0] as int / 4), 3))
  {
    hide ParseLiteral;
  }

  lemma ShortTag(offset: nat, length: nat)
    requires 4 <= length < 12
    ensures var tag := offset / 256 * 32 + (length - 4) * 4 + 1;
            tag % 4 == 1 && tag / 4 / 8 == offset / 256 && tag / 4 % 8 == length - 4
  {
  }

  lemma LongTag(length: nat)
    requires length >= 1
    ensures ((length - 1) * 4 + 2) % 4 == 2 && ((length - 1) * 4 + 2) / 4 == length - 1
  {
  }

  lemma ParseLiteralInvertsWire(bytes: seq<byte>, rest: seq<byte>)
    requires Expressible(Literal(bytes))
    ensures ParseChunk(Wire(Literal(bytes)) + rest) == Ok((Literal(bytes), |Wire(Literal(bytes))|))
  {
    var b := Wire(Literal(bytes)) + rest;
    var n := |bytes| - 1;
    var k := LengthBytes(n);
    var tag: nat := if k == 0 then n else 59 + k;
    assert b[0] == LiteralHeader(|bytes|)[0] == 4 * tag;
    assert b[1 + k..1 + k + |bytes|] == bytes;
    if k > 0 {
      Powers();
      NumeralInvertsLittleEndian(n, k);
      assert b[1..1 + k] == LittleEndian(n, k);
    }
    assert ParseLiteral(b, tag) == Ok((Literal(bytes), |Wire(Literal(bytes))|));
  }

  lemma Powers()
    ensures Pow256(1) == 0x100 && Pow256(2) == 0x1_0000
    ensures Pow256(3) == 0x100_0000 && Pow256(4) == 0x1_0000_0000
  {
  }

  /** Serialised chunks are read back exactly. */
  lemma {:induction false} ParseInvertsWire(cs: seq<Chunk>)
    requires AllExpressible(cs)
    ensures Parse(WireAll(cs)) == Ok(cs)
  {
    if cs != [] {
      var rest := WireAll(cs[1..]);
      ParseChunkInvertsWire(cs[0], rest);
      assert (Wire(cs[0]) + rest)[|Wire(cs[0])|..] == rest;
      ParseInvertsWire(cs[1..]);
      assert [cs[0]] + cs[1..] == cs;
    }
  }

  lemma {:induction false} WireAllAppend(a: seq<Chunk>, b: seq<Chunk>)
    requires AllWritable(a) && AllWritable(b)
    ensures WireAll(a + b) == WireAll(a) + WireAll(b)
  {
    if a == [] {
      assert a + b == b;
    } else {
      assert (a + b)[1..] == a[1..] + b;
      WireAllAppend(a[1..], b);
    }
  }

  // ---------- what chunks mean ----------

  /** `length` bytes copied one at a time from `offset` back; the copy may overlap itself. */
  function CopyOut(out: seq<byte>, offset: nat, length: nat): (r: seq<byte>)
    requires 1 <= offset <= |out|
    ensures |r| == |out| + length && r[..|out|] == out
    decreases length
  {
    if length == 0 then out else CopyOut(out + [out[|out| - offset]], offset, length - 1)
  }

  /** The data a chunk list stands for after `out`; None when a copy reaches before the start. */
  function Expand(out: seq<byte>, cs: seq<Chunk>): (r: Option<seq<byte>>)
    ensures r.Some? ==> out <= r.value
    decreases |cs|
  {
    if cs == [] then Some(out) else
    match cs[0]
    case Literal(b) => Expand(out + b, cs[1..])
    case Copy(offset, length) =>
      if 1 <= offset <= |out| then Expand(CopyOut(out, offset, length), cs[1..]) else None
  }

  lemma {:induction false} ExpandAppend(out: seq<byte>, a: seq<Chunk>, b: seq<Chunk>)
    requires Expand(out, a).Some?
    ensures Expand(out, a + b) == Expand(Expand(out, a).value, b)
    decreases |a|
  {
    if a == [] {
      assert a + b == b;
    } else {
      assert (a + b)[1..] == a[1..] + b;
      match a[0]
      case Literal(bytes) => ExpandAppend(out + bytes, a[1..], b);
      case Copy(offset, length) => ExpandAppend(CopyOut(out, offset, length), a[1..], b);
    }
  }

  /** A copy is exactly the continuation in which every byte equals the one `offset`
      before it, however long it is. */
  lemma {:induction false} CopyIsPeriodic(out: seq<byte>, offset: nat, length: nat, r: seq<byte>)
    requires 1 <= offset <= |out|
    ensures r == CopyOut(out, offset, length) <==>
            && out <= r && |r| == |out| + length
            && forall i | |out| <= i < |r| :: r[i] == r[i - offset]
    decreases length
  {
    if length > 0 {
      var out' := out + [out[|out| - offset]];
      CopyIsPeriodic(out', offset, length - 1, r);
      if out' <= r {
        assert r[|out|] == out'[|out|] && r[|out| - offset] == out'[|out| - offset];
      }
    }
  }

  /** Copying onwards from what was copied is one longer copy. */
  lemma {:induction false} CopySplits(out: seq<byte>, offset: nat, a: nat, b: nat)
    requires 1 <= offset <= |out|
    ensures CopyOut(out, offset, a + b) == CopyOut(CopyOut(out, offset, a), offset, b)
    decreases a
  {
    if a > 0 {
      CopySplits(out + [out[|out| - offset]], offset, a - 1, b);
    }
  }
}
