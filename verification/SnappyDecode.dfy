/** The block decoder (decode.go), which expands chunks in place over a caller's buffer. */
module SnappyDecode {
  import opened Options
  import opened Bytes
  import opened SnappyFormat

  /** The run-time panics a call can meet. */
  datatype Fault = IndexOutOfRange | LengthOutOfRange

  /** What a call of Decode can do. */
  datatype Outcome = Decoded(data: seq<byte>) | Failed(error: Error) | Panicked(fault: Fault)

  /** Go's conversion of a 64-bit unsigned value to int. */
  function ToInt(v: nat): int
    requires v < TWO_TO_THE_64
  {
    if v < TWO_TO_THE_63 then v else v - TWO_TO_THE_64
  }

  // ---------- chunks applied to a buffer ----------

  /** buf with `length` bytes from `d` on copied, one at a time, from `offset` back. */
  function CopyWithin(buf: seq<byte>, d: nat, offset: nat, length: nat): (r: seq<byte>)
    requires offset <= d && d + length <= |buf|
    ensures |r| == |buf|
    decreases length
  {
    if length == 0 then buf else CopyWithin(buf[d := buf[d - offset]], d + 1, offset, length - 1)
  }

  /** One chunk written at `d`; None when it does not fit or reaches before the start. */
  function Apply(buf: seq<byte>, d: nat, c: Chunk): (r: Option<(seq<byte>, nat)>)
    requires d <= |buf|
    ensures r.Some? ==> |r.value.0| == |buf| && d <= r.value.1 <= |buf|
  {
    match c
    case Literal(b) =>
      if |b| > |buf| - d then None else Some((buf[..d] + b + buf[d + |b|..], d + |b|))
    case Copy(offset, length) =>
      if offset > d || d + length > |buf| then None else Some((CopyWithin(buf, d, offset, length), d + length))
  }

  /** The decoder's loop from position `d` over the bytes `b` still to read. */
  function Run(buf: seq<byte>, d: nat, b: seq<byte>): (r: Result<(seq<byte>, nat)>)
    requires d <= |buf|
    ensures r.Ok? ==> |r.value.0| == |buf| && d <= r.value.1 <= |buf|
    decreases |b|
  {
    if b == [] then Ok((buf, d)) else
    match ParseChunk(b)
    case Err(e) => Err(e)
    case Ok((c, n)) =>
      match Apply(buf, d, c)
      case None => Err(Corrupt)
      case Some((buf', d')) => Run(buf', d', b[n..])
  }

  /** The length header, as decodedLen reads it: None is ErrCorrupt. The length is an int and
      may be negative, and so may the count of header bytes when the varint overflows. */
  function DecodedLen(src: seq<byte>): (r: Option<(int, int)>)
    ensures r.Some? ==> r.value.1 <= |src|
  {
    var (v, n) := Uvarint(src);
    if n == 0 then None else Some((ToInt(v), n))
  }

  /** The buffer Decode works on. */
  function Buffer(dst: seq<byte>, dLen: int): (r: seq<byte>)
    ensures dLen <= |r|
  {
    if |dst| < dLen then seq(dLen, _ => 0) else dst
  }

  /** make panics for a length above `room`, whatever that is on the machine. */
  predicate CannotMake(dst: seq<byte>, dLen: int, room: nat) {
    |dst| < dLen && room < dLen
  }

  /** What Decode does with a destination that holds `dst`, where make grants up to `room` bytes. */
  function Decoding(dst: seq<byte>, src: seq<byte>, room: nat): Outcome
  {
    match DecodedLen(src)
    case None => Failed(Corrupt)
    case Some((dLen, n)) =>
      if CannotMake(dst, dLen, room) then Panicked(LengthOutOfRange)
      else if n < 0 then Panicked(IndexOutOfRange) else
      match Run(Buffer(dst, dLen), 0, src[n..])
      case Err(e) => Failed(e)
      case Ok((buf, d)) => if d == dLen then Decoded(buf[..d]) else Failed(Corrupt)
  }

  // ---------- what a block stands for ----------

  /** The chunks of a whole block, if its header and its bytes are in order. */
  function BlockChunks(src: seq<byte>): Option<seq<Chunk>>
  {
    match DecodedLen(src)
    case None => None
    case Some((_, n)) =>
      if n < 0 then None else
      match Parse(src[n..])
      case Err(_) => None
      case Ok(cs) => Some(cs)
  }

  /** The data a block stands for: its chunks expanded, when they have the announced length. */
  function Meaning(src: seq<byte>): Option<seq<byte>>
  {
    match BlockChunks(src)
    case None => None
    case Some(cs) =>
      match Expand([], cs)
      case None => None
      case Some(data) => if |data| == DecodedLen(src).value.0 then Some(data) else None
  }

  predicate HasZeroOffset(cs: seq<Chunk>) {
    cs != [] && ((cs[0].Copy? && cs[0].offset == 0) || HasZeroOffset(cs[1..]))
  }

  function ApplyAll(buf: seq<byte>, d: nat, cs: seq<Chunk>): (r: Option<(seq<byte>, nat)>)
    requires d <= |buf|
    ensures r.Some? ==> |r.value.0| == |buf| && d <= r.value.1 <= |buf|
    decreases |cs|
  {
    if cs == [] then Some((buf, d)) else
    match Apply(buf, d, cs[0])
    case None => None
    case Some((buf', d')) => ApplyAll(buf', d', cs[1..])
  }

  /** Reading and writing chunk by chunk is reading all the chunks, then writing them. */
  lemma {:induction false} RunIsParseThenApply(buf: seq<byte>, d: nat, b: seq<byte>)
    requires d <= |buf|
    ensures Run(buf, d, b).Ok? <==> Parse(b).Ok? && ApplyAll(buf, d, Parse(b).value).Some?
    ensures Run(buf, d, b).Ok? ==> ApplyAll(buf, d, Parse(b).value) == Some(Run(buf, d, b).value)
    decreases |b|
  {
    hide ParseChunk, Apply;
    if b != [] && ParseChunk(b).Ok? {
      var (c, n) := ParseChunk(b).value;
      if Parse(b[n..]).Ok? {
        assert Parse(b).value[1..] == Parse(b[n..]).value;
      }
      if Apply(buf, d, c).Some? {
        var (buf', d') := Apply(buf, d, c).value;
        RunIsParseThenApply(buf', d', b[n..]);
      }
    }
  }

  lemma {:induction false} CopyWithinIsCopyOut(buf: seq<byte>, d: nat, offset: nat, length: nat)
    requires 1 <= offset <= d && d + length <= |buf|
    ensures CopyWithin(buf, d, offset, length)[..d + length] == CopyOut(buf[..d], offset, length)
    decreases length
  {
    hide CopyWithin, CopyOut;
    CopyStep(buf, d, offset, length);
    CopyOutStep(buf[..d], offset, length);
    if length > 0 {
      var buf', out := buf[d := buf[d - offset]], buf[..d];
      assert buf'[..d + 1] == out + [out[d - offset]];
      CopyWithinIsCopyOut(buf', d + 1, offset, length - 1);
    }
  }

  lemma CopyStep(buf: seq<byte>, d: nat, offset: nat, length: nat)
    requires offset <= d && d + length <= |buf|
    ensures CopyWithin(buf, d, offset, length)
         == if length == 0 then buf else CopyWithin(buf[d := buf[d - offset]], d + 1, offset, length - 1)
  {
  }

  lemma CopyOutStep(out: seq<byte>, offset: nat, length: nat)
    requires 1 <= offset <= |out|
    ensures CopyOut(out, offset, length)
         == if length == 0 then out else CopyOut(out + [out[|out| - offset]], offset, length - 1)
  {
  }

  /** In place or not, chunks without a zero offset mean the same. */
  lemma {:induction false} ApplyAllIsExpand(buf: seq<byte>, d: nat, cs: seq<Chunk>)
    requires d <= |buf| && !HasZeroOffset(cs)
    ensures ApplyAll(buf, d, cs).Some? <==> Expand(buf[..d], cs).Some? && |Expand(buf[..d], cs).value| <= |buf|
    ensures ApplyAll(buf, d, cs).Some? ==>
              var (buf', d') := ApplyAll(buf, d, cs).value;
              Expand(buf[..d], cs) == Some(buf'[..d'])
    decreases |cs|
  {
    if cs != [] {
      var next := Apply(buf, d, cs[0]);
      if next.Some? {
        var (buf', d') := next.value;
        if cs[0].Copy? {
          CopyWithinIsCopyOut(buf, d, cs[0].offset, cs[0].length);
        } else {
          assert buf'[..d'] == buf[..d] + cs[0].bytes;
        }
        ApplyAllIsExpand(buf', d', cs[1..]);
      }
    }
  }

  /** Main result about the decoder: a block without zero offsets decodes to its meaning and to
      nothing else, whatever the destination holds and however long it is, if there is room for it. */
  lemma DecodingIsMeaning(dst: seq<byte>, src: seq<byte>, data: seq<byte>, room: nat)
    requires BlockChunks(src).Some? ==> !HasZeroOffset(BlockChunks(src).value)
    ensures Decoding(dst, src, room) == Decoded(data) <==>
            Meaning(src) == Some(data) && (|data| <= |dst| || |data| <= room)
  {
    var header := DecodedLen(src);
    if header.Some? && header.value.1 >= 0 {
      var (dLen, n) := header.value;
      var buf := Buffer(dst, dLen);
      RunIsParseThenApply(buf, 0, src[n..]);
      if Parse(src[n..]).Ok? {
        ApplyAllIsExpand(buf, 0, Parse(src[n..]).value);
        assert buf[..0] == [];
      }
    }
  }

  /** How many bytes the header takes: its last byte is its first below 128; more than ten bytes overflow,
      and so do ten that end in more than one bit. Without such a byte the header is cut off. */
  lemma {:induction false} HeaderCount(b: seq<byte>, i: nat, k: nat)
    requires k <= |b| && forall j | 0 <= j < k :: b[j] >= 128
    ensures k == |b| ==> UvarintFrom(b, i).1 == 0
    ensures k < |b| && b[k] < 128 ==>
              UvarintFrom(b, i).1 == if i + k > 9 || (i + k == 9 && b[k] > 1) then -(i + k + 1) else i + k + 1
    decreases |b|
  {
    if k > 0 {
      if k < |b| { assert b[k] == b[1..][k - 1]; }
      HeaderCount(b[1..], i + 1, k - 1);
    }
  }

  /** The header ends with its first byte below 128. */
  predicate HeaderEnds(b: seq<byte>, k: nat) {
    k < |b| && b[k] < 128 && forall j | 0 <= j < k :: b[j] >= 128
  }

  function FirstSmall(b: seq<byte>): (k: nat)
    ensures k <= |b| && (forall j | 0 <= j < k :: b[j] >= 128) && (k < |b| ==> HeaderEnds(b, k))
  {
    if b == [] || b[0] < 128 then 0 else 1 + FirstSmall(b[1..])
  }

  /** Exactly when Decode panics: with an index out of range when the header has more than 64 bits, and
      with a length out of range when it has not and announces more than make can grant. */
  lemma PanicsExactly(dst: seq<byte>, src: seq<byte>, room: nat)
    ensures Decoding(dst, src, room) == Panicked(IndexOutOfRange) <==>
            exists k: nat :: HeaderEnds(src, k) && (k > 9 || (k == 9 && src[k] > 1))
    ensures Decoding(dst, src, room) == Panicked(LengthOutOfRange) <==>
            exists k: nat :: HeaderEnds(src, k) && k <= 9 && (k == 9 ==> src[k] <= 1) &&
              CannotMake(dst, ToInt(Uvarint(src).0), room)
  {
    hide UvarintFrom;
    var k := FirstSmall(src);
    HeaderCount(src, 0, k);
    assert forall j: nat | HeaderEnds(src, j) :: j == k;
  }

  /** The documented promise that corrupt input yields an error fails on this one. */
  lemma OverflowExample(dst: seq<byte>, room: nat)
    ensures Decoding(dst, [255, 255, 255, 255, 255, 255, 255, 255, 255, 255, 0], room) == Panicked(IndexOutOfRange)
  {
    var src := [255, 255, 255, 255, 255, 255, 255, 255, 255, 255, 0];
    assert HeaderEnds(src, 10);
    PanicsExactly(dst, src, room);
  }

  /** And on this one, a header that announces 2^62 bytes, wherever make cannot grant as many. */
  lemma HugeExample(dst: seq<byte>, room: nat)
    requires |dst| < 0x4000_0000_0000_0000 && room < 0x4000_0000_0000_0000
    ensures Decoding(dst, Varint(0x4000_0000_0000_0000), room) == Panicked(LengthOutOfRange)
  {
    hide Varint;
    UvarintInvertsVarint(0x4000_0000_0000_0000, []);
    assert Varint(0x4000_0000_0000_0000) + [] == Varint(0x4000_0000_0000_0000);
  }

  // ---------- zero offsets ----------

  lemma {:induction false} CopyWithinKeeps(buf: seq<byte>, d: nat, offset: nat, length: nat)
    requires offset <= d && d + length <= |buf|
    ensures CopyWithin(buf, d, offset, length)[..d] == buf[..d]
    ensures CopyWithin(buf, d, offset, length)[d + length..] == buf[d + length..]
    ensures offset == 0 ==> CopyWithin(buf, d, offset, length) == buf
    decreases length
  {
    if length > 0 {
      var buf' := buf[d := buf[d - offset]];
      CopyWithinKeeps(buf', d + 1, offset, length - 1);
      assert buf'[d + length..] == buf[d + length..];
      assert CopyWithin(buf, d, offset, length)[..d] == CopyWithin(buf, d, offset, length)[..d + 1][..d];
      assert buf'[..d + 1][..d] == buf[..d];
    }
  }

  function Size(c: Chunk): nat
  {
    match c
    case Literal(b) => |b|
    case Copy(_, length) => length
  }

  /** Whether a chunk list fits, and where it ends, does not depend on what the buffer holds;
      and what is written before `d` stays. */
  lemma {:induction false} ApplyAllShape(buf: seq<byte>, other: seq<byte>, d: nat, cs: seq<Chunk>)
    requires d <= |buf| == |other|
    ensures ApplyAll(buf, d, cs).Some? <==> ApplyAll(other, d, cs).Some?
    ensures ApplyAll(buf, d, cs).Some? ==> ApplyAll(buf, d, cs).value.1 == ApplyAll(other, d, cs).value.1
    ensures ApplyAll(buf, d, cs).Some? ==> forall i | 0 <= i < d :: ApplyAll(buf, d, cs).value.0[i] == buf[i]
    decreases |cs|
  {
    if cs != [] && Apply(buf, d, cs[0]).Some? {
      var (b', d') := Apply(buf, d, cs[0]).value;
      var (o', _) := Apply(other, d, cs[0]).value;
      ApplyAllShape(b', o', d', cs[1..]);
      ApplyKeeps(buf, d, cs[0]);
    }
  }

  lemma ApplyKeeps(buf: seq<byte>, d: nat, c: Chunk)
    requires d <= |buf| && Apply(buf, d, c).Some?
    ensures Apply(buf, d, c).value.1 == d + Size(c)
    ensures forall i | 0 <= i < d || d + Size(c) <= i < |buf| :: Apply(buf, d, c).value.0[i] == buf[i]
    ensures c.Copy? && c.offset == 0 ==> Apply(buf, d, c).value.0 == buf
  {
    if c.Copy? {
      CopyWithinKeeps(buf, d, c.offset, c.length);
    }
  }

  /** Where the first zero offset leaves a byte of the buffer in the output. */
  function ExposedAt(d: nat, cs: seq<Chunk>): nat
    requires HasZeroOffset(cs)
    decreases |cs|
  {
    if cs[0].Copy? && cs[0].offset == 0 then d else ExposedAt(d + Size(cs[0]), cs[1..])
  }

  lemma {:induction false} ZeroOffsetExposes(buf: seq<byte>, d: nat, cs: seq<Chunk>)
    requires d <= |buf| && HasZeroOffset(cs) && ApplyAll(buf, d, cs).Some?
    requires forall i | 0 <= i < |cs| :: Size(cs[i]) > 0
    ensures d <= ExposedAt(d, cs) < ApplyAll(buf, d, cs).value.1
    ensures ApplyAll(buf, d, cs).value.0[ExposedAt(d, cs)] == buf[ExposedAt(d, cs)]
    decreases |cs|
  {
    ApplyKeeps(buf, d, cs[0]);
    var (b', d') := Apply(buf, d, cs[0]).value;
    if cs[0].Copy? && cs[0].offset == 0 {
      ApplyAllShape(b', b', d', cs[1..]);
    } else {
      ZeroOffsetExposes(b', d', cs[1..]);
    }
  }

  lemma {:induction false} ParsedSizes(b: seq<byte>)
    requires Parse(b).Ok?
    ensures forall i | 0 <= i < |Parse(b).value| :: Size(Parse(b).value[i]) > 0
    decreases |b|
  {
    if b != [] {
      ParsedSizes(b[ParseChunk(b).value.1..]);
    }
  }

  /** A block that decodes at all decodes to the same data over every destination that is long enough, or
      that make can stand in for, exactly when no copy in it has offset 0: the check `offset > d` lets
      offset 0 through, and such a copy leaves a byte of the destination in the result. */
  lemma DestinationMatters(dst0: seq<byte>, src: seq<byte>, room: nat)
    requires Decoding(dst0, src, room).Decoded?
    ensures BlockChunks(src).Some?
    ensures var r := Decoding(dst0, src, room);
            (forall dst | !CannotMake(dst, |r.data|, room) :: Decoding(dst, src, room) == r) <==>
            !HasZeroOffset(BlockChunks(src).value)
  {
    hide Decoding, CannotMake;
    SomeChunks(dst0, src, room);
    var r := Decoding(dst0, src, room);
    if HasZeroOffset(BlockChunks(src).value) {
      var dst := ExposingDestination(dst0, src, room);
    } else {
      forall dst | !CannotMake(dst, |r.data|, room)
        ensures Decoding(dst, src, room) == r
      {
        AnyDestination(dst0, dst, src, room);
      }
    }
  }

  lemma SomeChunks(dst: seq<byte>, src: seq<byte>, room: nat)
    requires Decoding(dst, src, room).Decoded?
    ensures BlockChunks(src).Some?
  {
    var (dLen, n) := DecodedLen(src).value;
    RunIsParseThenApply(Buffer(dst, dLen), 0, src[n..]);
  }

  lemma AnyDestination(dst0: seq<byte>, dst: seq<byte>, src: seq<byte>, room: nat)
    requires Decoding(dst0, src, room).Decoded? && !CannotMake(dst, |Decoding(dst0, src, room).data|, room)
    requires BlockChunks(src).Some? ==> !HasZeroOffset(BlockChunks(src).value)
    ensures Decoding(dst, src, room) == Decoding(dst0, src, room)
  {
    hide Decoding, BlockChunks;
    DecodingIsMeaning(dst, src, Decoding(dst0, src, room).data, room);
    DecodingIsMeaning(dst0, src, Decoding(dst0, src, room).data, room);
  }

  lemma ExposingDestination(dst0: seq<byte>, src: seq<byte>, room: nat) returns (dst: seq<byte>)
    requires Decoding(dst0, src, room).Decoded?
    requires BlockChunks(src).Some? && HasZeroOffset(BlockChunks(src).value)
    ensures var r := Decoding(dst0, src, room);
            !CannotMake(dst, |r.data|, room) && Decoding(dst, src, room) != r
  {
    hide Run, Parse, ApplyAll, HasZeroOffset, ExposedAt, Uvarint;
    var (dLen, n) := DecodedLen(src).value;
    var buf := Buffer(dst0, dLen);
    RunIsParseThenApply(buf, 0, src[n..]);
    var cs := BlockChunks(src).value;
    var p := ExposedAt(0, cs);
    ParsedSizes(src[n..]);
    ZeroOffsetExposes(buf, 0, cs);
    dst := buf[p := if buf[p] == 0 then 1 else 0];
    ApplyAllShape(buf, dst, 0, cs);
    ZeroOffsetExposes(dst, 0, cs);
    RunIsParseThenApply(dst, 0, src[n..]);
    assert Buffer(dst, dLen) == dst;
    assert Decoding(dst, src, room).data[p] != Decoding(dst0, src, room).data[p];
  }

  /** A literal byte, and four bytes copied from no distance at all. */
  const EXPOSING: seq<byte> := [5, 0, 7, 1, 0]

  /** There is such a block: whatever the destination holds behind the first byte comes out. */
  lemma ExposingDecodes(dst: seq<byte>, room: nat)
    requires |dst| >= 5
    ensures Decoding(dst, EXPOSING, room) == Decoded([7] + dst[1..5])
  {
    hide ParseChunk, CopyWithin, Run, Uvarint;
    var b := EXPOSING[1..];
    assert b == [0, 7, 1, 0] && b[2..] == [1, 0];
    assert Uvarint(EXPOSING) == (5, 1) by { HeaderOfOne(EXPOSING); }
    FirstByte(dst, b);
    OnItself([7] + dst[1..], b[2..]);
    assert ([7] + dst[1..])[..5] == [7] + dst[1..5];
  }

  lemma HeaderOfOne(b: seq<byte>)
    requires b != [] && b[0] < 128
    ensures Uvarint(b) == (b[0], 1)
  {
  }

  lemma FirstByte(buf: seq<byte>, b: seq<byte>)
    requires |buf| >= 1 && |b| >= 2 && b[0] == 0
    ensures Run(buf, 0, b) == Run([b[1]] + buf[1..], 1, b[2..])
  {
    hide ParseChunk, CopyWithin, Run;
    LiteralChunkAt(b, 0);
    assert b[0..] == b && b[1..2] == [b[1]];
    RunAt(buf, 0, b, 0);
    assert buf[..0] + [b[1]] + buf[1..] == [b[1]] + buf[1..];
  }

  lemma OnItself(buf: seq<byte>, b: seq<byte>)
    requires |buf| >= 5 && b == [1, 0]
    ensures Run(buf, 1, b) == Ok((buf, 5))
  {
    hide ParseChunk, CopyWithin;
    CopyChunkAt(b, 0);
    assert b[0..] == b;
    RunAt(buf, 1, b, 0);
    CopyWithinKeeps(buf, 1, 0, 4);
    RunAtEnd(buf, 5, b);
  }

  // ---------- the code ----------

  /** How a call ends: with dst[..d], with an error, or with a panic. */
  datatype Status = Success | Failure(error: Error) | Panic(fault: Fault)

  /** What a call returns, as a value. */
  function Returned(status: Status, data: seq<byte>): Outcome
  {
    match status
    case Success => Decoded(data)
    case Failure(e) => Failed(e)
    case Panic(fault) => Panicked(fault)
  }

  method Decode(dst: array<byte>, src: seq<byte>, room: nat) returns (status: Status, out: array<byte>, d: nat)
    modifies dst
    ensures out == dst || fresh(out)
    ensures d <= out.Length
    ensures Returned(status, out[..d]) == Decoding(old(dst[..]), src, room)
  {
    out, d := dst, 0;
    var (v, n) := Uvarint(src);
    if n == 0 {
      return Failure(Corrupt), dst, 0;
    }
    var dLen := ToInt(v);
    if dst.Length < dLen && room < dLen {
      return Panic(LengthOutOfRange), dst, 0;
    }
    if n < 0 {
      // The loop would read src[n].
      return Panic(IndexOutOfRange), dst, 0;
    }
    if dst.Length < dLen {
      out := new byte[dLen](_ => 0);
    }
    assert out[..] == Buffer(dst[..], dLen);
    status, d := DecodeChunks(out, src, n);
    if status.Success? && d != dLen {
      status := Failure(Corrupt);
    }
  }

  /** The loop of Decode over src[start..]. */
  method DecodeChunks(dst: array<byte>, src: seq<byte>, start: nat) returns (status: Status, d: nat)
    requires start <= |src|
    modifies dst
    ensures d <= dst.Length
    ensures match Run(old(dst[..]), 0, src[start..])
            case Ok((buf, end)) => status == Success && dst[..] == buf && d == end
            case Err(e) => status == Failure(e)
  {
    hide Run, ParseChunk, CopyWithin;
    d := 0;
    var s := start;
    while s < |src|
      invariant s <= |src| && d <= dst.Length
      invariant Run(dst[..], d, src[s..]) == Run(old(dst[..]), 0, src[start..])
      decreases |src| - s
    {
      RunAt(dst[..], d, src, s);
      var tag := src[s] % 4;
      if tag == 0 {
        var ok, length;
        ok, s, length := LiteralLength(src, s);
        if !ok || length > dst.Length - d || length > |src| - s {
          return Failure(Corrupt), d;
        }
        CopyBytes(dst, d, src[s..s + length]);
        d := d + length;
        s := s + length;
        continue;
      }
      CopyChunkAt(src, s);
      if tag == 3 {
        return Failure(UnsupportedCopy4), d;
      }
      var ok, offset, length := CopyOperands(src, s, tag);
      s := s + 1 + tag;
      if !ok || offset > d || d + length > dst.Length {
        return Failure(Corrupt), d;
      }
      CopyForward(dst, d, offset, length);
      d := d + length;
    }
    RunAtEnd(dst[..], d, src);
    status := Success;
  }

  lemma RunAtEnd(buf: seq<byte>, d: nat, src: seq<byte>)
    requires d <= |buf|
    ensures Run(buf, d, src[|src|..]) == Ok((buf, d))
  {
  }

  /** One turn of the loop at `s`. */
  lemma RunAt(buf: seq<byte>, d: nat, src: seq<byte>, s: nat)
    requires d <= |buf| && s < |src|
    ensures ParseChunk(src[s..]).Err? ==> Run(buf, d, src[s..]) == Err(ParseChunk(src[s..]).error)
    ensures ParseChunk(src[s..]).Ok? ==>
              var r := ParseChunk(src[s..]).value;
              var next := Apply(buf, d, r.0);
              Run(buf, d, src[s..])
              == if next.None? then Err(Corrupt) else Run(next.value.0, next.value.1, src[s + r.1..])
  {
    hide ParseChunk, Apply;
    if ParseChunk(src[s..]).Ok? {
      var n := ParseChunk(src[s..]).value.1;
      assert src[s..][n..] == src[s + n..];
    }
  }

  /** The two copy cases of the switch: offset and length from one or two bytes behind the tag. */
  method CopyOperands(src: seq<byte>, s0: nat, tag: nat) returns (ok: bool, offset: nat, length: nat)
    requires s0 < |src| && tag == src[s0] % 4 && 1 <= tag <= 2
    ensures ParseChunk(src[s0..]) == if !ok then Err(Corrupt) else Ok((Copy(offset, length), 1 + tag))
    ensures ok ==> s0 + 1 + tag <= |src|
  {
    hide ParseChunk;
    CopyChunkAt(src, s0);
    if tag == 1 {
      var s := s0 + 2;
      if s > |src| {
        return false, 0, 0;
      }
      length := 4 + (src[s - 2] as int) / 4 % 8;
      offset := (src[s - 2] as int) / 32 * 256 + src[s - 1] as int;
    } else {
      var s := s0 + 3;
      if s > |src| {
        return false, 0, 0;
      }
      length := 1 + (src[s - 3] as int) / 4;
      offset := src[s - 2] as int + (src[s - 1] as int) * 256;
    }
    ok := true;
  }

  /** The inner switch of Decode: where a literal's bytes start and how many there are. The
      length is at most 1 << 32, so the source's check for a non-positive one never fires. */
  method LiteralLength(src: seq<byte>, s0: nat) returns (ok: bool, s: nat, length: nat)
    requires s0 < |src| && src[s0] % 4 == 0
    ensures ok ==> s0 < s <= |src| && 1 <= length <= MAX_LITERAL
    ensures ParseChunk(src[s0..])
         == if !ok || length > |src| - s then Err(Corrupt)
            else Ok((Literal(src[s..s + length]), s + length - s0))
  {
    hide ParseChunk, Numeral;
    LiteralChunkAt(src, s0);
    var x: nat := (src[s0] as int) / 4;
    s := s0;
    if x < 60 {
      s := s + 1;
    } else if x == 60 {
      s := s + 2;
      if s > |src| {
        return false, s, 0;
      }
      x := src[s - 1];
    } else if x == 61 {
      s := s + 3;
      if s > |src| {
        return false, s, 0;
      }
      x := (src[s - 2] as int) + (src[s - 1] as int) * 0x100;
    } else if x == 62 {
      s := s + 4;
      if s > |src| {
        return false, s, 0;
      }
      x := (src[s - 3] as int) + (src[s - 2] as int) * 0x100 + (src[s - 1] as int) * 0x1_0000;
    } else {
      s := s + 5;
      if s > |src| {
        return false, s, 0;
      }
      x := (src[s - 4] as int) + (src[s - 3] as int) * 0x100 + (src[s - 2] as int) * 0x1_0000
         + (src[s - 1] as int) * 0x100_0000;
    }
    ok, length := true, x + 1;
    NumeralBytes(src[s0 + 1..s]);
  }

  /** A literal chunk, byte by byte. */
  lemma LiteralChunkAt(src: seq<byte>, s: nat)
    requires s < |src| && src[s] % 4 == 0
    ensures var m := (src[s] as int) / 4;
      var from := s + 1 + if m < 60 then 0 else m - 59;
      ParseChunk(src[s..])
      == if from > |src| then Err(Corrupt) else
         var length := 1 + if m < 60 then m else Numeral(src[s + 1..from]);
         if length > |src| - from then Err(Corrupt)
         else Ok((Literal(src[from..from + length]), from + length - s))
  {
    hide Numeral;
    var b, m := src[s..], (src[s] as int) / 4;
    var k := if m < 60 then 0 else m - 59;
    if s + 1 + k <= |src| {
      assert b[1..1 + k] == src[s + 1..s + 1 + k];
      var length := 1 + if m < 60 then m else Numeral(b[1..1 + k]);
      if s + 1 + k + length <= |src| {
        assert b[1 + k..1 + k + length] == src[s + 1 + k..s + 1 + k + length];
      }
    }
  }

  /** Up to four little-endian bytes in terms of shifts. */
  lemma NumeralBytes(b: seq<byte>)
    requires |b| <= 4
    ensures Numeral(b) == (if |b| > 0 then b[0] else 0) + (if |b| > 1 then (b[1] as int) * 0x100 else 0)
                        + (if |b| > 2 then (b[2] as int) * 0x1_0000 else 0)
                        + (if |b| > 3 then (b[3] as int) * 0x100_0000 else 0)
  {
    if |b| > 0 {
      NumeralBytes(b[1..]);
    }
  }

  /** The copy loop: forwards, one byte at a time, because source and target may overlap. */
  method CopyForward(dst: array<byte>, d0: nat, offset: nat, length: nat)
    requires offset <= d0 && d0 + length <= dst.Length
    modifies dst
    ensures dst[..] == CopyWithin(old(dst[..]), d0, offset, length)
  {
    var d, end := d0, d0 + length;
    while d < end
      invariant d0 <= d <= end
      invariant CopyWithin(dst[..], d, offset, end - d) == CopyWithin(old(dst[..]), d0, offset, length)
    {
      ghost var before := dst[..];
      dst[d] := dst[d - offset];
      assert dst[..] == before[d := before[d - offset]];
      d := d + 1;
    }
  }

  /** What the two copy tags and the unsupported one say, byte by byte. */
  lemma CopyChunkAt(src: seq<byte>, s: nat)
    requires s < |src| && src[s] % 4 != 0
    ensures src[s] % 4 == 1 ==>
              ParseChunk(src[s..])
              == if s + 2 > |src| then Err(Corrupt)
                 else Ok((Copy((src[s] as int) / 32 * 256 + src[s + 1], 4 + (src[s] as int) / 4 % 8), 2))
    ensures src[s] % 4 == 2 ==>
              ParseChunk(src[s..])
              == if s + 3 > |src| then Err(Corrupt)
                 else Ok((Copy((src[s + 1] as int) + (src[s + 2] as int) * 256, 1 + (src[s] as int) / 4), 3))
    ensures src[s] % 4 == 3 ==> ParseChunk(src[s..]) == Err(UnsupportedCopy4)
  {
  }
}
