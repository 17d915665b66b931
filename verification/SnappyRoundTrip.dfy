/** Encoding and decoding undo each other, for every source and every pair of buffers. */
module SnappyRoundTrip {
  import opened Options
  import opened Bytes
  import opened SnappyFormat
  import opened SnappyEncode
  import opened SnappyDecode

  lemma {:induction false} ExpandableHasNoZeroOffset(out: seq<byte>, cs: seq<Chunk>)
    requires Expand(out, cs).Some?
    ensures !HasZeroOffset(cs)
    decreases |cs|
  {
    if cs != [] {
      match cs[0]
      case Literal(b) => ExpandableHasNoZeroOffset(out + b, cs[1..]);
      case Copy(offset, length) => ExpandableHasNoZeroOffset(CopyOut(out, offset, length), cs[1..]);
    }
  }

  /** Main result: a block Encode can write decodes to its source, over any destination; a slice as
      long as the source is one the machine can make, since the source is one. */
  lemma RoundTrip(dst: seq<byte>, src: seq<byte>, room: nat)
    requires |src| < TWO_TO_THE_63 && |src| <= room && AllExpressible(Chunks(src))
    ensures Decoding(dst, Block(src), room) == Decoded(src)
  {
    hide Chunks, WireAll, Parse, Expand, HasZeroOffset, Uvarint, Decoding;
    var cs, n := Chunks(src), |Varint(|src|)|;
    UvarintInvertsVarint(|src|, WireAll(cs));
    assert Block(src)[n..] == WireAll(cs);
    ParseInvertsWire(cs);
    ChunksExpand(src);
    ExpandableHasNoZeroOffset([], cs);
    DecodingIsMeaning(dst, Block(src), src, room);
  }

  lemma MatchAhead(src: seq<byte>, s: nat, t: int)
    requires s + 4 <= |src| && t < s && Matches(src, s, t)
    ensures 0 <= t && s - t < 0x1_0000
  {
  }

  lemma MatcherStops(src: seq<byte>, s: nat, lit: nat, table: seq<int>, bits: nat)
    requires lit <= s <= |src| < s + 4 && TableAt(table, s, bits)
    ensures Matcher(src, s, lit, table, bits) == LiteralRun(src[lit..])
  {
    hide LiteralRun;
  }

  /** One turn of the search. */
  lemma MatcherStep(src: seq<byte>, s: nat, lit: nat, table: seq<int>, bits: nat)
    requires lit <= s && s + 4 <= |src| && TableAt(table, s, bits)
    ensures bits <= 32 && |table| > Slot(src, s, bits) && 0 <= table[Slot(src, s, bits)] <= s
    ensures var p := Slot(src, s, bits);
            var t, table' := table[p] - 1, table[p := s + 1];
            TableAt(table', s + 1, bits) &&
            if !Matches(src, s, t) then
              Matcher(src, s, lit, table, bits) == Matcher(src, s + 1, lit, table', bits)
            else
              var e := MatchEnd(src, s + 4, t + 4);
              TableAt(table', e, bits) &&
              Matcher(src, s, lit, table, bits)
              == LiteralRun(src[lit..s]) + CopyRun(s - t, e - s) + Matcher(src, e, e, table', bits)
  {
    hide Slot, MatchEnd, Pow2, CopyRun, LiteralRun;
    Pow2Monotone(bits, MAX_TABLE_BITS);
  }

  lemma ItemFits(run: seq<Chunk>, offset: nat, length: nat, rest: seq<Chunk>)
    requires AllWritable(run) && AllWritable(rest) && offset < 0x1_0000
    requires AllExpressible(run) && AllExpressible(rest)
    ensures AllExpressible(run + CopyRun(offset, length) + rest)
  {
    hide AllWritable, AllExpressible, WireAll, CopyRun;
    ItemWire(run, offset, length, rest);
  }

  lemma RunFits(b: seq<byte>)
    requires |b| <= MAX_LITERAL
    ensures AllExpressible(LiteralRun(b))
  {
  }

  /** Sources of at most 1 << 32 bytes never make Encode panic. */
  lemma {:induction false} MatcherFits(src: seq<byte>, s: nat, lit: nat, table: seq<int>, bits: nat)
    requires lit <= s <= |src| <= MAX_LITERAL && TableAt(table, s, bits)
    ensures AllExpressible(Matcher(src, s, lit, table, bits))
    decreases |src| - s
  {
    hide Slot, MatchEnd, Pow2, CopyRun, Matcher, Matches, AllExpressible, AllWritable, LiteralRun, TableAt;
    if s + 4 <= |src| {
      MatcherStep(src, s, lit, table, bits);
      var p := Slot(src, s, bits);
      var t := table[p] - 1;
      if !Matches(src, s, t) {
        MatcherFits(src, s + 1, lit, table[p := s + 1], bits);
      } else {
        MatchAhead(src, s, t);
        var e := MatchEnd(src, s + 4, t + 4);
        RunFits(src[lit..s]);
        MatcherFits(src, e, e, table[p := s + 1], bits);
        ItemFits(LiteralRun(src[lit..s]), s - t, e - s, Matcher(src, e, e, table[p := s + 1], bits));
      }
    } else {
      MatcherStops(src, s, lit, table, bits);
      RunFits(src[lit..]);
    }
  }

  lemma ChunksFit(src: seq<byte>)
    requires |src| <= MAX_LITERAL
    ensures AllExpressible(Chunks(src))
  {
    if |src| > 4 {
      MatcherFits(src, 0, 0, ZeroTable(), TableBits(|src|, 8));
    }
  }

  /** The round trip of snappy_test.go: encode into one buffer, decode into another, compare. */
  method RoundTripCheck(b: seq<byte>, ebuf: array<byte>, dbuf: array<byte>, room: nat) returns (same: bool)
    requires |b| < TWO_TO_THE_63 && |b| <= room && ebuf != dbuf
    modifies ebuf, dbuf
    ensures AllExpressible(Chunks(b)) ==> same
    ensures |b| <= MAX_LITERAL ==> same
  {
    hide Chunks, Block, Decoding, AllExpressible;
    if |b| <= MAX_LITERAL {
      ChunksFit(b);
    }
    var ok, e, n := Encode(ebuf, b);
    if !ok {
      return false;
    }
    ghost var before := dbuf[..];
    RoundTrip(before, b, room);
    var status, d, m := Decode(dbuf, e[..n], room);
    return status == Success && d[..m] == b;
  }
}
