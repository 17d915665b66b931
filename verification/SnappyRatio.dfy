/** What the compressor gains (encode.go): repetitions within reach are found and become copies. */
module SnappyRatio {
  import opened Options
  import opened Bytes
  import opened SnappyFormat
  import opened SnappyEncode

  // ---------- one turn of the matcher ----------

  lemma Turn(src: seq<byte>, s: nat, lit: nat, table: seq<int>, bits: nat) returns (p: nat)
    requires lit <= s && s + 4 <= |src| && TableAt(table, s, bits)
    ensures p == Slot(src, s, bits) < |table| && TableAt(table[p := s + 1], s + 1, bits)
    ensures var t := table[p] - 1;
            if !Matches(src, s, t) then
              Matcher(src, s, lit, table, bits) == Matcher(src, s + 1, lit, table[p := s + 1], bits)
            else
              var e := MatchEnd(src, s + 4, t + 4);
              TableAt(table[p := s + 1], e, bits) &&
              Matcher(src, s, lit, table, bits) ==
              LiteralRun(src[lit..s]) + CopyRun(s - t, e - s) + Matcher(src, e, e, table[p := s + 1], bits)
  {
    hide Slot, Pow2, LiteralRun, CopyRun, MatchEnd, AllWritable;
    Pow2Monotone(bits, MAX_TABLE_BITS);
    p := Slot(src, s, bits);
  }

  lemma Over(src: seq<byte>, s: nat, lit: nat, table: seq<int>, bits: nat)
    requires lit <= s <= |src| < s + 4 && TableAt(table, s, bits)
    ensures Matcher(src, s, lit, table, bits) == LiteralRun(src[lit..])
  {
  }

  /** A match stops where the repetition does. */
  lemma {:induction false} MatchEndIs(src: seq<byte>, s: nat, t: nat, e: nat)
    requires t < s <= e <= |src| && forall i | s <= i < e :: src[i] == src[i - (s - t)]
    requires e == |src| || src[e] != src[e - (s - t)]
    ensures MatchEnd(src, s, t) == e
    decreases e - s
  {
    if s < e {
      assert src[s] == src[s - (s - t)];
      MatchEndIs(src, s + 1, t + 1, e);
    }
  }

  // ---------- one byte over and over ----------

  function Same(b: byte, n: nat): (src: seq<byte>)
    ensures |src| == n
  {
    seq(n, _ => b)
  }

  /** A run of one byte, however long, is that byte and a copy of it. */
  lemma RunCompresses(b: byte, n: nat)
    requires n >= 5
    ensures Chunks(Same(b, n)) == [Literal([b])] + CopyRun(1, n - 1)
  {
    hide Slot, Pow2, LiteralRun, CopyRun, MatchEnd, AllWritable, Matcher;
    var src, bits, zero := Same(b, n), TableBits(n, 8), ZeroTable();
    var p := Turn(src, 0, 0, zero, bits);
    SameSlot(src, 0, 1, bits);
    var q := Turn(src, 1, 0, zero[p := 1], bits);
    MatchEndIs(src, 5, 4, n);
    Over(src, n, n, zero[p := 1][q := 2], bits);
    assert src[0..1] == [b] && src[n..] == [];
    OneLiteral([b]);
    NoLiteral();
    assert LiteralRun([b]) + CopyRun(1, n - 1) + [] == [Literal([b])] + CopyRun(1, n - 1);
  }

  lemma SameSlot(src: seq<byte>, s: nat, t: nat, bits: nat)
    requires s + 4 <= |src| && t + 4 <= |src| && src[s..s + 4] == src[t..t + 4] && bits <= 32
    ensures Slot(src, s, bits) == Slot(src, t, bits)
  {
    hide ShiftDown, Numeral;
  }

  lemma OneLiteral(bytes: seq<byte>)
    requires bytes != []
    ensures LiteralRun(bytes) == [Literal(bytes)]
  {
  }

  lemma NoLiteral()
    ensures LiteralRun([]) == []
  {
  }

  /** Its block takes three bytes for every 64 of it, and at most 15 more. */
  lemma RunIsShort(b: byte, n: nat)
    requires 5 <= n < TWO_TO_THE_64
    ensures |Block(Same(b, n))| * 64 <= 3 * n + 15 * 64
  {
    hide CopyRun, Wire, Varint, AllWritable, Chunks, Same;
    RunCompresses(b, n);
    var copies := CopyRun(1, n - 1);
    CopyRunBound(1, n - 1);
    assert ([Literal([b])] + copies)[1..] == copies && ([Literal([b])] + copies)[0] == Literal([b]);
    OneByte(b);
    UvarintInvertsVarint(n, []);
  }

  lemma OneByte(b: byte)
    ensures |Wire(Literal([b]))| == 2
  {
  }

  // ---------- a word that comes again ----------

  const WORD: seq<byte> := [1, 2, 3, 4]

  /** The word, zeros up to a distance of `d`, and the word again. */
  function Twice(d: nat): (src: seq<byte>)
    requires d >= 9
    ensures |src| == d + 4
  {
    WORD + Same(0, d - 4) + WORD
  }

  lemma TwiceBytes(d: nat)
    requires d >= 9
    ensures var src := Twice(d);
            src[0..4] == WORD && src[1..5] == [2, 3, 4, 0] && src[2..6] == [3, 4, 0, 0] && src[3..7] == [4, 0, 0, 0] &&
            src[4..8] == [0, 0, 0, 0] && src[5..9] == [0, 0, 0, 0] && src[d..] == WORD && src[d..d + 4] == WORD &&
            src[0..5] == WORD + [0] && src[d] == 1 && src[d + 1] == 2 && src[d + 2] == 3 && src[d + 3] == 4 &&
            forall i | 4 <= i < d :: src[i] == 0
  {
    TwiceAt(d);
    hide Twice, Same;
  }

  lemma TwiceAt(d: nat)
    requires d >= 9
    ensures var src := Twice(d); forall i | 0 <= i < 4 :: src[i] == WORD[i] && src[d + i] == WORD[i]
    ensures var src := Twice(d); forall i | 4 <= i < d :: src[i] == 0
  {
  }

  lemma TwiceHashes(d: nat)
    requires d >= 9
    ensures var src := Twice(d);
            Hash(src, 0) == Hash(src, d) == 0x74bc21bd && Hash(src, 1) == 0x7c56867a && Hash(src, 2) == 0x313feb37 &&
            Hash(src, 3) == 0x78d69ef4 && Hash(src, 4) == Hash(src, 5) == 0
  {
    hide Twice, Numeral;
    TwiceBytes(d);
    Numerals();
  }

  lemma Numerals()
    ensures Numeral(WORD) == 0x04030201 && Numeral([2, 3, 4, 0]) == 0x00040302 && Numeral([3, 4, 0, 0]) == 0x0403
    ensures Numeral([4, 0, 0, 0]) == 4 && Numeral([0, 0, 0, 0]) == 0
  {
    assert [2, 3, 4, 0][1..] == [3, 4, 0] && [3, 4, 0][1..] == [4, 0] && [4, 0][1..] == [0 as byte];
    assert WORD[1..] == [2, 3, 4] && [2, 3, 4][1..] == [3, 4] && [3, 4][1..] == [4 as byte];
    assert [3, 4, 0, 0][1..] == [4, 0, 0] && [4, 0, 0][1..] == [0, 0] && [0, 0][1..] == [0 as byte];
    assert [4, 0, 0, 0][1..] == [0, 0, 0] && [0, 0, 0][1..] == [0, 0] && [0, 0, 0, 0][1..] == [0, 0, 0];
  }

  /** Hashes that differ in their highest byte go to different slots. */
  lemma SlotsDiffer(h: nat, g: nat, bits: nat)
    requires h < 0x1_0000_0000 && g < 0x1_0000_0000 && h / 0x100_0000 != g / 0x100_0000 && 8 <= bits <= 14
    ensures ShiftDown(h, bits) != ShiftDown(g, bits)
  {
    hide Pow2;
    PowersUpTo24();
    Coarser(h, 24 - (bits - 8), Pow2(32 - bits));
    Coarser(g, 24 - (bits - 8), Pow2(32 - bits));
  }

  /** The highest byte can be told from any slot. */
  lemma Coarser(h: nat, k: nat, m: nat)
    requires 18 <= k <= 24 && m == [0x4_0000, 0x8_0000, 0x10_0000, 0x20_0000, 0x40_0000, 0x80_0000, 0x100_0000][k - 18]
    ensures h / 0x100_0000 == h / m / [64, 32, 16, 8, 4, 2, 1][k - 18]
  {
  }

  lemma PowersUpTo24()
    ensures Pow2(18) == 0x4_0000 && Pow2(19) == 0x8_0000 && Pow2(20) == 0x10_0000 && Pow2(21) == 0x20_0000
    ensures Pow2(22) == 0x40_0000 && Pow2(23) == 0x80_0000 && Pow2(24) == 0x100_0000
  {
    assert Pow2(4) == 16 && Pow2(8) == 256 && Pow2(12) == 4096 && Pow2(16) == 0x1_0000;
  }

  lemma TwiceSlots(d: nat, bits: nat)
    requires d >= 9 && 8 <= bits <= 14
    ensures var src := Twice(d);
            Slot(src, 0, bits) == Slot(src, d, bits) && Slot(src, 4, bits) == Slot(src, 5, bits) &&
            Slot(src, 0, bits) !in {Slot(src, 1, bits), Slot(src, 2, bits), Slot(src, 3, bits), Slot(src, 4, bits)} &&
            Slot(src, 1, bits) !in {Slot(src, 2, bits), Slot(src, 3, bits), Slot(src, 4, bits)} &&
            Slot(src, 2, bits) !in {Slot(src, 3, bits), Slot(src, 4, bits)} && Slot(src, 3, bits) != Slot(src, 4, bits)
  {
    hide Hash, ShiftDown, Twice;
    TwiceHashes(d);
    SlotsDiffer(0x74bc21bd, 0x7c56867a, bits);
    SlotsDiffer(0x74bc21bd, 0x313feb37, bits);
    SlotsDiffer(0x74bc21bd, 0x78d69ef4, bits);
    SlotsDiffer(0x74bc21bd, 0, bits);
    SlotsDiffer(0x7c56867a, 0x313feb37, bits);
    SlotsDiffer(0x7c56867a, 0x78d69ef4, bits);
    SlotsDiffer(0x7c56867a, 0, bits);
    SlotsDiffer(0x313feb37, 0x78d69ef4, bits);
    SlotsDiffer(0x313feb37, 0, bits);
    SlotsDiffer(0x78d69ef4, 0, bits);
  }

  /** The word is copied from every distance below 1 << 15, and from no greater one. */
  lemma CopiesWithinReach(d: nat)
    requires d >= 9
    ensures Chunks(Twice(d)) == [Literal(WORD + [0])] + CopyRun(1, d - 5) +
                                (if d < 0x8000 then CopyRun(d, 4) else [Literal(WORD)])
  {
    hide Slot, Pow2, LiteralRun, CopyRun, MatchEnd, AllWritable, Matcher, Twice;
    var src, bits := Twice(d), TableBits(d + 4, 8);
    TwiceBytes(d);
    var table, p := FirstTurns(d, bits);
    var e := d;
    MatchEndIs(src, 9, 8, d);
    var tail := Matcher(src, d, d, table, bits);
    assert Chunks(src) == LiteralRun(src[0..5]) + CopyRun(1, d - 5) + tail;
    OneLiteral(WORD + [0]);
    LastTurn(d, bits, table);
  }

  /** Up to the match on the zeros; the word's slot still holds its first position. */
  lemma FirstTurns(d: nat, bits: nat) returns (table: seq<int>, p: nat)
    requires d >= 9 && 8 <= bits <= 14
    ensures TableAt(table, d, bits) && p == Slot(Twice(d), d, bits) < |table| && table[p] == 1
    ensures TableAt(ZeroTable(), 0, bits)
    ensures MatchEnd(Twice(d), 9, 8) == d ==>
              Matcher(Twice(d), 0, 0, ZeroTable(), bits) ==
              LiteralRun(Twice(d)[0..5]) + CopyRun(1, d - 5) + Matcher(Twice(d), d, d, table, bits)
  {
    hide Slot, Pow2, LiteralRun, CopyRun, MatchEnd, AllWritable, Matcher, Twice;
    var src := Twice(d);
    TwiceBytes(d);
    TwiceSlots(d, bits);
    var t0 := ZeroTable();
    p := Turn(src, 0, 0, t0, bits);
    var t1 := t0[p := 1];
    var p1 := Turn(src, 1, 0, t1, bits);
    var t2 := t1[p1 := 2];
    var p2 := Turn(src, 2, 0, t2, bits);
    var t3 := t2[p2 := 3];
    var p3 := Turn(src, 3, 0, t3, bits);
    var t4 := t3[p3 := 4];
    var p4 := Turn(src, 4, 0, t4, bits);
    var t5 := t4[p4 := 5];
    var p5 := Turn(src, 5, 0, t5, bits);
    assert src[5..9] == src[4..8];
    assert src[5] == src[4] == src[6] == src[7] == src[8] == 0 by { assert src[4..8][0] == 0; }
    table := t5[p5 := 6];
    assert TableAt(table, d, bits);
  }

  lemma LastTurn(d: nat, bits: nat, table: seq<int>)
    requires d >= 9 && 8 <= bits <= 14 && TableAt(table, d, bits)
    requires Slot(Twice(d), d, bits) < |table| && table[Slot(Twice(d), d, bits)] == 1
    ensures Matcher(Twice(d), d, d, table, bits) == if d < 0x8000 then CopyRun(d, 4) else [Literal(WORD)]
  {
    hide Slot, Pow2, LiteralRun, CopyRun, AllWritable, Matcher, Twice;
    var src := Twice(d);
    TwiceBytes(d);
    assert src[0] == src[0..4][0] && src[1] == src[0..4][1] && src[2] == src[0..4][2] && src[3] == src[0..4][3];
    var p := Turn(src, d, d, table, bits);
    NoLiteral();
    if d < 0x8000 {
      Over(src, d + 4, d + 4, table[p := d + 1], bits);
      assert src[d..d] == [] && src[d + 4..] == [];
      assert [] + CopyRun(d, 4) + [] == CopyRun(d, 4);
    } else {
      Over(src, d + 1, d, table[p := d + 1], bits);
      OneLiteral(WORD);
    }
  }
}
