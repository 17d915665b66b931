/** Quoting a string for TOML text (encode.go) and undoing it (parse.go). Strings are Go's byte
    strings: a char stands for one byte. */
module TomlQuote {

  /** What reading a quoted string comes to. Bad is the source's `bug`, which ends the process;
      Crash is a slice bound out of range. */
  datatype Reading = Read(s: string) | Bad | Crash

  // ---------- quoting ----------

  /** quotedReplacer. */
  function QuoteChar(c: char): string
  {
    match c
    case '\t' => "\\t"
    case '\n' => "\\n"
    case '\r' => "\\r"
    case '\"' => "\\\""
    case '\\' => "\\\\"
    case _ => [c]
  }

  function Quote(s: string): string
  {
    if s == "" then "" else QuoteChar(s[0]) + Quote(s[1..])
  }

  // ---------- escapes ----------

  /** The byte an escape stands for. */
  function Escape(c: char): (r: string)
    ensures |r| <= 1
  {
    match c
    case 'b' => [8 as char]
    case 't' => "\t"
    case 'n' => "\n"
    case 'f' => [12 as char]
    case 'r' => "\r"
    case '\"' => "\""
    case '/' => "/"
    case '\\' => "\\"
    case _ => ""
  }

  /** replaceEscapes: from left to right, without looking again at what was replaced. */
  function ReplaceEscapes(s: string): string
  {
    if s == "" then ""
    else if |s| >= 2 && s[0] == '\\' && Escape(s[1]) != "" then Escape(s[1]) + ReplaceEscapes(s[2..])
    else [s[0]] + ReplaceEscapes(s[1..])
  }

  lemma EscapeUndoesQuoteChar(c: char)
    ensures var q := QuoteChar(c);
            if |q| == 2 then q[0] == '\\' && Escape(q[1]) == [c] else q == [c] && c != '\\'
  {
  }

  lemma {:induction false} EscapesUndoQuote(s: string)
    ensures ReplaceEscapes(Quote(s)) == s
  {
    hide QuoteChar, Escape;
    if s != "" {
      var c, q := QuoteChar(s[0]), Quote(s[1..]);
      EscapesUndoQuote(s[1..]);
      EscapeUndoesQuoteChar(s[0]);
      assert Quote(s) == c + q;
      if |c| == 2 {
        assert (c + q)[2..] == q;
      } else {
        assert (c + q)[1..] == q;
      }
    }
  }

  // ---------- \uXXXX ----------

  /** strings.Index(s, "\\u"), with -1 for none. */
  function IndexEscape(s: string): (i: int)
    ensures -1 <= i
    ensures i >= 0 ==> i + 1 < |s| && s[i] == '\\' && s[i + 1] == 'u'
    ensures i == -1 <==> !HasEscape(s)
  {
    if |s| < 2 then -1
    else if s[0] == '\\' && s[1] == 'u' then 0
    else
      var i := IndexEscape(s[1..]);
      assert HasEscape(s[1..]) ==> HasEscape(s) by {
        if HasEscape(s[1..]) {
          var j :| 0 <= j < |s[1..]| - 1 && s[1..][j] == '\\' && s[1..][j + 1] == 'u';
          assert s[j + 1] == '\\' && s[j + 2] == 'u';
        }
      }
      assert !HasEscape(s[1..]) ==> !HasEscape(s) by {
        if HasEscape(s) {
          var j :| 0 <= j < |s| - 1 && s[j] == '\\' && s[j + 1] == 'u';
          assert s[1..][j - 1] == '\\' && s[1..][j] == 'u';
        }
      }
      if i == -1 then -1 else i + 1
  }

  /** A backslash directly followed by `u`. */
  predicate HasEscape(s: string) {
    exists i | 0 <= i < |s| - 1 :: s[i] == '\\' && s[i + 1] == 'u'
  }

  function HexDigit(c: char): int
  {
    if '0' <= c <= '9' then c as int - '0' as int
    else if 'a' <= c <= 'f' then c as int - 'a' as int + 10
    else if 'A' <= c <= 'F' then c as int - 'A' as int + 10
    else -1
  }

  /** strconv.ParseUint(s, 16, 32) on four bytes; -1 for its error. */
  function Hex(s: string): (n: int)
    requires |s| == 4
    ensures -1 <= n <= 0xFFFF
  {
    if HexDigit(s[0]) < 0 || HexDigit(s[1]) < 0 || HexDigit(s[2]) < 0 || HexDigit(s[3]) < 0 then -1
    else HexDigit(s[0]) * 0x1000 + HexDigit(s[1]) * 0x100 + HexDigit(s[2]) * 0x10 + HexDigit(s[3])
  }

  /** string(rune(n)): UTF-8, with U+FFFD for surrogates. */
  function Utf8(n: int): (s: string)
    requires 0 <= n <= 0xFFFF
    ensures 1 <= |s| <= 3
  {
    if n < 0x80 then [n as char]
    else if n < 0x800 then [(0xC0 + n / 0x40) as char, (0x80 + n % 0x40) as char]
    else if 0xD800 <= n <= 0xDFFF then [0xEF as char, 0xBF as char, 0xBD as char]
    else [(0xE0 + n / 0x1000) as char, (0x80 + n / 0x40 % 0x40) as char, (0x80 + n % 0x40) as char]
  }

  const LOWER: string := "0123456789abcdef"
  const UPPER: string := "0123456789ABCDEF"

  /** What each digit is worth, small letter or capital; nothing else is a digit. */
  lemma HexDigitsExactly(c: char)
    ensures forall i | 0 <= i < 16 :: HexDigit(LOWER[i]) == HexDigit(UPPER[i]) == i
    ensures HexDigit(c) == -1 || (0 <= HexDigit(c) < 16 && c in {LOWER[HexDigit(c)], UPPER[HexDigit(c)]})
  {
    hide HexDigit;
    forall i | 0 <= i < 16
      ensures HexDigit(LOWER[i]) == HexDigit(UPPER[i]) == i
    {
      OneDigit(i);
    }
    DigitIsOne(c);
  }

  lemma OneDigit(i: nat)
    requires i < 16
    ensures HexDigit(LOWER[i]) == HexDigit(UPPER[i]) == i
  {
    if i >= 10 {
      assert LOWER[i] == ('a' as int + i - 10) as char && UPPER[i] == ('A' as int + i - 10) as char;
    } else {
      assert LOWER[i] == UPPER[i] == ('0' as int + i) as char;
    }
  }

  lemma DigitIsOne(c: char)
    ensures HexDigit(c) == -1 || (0 <= HexDigit(c) < 16 && c in {LOWER[HexDigit(c)], UPPER[HexDigit(c)]})
  {
    if HexDigit(c) >= 0 {
      OneDigit(HexDigit(c));
    }
  }

  /** The code point that one to three bytes of UTF-8 stand for, section 3 of RFC 3629. */
  function CodePoint(s: string): int
  {
    if |s| == 1 && s[0] as int < 0x80 then s[0] as int
    else if |s| == 2 && 0xC2 <= s[0] as int < 0xE0 && IsTrail(s[1]) then
      (s[0] as int - 0xC0) * 0x40 + (s[1] as int - 0x80)
    else if |s| == 3 && 0xE0 <= s[0] as int < 0xF0 && IsTrail(s[1]) && IsTrail(s[2]) then
      (s[0] as int - 0xE0) * 0x1000 + (s[1] as int - 0x80) * 0x40 + (s[2] as int - 0x80)
    else -1
  }

  predicate IsTrail(c: char) {
    0x80 <= c as int < 0xC0
  }

  /** What an escape is replaced by is the UTF-8 of the number it names, in the shortest form; surrogates
      become U+FFFD. */
  lemma Utf8Names(n: int)
    requires 0 <= n <= 0xFFFF
    ensures CodePoint(Utf8(n)) == if 0xD800 <= n <= 0xDFFF then 0xFFFD else n
    ensures |Utf8(n)| == if n < 0x80 then 1 else if n < 0x800 then 2 else 3
  {
    assert n / 0x40 % 0x40 * 0x40 + n % 0x40 + n / 0x1000 * 0x1000 == n;
  }

  /** strings.Replace(s, old, by, -1). */
  function ReplaceAll(s: string, old_: string, by_: string): (r: string)
    requires |by_| < |old_|
    ensures |r| <= |s|
  {
    if |s| < |old_| then s
    else if s[..|old_|] == old_ then by_ + ReplaceAll(s[|old_|..], old_, by_)
    else [s[0]] + ReplaceAll(s[1..], old_, by_)
  }

  /** An occurrence makes the result shorter. */
  lemma {:induction false} ReplaceShrinks(s: string, old_: string, by_: string, i: nat)
    requires |by_| < |old_| && i + |old_| <= |s| && s[i..i + |old_|] == old_
    ensures |ReplaceAll(s, old_, by_)| < |s|
  {
    if s[..|old_|] != old_ {
      assert s[1..][i - 1..i - 1 + |old_|] == s[i..i + |old_|];
      ReplaceShrinks(s[1..], old_, by_, i - 1);
    }
  }

  /** replaceUnicode. What is put in is looked at again. */
  function ReplaceUnicode(s: string): (r: Reading)
    ensures r.Read? ==> |r.s| <= |s|
    ensures r.Read? && HasEscape(s) ==> |r.s| < |s|
    ensures !HasEscape(s) ==> r == Read(s)
    decreases |s|
  {
    var i := IndexEscape(s);
    if i == -1 then Read(s)
    else if i + 6 > |s| then Crash
    else
      var n := Hex(s[i + 2..i + 6]);
      if n < 0 then Bad
      else
        ReplaceShrinks(s, s[i..i + 6], Utf8(n), i);
        ReplaceUnicode(ReplaceAll(s, s[i..i + 6], Utf8(n)))
  }

  /** The loop itself. */
  method ReplaceUnicodeLoop(s: string) returns (r: Reading)
    ensures r == ReplaceUnicode(s)
  {
    var t := s;
    var i := IndexEscape(t);
    while i != -1
      invariant i == IndexEscape(t) && ReplaceUnicode(t) == ReplaceUnicode(s)
      decreases |t|
    {
      if i + 6 > |t| {
        return Crash;
      }
      var n := Hex(t[i + 2..i + 6]);
      if n < 0 {
        return Bad;
      }
      ReplaceShrinks(t, t[i..i + 6], Utf8(n), i);
      t := ReplaceAll(t, t[i..i + 6], Utf8(n));
      i := IndexEscape(t);
    }
    return Read(t);
  }

  /** How the parser reads a basic string's text. */
  function Unquote(s: string): Reading
  {
    ReplaceUnicode(ReplaceEscapes(s))
  }

  /** Reading a quoted string gives it back exactly when it has no backslash directly followed by
      `u`: the parser replaces escapes first and looks for `\u` afterwards. */
  lemma QuoteRoundTrip(s: string)
    ensures Unquote(Quote(s)) == Read(s) <==> !HasEscape(s)
  {
    EscapesUndoQuote(s);
  }

  // ---------- strings that do not come back ----------

  predicate BeginsEscape(s: string) {
    |s| >= 2 && s[0] == '\\' && s[1] == 'u'
  }

  /** Escapes that stay what they are while others are replaced: none has a backslash among the four bytes
      behind it, and none names the backslash or the letter u. */
  predicate Apart(s: string)
    decreases |s|
  {
    if s == "" then true
    else if !BeginsEscape(s) then Apart(s[1..])
    else if |s| < 6 then '\\' !in s[2..]
    else '\\' !in s[2..6] && Hex(s[2..6]) != 0x5C && Hex(s[2..6]) != 0x75 && Apart(s[6..])
  }

  /** `p` in front of what is read. */
  function Behind(p: string, r: Reading): Reading
  {
    if r.Read? then Read(p + r.s) else r
  }

  /** One pass from left to right. */
  function Decode(s: string): Reading
    decreases |s|
  {
    if s == "" then Read("")
    else if !BeginsEscape(s) then Behind([s[0]], Decode(s[1..]))
    else if |s| < 6 then Crash
    else if Hex(s[2..6]) < 0 then Bad
    else Behind(Utf8(Hex(s[2..6])), Decode(s[6..]))
  }

  lemma {:induction false} DecodePlain(p: string, s: string)
    requires '\\' !in p
    ensures Decode(p + s) == Behind(p, Decode(s))
    ensures Apart(p + s) == Apart(s)
    decreases |p|
  {
    if p == "" {
      assert p + s == s;
    } else {
      assert p[0] in p && (p + s)[1..] == p[1..] + s;
      assert forall c <- p[1..] :: c in p;
      DecodePlain(p[1..], s);
      assert Decode(s).Read? ==> [p[0]] + (p[1..] + Decode(s).s) == p + Decode(s).s;
    }
  }

  /** What is put in is no backslash, and does not begin with a u. */
  lemma PutIn(n: int)
    requires 0 <= n <= 0xFFFF && n != 0x5C && n != 0x75
    ensures '\\' !in Utf8(n) && Utf8(n)[0] != 'u'
  {
  }

  lemma ReplaceStep(s: string, old_: string, by_: string)
    requires |by_| < |old_| && s != "" && (|s| < |old_| || s[..|old_|] != old_)
    ensures ReplaceAll(s, old_, by_) == [s[0]] + ReplaceAll(s[1..], old_, by_)
  {
  }

  /** Bytes that are no backslash stay. */
  lemma {:induction false} ReplaceKeeps(p: string, s: string, old_: string, by_: string)
    requires |by_| < |old_| && BeginsEscape(old_) && '\\' !in p
    ensures ReplaceAll(p + s, old_, by_) == p + ReplaceAll(s, old_, by_)
    decreases |p|
  {
    hide ReplaceAll;
    var t := p + s;
    if p == "" {
      assert t == s;
    } else {
      assert p[0] in p && t[0] == p[0] && t[1..] == p[1..] + s;
      assert forall c <- p[1..] :: c in p;
      ReplaceKeeps(p[1..], s, old_, by_);
      assert |t| >= |old_| ==> t[..|old_|][0] == p[0] != old_[0];
      ReplaceStep(t, old_, by_);
    }
  }

  /** Replacing an escape everywhere does not change what the others come to. */
  lemma {:induction false} DecodeReplaced(s: string, esc: string, by_: string)
    requires Apart(s) && |esc| == 6 && BeginsEscape(esc) && Hex(esc[2..]) >= 0 && by_ == Utf8(Hex(esc[2..]))
    requires '\\' !in by_ && by_[0] != 'u'
    ensures var t := ReplaceAll(s, esc, by_); Apart(t) && Decode(t) == Decode(s)
    decreases |s|
  {
    hide Utf8, Hex;
    if |s| >= 6 {
      if s[..6] == esc {
        assert s[2..6] == esc[2..];
        DecodeReplaced(s[6..], esc, by_);
        DecodePlain(by_, ReplaceAll(s[6..], esc, by_));
      } else if BeginsEscape(s) {
        DecodeReplaced(s[6..], esc, by_);
        OtherStays(s, esc, by_);
        FrontDecodes(s, ReplaceAll(s[6..], esc, by_));
      } else {
        DecodeReplaced(s[1..], esc, by_);
        NoneMade(s, esc, by_);
      }
    }
  }

  lemma FirstSix(s: string)
    requires |s| >= 6 && BeginsEscape(s) && '\\' !in s[2..6]
    ensures '\\' !in s[1..6] && s[1..] == s[1..6] + s[6..] && s[..6] == [s[0]] + s[1..6]
  {
    var p, q := s[1..6], s[2..6];
    forall i | 0 <= i < |p|
      ensures p[i] != '\\'
    {
      if i > 0 { assert p[i] == q[i - 1] && q[i - 1] in q; }
    }
  }

  lemma Regrouped(c: char, p: string, u: string)
    ensures [c] + (p + u) == [c] + p + u
  {
  }

  lemma OtherStays(s: string, esc: string, by_: string)
    requires |s| >= 6 && BeginsEscape(s) && '\\' !in s[2..6] && s[..6] != esc
    requires |esc| == 6 && BeginsEscape(esc) && |by_| < 6
    ensures ReplaceAll(s, esc, by_) == s[..6] + ReplaceAll(s[6..], esc, by_)
  {
    hide ReplaceAll, BeginsEscape;
    var p := s[1..6];
    FirstSix(s);
    ReplaceKeeps(p, s[6..], esc, by_);
    ReplaceStep(s, esc, by_);
    Regrouped(s[0], p, ReplaceAll(s[6..], esc, by_));
  }

  /** The same escape in front of what is read as before. */
  lemma FrontDecodes(s: string, u: string)
    requires |s| >= 6 && BeginsEscape(s) && Apart(s) && Apart(u) && Decode(u) == Decode(s[6..])
    ensures Apart(s[..6] + u) && Decode(s[..6] + u) == Decode(s)
  {
    hide Hex, Utf8;
    var t := s[..6] + u;
    assert t[0] == s[0] && t[1] == s[1] && t[2..6] == s[2..6] && t[6..] == u;
  }

  /** No escape arises in front of one that is replaced. */
  lemma NoneMade(s: string, esc: string, by_: string)
    requires s != "" && !BeginsEscape(s) && |esc| == 6 && BeginsEscape(esc) && 0 < |by_| < 6 && by_[0] != 'u'
    ensures var t, u := ReplaceAll(s, esc, by_), ReplaceAll(s[1..], esc, by_);
            t == [s[0]] + u && t[0] == s[0] && t[1..] == u && !BeginsEscape(t)
  {
    if |s| >= 6 {
      assert s[..6][0] == s[0] && s[..6][1] == s[1];
      assert s[..6] != esc;
      var u := ReplaceAll(s[1..], esc, by_);
      assert u != "" ==> u[0] == s[1] || u[0] == by_[0];
    }
  }

  /** The first escape from the left. */
  lemma {:induction false} DecodeFirst(s: string)
    requires Apart(s)
    ensures var i := IndexEscape(s);
            if i == -1 then Decode(s) == Read(s)
            else if i + 6 > |s| then Decode(s) == Crash
            else if Hex(s[i + 2..i + 6]) < 0 then Decode(s) == Bad
            else Hex(s[i + 2..i + 6]) != 0x5C && Hex(s[i + 2..i + 6]) != 0x75
    decreases |s|
  {
    hide HasEscape, Hex, Utf8, Decode, Apart, IndexEscape, BeginsEscape;
    if s == "" || BeginsEscape(s) {
      DecodeHere(s);
    } else {
      NoneHere(s);
      DecodeFirst(s[1..]);
      var i := IndexEscape(s[1..]);
      if 0 <= i && i + 7 <= |s| {
        assert s[1..][i + 2..i + 6] == s[i + 3..i + 7];
      }
    }
  }

  lemma DecodeHere(s: string)
    requires Apart(s) && (s == "" || BeginsEscape(s))
    ensures if s == "" then IndexEscape(s) == -1 && Decode(s) == Read(s)
            else IndexEscape(s) == 0 &&
                 if |s| < 6 then Decode(s) == Crash
                 else if Hex(s[2..6]) < 0 then Decode(s) == Bad
                 else Hex(s[2..6]) != 0x5C && Hex(s[2..6]) != 0x75
  {
    hide Hex, Utf8, HasEscape;
  }

  lemma NoneHere(s: string)
    requires Apart(s) && s != "" && !BeginsEscape(s)
    ensures Apart(s[1..]) && Decode(s) == Behind([s[0]], Decode(s[1..]))
    ensures IndexEscape(s) == if IndexEscape(s[1..]) == -1 then -1 else IndexEscape(s[1..]) + 1
  {
    hide Hex, Utf8, HasEscape;
  }

  /** Where escapes stay apart, replacing them one after the other, everywhere and again in what was put in,
      comes to one pass from left to right. */
  lemma {:induction false} ReplaceIsDecode(s: string)
    requires Apart(s)
    ensures ReplaceUnicode(s) == Decode(s)
    decreases |s|
  {
    hide Apart, Decode, Hex, Utf8, HasEscape;
    var i := IndexEscape(s);
    DecodeFirst(s);
    if i >= 0 && i + 6 <= |s| && Hex(s[i + 2..i + 6]) >= 0 {
      var esc, n := s[i..i + 6], Hex(s[i + 2..i + 6]);
      assert esc[2..] == s[i + 2..i + 6];
      PutIn(n);
      DecodeReplaced(s, esc, Utf8(n));
      ReplaceShrinks(s, esc, Utf8(n), i);
      ReplaceIsDecode(ReplaceAll(s, esc, Utf8(n)));
    }
  }

  /** A \u with four bytes behind it that are not all hexadecimal digits, and one with fewer. */
  predicate WrongAt(s: string, i: nat) {
    i + 6 <= |s| && BeginsEscape(s[i..]) && Hex(s[i + 2..i + 6]) < 0
  }

  predicate CutAt(s: string, i: nat) {
    i <= |s| < i + 6 && BeginsEscape(s[i..])
  }

  lemma {:induction false} DecodeFails(s: string)
    requires Apart(s)
    ensures Decode(s) == Bad <==> exists i :: WrongAt(s, i)
    ensures Decode(s) == Crash <==> (exists i :: CutAt(s, i)) && !exists i :: WrongAt(s, i)
    decreases |s|
  {
    hide Hex, Utf8, Apart, WrongAt, CutAt, BeginsEscape;
    AtFront(s);
    if s == "" {
      NothingFails();
    } else {
      var k := if !BeginsEscape(s) then 1 else if |s| < 6 then |s| else 6;
      ApartFrom(s, k);
      FailsFrom(s, k);
      if k == |s| {
        assert s[k..] == "";
        NothingFails();
      }
      DecodeFails(s[k..]);
    }
  }

  lemma NothingFails()
    ensures forall i :: !WrongAt("", i) && !CutAt("", i)
  {
  }

  lemma AtFront(s: string)
    ensures WrongAt(s, 0) <==> BeginsEscape(s) && |s| >= 6 && Hex(s[2..6]) < 0
    ensures CutAt(s, 0) <==> BeginsEscape(s) && |s| < 6
  {
    hide Hex;
    assert s[0..] == s;
  }

  lemma ApartFrom(s: string, k: nat)
    requires Apart(s) && s != "" && k == if !BeginsEscape(s) then 1 else if |s| < 6 then |s| else 6
    ensures Apart(s[k..]) && forall i | 0 < i < k :: !BeginsEscape(s[i..])
  {
    hide Hex;
    if BeginsEscape(s) {
      if |s| < 6 {
        assert s[2..|s|] == s[2..] && s[|s|..] == "";
      }
      NoneInside(s, k);
    }
  }

  lemma NoneInside(s: string, k: nat)
    requires BeginsEscape(s) && 2 <= k <= |s| && '\\' !in s[2..k]
    ensures forall i | 0 < i < k :: !BeginsEscape(s[i..])
  {
    var q := s[2..k];
    forall i | 0 < i < k
      ensures s[i] != '\\'
    {
      if i > 1 { assert q[i - 2] == s[i] && q[i - 2] in q; }
    }
  }

  /** Failures are at the beginning of a text or behind its first `k` bytes, if none begins in between. */
  lemma FailsFrom(s: string, k: nat)
    requires 0 < k <= |s| && forall i | 0 < i < k :: !BeginsEscape(s[i..])
    ensures (exists i :: WrongAt(s, i)) <==> WrongAt(s, 0) || exists i :: WrongAt(s[k..], i)
    ensures (exists i :: CutAt(s, i)) <==> CutAt(s, 0) || exists i :: CutAt(s[k..], i)
  {
    hide WrongAt, CutAt;
    forall i: nat
      ensures WrongAt(s[k..], i) == WrongAt(s, k + i) && CutAt(s[k..], i) == CutAt(s, k + i)
      ensures 0 < i < k ==> !WrongAt(s, i) && !CutAt(s, i)
    {
      Shifted(s, k, i);
    }
    forall i: nat | WrongAt(s, i) || CutAt(s, i)
      ensures i == 0 || (i >= k && WrongAt(s[k..], i - k) == WrongAt(s, i) && CutAt(s[k..], i - k) == CutAt(s, i))
    {
      if i >= k {
        Shifted(s, k, i - k);
      }
    }
    if i :| WrongAt(s[k..], i) {
      assert WrongAt(s, k + i);
    }
    if i :| CutAt(s[k..], i) {
      assert CutAt(s, k + i);
    }
  }

  lemma Shifted(s: string, k: nat, i: nat)
    requires k <= |s|
    ensures WrongAt(s[k..], i) == WrongAt(s, k + i) && CutAt(s[k..], i) == CutAt(s, k + i)
    ensures i <= |s| && !BeginsEscape(s[i..]) ==> !WrongAt(s, i) && !CutAt(s, i)
  {
    hide Hex, BeginsEscape;
    if k + i <= |s| {
      assert s[k..][i..] == s[k + i..];
      if k + i + 6 <= |s| {
        assert s[k..][i + 2..i + 6] == s[k + i + 2..k + i + 6];
      }
    }
  }

  /** Where escapes stay apart, a printed string ends the process exactly when four bytes behind some \u are
      not all hexadecimal digits, and slices out of range exactly when fewer follow the last and the others
      are right; the others are read with their escapes replaced. */
  lemma ApartReads(s: string)
    requires Apart(s)
    ensures Unquote(Quote(s)) == Decode(s)
    ensures Unquote(Quote(s)) == Bad <==> exists i :: WrongAt(s, i)
    ensures Unquote(Quote(s)) == Crash <==> (exists i :: CutAt(s, i)) && !exists i :: WrongAt(s, i)
  {
    hide Apart, Decode, WrongAt, CutAt;
    EscapesUndoQuote(s);
    ReplaceIsDecode(s);
    DecodeFails(s);
  }

  lemma {:induction false} FirstEscape(s: string, i: nat)
    requires i + 1 < |s| && s[i] == '\\' && s[i + 1] == 'u' && '\\' !in s[..i]
    ensures IndexEscape(s) == i
  {
    hide HasEscape;
    if i > 0 {
      assert s[0] in s[..i];
      assert forall c | c in s[1..][..i - 1] :: c in s[..i];
      FirstEscape(s[1..], i - 1);
    }
  }

  /** A Windows path is enough: "C:\users" makes the reader stop the process and "C:\u" crashes it. */
  lemma QuoteFails()
    ensures Unquote(Quote("C:\\users")) == Bad
    ensures Unquote(Quote("C:\\u")) == Crash
  {
    hide Quote, ReplaceEscapes, Escape, ReplaceAll, Utf8, HasEscape, IndexEscape;
    EscapesUndoQuote("C:\\users");
    EscapesUndoQuote("C:\\u");
    FirstEscape("C:\\users", 2);
    assert "C:\\users"[4..8] == "sers";
    FirstEscape("C:\\u", 2);
  }

  /** The six characters of an escape come back as the character it names. */
  lemma QuoteChanges()
    ensures Unquote(Quote("\\u0041")) == Read("A")
  {
    hide Quote, ReplaceEscapes, Escape;
    var u := "\\u0041";
    EscapesUndoQuote(u);
    assert u[0..6] == u && u[2..6] == "0041" && u[6..] == "" && u[..6] == u;
    assert Hex("0041") == 0x41;
    assert ReplaceAll(u, u, "A") == "A" + ReplaceAll("", u, "A") == "A";
    assert ReplaceUnicode("A") == Read("A");
  }
}
