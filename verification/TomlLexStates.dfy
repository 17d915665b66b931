/** Each state of the lexer keeps to the grammar of items (lex.go). */
module TomlLexStates {
  import opened TomlLex
  import opened TomlGrammar

  // ---------- texts grow by one character ----------

  lemma NextText(l: Lx)
    requires l.pos < |l.input|
    ensures Current(Next(l)) == Current(l) + [Rune(l)]
  {
    assert l.input[l.start..l.pos + 1] == l.input[l.start..l.pos] + [l.input[l.pos]];
  }

  lemma PeekSame(l: Lx)
    ensures Peek(l) == l.(width := if l.pos < |l.input| then 1 else 0)
  {
  }

  lemma NameMore(s: string, c: char)
    requires ((s == "" && c !in "].") || (NamePiece(s) && c !in "[].")) && c != EOF
    ensures NamePiece(s + [c])
  {
  }

  lemma KeyMore(s: string, c: char)
    requires (s == "" || KeyName(s)) && c != '=' && c != '#' && !IsNL(c)
    ensures KeyName(s + [c])
  {
  }

  /** The length of what a string's text begins with: a character, an escape, or a \u escape. */
  function UnitLength(s: string): nat
    requires s != ""
  {
    if s[0] != '\\' then 1 else if |s| >= 2 && s[1] == 'u' then 6 else 2
  }

  predicate GoodUnit(s: string)
    requires s != ""
  {
    |s| >= UnitLength(s) &&
    if s[0] != '\\' then s[0] != '\"' && !IsNL(s[0])
    else if s[1] == 'u' then forall i | 2 <= i < 6 :: IsHexadecimal(s[i])
    else IsEscape(s[1])
  }

  lemma StringTextUnit(s: string)
    requires s != ""
    ensures StringText(s) <==> GoodUnit(s) && StringText(s[UnitLength(s)..])
  {
    hide IsEscape, IsHexadecimal, IsNL;
  }

  lemma UnitStays(s: string, t: string)
    requires s != "" && GoodUnit(s)
    ensures GoodUnit(s + t) && UnitLength(s + t) == UnitLength(s)
    ensures (s + t)[UnitLength(s)..] == s[UnitLength(s)..] + t
  {
    hide IsEscape, IsHexadecimal, IsNL;
  }

  lemma {:induction false} StringTextAppend(s: string, t: string)
    requires StringText(s) && StringText(t)
    ensures StringText(s + t)
  {
    hide StringText;
    if s == "" {
      assert s + t == t;
    } else {
      StringTextUnit(s);
      UnitStays(s, t);
      StringTextUnit(s + t);
      StringTextAppend(s[UnitLength(s)..], t);
    }
  }

  lemma StringTextJoins(s: string, a: nat, b: nat, c: nat)
    requires a <= b <= c <= |s| && StringText(s[a..b]) && StringText(s[b..c])
    ensures StringText(s[a..c])
  {
    hide StringText;
    StringTextAppend(s[a..b], s[b..c]);
    assert s[a..c] == s[a..b] + s[b..c];
  }

  lemma StringTextPlain(s: string)
    requires |s| == 1 && s[0] != '\\' && s[0] != '\"' && !IsNL(s[0])
    ensures StringText(s)
  {
    assert StringText(s[1..]);
  }

  lemma StringTextEscape(s: string)
    requires |s| == 2 && s[0] == '\\' && IsEscape(s[1])
    ensures StringText(s)
  {
    assert StringText(s[2..]);
  }

  lemma StringTextUnicode(s: string)
    requires |s| == 6 && s[0] == '\\' && s[1] == 'u' && forall i | 2 <= i < 6 :: IsHexadecimal(s[i])
    ensures StringText(s)
  {
    assert StringText(s[6..]);
  }

  lemma IntegerMore(s: string, c: char)
    requires IsInteger(s) && IsDigit(c)
    ensures IsInteger(s + [c])
  {
    if s[0] == '-' {
      assert (s + [c])[1..] == s[1..] + [c];
    }
  }

  lemma DigitsAreInteger(s: string)
    requires AllDigits(s)
    ensures IsInteger(s)
  {
    assert s[0] in s;
  }

  lemma FloatStarts(s: string, c: char)
    requires IsInteger(s) && IsDigit(c)
    ensures IsFloat(s + ['.'] + [c])
  {
    var f := s + ['.'] + [c];
    assert f[..|s|] == s && f[|s| + 1..] == [c];
    assert AllDigits([c]);
  }

  lemma FloatMore(s: string, c: char)
    requires IsFloat(s) && IsDigit(c)
    ensures IsFloat(s + [c])
  {
    var i :| 0 <= i < |s| && IsInteger(s[..i]) && s[i] == '.' && AllDigits(s[i + 1..]);
    assert (s + [c])[..i] == s[..i] && (s + [c])[i + 1..] == s[i + 1..] + [c];
    assert AllDigits((s + [c])[i + 1..]);
    assert (s + [c])[i] == '.';
  }

  lemma {:induction false} TrimKeeps(s: string)
    requires KeyName(s)
    ensures KeyName(TrimSpace(s)) && Trimmed(TrimSpace(s))
    decreases |s|
  {
    if s != "" {
      if IsSpace(s[0]) {
        TrimKeeps(s[1..]);
      } else if IsSpace(s[|s| - 1]) {
        TrimKeeps(s[..|s| - 1]);
      }
    }
  }

  // ---------- every state keeps to it ----------

  lemma ErrorAgrees(l: Lx)
    requires ConsumeAll(l.out) != Rejected
    ensures Agrees(Errorf(l)) && ConsumeAll(Errorf(l).out) == Finished
  {
    ConsumeOne(l.out, Item(ItemError, "", l.line));
  }

  lemma EmitConsumed(l: Lx, typ: ItemType)
    ensures ConsumeAll(Emit(l, typ).out) == Consume(ConsumeAll(l.out), Item(typ, Current(l), l.line))
  {
    ConsumeOne(l.out, Item(typ, Current(l), l.line));
  }

  /** It is enough to be in place for the state that comes next. */
  lemma Arrives(l: Lx, s: State)
    requires !s.Skip? && InPlace(l, s, ConsumeAll(l.out))
    ensures Agrees(Go(l, s))
  {
    hide Newlines, ConsumeAll, Under, NamePiece, HasTriple,
      RawText, CommentText, KeyName;
  }

  lemma TopKeeps(l: Lx)
    requires InPlace(l, Top, ConsumeAll(l.out))
    ensures Agrees(LexTop(l))
  {
    hide Newlines, ConsumeAll, Under, IsValue, NamePiece;
    EmitConsumed(Next(l), ItemEOF);
    ErrorAgrees(Next(l));
  }

  lemma TopEndKeeps(l: Lx)
    requires InPlace(l, TopEnd, ConsumeAll(l.out))
    ensures Agrees(LexTopEnd(l))
  {
    hide Newlines, ConsumeAll, Under, IsValue, NamePiece;
    ErrorAgrees(Next(l));
  }

  lemma TableStartKeeps(l: Lx)
    requires InPlace(l, TableStart, ConsumeAll(l.out))
    ensures Agrees(LexTableStart(l))
  {
    hide Newlines, ConsumeAll, Under, IsValue, NamePiece, Peek;
    PeekSame(l);
    if Rune(l) == '[' {
      EmitConsumed(Next(Peek(l)), ItemArrayTableStart);
    } else {
      EmitConsumed(Peek(l), ItemTableStart);
    }
  }

  lemma TableEndKeeps(l: Lx)
    requires InPlace(l, TableEnd, ConsumeAll(l.out))
    ensures Agrees(LexTableEnd(l))
  {
    hide Newlines, ConsumeAll, Under, IsValue, NamePiece;
    EmitConsumed(l, ItemTableEnd);
  }

  lemma ArrayTableEndKeeps(l: Lx)
    requires InPlace(l, ArrayTableEnd, ConsumeAll(l.out))
    ensures Agrees(LexArrayTableEnd(l))
  {
    hide Newlines, ConsumeAll, Under, IsValue, NamePiece;
    ErrorAgrees(Next(l));
    EmitConsumed(Next(l), ItemArrayTableEnd);
  }

  lemma TableNameStartKeeps(l: Lx)
    requires InPlace(l, TableNameStart, ConsumeAll(l.out))
    ensures Agrees(LexTableNameStart(l))
  {
    hide Newlines, ConsumeAll, Under, IsValue, NamePiece;
    ErrorAgrees(Next(l));
    if l.pos < |l.input| && Rune(l) !in "]." && Rune(l) != EOF {
      NextText(l);
      NameMore("", Rune(l));
      assert Current(Next(l)) == "" + [Rune(l)];
    }
  }

  lemma TableNameKeeps(l: Lx)
    requires InPlace(l, TableName, ConsumeAll(l.out))
    ensures Agrees(LexTableName(l))
  {
    hide Newlines, ConsumeAll, Under, IsValue, NamePiece, Peek, Agrees;
    var r, p := Rune(l), Peek(l);
    PeekSame(l);
    ErrorAgrees(p);
    EmitConsumed(p, ItemText);
    if r == ']' {
      var n := Next(Emit(p, ItemText));
      Arrives(n.(stack := []), n.stack[0]);
    } else if r == '.' {
      Arrives(Ignore(Next(Emit(p, ItemText))), TableNameStart);
    } else if l.pos < |l.input| && r != '[' && r != EOF {
      NextText(p);
      NameMore(Current(l), r);
      Arrives(Next(p), TableName);
    }
  }

  lemma KeyStartKeeps(l: Lx)
    requires InPlace(l, KeyStart, ConsumeAll(l.out))
    ensures Agrees(LexKeyStart(l))
  {
    hide Newlines, ConsumeAll, IsValue, Peek, KeyName, Agrees;
    PeekSame(l);
    ErrorAgrees(Peek(l));
    if Rune(l) != '=' {
      var e := Emit(Ignore(Peek(l)), ItemKeyStart);
      EmitConsumed(Ignore(Peek(l)), ItemKeyStart);
      NextText(e);
      KeyMore("", Rune(l));
      assert Current(e) == "";
      Arrives(Next(e), State.Key);
    }
  }

  lemma KeyKeeps(l: Lx)
    requires InPlace(l, Key, ConsumeAll(l.out))
    ensures Agrees(LexKey(l))
  {
    hide Newlines, ConsumeAll, Under, IsValue, NamePiece,
      TrimSpace, Trimmed, Peek, KeyName;
    PeekSame(l);
    var p := Peek(l);
    ErrorAgrees(p);
    ConsumeOne(l.out, Item(ItemText, TrimSpace(Current(p)), p.line));
    TrimKeeps(Current(l));
    if l.pos < |l.input| && Rune(l) != '#' && Rune(l) != '=' && !IsNL(Rune(l)) {
      NextText(p);
      KeyMore(Current(l), Rune(l));
    }
  }

  lemma KeyEndKeeps(l: Lx)
    requires InPlace(l, KeyEnd, ConsumeAll(l.out))
    ensures Agrees(LexKeyEnd(l))
  {
    hide Newlines, ConsumeAll, IsValue, NamePiece;
    ErrorAgrees(Next(l));
  }

  /** A value was sent: back to the line's end or to the enclosing array. */
  lemma ValueDone(l: Lx, e: Expect)
    requires AtValue(l, e) && l.start == l.pos
    requires ConsumeAll(l.out) == if e.KeyValue? then Items(0) else e
    ensures Agrees(Pop(l))
  {
    hide Newlines, ConsumeAll, Consume;
  }

  lemma ArrayKeeps(l: Lx)
    requires AtValue(l, ConsumeAll(l.out))
    ensures Agrees(Go(Emit(Ignore(l), ItemArray), ArrayValue))
  {
    hide Newlines, ConsumeAll, IsValue;
    EmitConsumed(Ignore(l), ItemArray);
  }

  lemma ArrayValueKeeps(l: Lx)
    requires InPlace(l, ArrayValue, ConsumeAll(l.out))
    ensures Agrees(LexArrayValue(l))
  {
    hide Newlines, ConsumeAll, IsValue, NamePiece;
    ErrorAgrees(Next(l));
  }

  lemma ArrayValueEndKeeps(l: Lx)
    requires InPlace(l, ArrayValueEnd, ConsumeAll(l.out))
    ensures Agrees(LexArrayValueEnd(l))
  {
    hide Newlines, ConsumeAll, Under, IsValue, NamePiece;
    ErrorAgrees(Next(l));
  }

  lemma ArrayEndKeeps(l: Lx)
    requires InPlace(l, ArrayEnd, ConsumeAll(l.out))
    ensures Agrees(LexArrayEnd(l))
  {
    hide Newlines, ConsumeAll, IsValue;
    EmitConsumed(Ignore(l), ItemArrayEnd);
    var depth := ConsumeAll(l.out).depth;
    ValueDone(Emit(Ignore(l), ItemArrayEnd), if depth == 1 then KeyValue else Items(depth - 1));
  }

  /** After the opening quote of a string: it is one quote, an empty string, or three quotes. */
  lemma QuotesKeep(n: Lx, quote: char)
    requires AtValue(n, ConsumeAll(n.out)) && n.start < n.pos && n.width == 1 && n.input[n.pos - 1] == quote
    requires quote == '\"' || quote == '\''
    ensures Agrees(LexQuotes(n, quote, if quote == '\"' then Str else RawStr, if quote == '\"' then MStr else MRawStr))
  {
    hide Newlines, ConsumeAll, Under, StringText, RawText, HasTriple, Agrees;
    AfterQuote(n, quote);
    if Rune(n) == quote {
      var a := Accept(n, quote);
      AfterQuote(a, quote);
      if Rune(a) == quote {
        AfterTriple(Accept(a, quote), quote);
      }
    }
  }

  lemma AfterQuote(l: Lx, quote: char)
    requires AtValue(l, ConsumeAll(l.out)) && l.start < l.pos && l.width == 1 && l.input[l.pos - 1] == quote
    requires quote == '\"' || quote == '\''
    ensures l.pos < |l.input|
    ensures Agrees(Go(Ignore(l), if quote == '\"' then Str else RawStr))
  {
    hide Newlines, ConsumeAll, Under;
    assert Current(Ignore(l)) == "";
  }

  lemma AfterTriple(l: Lx, quote: char)
    requires AtValue(l, ConsumeAll(l.out)) && l.pos >= 3 && TripleAt(l.input, l.pos - 3, quote)
    requires quote == '\"' || quote == '\''
    ensures Agrees(Go(Ignore(l), if quote == '\"' then MStr else MRawStr))
  {
    hide Newlines, ConsumeAll, Under;
  }

  lemma ValueKeeps(l: Lx)
    requires InPlace(l, Val, ConsumeAll(l.out))
    ensures Agrees(LexValue(l))
  {
    hide Newlines, ConsumeAll, Under, IsValue, NamePiece,
      LexQuotes, Accept, HasTriple;
    var r, n := Rune(l), Next(l);
    ErrorAgrees(n);
    if r == '[' {
      ArrayKeeps(n);
    } else if r == '\"' || r == '\'' {
      QuotesKeep(n, r);
    } else if l.pos < |l.input| {
      NextText(l);
      assert Current(n) == [r];
    }
  }

  /** Sending a good value from inside a value. */
  lemma SendValue(l: Lx, typ: ItemType)
    requires AtValue(l, ConsumeAll(l.out)) && IsValue(Item(typ, Current(l), l.line))
    ensures Agrees(Pop(Emit(l, typ)))
    ensures AtValue(Emit(l, typ), ConsumeAll(l.out))
    ensures ConsumeAll(Emit(l, typ).out) == if ConsumeAll(l.out).KeyValue? then Items(0) else ConsumeAll(l.out)
  {
    hide Newlines, ConsumeAll, Under, NamePiece;
    EmitConsumed(l, typ);
    ValueDone(Emit(l, typ), ConsumeAll(l.out));
  }

  lemma StringKeeps(l: Lx)
    requires InPlace(l, Str, ConsumeAll(l.out))
    ensures Agrees(LexString(l))
  {
    hide Newlines, ConsumeAll, Under, NamePiece, Agrees;
    var r, n := Rune(l), Next(l);
    ErrorAgrees(n);
    if r == '\"' {
      var b := Backup(n);
      assert Current(b) == Current(l);
      SendValue(b, ItemString);
      ValueDone(Ignore(Next(Emit(b, ItemString))), ConsumeAll(l.out));
    } else if !IsNL(r) {
      StringMore(l);
    }
  }

  /** A character of a basic string. */
  lemma StringMore(l: Lx)
    requires InPlace(l, Str, ConsumeAll(l.out)) && Rune(l) != '\"' && !IsNL(Rune(l))
    ensures Agrees(Go(Next(l), if Rune(l) == '\\' then StrEscape else Str))
  {
    hide Newlines, ConsumeAll, Under, IsValue, NamePiece;
    if Rune(l) != '\\' {
      StringTextPlain(l.input[l.pos..l.pos + 1]);
      StringTextJoins(l.input, l.start, l.pos, l.pos + 1);
    }
  }

  lemma StringEscapeKeeps(l: Lx)
    requires InPlace(l, StrEscape, ConsumeAll(l.out))
    ensures Agrees(LexStringEscapeHandler(l, Str, StrUnicode))
  {
    hide Newlines, ConsumeAll, InPlace, Agrees, IsEscape;
    InString(l, StrEscape);
    ErrorAgrees(Next(l));
    if IsEscape(Rune(l)) {
      EscapeKeeps(l);
    } else if Rune(l) == 'u' {
      EscapeUnicode(l);
    }
  }

  lemma InString(l: Lx, s: State)
    requires s in {State.Str, StrEscape, StrUnicode, MStr, MStrEscape, MStrUnicode, RawStr, MRawStr}
    requires InPlace(l, s, ConsumeAll(l.out))
    ensures AtValue(l, ConsumeAll(l.out)) && ConsumeAll(l.out) != Rejected
  {
    hide Newlines, ConsumeAll, Under, StringText, HasTriple, RawText;
  }

  lemma EscapeKeeps(l: Lx)
    requires InPlace(l, StrEscape, ConsumeAll(l.out)) && IsEscape(Rune(l))
    ensures Agrees(Go(Next(l), State.Str))
  {
    hide Newlines, ConsumeAll, Under, StringText, Agrees;
    StringTextEscape(l.input[l.pos - 1..l.pos + 1]);
    StringTextJoins(l.input, l.start, l.pos - 1, l.pos + 1);
    Arrives(Next(l), State.Str);
  }

  lemma EscapeUnicode(l: Lx)
    requires InPlace(l, StrEscape, ConsumeAll(l.out)) && Rune(l) == 'u'
    ensures Agrees(Go(Next(l), StrUnicode))
  {
    hide Newlines, ConsumeAll, Under, StringText, Agrees;
    Arrives(Next(l), StrUnicode);
  }

  /** Four digits more, or an error. */
  lemma {:induction false} UnicodeMoves(l: Lx, i: nat, nextFn: State)
    requires i <= 4 && ConsumeAll(l.out) != Rejected
    ensures var r := LexUnicode(l, i, nextFn);
            (ConsumeAll(r.out) == Finished) ||
            (r == l.(pos := r.pos, width := r.width, line := r.line, state := nextFn) && r.pos == l.pos + 4 - i &&
             forall k | l.pos <= k < r.pos :: IsHexadecimal(l.input[k]))
    decreases 4 - i
  {
    hide Newlines, ConsumeAll, Under, IsValue, NamePiece,
      IsHexadecimal;
    if i < 4 {
      ErrorAgrees(Next(l));
      if IsHexadecimal(Rune(l)) {
        EndIsNotHexadecimal(l);
        UnicodeMoves(Next(l), i + 1, nextFn);
      }
    }
  }

  lemma EndIsNotHexadecimal(l: Lx)
    requires IsHexadecimal(Rune(l))
    ensures l.pos < |l.input|
  {
  }

  lemma StringUnicodeKeeps(l: Lx)
    requires InPlace(l, StrUnicode, ConsumeAll(l.out))
    ensures Agrees(LexUnicode(l, 0, Str))
  {
    hide Newlines, ConsumeAll, Under, StringText, LexUnicode;
    UnicodeMoves(l, 0, Str);
    var r := LexUnicode(l, 0, Str);
    if ConsumeAll(r.out) != Finished {
      hide Agrees, IsHexadecimal;
      var u := l.input[l.pos - 2..l.pos + 4];
      forall i | 2 <= i < 6
        ensures IsHexadecimal(u[i])
      {
        assert IsHexadecimal(l.input[l.pos - 2 + i]);
      }
      StringTextUnicode(u);
      StringTextJoins(l.input, l.start, l.pos - 2, l.pos + 4);
      Arrives(r, Str);
    }
  }

  // ---------- multi-line and raw strings ----------

  lemma TripleStays(l: Lx, r: Lx, quote: char)
    requires HasTriple(l.input, l.pos, quote) && l.input == r.input && l.pos <= r.pos
    ensures HasTriple(r.input, r.pos, quote)
  {
    var i :| 0 <= i <= l.pos - 3 && TripleAt(l.input, i, quote);
    assert TripleAt(r.input, i, quote);
  }

  /** `n` is past a quote inside a multi-line string. */
  lemma TripleKeeps(n: Lx, quote: char)
    requires quote == '\"' || quote == '\''
    requires AtValue(n, ConsumeAll(n.out)) && HasTriple(n.input, n.pos, quote) && n.start < n.pos && n.width == 1
    ensures Agrees(if quote == '\"' then LexTriple(n, quote, MStr, ItemMultilineString)
                   else LexTriple(n, quote, MRawStr, ItemRawMultilineString))
  {
    hide Newlines, ConsumeAll, Under, HasTriple, Agrees, EndTriple;
    if Rune(n) == quote {
      var a := Accept(n, quote);
      if Rune(a) == quote {
        TripleCloses(Accept(a, quote), if quote == '\"' then ItemMultilineString else ItemRawMultilineString);
      } else {
        TripleStays(n, Backup(Accept(a, quote)), quote);
        InTriple(Backup(Accept(a, quote)), quote);
      }
    } else {
      TripleStays(n, Accept(n, quote), quote);
      InTriple(Accept(n, quote), quote);
    }
  }

  lemma InTriple(l: Lx, quote: char)
    requires quote == '\"' || quote == '\''
    requires AtValue(l, ConsumeAll(l.out)) && HasTriple(l.input, l.pos, quote)
    ensures Agrees(Go(l, if quote == '\"' then MStr else MRawStr))
  {
    hide Newlines, ConsumeAll, Under, HasTriple;
  }

  lemma TripleCloses(l: Lx, typ: ItemType)
    requires AtValue(l, ConsumeAll(l.out)) && l.start + 3 <= l.pos && l.width == 1
    requires typ == ItemMultilineString || typ == ItemRawMultilineString
    ensures Agrees(EndTriple(l, typ))
  {
    hide Newlines, ConsumeAll, Under, HasTriple, Agrees, StringText, IsInteger, IsFloat, FitsDate;
    var b := Backup(Backup(Backup(l)));
    SendValue(b, typ);
    ValueDone(Ignore(Next(Next(Next(Emit(b, typ))))), ConsumeAll(l.out));
  }

  lemma AtMultiline(l: Lx, s: State)
    requires s in {MStr, MStrEscape, MStrUnicode}
    ensures InPlace(l, s, ConsumeAll(l.out)) <==>
            AtValue(l, ConsumeAll(l.out)) && HasTriple(l.input, l.pos, '\"')
  {
    hide Newlines, ConsumeAll, Under, HasTriple;
  }

  lemma MultilineStringKeeps(l: Lx)
    requires InPlace(l, MStr, ConsumeAll(l.out))
    ensures Agrees(LexMultilineString(l))
  {
    hide Newlines, ConsumeAll, Under, IsValue, NamePiece,
      HasTriple, LexTriple;
    var r, n := Rune(l), Next(l);
    TripleStays(l, n, '\"');
    if r == '\"' {
      TripleKeeps(n, '\"');
    }
  }

  lemma MultilineRawStringKeeps(l: Lx)
    requires InPlace(l, MRawStr, ConsumeAll(l.out))
    ensures Agrees(LexMultilineRawString(l))
  {
    hide Newlines, ConsumeAll, Under, IsValue, NamePiece,
      HasTriple, LexTriple;
    var r, n := Rune(l), Next(l);
    TripleStays(l, n, '\'');
    if r == '\'' {
      TripleKeeps(n, '\'');
    }
  }

  lemma MultilineStringEscapeKeeps(l: Lx)
    requires InPlace(l, MStrEscape, ConsumeAll(l.out))
    ensures Agrees(LexMultilineStringEscape(l))
  {
    hide Newlines, ConsumeAll, HasTriple, Agrees, InPlace, LexStringEscapeHandler;
    AtMultiline(l, MStrEscape);
    var n := Next(l);
    if IsNL(Rune(l)) {
      TripleStays(l, Next(n), '\"');
      InTriple(Next(n), '\"');
    } else {
      TripleStays(l, Backup(n), '\"');
      MultilineEscaped(Backup(n));
    }
  }

  lemma MultilineEscaped(l: Lx)
    requires AtValue(l, ConsumeAll(l.out)) && HasTriple(l.input, l.pos, '\"')
    ensures Agrees(LexStringEscapeHandler(l, MStr, MStrUnicode))
  {
    hide Newlines, ConsumeAll, HasTriple, Agrees, InPlace, IsEscape;
    var n := Next(l);
    TripleStays(l, n, '\"');
    ErrorAgrees(n);
    InTriple(n, '\"');
    AtMultiline(n, MStrUnicode);
    Arrives(n, MStrUnicode);
  }

  lemma MultilineStringUnicodeKeeps(l: Lx)
    requires InPlace(l, MStrUnicode, ConsumeAll(l.out))
    ensures Agrees(LexUnicode(l, 0, MStr))
  {
    hide Newlines, ConsumeAll, Under, HasTriple, LexUnicode, InPlace;
    AtMultiline(l, MStrUnicode);
    UnicodeMoves(l, 0, MStr);
    var r := LexUnicode(l, 0, MStr);
    if ConsumeAll(r.out) != Finished {
      TripleStays(l, r, '\"');
      InTriple(r, '\"');
    }
  }

  lemma RawStringKeeps(l: Lx)
    requires InPlace(l, RawStr, ConsumeAll(l.out))
    ensures Agrees(LexRawString(l))
  {
    hide Newlines, ConsumeAll, Under, NamePiece;
    var r, n := Rune(l), Next(l);
    ErrorAgrees(n);
    if r == '\'' {
      var b := Backup(n);
      SendValue(b, ItemRawString);
      ValueDone(Ignore(Next(Emit(b, ItemRawString))), ConsumeAll(l.out));
    } else if !IsNL(r) {
      NextText(l);
    }
  }

  // ---------- numbers, dates and booleans ----------

  /** A number ends at the first other character, which is put back. */
  lemma NumberDone(l: Lx, typ: ItemType)
    requires AtValue(l, ConsumeAll(l.out)) && IsValue(Item(typ, Current(l), l.line))
    requires typ == ItemInteger || typ == ItemFloat
    ensures Agrees(Pop(Emit(Backup(Next(l)), typ)))
  {
    hide Newlines, ConsumeAll, Under, NamePiece, AllDigits, IsInteger, IsFloat, FitsDate, StringText, Agrees;
    SendValue(Backup(Next(l)), typ);
  }

  lemma NumberOrDateStartKeeps(l: Lx)
    requires InPlace(l, NumberOrDateStart, ConsumeAll(l.out))
    ensures Agrees(LexNumberOrDateStart(l))
  {
    hide Newlines, ConsumeAll, Under, IsValue, NamePiece, IsInteger, IsFloat, FitsDate, StringText;
    ErrorAgrees(Next(l));
    if IsDigit(Rune(l)) {
      NextText(l);
    }
  }

  lemma NumberOrDateKeeps(l: Lx)
    requires InPlace(l, NumberOrDate, ConsumeAll(l.out))
    ensures Agrees(LexNumberOrDate(l))
  {
    hide Newlines, ConsumeAll, Under, NamePiece, AllDigits, IsInteger, IsFloat, FitsDate, StringText;
    var r, n := Rune(l), Next(l);
    ErrorAgrees(n);
    DigitsAreInteger(Current(l));
    if r == '-' || IsDigit(r) || r == '.' {
      MoreDigits(l);
    } else {
      NumberDone(l, ItemInteger);
    }
  }

  /** A character that continues a run of digits. */
  lemma MoreDigits(l: Lx)
    requires InPlace(l, NumberOrDate, ConsumeAll(l.out)) && (Rune(l) == '-' || IsDigit(Rune(l)) || Rune(l) == '.')
    ensures IsDigit(Rune(l)) ==> Agrees(Go(Next(l), NumberOrDate))
    ensures Rune(l) == '.' ==> Agrees(Go(Next(l), FloatStart))
    ensures Rune(l) == '-' && Next(l).pos - l.start == 5 ==> Agrees(Go(Next(l), DateAfterYear))
  {
    hide Newlines, ConsumeAll, Under, IsValue, NamePiece, IsInteger, IsFloat, StringText;
    NextText(l);
    DigitsAreInteger(Current(l));
    if Rune(l) == '-' && Next(l).pos - l.start == 5 {
      YearFits(Current(l));
    }
  }

  lemma YearFits(s: string)
    requires AllDigits(s) && |s| == 4
    ensures FitsDate(s + ['-'])
  {
    assert forall i | 0 <= i < 4 :: s[i] in s && DATETIME[i] == '0';
    assert DATETIME[4] == '-';
  }

  lemma {:induction false} DateKeeps(l: Lx, i: nat)
    requires AtValue(l, ConsumeAll(l.out)) && i <= |DATE_FORMAT|
    requires |Current(l)| == 5 + i && FitsDate(Current(l))
    ensures Agrees(LexDate(l, i))
    decreases |DATE_FORMAT| - i
  {
    hide Newlines, ConsumeAll, Under, NamePiece, FitsFormat,
      Agrees;
    if i == |DATE_FORMAT| {
      SendValue(l, ItemDatetime);
    } else {
      ErrorAgrees(Next(l));
      if FitsFormat(DATE_FORMAT[i], Rune(l)) {
        DateMore(l, i);
        DateKeeps(Next(l), i + 1);
      }
    }
  }

  lemma DateMore(l: Lx, i: nat)
    requires i < |DATE_FORMAT| && |Current(l)| == 5 + i && FitsDate(Current(l)) && FitsFormat(DATE_FORMAT[i], Rune(l))
    ensures l.pos < |l.input| && |Current(Next(l))| == 6 + i && FitsDate(Current(Next(l)))
  {
    hide Newlines;
    assert DATETIME[5 + i] == DATE_FORMAT[i];
    assert DATE_FORMAT[i] != EOF;
    NextText(l);
  }

  lemma NumberStartKeeps(l: Lx)
    requires InPlace(l, NumberStart, ConsumeAll(l.out))
    ensures Agrees(LexNumberStart(l))
  {
    hide Newlines, ConsumeAll, Under, IsValue, NamePiece, IsFloat, FitsDate, StringText;
    ErrorAgrees(Next(l));
    if IsDigit(Rune(l)) {
      NextText(l);
      assert ("-" + [Rune(l)])[1..] == [Rune(l)];
    }
  }

  lemma NumberKeeps(l: Lx)
    requires InPlace(l, Number, ConsumeAll(l.out))
    ensures Agrees(LexNumber(l))
  {
    hide Newlines, ConsumeAll, Under, NamePiece, AllDigits, IsInteger, IsFloat, FitsDate, StringText;
    var r, n := Rune(l), Next(l);
    if IsDigit(r) {
      NextText(l);
      IntegerMore(Current(l), r);
    } else if r == '.' {
      NextText(l);
    } else {
      NumberDone(l, ItemInteger);
    }
  }

  lemma FloatStartKeeps(l: Lx)
    requires InPlace(l, FloatStart, ConsumeAll(l.out))
    ensures Agrees(LexFloatStart(l))
  {
    hide Newlines, ConsumeAll, Under, IsValue, NamePiece, AllDigits, IsInteger, IsFloat, FitsDate, StringText;
    ErrorAgrees(Next(l));
    if IsDigit(Rune(l)) {
      NextText(l);
      var whole := l.input[l.start..l.pos - 1];
      FloatStarts(whole, Rune(l));
      assert Current(l) == whole + ['.'];
    }
  }

  lemma FloatKeeps(l: Lx)
    requires InPlace(l, Float, ConsumeAll(l.out))
    ensures Agrees(LexFloat(l))
  {
    hide Newlines, ConsumeAll, Under, NamePiece, AllDigits, IsInteger, IsFloat, FitsDate, StringText;
    if IsDigit(Rune(l)) {
      NextText(l);
      FloatMore(Current(l), Rune(l));
    } else {
      NumberDone(l, ItemFloat);
    }
  }

  /** Either an error was sent or the word is complete. */
  lemma {:induction false} ConstMoves(l: Lx, s: string, i: nat)
    requires 0 < i <= |s| && Current(l) == s[..i] && EOF !in s && ConsumeAll(l.out) != Rejected
    ensures var r := LexConst(l, s, i);
            ConsumeAll(r.out) == Finished ||
            (Current(r) == s && r.start == l.start && r.out == l.out && r.stack == l.stack && r.input == l.input)
    decreases |s| - i
  {
    hide Newlines, ConsumeAll, Under, IsValue, NamePiece;
    if i == |s| {
      assert s[..i] == s;
    } else {
      ErrorAgrees(Next(l));
      assert s[i] in s;
      if Rune(l) == s[i] {
        NextText(l);
        ConstMoves(Next(l), s, i + 1);
      }
    }
  }

  lemma BoolKeeps(l: Lx, s: string)
    requires s in {"true", "false"} && Current(l) == s[..1]
    requires AtValue(l, ConsumeAll(l.out))
    ensures Agrees(LexBool(l, s))
  {
    hide Newlines, ConsumeAll, Under, NamePiece, LexConst;
    ConstMoves(l, s, 1);
    var r := LexConst(l, s, 1);
    if ConsumeAll(r.out) == Finished {
      EmitConsumed(r, ItemBool);
      ErrorAgrees(Emit(r, ItemBool));
    } else {
      SendValue(r, ItemBool);
    }
  }

  // ---------- comments ----------

  lemma CommentStartKeeps(l: Lx)
    requires InPlace(l, CommentStart, ConsumeAll(l.out))
    ensures Agrees(LexCommentStart(l))
  {
    hide Newlines, ConsumeAll, Under, IsValue, NamePiece;
    EmitConsumed(Ignore(l), ItemCommentStart);
  }

  lemma CommentKeeps(l: Lx)
    requires InPlace(l, State.Comment, ConsumeAll(l.out))
    ensures Agrees(LexComment(l))
  {
    hide Newlines, ConsumeAll, Under, CommentText, Peek, Agrees;
    PeekSame(l);
    var p := Peek(l);
    if IsNL(Rune(l)) || Rune(l) == EOF {
      CommentDone(p);
    } else {
      CommentMore(p);
    }
  }

  lemma CommentDone(l: Lx)
    requires InPlace(l, State.Comment, ConsumeAll(l.out))
    ensures Agrees(Pop(Emit(l, ItemText)))
  {
    hide Newlines, ConsumeAll, CommentText, StringText, IsValue, NamePiece, KeyName;
    EmitConsumed(l, ItemText);
    var depth := ConsumeAll(l.out).depth;
    if depth > 0 {
      assert l.stack[..|l.stack| - 1] == Under(depth - 1);
    }
  }

  lemma CommentMore(l: Lx)
    requires InPlace(l, State.Comment, ConsumeAll(l.out)) && !IsNL(Rune(l)) && l.pos < |l.input|
    ensures Agrees(Go(Next(l), State.Comment))
  {
    hide Newlines, ConsumeAll, Under;
    NextText(l);
  }
}
