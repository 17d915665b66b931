/** What holds over whole runs of the lexer: only prefixes of the item grammar are sent, and every
    run ends except inside an unterminated multi-line string (lex.go). */
module TomlLexRuns {
  import opened TomlLex
  import opened TomlGrammar
  import opened TomlLexStates

  lemma StepKeeps(l: Lx)
    requires Agrees(l) && ConsumeAll(l.out) != Finished
    ensures l.state != Nil && Agrees(Step(l))
  {
    hide Newlines, ConsumeAll, Under, IsValue, NamePiece, AllDigits, IsInteger, IsFloat, FitsDate, StringText,
      HasTriple, RawText, CommentText, KeyName, Rune, Next, Emit, Pop, LexTop, LexTopEnd, LexTableStart, LexTableEnd,
      LexArrayTableEnd, LexTableNameStart, LexTableName, LexKeyStart, LexKey, LexKeyEnd, LexQuotes, LexValue,
      LexArrayValue, LexArrayValueEnd, LexArrayEnd, LexString, LexStringEscapeHandler, LexMultilineStringEscape,
      LexUnicode, LexTriple, LexMultilineString, LexRawString, LexMultilineRawString, LexNumberOrDateStart,
      LexNumberOrDate, LexDate, LexNumberStart, LexNumber, LexFloatStart, LexFloat, LexConst, LexBool,
      LexCommentStart, LexComment;
    match l.state
    case Top => TopKeeps(l);
    case TopEnd => TopEndKeeps(l);
    case TableStart => TableStartKeeps(l);
    case TableEnd => TableEndKeeps(l);
    case ArrayTableEnd => ArrayTableEndKeeps(l);
    case TableNameStart => TableNameStartKeeps(l);
    case TableName => TableNameKeeps(l);
    case KeyStart => KeyStartKeeps(l);
    case Key => KeyKeeps(l);
    case KeyEnd => KeyEndKeeps(l);
    case Val => ValueKeeps(l);
    case ArrayValue => ArrayValueKeeps(l);
    case ArrayValueEnd => ArrayValueEndKeeps(l);
    case ArrayEnd => ArrayEndKeeps(l);
    case Str => StringKeeps(l);
    case StrEscape => StringEscapeKeeps(l);
    case StrUnicode => StringUnicodeKeeps(l);
    case MStr => MultilineStringKeeps(l);
    case MStrEscape => MultilineStringEscapeKeeps(l);
    case MStrUnicode => MultilineStringUnicodeKeeps(l);
    case RawStr => RawStringKeeps(l);
    case MRawStr => MultilineRawStringKeeps(l);
    case NumberOrDateStart => NumberOrDateStartKeeps(l);
    case NumberOrDate => NumberOrDateKeeps(l);
    case DateAfterYear => DateKeeps(l, 0);
    case NumberStart => NumberStartKeeps(l);
    case Number => NumberKeeps(l);
    case FloatStart => FloatStartKeeps(l);
    case Float => FloatKeeps(l);
    case True => BoolKeeps(l, "true");
    case False => BoolKeeps(l, "false");
    case CommentStart => CommentStartKeeps(l);
    case Comment => CommentKeeps(l);
    case Skip(_) => SkipKeeps(l);
  }

  lemma SkipKeeps(l: Lx)
    requires Agrees(l) && ConsumeAll(l.out) != Finished && l.state.Skip?
    ensures Agrees(Go(Ignore(l), l.state.next))
  {
    hide Newlines, ConsumeAll, Under, IsValue, NamePiece, AllDigits, IsInteger, IsFloat, FitsDate, StringText,
      HasTriple, RawText, CommentText, KeyName;
    var r := Go(Ignore(l), l.state.next);
    assert Current(r) == Current(Ignore(l));
  }

  // ---------- every run ends ----------

  /** At the end of the input inside a multi-line string the lexer turns in place. */
  predicate Stuck(l: Lx) {
    l.state in {MStr, MRawStr} && l.pos == |l.input|
  }

  /** States that move on without reading rank above those they move to. */
  function Rank(s: State): nat
  {
    match s
    case Key => 1
    case Val => 1
    case Top => 1
    case TableStart => 1
    case ArrayValue => 2
    case TopEnd => 2
    case NumberOrDate => 3
    case Number => 3
    case Float => 3
    case TableEnd => 3
    case ArrayEnd => 3
    case Comment => 3
    case CommentStart => 4
    case Skip(next) => 1 + Rank(next)
    case _ => 0
  }

  function Measure(l: Lx): nat
  {
    5 * (|l.input| - l.pos) + Rank(l.state)
  }

  /** The measure falls, unless the reader stops here. */
  predicate Shrinks(l: Lx, r: Lx) {
    ConsumeAll(r.out) == Finished || Measure(r) < Measure(l)
  }

  lemma ValuePopsLow(l: Lx, e: Expect)
    requires AtValue(l, e)
    ensures l.stack != [] && Rank(l.stack[|l.stack| - 1]) <= 2
    ensures e != Rejected
  {
  }

  lemma ArrayPopsLow(l: Lx, depth: nat)
    requires InArray(l, depth)
    ensures l.stack != [] && Rank(l.stack[|l.stack| - 1]) <= 2
  {
  }

  lemma CommentPopsLow(l: Lx, depth: nat)
    requires InComment(l, depth)
    ensures l.stack != [] && Rank(l.stack[|l.stack| - 1]) <= 2
  {
    hide Under;
  }

  /** What `next` and `backup` leave alone, and how far they move. */
  lemma Moves(l: Lx)
    ensures var n := Next(l);
            n == l.(pos := n.pos, width := n.width, line := n.line) &&
            n.pos == l.pos + n.width && n.width == if l.pos < |l.input| then 1 else 0
    ensures l.start + l.width <= l.pos && LastRune(l) ==>
            var b := Backup(l);
            b == l.(pos := b.pos, line := b.line) && b.pos == l.pos - l.width
  {
    hide Newlines;
  }

  lemma AcceptMoves(l: Lx, c: char)
    requires l.start < l.pos && c != EOF
    ensures var a := Accept(l, c);
            a == l.(pos := a.pos, width := a.width, line := a.line) &&
            a.pos == (if Rune(l) == c then l.pos + 1 else l.pos) &&
            LastRune(a) && (Rune(l) == c ==> a.width == 1)
  {
    hide Newlines, Next, Backup;
    Moves(l);
    Moves(Next(l));
  }

  lemma QuotesMove(n: Lx, quote: char)
    requires n.start < n.pos && n.width == 1 && quote != EOF
    ensures var double := quote == '\"';
            var r := LexQuotes(n, quote, if double then Str else RawStr, if double then MStr else MRawStr);
            r.input == n.input && r.pos >= n.pos && Rank(r.state) == 0
  {
    hide Newlines, Next, Backup, Accept;
    AcceptMoves(n, quote);
    if Rune(n) == quote {
      var a := Accept(n, quote);
      AcceptMoves(a, quote);
      Moves(Accept(a, quote));
    }
  }

  lemma TripleMoves(n: Lx, quote: char, state: State, typ: ItemType)
    requires n.start < n.pos && n.width == 1 && AtValue(n, ConsumeAll(n.out)) && state in {MStr, MRawStr}
    requires quote != EOF
    ensures var r := LexTriple(n, quote, state, typ);
            r.input == n.input && r.pos >= n.pos && Rank(r.state) <= 2
  {
    hide Newlines, ConsumeAll, Under, Next, Backup, Accept, EndTriple;
    AcceptMoves(n, quote);
    if Rune(n) == quote {
      var a := Accept(n, quote);
      AcceptMoves(a, quote);
      var c := Accept(a, quote);
      if Rune(a) == quote {
        TripleEnds(c, typ);
      } else {
        Moves(c);
      }
    }
  }

  lemma TripleEnds(c: Lx, typ: ItemType)
    requires c.start + 3 <= c.pos && c.width == 1 && AtValue(c, ConsumeAll(c.out))
    ensures var r := EndTriple(c, typ);
            r.input == c.input && r.pos == c.pos && Rank(r.state) <= 2
  {
    hide Newlines, ConsumeAll, Under, Next, Backup, AtValue;
    ValuePopsLow(c, ConsumeAll(c.out));
    Moves(c);
    Moves(Backup(c));
    Moves(Backup(Backup(c)));
    var e := Emit(Backup(Backup(Backup(c))), typ);
    Moves(e);
    Moves(Next(e));
    Moves(Next(Next(e)));
  }

  lemma TopShrinks(l: Lx)
    requires l.state == Top && InPlace(l, Top, ConsumeAll(l.out))
    ensures Shrinks(l, LexTop(l))
  {
    hide Newlines, ConsumeAll, Under;
    ErrorAgrees(Next(l));
    EmitConsumed(Next(l), ItemEOF);
  }

  lemma TopEndShrinks(l: Lx)
    requires l.state == TopEnd && InPlace(l, TopEnd, ConsumeAll(l.out))
    ensures Shrinks(l, LexTopEnd(l))
  {
    hide Newlines, ConsumeAll, Under;
    ErrorAgrees(Next(l));
  }

  lemma TableStartShrinks(l: Lx)
    requires l.state == TableStart && InPlace(l, TableStart, ConsumeAll(l.out))
    ensures Shrinks(l, LexTableStart(l))
  {
    hide Newlines, ConsumeAll, Under;
  }

  lemma TableEndShrinks(l: Lx)
    requires l.state == TableEnd && InPlace(l, TableEnd, ConsumeAll(l.out))
    ensures Shrinks(l, LexTableEnd(l))
  {
    hide Newlines, ConsumeAll, Under;
  }

  lemma ArrayTableEndShrinks(l: Lx)
    requires l.state == ArrayTableEnd && InPlace(l, ArrayTableEnd, ConsumeAll(l.out))
    ensures Shrinks(l, LexArrayTableEnd(l))
  {
    hide Newlines, ConsumeAll, Under;
    ErrorAgrees(Next(l));
  }

  lemma TableNameStartShrinks(l: Lx)
    requires l.state == TableNameStart && InPlace(l, TableNameStart, ConsumeAll(l.out))
    ensures Shrinks(l, LexTableNameStart(l))
  {
    hide Newlines, ConsumeAll, Under;
    ErrorAgrees(Next(l));
  }

  lemma TableNameShrinks(l: Lx)
    requires l.state == TableName && InPlace(l, TableName, ConsumeAll(l.out))
    ensures Shrinks(l, LexTableName(l))
  {
    hide Newlines, ConsumeAll, Under, NamePiece;
    ErrorAgrees(Peek(l));
  }

  lemma KeyStartShrinks(l: Lx)
    requires l.state == KeyStart && InPlace(l, KeyStart, ConsumeAll(l.out))
    ensures Shrinks(l, LexKeyStart(l))
  {
    hide Newlines, ConsumeAll, Under;
    ErrorAgrees(Peek(l));
  }

  lemma KeyShrinks(l: Lx)
    requires l.state == State.Key && InPlace(l, State.Key, ConsumeAll(l.out))
    ensures Shrinks(l, LexKey(l))
  {
    hide Newlines, ConsumeAll, Under, KeyName, TrimSpace;
    ErrorAgrees(Peek(l));
  }

  lemma KeyEndShrinks(l: Lx)
    requires l.state == KeyEnd && InPlace(l, KeyEnd, ConsumeAll(l.out))
    ensures Shrinks(l, LexKeyEnd(l))
  {
    hide Newlines, ConsumeAll, Under;
    ErrorAgrees(Next(l));
  }

  lemma ArrayValueShrinks(l: Lx)
    requires l.state == ArrayValue && InPlace(l, ArrayValue, ConsumeAll(l.out))
    ensures Shrinks(l, LexArrayValue(l))
  {
    hide Newlines, ConsumeAll, Under;
    ErrorAgrees(Next(l));
  }

  lemma ArrayValueEndShrinks(l: Lx)
    requires l.state == ArrayValueEnd && InPlace(l, ArrayValueEnd, ConsumeAll(l.out))
    ensures Shrinks(l, LexArrayValueEnd(l))
  {
    hide Newlines, ConsumeAll, Under;
    ErrorAgrees(Next(l));
  }

  lemma ArrayEndShrinks(l: Lx)
    requires l.state == ArrayEnd && InPlace(l, ArrayEnd, ConsumeAll(l.out))
    ensures Shrinks(l, LexArrayEnd(l))
  {
    hide Newlines, ConsumeAll, Under;
    ArrayPopsLow(l, ConsumeAll(l.out).depth);
  }

  lemma CommentStartShrinks(l: Lx)
    requires l.state == CommentStart && InPlace(l, CommentStart, ConsumeAll(l.out))
    ensures Shrinks(l, LexCommentStart(l))
  {
    hide Newlines, ConsumeAll, Under;
  }

  lemma CommentShrinks(l: Lx)
    requires l.state == State.Comment && InPlace(l, State.Comment, ConsumeAll(l.out))
    ensures Shrinks(l, LexComment(l))
  {
    hide Newlines, ConsumeAll, Under, CommentText;
    CommentPopsLow(l, ConsumeAll(l.out).depth);
  }

  lemma ValueShrinks(l: Lx)
    requires l.state == Val && InPlace(l, Val, ConsumeAll(l.out))
    ensures Shrinks(l, LexValue(l))
  {
    hide Newlines, ConsumeAll, Under, LexQuotes;
    ErrorAgrees(Next(l));
    if Rune(l) == '\"' || Rune(l) == '\'' {
      QuotesMove(Next(l), Rune(l));
    }
  }

  lemma StringShrinks(l: Lx)
    requires l.state == State.Str && InPlace(l, State.Str, ConsumeAll(l.out))
    ensures Shrinks(l, LexString(l))
  {
    hide Newlines, ConsumeAll, Under, AtValue, StringText, RawText, Next, Backup;
    Moves(l);
    Moves(Next(l));
    ValuePopsLow(l, ConsumeAll(l.out));
    ErrorAgrees(Next(l));
    if Rune(l) == '\"' {
      Moves(Emit(Backup(Next(l)), ItemString));
    }
  }

  lemma RawStringShrinks(l: Lx)
    requires l.state == RawStr && InPlace(l, RawStr, ConsumeAll(l.out))
    ensures Shrinks(l, LexRawString(l))
  {
    hide Newlines, ConsumeAll, Under, AtValue, StringText, RawText, Next, Backup;
    Moves(l);
    Moves(Next(l));
    ValuePopsLow(l, ConsumeAll(l.out));
    ErrorAgrees(Next(l));
    if Rune(l) == '\'' {
      Moves(Emit(Backup(Next(l)), ItemRawString));
    }
  }

  lemma EscapeShrinks(l: Lx, stringFn: State, unicodeFn: State)
    requires ConsumeAll(l.out) != Rejected && Rank(stringFn) == Rank(unicodeFn) == 0
    ensures Shrinks(l, LexStringEscapeHandler(l, stringFn, unicodeFn))
  {
    hide Newlines, ConsumeAll;
    ErrorAgrees(Next(l));
  }

  lemma MultilineEscapeShrinks(l: Lx)
    requires l.state == MStrEscape && ConsumeAll(l.out) != Rejected
    ensures Shrinks(l, LexMultilineStringEscape(l))
  {
    hide Newlines, ConsumeAll, LexStringEscapeHandler, Next, Backup;
    Moves(l);
    Moves(Next(l));
    if !IsNL(Rune(l)) {
      EscapeShrinks(Backup(Next(l)), MStr, MStrUnicode);
    }
  }

  lemma MultilineShrinks(l: Lx)
    requires l.state == MStr && InPlace(l, MStr, ConsumeAll(l.out)) && !Stuck(l)
    ensures Shrinks(l, LexMultilineString(l))
  {
    hide Newlines, ConsumeAll, Under, HasTriple, LexTriple;
    if Rune(l) == '\"' {
      TripleMoves(Next(l), '\"', MStr, ItemMultilineString);
    }
  }

  lemma MultilineRawShrinks(l: Lx)
    requires l.state == MRawStr && InPlace(l, MRawStr, ConsumeAll(l.out)) && !Stuck(l)
    ensures Shrinks(l, LexMultilineRawString(l))
  {
    hide Newlines, ConsumeAll, Under, HasTriple, LexTriple;
    if Rune(l) == '\'' {
      TripleMoves(Next(l), '\'', MRawStr, ItemRawMultilineString);
    }
  }

  lemma NumberOrDateStartShrinks(l: Lx)
    requires l.state == NumberOrDateStart && InPlace(l, NumberOrDateStart, ConsumeAll(l.out))
    ensures Shrinks(l, LexNumberOrDateStart(l))
  {
    hide Newlines, ConsumeAll, Under;
    ErrorAgrees(Next(l));
  }

  lemma NumberStartShrinks(l: Lx)
    requires l.state == NumberStart && InPlace(l, NumberStart, ConsumeAll(l.out))
    ensures Shrinks(l, LexNumberStart(l))
  {
    hide Newlines, ConsumeAll, Under;
    ErrorAgrees(Next(l));
  }

  lemma FloatStartShrinks(l: Lx)
    requires l.state == FloatStart && InPlace(l, FloatStart, ConsumeAll(l.out))
    ensures Shrinks(l, LexFloatStart(l))
  {
    hide Newlines, ConsumeAll, Under;
    ErrorAgrees(Next(l));
  }

  lemma NumberOrDateShrinks(l: Lx)
    requires AtValue(l, ConsumeAll(l.out)) && l.state == NumberOrDate
    ensures Shrinks(l, LexNumberOrDate(l))
  {
    hide Next, Backup, Newlines, ConsumeAll, Under, AtValue, Emit;
    ValuePopsLow(l, ConsumeAll(l.out));
    Moves(l);
    var r, n := Rune(l), Next(l);
    if r == '-' {
      ErrorAgrees(n);
    } else if !IsDigit(r) && r != '.' {
      Moves(n);
      EmitMoves(Backup(n), ItemInteger);
    }
  }

  lemma EmitMoves(l: Lx, typ: ItemType)
    ensures var e := Emit(l, typ); e.pos == l.pos && e.stack == l.stack && e.input == l.input
  {
  }

  lemma NumberShrinks(l: Lx)
    requires AtValue(l, ConsumeAll(l.out)) && l.state in {Number, Float}
    ensures Shrinks(l, if l.state == Number then LexNumber(l) else LexFloat(l))
  {
    hide Next, Backup, Newlines, ConsumeAll, Under, AtValue, Emit;
    ValuePopsLow(l, ConsumeAll(l.out));
    Moves(l);
    Moves(Next(l));
    EmitMoves(Backup(Next(l)), ItemInteger);
    EmitMoves(Backup(Next(l)), ItemFloat);
  }

  lemma StepShrinks(l: Lx)
    requires Agrees(l) && ConsumeAll(l.out) != Finished && !Stuck(l)
    ensures l.state != Nil && Shrinks(l, Step(l))
  {
    hide Newlines, ConsumeAll, IsValue, NamePiece, AllDigits, IsInteger, IsFloat, FitsDate, StringText, HasTriple,
      RawText, CommentText, KeyName, LexTop, LexTopEnd, LexTableStart, LexTableEnd, LexArrayTableEnd,
      LexTableNameStart, LexTableName, LexKeyStart, LexKey, LexKeyEnd, LexQuotes, LexValue, LexArrayValue,
      LexArrayValueEnd, LexArrayEnd, LexString, LexStringEscapeHandler, LexMultilineStringEscape, LexUnicode,
      LexTriple, LexMultilineString, LexRawString, LexMultilineRawString, LexNumberOrDateStart, LexNumberOrDate,
      LexDate, LexNumberStart, LexNumber, LexFloatStart, LexFloat, LexConst, LexBool, LexCommentStart, LexComment,
      Shrinks;
    match l.state
    case StrUnicode => UnicodeShrinks(l, Str);
    case MStrUnicode => UnicodeShrinks(l, MStr);
    case DateAfterYear => DateShrinks(l);
    case True => BoolMoves(l, "true");
    case False => BoolMoves(l, "false");
    case Skip(_) => SkipShrinks(l);
    case Top => TopShrinks(l);
    case TopEnd => TopEndShrinks(l);
    case TableStart => TableStartShrinks(l);
    case TableEnd => TableEndShrinks(l);
    case ArrayTableEnd => ArrayTableEndShrinks(l);
    case TableNameStart => TableNameStartShrinks(l);
    case TableName => TableNameShrinks(l);
    case KeyStart => KeyStartShrinks(l);
    case Key => KeyShrinks(l);
    case KeyEnd => KeyEndShrinks(l);
    case ArrayValue => ArrayValueShrinks(l);
    case ArrayValueEnd => ArrayValueEndShrinks(l);
    case ArrayEnd => ArrayEndShrinks(l);
    case CommentStart => CommentStartShrinks(l);
    case Comment => CommentShrinks(l);
    case Val => ValueShrinks(l);
    case Str => StringShrinks(l);
    case RawStr => RawStringShrinks(l);
    case StrEscape => EscapeShrinks(l, Str, StrUnicode);
    case MStrEscape => MultilineEscapeShrinks(l);
    case MStr => MultilineShrinks(l);
    case MRawStr => MultilineRawShrinks(l);
    case NumberOrDate => NumberOrDateShrinks(l);
    case Number => NumberShrinks(l);
    case Float => NumberShrinks(l);
    case NumberOrDateStart => NumberOrDateStartShrinks(l);
    case NumberStart => NumberStartShrinks(l);
    case FloatStart => FloatStartShrinks(l);
  }

  lemma SkipShrinks(l: Lx)
    requires l.state.Skip?
    ensures Shrinks(l, Step(l))
  {
    hide ConsumeAll;
  }

  lemma UnicodeShrinks(l: Lx, nextFn: State)
    requires nextFn in {Str, MStr} && l.state in {StrUnicode, MStrUnicode} && ConsumeAll(l.out) != Rejected
    ensures Shrinks(l, LexUnicode(l, 0, nextFn))
  {
    hide ConsumeAll, LexUnicode;
    UnicodeMoves(l, 0, nextFn);
  }

  lemma DateShrinks(l: Lx)
    requires AtValue(l, ConsumeAll(l.out)) && l.state.DateAfterYear?
    ensures Shrinks(l, LexDate(l, 0))
  {
    hide ConsumeAll, LexDate;
    DateMoves(l, 0);
  }

  lemma {:induction false} DateMoves(l: Lx, i: nat)
    requires AtValue(l, ConsumeAll(l.out)) && i <= |DATE_FORMAT|
    ensures var r := LexDate(l, i);
            ConsumeAll(r.out) == Finished ||
            (r.input == l.input && r.pos == l.pos + |DATE_FORMAT| - i && Rank(r.state) <= 2)
    decreases |DATE_FORMAT| - i
  {
    hide Newlines, ConsumeAll, FitsFormat;
    if i < |DATE_FORMAT| {
      ErrorAgrees(Next(l));
      if FitsFormat(DATE_FORMAT[i], Rune(l)) {
        FormatFits(DATE_FORMAT[i], l);
        DateMoves(Next(l), i + 1);
      }
    }
  }

  lemma FormatFits(f: char, l: Lx)
    requires FitsFormat(f, Rune(l)) && f != EOF
    ensures l.pos < |l.input|
  {
  }

  lemma BoolMoves(l: Lx, s: string)
    requires s in {"true", "false"} && Current(l) == s[..1] && AtValue(l, ConsumeAll(l.out))
    ensures Shrinks(l, LexBool(l, s))
  {
    hide Newlines, ConsumeAll, LexConst, Under, AtValue;
    ValuePopsLow(l, ConsumeAll(l.out));
    ConstMoves(l, s, 1);
    var r := LexConst(l, s, 1);
    if ConsumeAll(r.out) == Finished {
      EmitConsumed(r, ItemBool);
      ErrorAgrees(Emit(r, ItemBool));
    } else {
      assert r.pos == r.start + |Current(r)| && l.pos == l.start + |Current(l)|;
    }
  }

  // ---------- runs ----------

  /** The lexer after at most `n` turns. The reader stops it after the end or an error, and waits
      for ever where it is stuck. */
  function Run(l: Lx, n: nat): Lx
    requires Agrees(l)
    decreases n
  {
    if n == 0 || ConsumeAll(l.out) == Finished || Stuck(l) then l else
    StepKeeps(l);
    Run(Step(l), n - 1)
  }

  /** The lexer when it is done, or stuck. */
  function Final(l: Lx): Lx
    requires Agrees(l)
  {
    Run(l, Measure(l) + 1)
  }

  lemma StartAgrees(text: string)
    ensures Agrees(Start(text))
  {
  }

  /** The states that end by popping the stack. */
  predicate Pops(s: State) {
    s in {TableName, ArrayEnd, Str, MStr, RawStr, MRawStr, NumberOrDate, DateAfterYear, Number, Float,
          True, False, State.Comment}
  }

  /** In every state a lexer can reach, what it sent is a prefix of the grammar, the pending text is
      inside the input, the line number counts the newlines read, the next state function is there
      to be called, and a state that pops has something to pop. */
  lemma {:induction false} Reached(l: Lx, n: nat)
    requires Agrees(l)
    ensures var r := Run(l, n);
            Agrees(r) && r.input == l.input &&
            ConsumeAll(r.out) != Rejected &&
            r.start <= r.pos <= |r.input| && r.line == 1 + Newlines(r.input, r.pos) &&
            (ConsumeAll(r.out) != Finished ==> r.state != Nil && (Pops(r.state) ==> r.stack != []))
    decreases n
  {
    hide Newlines, Step, Agrees, ConsumeAll;
    PlaceHasStack(l);
    if n > 0 && ConsumeAll(l.out) != Finished && !Stuck(l) {
      StepKeeps(l);
      Reached(Step(l), n - 1);
    }
  }

  lemma PlaceHasStack(l: Lx)
    requires Agrees(l)
    ensures ConsumeAll(l.out) != Rejected
    ensures ConsumeAll(l.out) != Finished ==> l.state != Nil && (Pops(l.state) ==> l.stack != [])
  {
    hide Newlines, ConsumeAll;
  }

  lemma StuckForever(l: Lx)
    requires Agrees(l) && Stuck(l) && ConsumeAll(l.out) != Finished
    ensures Step(l) == l.(width := 0)
    ensures HasTriple(l.input, |l.input|, '\"') || HasTriple(l.input, |l.input|, '\'')
  {
    hide Newlines, ConsumeAll, HasTriple;
  }

  /** Every run comes to the end of the items or to an error, unless it reaches the end of the input
      inside a multi-line string, which takes a triple quote in the input. */
  lemma {:induction false} RunEnds(l: Lx, n: nat)
    requires Agrees(l) && n > Measure(l)
    ensures var r := Run(l, n);
            ConsumeAll(r.out) == Finished || Stuck(r)
    ensures !HasTriple(l.input, |l.input|, '\"') && !HasTriple(l.input, |l.input|, '\'') ==>
            ConsumeAll(Run(l, n).out) == Finished
    decreases n
  {
    hide Newlines, Step, Agrees, ConsumeAll, HasTriple, Measure;
    if ConsumeAll(l.out) != Finished {
      if Stuck(l) {
        StuckForever(l);
      } else {
        StepKeeps(l);
        StepShrinks(l);
        if ConsumeAll(Step(l).out) != Finished {
          RunEnds(Step(l), n - 1);
        }
      }
    }
  }

  /** A turn does not change where the run leads. */
  lemma FinalStep(l: Lx)
    requires Agrees(l) && ConsumeAll(l.out) != Finished && !Stuck(l)
    ensures l.state != Nil && Agrees(Step(l)) && Final(Step(l)) == Final(l)
  {
    hide Newlines, Step, Agrees, ConsumeAll, Measure;
    StepKeeps(l);
    StepShrinks(l);
    assert Final(l) == Run(Step(l), Measure(l));
    if ConsumeAll(Step(l).out) != Finished {
      FuelEnough(Step(l), Measure(l), Measure(Step(l)) + 1);
    } else {
      StopsThere(Step(l), Measure(l));
      StopsThere(Step(l), Measure(Step(l)) + 1);
    }
  }

  lemma StopsThere(l: Lx, n: nat)
    requires Agrees(l) && (ConsumeAll(l.out) == Finished || Stuck(l))
    ensures Run(l, n) == l
  {
    hide Newlines, Step, Agrees, ConsumeAll, Measure;
  }

  lemma {:induction false} FuelEnough(l: Lx, n: nat, m: nat)
    requires Agrees(l) && n > Measure(l) && m > Measure(l)
    ensures Run(l, n) == Run(l, m)
    decreases n
  {
    hide Newlines, Step, Agrees, ConsumeAll, Measure;
    if ConsumeAll(l.out) != Finished && !Stuck(l) {
      StepKeeps(l);
      StepShrinks(l);
      if ConsumeAll(Step(l).out) != Finished {
        FuelEnough(Step(l), n - 1, m - 1);
      }
    }
  }

  /** What was sent stays sent. */
  lemma {:induction false} FinalGrows(l: Lx, n: nat)
    requires Agrees(l)
    ensures l.out <= Run(l, n).out
    decreases n
  {
    hide Newlines, Agrees, ConsumeAll;
    if n > 0 && ConsumeAll(l.out) != Finished && !Stuck(l) {
      StepKeeps(l);
      FinalGrows(Step(l), n - 1);
    }
  }

  // ---------- when a raw string is stuck ----------

  predicate NoTripleFrom(s: string, n: nat, quote: char) {
    forall i | n <= i <= |s| - 3 :: !TripleAt(s, i, quote)
  }

  /** One turn inside a multi-line raw string: over a character, or over three quotes. */
  lemma RawTurn(l: Lx)
    requires l.state == MRawStr && l.pos < |l.input| && l.stack != []
    ensures var r := Step(l);
            if l.pos <= |l.input| - 3 && TripleAt(l.input, l.pos, '\'') then
              exists line :: r.out == l.out + [Item(ItemRawMultilineString, Current(l), line)]
            else r == l.(pos := l.pos + 1, width := r.width, line := r.line)
  {
    hide Newlines, Next, Backup, Accept, EndTriple;
    Moves(l);
    var n := Next(l);
    if Rune(l) == '\'' {
      AcceptMoves(n, '\'');
      if Rune(n) == '\'' {
        var a := Accept(n, '\'');
        AcceptMoves(a, '\'');
        if Rune(a) == '\'' {
          TripleSends(l, Accept(a, '\''), ItemRawMultilineString);
        } else {
          Moves(Accept(a, '\''));
        }
      }
    }
  }

  lemma TripleSends(l: Lx, c: Lx, typ: ItemType)
    requires c.start + 3 <= c.pos && c.width == 1 && c.pos == l.pos + 3
    requires c.start == l.start && c.input == l.input && c.out == l.out && c.stack != []
    ensures exists line :: EndTriple(c, typ).out == l.out + [Item(typ, Current(l), line)]
  {
    hide Newlines, Next, Backup;
    Moves(c);
    Moves(Backup(c));
    Moves(Backup(Backup(c)));
    var b := Backup(Backup(Backup(c)));
    var e := Emit(b, typ);
    Moves(e);
    Moves(Next(e));
    Moves(Next(Next(e)));
    assert EndTriple(c, typ).out == l.out + [Item(typ, Current(l), b.line)];
  }

  /** Inside a multi-line raw string the lexer is stuck exactly when no three quotes follow; otherwise
      the string is sent. */
  lemma {:induction false} RawStuckExactly(l: Lx)
    requires Agrees(l) && l.state == MRawStr && ConsumeAll(l.out) != Finished
    ensures if NoTripleFrom(l.input, l.pos, '\'') then Stuck(Final(l)) && Final(l).out == l.out
            else |Final(l).out| > |l.out| && Final(l).out[|l.out|].typ == ItemRawMultilineString
    decreases |l.input| - l.pos
  {
    hide Newlines, Step, Agrees, ConsumeAll, Run, Measure;
    if l.pos == |l.input| {
      StopsThere(l, Measure(l) + 1);
    } else {
      PlaceHasStack(l);
      RawTurn(l);
      FinalStep(l);
      var r := Step(l);
      FinalGrows(r, Measure(r) + 1);
      if l.pos <= |l.input| - 3 && TripleAt(l.input, l.pos, '\'') {
        assert Final(l).out[|l.out|] == r.out[|l.out|];
      } else {
        RawStuckExactly(r);
      }
    }
  }
}
