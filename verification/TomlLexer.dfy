/** The lexer as the source runs it: an object whose fields every state function moves along, and a
    channel of items (lex.go). Each method does what the function of the same name says. */
module TomlLexer {
  import opened F = TomlLex
  import G = TomlGrammar
  import R = TomlLexRuns

  class Lexer {
    const input: string
    var start: nat
    var pos: nat
    var width: nat
    var line: int
    var state: State
    var stack: seq<State>
    /** Sent and not yet received. */
    var items: seq<Item>
    /** Received by the parser. */
    ghost var received: seq<Item>

    ghost predicate Valid()
      reads this
    {
      EndsLine(input) && start <= pos <= |input| && line == 1 + Newlines(input, pos)
    }

    /** The fields as a value. */
    ghost function St(): Lx
      requires Valid()
      reads this
    {
      Scan(input, start, pos, width, line, stack, received + items, state)
    }

    constructor (text: string)
      ensures Valid() && St() == Start(text) && received == []
    {
      input := text + "\n";
      start, pos, width, line := 0, 0, 0, 1;
      state, stack, items := Top, [], [];
      received := [];
    }

    method Push(s: State)
      requires Valid()
      modifies this`stack
      ensures Valid() && St() == F.Push(old(St()), s)
    {
      stack := stack + [s];
    }

    /** errorf: the next state is nil. */
    method Errorf() returns (next: State)
      requires Valid()
      modifies this`items
      ensures Valid() && St().(state := next) == F.Errorf(old(St()))
    {
      items := items + [Item(ItemError, "", line)];
      assert St().out == old(St().out) + [Item(ItemError, "", line)];
      return Nil;
    }

    method Pop() returns (next: State)
      requires Valid()
      modifies this`stack, this`items
      ensures Valid() && St().(state := next) == F.Pop(old(St()))
    {
      if |stack| == 0 {
        next := Errorf();
        return;
      }
      next := stack[|stack| - 1];
      stack := stack[..|stack| - 1];
    }

    function Current(): string
      requires Valid()
      reads this
      ensures Current() == F.Current(St())
    {
      input[start..pos]
    }

    method Emit(typ: ItemType)
      requires Valid()
      modifies this`items, this`start
      ensures Valid() && St() == F.Emit(old(St()), typ)
    {
      var it := Item(typ, Current(), line);
      items := items + [it];
      start := pos;
      assert St().out == old(St().out) + [it];
    }

    method EmitTrim(typ: ItemType)
      requires Valid()
      modifies this`items, this`start
      ensures Valid() && St() == F.EmitTrim(old(St()), typ)
    {
      var it := Item(typ, TrimSpace(Current()), line);
      items := items + [it];
      start := pos;
      assert St().out == old(St().out) + [it];
    }

    method Next() returns (r: char)
      requires Valid()
      modifies this`pos, this`width, this`line
      ensures Valid() && St() == F.Next(old(St())) && r == Rune(old(St()))
    {
      if pos >= |input| {
        width := 0;
        return EOF;
      }
      if input[pos] == '\n' {
        line := line + 1;
      }
      r, width := input[pos], 1;
      pos := pos + width;
    }

    method Ignore()
      requires Valid()
      modifies this`start
      ensures Valid() && St() == F.Ignore(old(St()))
    {
      start := pos;
    }

    method Backup()
      requires Valid() && start + width <= pos && LastRune(St())
      modifies this`pos, this`line
      ensures Valid() && St() == F.Backup(old(St()))
    {
      pos := pos - width;
      if pos < |input| && input[pos] == '\n' {
        line := line - 1;
      }
    }

    method Accept(valid: char) returns (ok: bool)
      requires Valid()
      modifies this`pos, this`width, this`line
      ensures Valid() && St() == F.Accept(old(St()), valid) && ok == (Rune(old(St())) == valid)
    {
      var r := Next();
      if r == valid {
        return true;
      }
      Backup();
      return false;
    }

    method Peek() returns (r: char)
      requires Valid()
      modifies this`pos, this`width, this`line
      ensures Valid() && St() == F.Peek(old(St())) && r == Rune(old(St()))
    {
      r := Next();
      Backup();
    }

    // ---------- states ----------

    method LexTop() returns (next: State)
      requires Valid()
      modifies `start, `pos, `width, `line, `stack, `items
      ensures Valid() && St().(state := next) == F.LexTop(old(St()))
    {
      hide Newlines, F.Emit, F.Errorf, F.Pop;
      var r := Next();
      if IsWhitespace(r) || IsNL(r) {
        return Skip(Top);
      }
      if r == '#' {
        Push(Top);
        return CommentStart;
      } else if r == '[' {
        return TableStart;
      } else if r == EOF {
        if pos > start {
          next := Errorf();
          return;
        }
        Emit(ItemEOF);
        return Nil;
      }
      Backup();
      Push(TopEnd);
      return KeyStart;
    }

    method LexTopEnd() returns (next: State)
      requires Valid()
      modifies `start, `pos, `width, `line, `stack, `items
      ensures Valid() && St().(state := next) == F.LexTopEnd(old(St()))
    {
      hide Newlines, F.Emit, F.Errorf, F.Pop;
      var r := Next();
      if r == '#' {
        Push(Top);
        return CommentStart;
      } else if IsWhitespace(r) {
        return TopEnd;
      } else if IsNL(r) {
        Ignore();
        return Top;
      } else if r == EOF {
        Ignore();
        return Top;
      }
      next := Errorf();
    }

    method LexTableStart() returns (next: State)
      requires Valid()
      modifies `start, `pos, `width, `line, `stack, `items
      ensures Valid() && St().(state := next) == F.LexTableStart(old(St()))
    {
      hide Newlines, F.Emit, F.Errorf, F.Pop;
      var r := Peek();
      if r == '[' {
        r := Next();
        Emit(ItemArrayTableStart);
        Push(ArrayTableEnd);
      } else {
        Emit(ItemTableStart);
        Push(TableEnd);
      }
      return TableNameStart;
    }

    method LexTableEnd() returns (next: State)
      requires Valid()
      modifies `start, `pos, `width, `line, `stack, `items
      ensures Valid() && St().(state := next) == F.LexTableEnd(old(St()))
    {
      hide Newlines, F.Emit, F.Errorf, F.Pop;
      Emit(ItemTableEnd);
      return TopEnd;
    }

    method LexArrayTableEnd() returns (next: State)
      requires Valid()
      modifies `start, `pos, `width, `line, `stack, `items
      ensures Valid() && St().(state := next) == F.LexArrayTableEnd(old(St()))
    {
      hide Newlines, F.Emit, F.Errorf, F.Pop;
      var r := Next();
      if r != ']' {
        next := Errorf();
        return;
      }
      Emit(ItemArrayTableEnd);
      return TopEnd;
    }

    method LexTableNameStart() returns (next: State)
      requires Valid()
      modifies `start, `pos, `width, `line, `stack, `items
      ensures Valid() && St().(state := next) == F.LexTableNameStart(old(St()))
    {
      hide Newlines, F.Emit, F.Errorf, F.Pop;
      var r := Next();
      if r == ']' || r == EOF || r == '.' {
        next := Errorf();
        return;
      }
      return TableName;
    }

    method LexTableName() returns (next: State)
      requires Valid()
      modifies `start, `pos, `width, `line, `stack, `items
      ensures Valid() && St().(state := next) == F.LexTableName(old(St()))
    {
      hide Newlines, F.Emit, F.Errorf, F.Pop;
      var r := Peek();
      if r == EOF || r == '[' {
        next := Errorf();
        return;
      } else if r == ']' {
        Emit(ItemText);
        r := Next();
        next := Pop();
        return;
      } else if r == '.' {
        Emit(ItemText);
        r := Next();
        Ignore();
        return TableNameStart;
      }
      r := Next();
      return TableName;
    }

    method LexKeyStart() returns (next: State)
      requires Valid()
      modifies `start, `pos, `width, `line, `stack, `items
      ensures Valid() && St().(state := next) == F.LexKeyStart(old(St()))
    {
      hide Newlines, F.Emit, F.Errorf, F.Pop;
      var r := Peek();
      if r == '=' {
        next := Errorf();
        return;
      } else if IsWhitespace(r) || IsNL(r) {
        r := Next();
        return Skip(KeyStart);
      }
      Ignore();
      Emit(ItemKeyStart);
      r := Next();
      return Key;
    }

    method LexKey() returns (next: State)
      requires Valid()
      modifies `start, `pos, `width, `line, `stack, `items
      ensures Valid() && St().(state := next) == F.LexKey(old(St()))
    {
      hide Newlines, F.EmitTrim, F.Errorf, F.Pop;
      var r := Peek();
      if r == '#' {
        next := Errorf();
        return;
      }
      if IsNL(r) {
        EmitTrim(ItemText);
        return KeyEnd;
      }
      if r == '=' {
        EmitTrim(ItemText);
        return KeyEnd;
      }
      r := Next();
      return Key;
    }

    method LexKeyEnd() returns (next: State)
      requires Valid()
      modifies `start, `pos, `width, `line, `stack, `items
      ensures Valid() && St().(state := next) == F.LexKeyEnd(old(St()))
    {
      hide Newlines, F.Emit, F.Errorf, F.Pop;
      var r := Next();
      if r == '=' {
        return Skip(Val);
      }
      next := Errorf();
    }

    /** One, or three, opening quotes; the first was read. */
    method LexQuotes(quote: char, single: State, triple: State) returns (next: State)
      requires Valid() && start < pos && width == 1 && quote != EOF
      modifies `start, `pos, `width, `line, `stack, `items
      ensures Valid() && St().(state := next) == F.LexQuotes(old(St()), quote, single, triple)
    {
      hide Newlines, F.Next, F.Backup, F.Accept;
      ghost var n := St();
      R.AcceptMoves(n, quote);
      var ok := Accept(quote);
      if ok {
        R.AcceptMoves(St(), quote);
        ok := Accept(quote);
        if ok {
          assert F.LexQuotes(n, quote, single, triple) == Go(F.Ignore(St()), triple);
          Ignore();
          return triple;
        }
        assert F.LexQuotes(n, quote, single, triple) == Go(F.Ignore(F.Backup(St())), single);
        Backup();
      } else {
        assert F.LexQuotes(n, quote, single, triple) == Go(F.Ignore(St()), single);
      }
      Ignore();
      return single;
    }

    method LexValue() returns (next: State)
      requires Valid()
      modifies `start, `pos, `width, `line, `stack, `items
      ensures Valid() && St().(state := next) == F.LexValue(old(St()))
    {
      hide Newlines, F.Emit, F.Errorf, F.LexQuotes;
      var r := Next();
      if IsWhitespace(r) {
        return Skip(Val);
      }
      if r == '[' {
        Ignore();
        Emit(ItemArray);
        return ArrayValue;
      } else if r == '\"' {
        next := LexQuotes('\"', Str, MStr);
        return;
      } else if r == '\'' {
        next := LexQuotes('\'', RawStr, MRawStr);
        return;
      } else if r == 't' {
        return True;
      } else if r == 'f' {
        return False;
      } else if r == '-' {
        return NumberStart;
      } else if IsDigit(r) {
        Backup();
        return NumberOrDateStart;
      }
      next := Errorf();
    }

    method LexArrayValue() returns (next: State)
      requires Valid()
      modifies `start, `pos, `width, `line, `stack, `items
      ensures Valid() && St().(state := next) == F.LexArrayValue(old(St()))
    {
      hide Newlines, F.Emit, F.Errorf, F.Pop;
      var r := Next();
      if IsWhitespace(r) || IsNL(r) {
        return Skip(ArrayValue);
      } else if r == '#' {
        Push(ArrayValue);
        return CommentStart;
      } else if r == ',' {
        next := Errorf();
        return;
      } else if r == ']' {
        return ArrayEnd;
      }
      Backup();
      Push(ArrayValueEnd);
      return Val;
    }

    method LexArrayValueEnd() returns (next: State)
      requires Valid()
      modifies `start, `pos, `width, `line, `stack, `items
      ensures Valid() && St().(state := next) == F.LexArrayValueEnd(old(St()))
    {
      hide Newlines, F.Emit, F.Errorf, F.Pop;
      var r := Next();
      if IsWhitespace(r) || IsNL(r) {
        return Skip(ArrayValueEnd);
      } else if r == '#' {
        Push(ArrayValueEnd);
        return CommentStart;
      } else if r == ',' {
        Ignore();
        return ArrayValue;
      } else if r == ']' {
        return ArrayEnd;
      }
      next := Errorf();
    }

    method LexArrayEnd() returns (next: State)
      requires Valid()
      modifies `start, `pos, `width, `line, `stack, `items
      ensures Valid() && St().(state := next) == F.LexArrayEnd(old(St()))
    {
      hide Newlines, F.Emit, F.Errorf, F.Pop;
      Ignore();
      Emit(ItemArrayEnd);
      next := Pop();
    }

    method LexString() returns (next: State)
      requires Valid()
      modifies `start, `pos, `width, `line, `stack, `items
      ensures Valid() && St().(state := next) == F.LexString(old(St()))
    {
      hide Newlines, F.Errorf, F.Pop;
      var r := Next();
      if IsNL(r) {
        next := Errorf();
        return;
      } else if r == '\\' {
        return StrEscape;
      } else if r == '\"' {
        Backup();
        Emit(ItemString);
        r := Next();
        Ignore();
        next := Pop();
        return;
      }
      return Str;
    }

    method LexStringEscapeHandler(stringFn: State, unicodeFn: State) returns (next: State)
      requires Valid()
      modifies `start, `pos, `width, `line, `stack, `items
      ensures Valid() && St().(state := next) == F.LexStringEscapeHandler(old(St()), stringFn, unicodeFn)
    {
      hide Newlines, F.Next, F.Errorf;
      ghost var l := St();
      var r := Next();
      if IsEscape(r) {
        assert F.LexStringEscapeHandler(l, stringFn, unicodeFn) == Go(F.Next(l), stringFn);
        return stringFn;
      } else if r == 'u' {
        assert F.LexStringEscapeHandler(l, stringFn, unicodeFn) == Go(F.Next(l), unicodeFn);
        return unicodeFn;
      }
      assert F.LexStringEscapeHandler(l, stringFn, unicodeFn) == F.Errorf(F.Next(l));
      next := Errorf();
    }

    method LexMultilineStringEscape() returns (next: State)
      requires Valid()
      modifies `start, `pos, `width, `line, `stack, `items
      ensures Valid() && St().(state := next) == F.LexMultilineStringEscape(old(St()))
    {
      hide Newlines, F.LexStringEscapeHandler;
      var r := Next();
      if IsNL(r) {
        r := Next();
        return MStr;
      }
      Backup();
      next := LexStringEscapeHandler(MStr, MStrUnicode);
    }

    method LexStringUnicodeHandler(nextFn: State) returns (next: State)
      requires Valid()
      modifies `start, `pos, `width, `line, `stack, `items
      ensures Valid() && St().(state := next) == LexUnicode(old(St()), 0, nextFn)
    {
      hide Newlines, F.Errorf, F.Next;
      for i := 0 to 4
        invariant Valid() && LexUnicode(St(), i, nextFn) == LexUnicode(old(St()), 0, nextFn)
      {
        var r := Next();
        if !IsHexadecimal(r) {
          next := Errorf();
          return;
        }
      }
      return nextFn;
    }

    /** Behind three closing quotes. */
    method EndTriple(typ: ItemType) returns (next: State)
      requires Valid() && start + 3 <= pos && width == 1
      modifies `start, `pos, `width, `line, `stack, `items
      ensures Valid() && St().(state := next) == F.EndTriple(old(St()), typ)
    {
      hide Newlines, F.Pop, F.Next, F.Backup, F.Emit;
      R.Moves(St());
      R.Moves(F.Backup(St()));
      Backup();
      Backup();
      Backup();
      Emit(typ);
      var r := Next();
      r := Next();
      r := Next();
      Ignore();
      next := Pop();
    }

    /** Three closing quotes; the first was read. */
    method LexTriple(quote: char, self: State, typ: ItemType) returns (next: State)
      requires Valid() && start < pos && width == 1 && quote != EOF
      modifies `start, `pos, `width, `line, `stack, `items
      ensures Valid() && St().(state := next) == F.LexTriple(old(St()), quote, self, typ)
    {
      hide Newlines, F.Next, F.Backup, F.EndTriple, F.Accept;
      ghost var n := St();
      R.AcceptMoves(n, quote);
      var ok := Accept(quote);
      if ok {
        R.AcceptMoves(St(), quote);
        ok := Accept(quote);
        if ok {
          assert F.LexTriple(n, quote, self, typ) == F.EndTriple(St(), typ);
          next := EndTriple(typ);
          return;
        }
        assert F.LexTriple(n, quote, self, typ) == Go(F.Backup(St()), self);
        Backup();
      } else {
        assert F.LexTriple(n, quote, self, typ) == Go(St(), self);
      }
      return self;
    }

    method LexMultilineString() returns (next: State)
      requires Valid()
      modifies `start, `pos, `width, `line, `stack, `items
      ensures Valid() && St().(state := next) == F.LexMultilineString(old(St()))
    {
      hide Newlines, F.LexTriple;
      var r := Next();
      if r == '\\' {
        return MStrEscape;
      } else if r == '\"' {
        next := LexTriple('\"', MStr, ItemMultilineString);
        return;
      }
      return MStr;
    }

    method LexRawString() returns (next: State)
      requires Valid()
      modifies `start, `pos, `width, `line, `stack, `items
      ensures Valid() && St().(state := next) == F.LexRawString(old(St()))
    {
      hide Newlines, F.Errorf, F.Pop;
      var r := Next();
      if IsNL(r) {
        next := Errorf();
        return;
      } else if r == '\'' {
        Backup();
        Emit(ItemRawString);
        r := Next();
        Ignore();
        next := Pop();
        return;
      }
      return RawStr;
    }

    method LexMultilineRawString() returns (next: State)
      requires Valid()
      modifies `start, `pos, `width, `line, `stack, `items
      ensures Valid() && St().(state := next) == F.LexMultilineRawString(old(St()))
    {
      hide Newlines, F.LexTriple;
      var r := Next();
      if r == '\'' {
        next := LexTriple('\'', MRawStr, ItemRawMultilineString);
        return;
      }
      return MRawStr;
    }

    method LexNumberOrDateStart() returns (next: State)
      requires Valid()
      modifies `start, `pos, `width, `line, `stack, `items
      ensures Valid() && St().(state := next) == F.LexNumberOrDateStart(old(St()))
    {
      hide Newlines, F.Emit, F.Errorf, F.Pop;
      var r := Next();
      if !IsDigit(r) {
        next := Errorf();
        return;
      }
      return NumberOrDate;
    }

    method LexNumberOrDate() returns (next: State)
      requires Valid()
      modifies `start, `pos, `width, `line, `stack, `items
      ensures Valid() && St().(state := next) == F.LexNumberOrDate(old(St()))
    {
      hide Newlines, F.Emit, F.Errorf, F.Pop;
      var r := Next();
      if r == '-' {
        if pos - start != 5 {
          next := Errorf();
          return;
        }
        return DateAfterYear;
      } else if IsDigit(r) {
        return NumberOrDate;
      } else if r == '.' {
        return FloatStart;
      }
      Backup();
      Emit(ItemInteger);
      next := Pop();
    }

    method LexDateAfterYear() returns (next: State)
      requires Valid()
      modifies `start, `pos, `width, `line, `stack, `items
      ensures Valid() && St().(state := next) == LexDate(old(St()), 0)
    {
      hide Newlines, F.Errorf, F.Next, F.Emit, F.Pop;
      for i := 0 to |DATE_FORMAT|
        invariant Valid() && LexDate(St(), i) == LexDate(old(St()), 0)
      {
        var r := Next();
        if !FitsFormat(DATE_FORMAT[i], r) {
          next := Errorf();
          return;
        }
      }
      Emit(ItemDatetime);
      next := Pop();
    }

    method LexNumberStart() returns (next: State)
      requires Valid()
      modifies `start, `pos, `width, `line, `stack, `items
      ensures Valid() && St().(state := next) == F.LexNumberStart(old(St()))
    {
      hide Newlines, F.Emit, F.Errorf, F.Pop;
      var r := Next();
      if !IsDigit(r) {
        next := Errorf();
        return;
      }
      return Number;
    }

    method LexNumber() returns (next: State)
      requires Valid()
      modifies `start, `pos, `width, `line, `stack, `items
      ensures Valid() && St().(state := next) == F.LexNumber(old(St()))
    {
      hide Newlines, F.Emit, F.Errorf, F.Pop;
      var r := Next();
      if IsDigit(r) {
        return Number;
      } else if r == '.' {
        return FloatStart;
      }
      Backup();
      Emit(ItemInteger);
      next := Pop();
    }

    method LexFloatStart() returns (next: State)
      requires Valid()
      modifies `start, `pos, `width, `line, `stack, `items
      ensures Valid() && St().(state := next) == F.LexFloatStart(old(St()))
    {
      hide Newlines, F.Emit, F.Errorf, F.Pop;
      var r := Next();
      if !IsDigit(r) {
        next := Errorf();
        return;
      }
      return Float;
    }

    method LexFloat() returns (next: State)
      requires Valid()
      modifies `start, `pos, `width, `line, `stack, `items
      ensures Valid() && St().(state := next) == F.LexFloat(old(St()))
    {
      hide Newlines, F.Emit, F.Errorf, F.Pop;
      var r := Next();
      if IsDigit(r) {
        return Float;
      }
      Backup();
      Emit(ItemFloat);
      next := Pop();
    }

    /** Like the source, it returns nil whether or not it has sent an error. */
    method LexConst(s: string) returns (fn: State)
      requires Valid() && s != ""
      modifies `start, `pos, `width, `line, `stack, `items
      ensures Valid() && fn == Nil && St() == F.LexConst(old(St()), s, 1).(state := old(state))
    {
      hide Newlines, F.Next;
      for i := 1 to |s|
        invariant Valid() && F.LexConst(St(), s, i) == F.LexConst(old(St()), s, 1)
      {
        var r := Next();
        if r != s[i] {
          fn := Errorf();
          return;
        }
      }
      return Nil;
    }

    method LexTrue() returns (next: State)
      requires Valid()
      modifies `start, `pos, `width, `line, `stack, `items
      ensures Valid() && St().(state := next) == LexBool(old(St()), "true")
    {
      hide Newlines, F.LexConst;
      var fn := LexConst("true");
      if fn != Nil {
        return fn;
      }
      Emit(ItemBool);
      next := Pop();
    }

    method LexFalse() returns (next: State)
      requires Valid()
      modifies `start, `pos, `width, `line, `stack, `items
      ensures Valid() && St().(state := next) == LexBool(old(St()), "false")
    {
      hide Newlines, F.LexConst;
      var fn := LexConst("false");
      if fn != Nil {
        return fn;
      }
      Emit(ItemBool);
      next := Pop();
    }

    method LexCommentStart() returns (next: State)
      requires Valid()
      modifies `start, `pos, `width, `line, `stack, `items
      ensures Valid() && St().(state := next) == F.LexCommentStart(old(St()))
    {
      hide Newlines, F.Emit, F.Errorf, F.Pop;
      Ignore();
      Emit(ItemCommentStart);
      return Comment;
    }

    method LexComment() returns (next: State)
      requires Valid()
      modifies `start, `pos, `width, `line, `stack, `items
      ensures Valid() && St().(state := next) == F.LexComment(old(St()))
    {
      hide Newlines, F.Emit, F.Errorf, F.Pop;
      var r := Peek();
      if IsNL(r) || r == EOF {
        Emit(ItemText);
        next := Pop();
        return;
      }
      r := Next();
      return Comment;
    }

    /** Calls the state function. */
    method Call() returns (next: State)
      requires Valid() && state != Nil
      modifies `start, `pos, `width, `line, `stack, `items
      ensures Valid() && St().(state := next) == Step(old(St()))
    {
      hide Newlines, F.LexTop, F.LexTopEnd, F.LexTableStart, F.LexTableEnd, F.LexArrayTableEnd, F.LexTableName,
        F.LexTableNameStart, F.LexKeyStart, F.LexKey, F.LexKeyEnd, F.LexQuotes, F.LexValue, F.LexArrayValue,
        F.LexArrayValueEnd, F.LexArrayEnd, F.LexString, F.LexStringEscapeHandler, F.LexMultilineString,
        F.LexMultilineStringEscape, F.LexUnicode, F.LexTriple, F.LexRawString, F.LexMultilineRawString,
        F.LexNumberOrDate, F.LexNumberOrDateStart, F.LexNumber, F.LexDate, F.LexNumberStart, F.LexFloat,
        F.LexFloatStart, F.LexConst, F.LexBool, F.LexComment, F.LexCommentStart;
      match state
      case Top => next := LexTop();
      case TopEnd => next := LexTopEnd();
      case TableStart => next := LexTableStart();
      case TableEnd => next := LexTableEnd();
      case ArrayTableEnd => next := LexArrayTableEnd();
      case TableNameStart => next := LexTableNameStart();
      case TableName => next := LexTableName();
      case KeyStart => next := LexKeyStart();
      case Key => next := LexKey();
      case KeyEnd => next := LexKeyEnd();
      case Val => next := LexValue();
      case ArrayValue => next := LexArrayValue();
      case ArrayValueEnd => next := LexArrayValueEnd();
      case ArrayEnd => next := LexArrayEnd();
      case Str => next := LexString();
      case StrEscape => next := LexStringEscapeHandler(Str, StrUnicode);
      case StrUnicode => next := LexStringUnicodeHandler(Str);
      case MStr => next := LexMultilineString();
      case MStrEscape => next := LexMultilineStringEscape();
      case MStrUnicode => next := LexStringUnicodeHandler(MStr);
      case RawStr => next := LexRawString();
      case MRawStr => next := LexMultilineRawString();
      case NumberOrDateStart => next := LexNumberOrDateStart();
      case NumberOrDate => next := LexNumberOrDate();
      case DateAfterYear => next := LexDateAfterYear();
      case NumberStart => next := LexNumberStart();
      case Number => next := LexNumber();
      case FloatStart => next := LexFloatStart();
      case Float => next := LexFloat();
      case True => next := LexTrue();
      case False => next := LexFalse();
      case CommentStart => next := LexCommentStart();
      case Comment => next := LexComment();
      case Skip(s) => Ignore(); next := s;
    }

    /** All items of the run this lexer is on, received or not. */
    ghost function Tokens(): seq<Item>
      requires Valid() && G.Agrees(St())
      reads this
    {
      R.Final(St()).out
    }

    /** What the parser may rely on between two calls. */
    ghost predicate Ready()
      reads this
    {
      Valid() && G.Agrees(St()) && G.ConsumeAll(received) != G.Finished
    }

    /** nextItem. `ok` is false where the source never returns: the lexer turns in place at the end
        of an unclosed multi-line string. The items of the run are handed out one by one. */
    method NextItem() returns (it: Item, ok: bool)
      requires Ready()
      modifies this
      ensures Valid() && G.Agrees(St()) && Tokens() == old(Tokens())
      ensures ok ==> |old(received)| < |Tokens()| && it == Tokens()[|old(received)|] && received == old(received) + [it]
      ensures !ok ==> received == old(received) == Tokens() && R.Stuck(St())
    {
      hide Newlines, Step, G.Agrees, G.ConsumeAll, R.Run, R.Measure;
      it, ok := Item(ItemError, "", 0), false;
      while |items| == 0 && !(state in {MStr, MRawStr} && pos == |input|)
        invariant Valid() && G.Agrees(St()) && R.Final(St()) == old(R.Final(St())) && received == old(received)
        decreases |items| == 0, R.Measure(St())
      {
        assert received + items == received;
        R.FinalStep(St());
        R.StepShrinks(St());
        ghost var after := Step(St());
        var next := Call();
        state := next;
        assert St() == after;
      }
      R.FinalGrows(St(), R.Measure(St()) + 1);
      if |items| > 0 {
        it, ok := items[0], true;
        ghost var l := St();
        items := items[1..];
        received := received + [it];
        assert St() == l;
      } else {
        R.StopsThere(St(), R.Measure(St()) + 1);
        assert received + items == received;
      }
    }
  }
}
