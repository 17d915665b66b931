/** The lexer's states as functions on the lexer's fields (lex.go). Characters are one byte wide. */
module TomlLex {

  datatype ItemType =
    | ItemError | ItemEOF | ItemText
    | ItemString | ItemRawString | ItemMultilineString | ItemRawMultilineString
    | ItemBool | ItemInteger | ItemFloat | ItemDatetime | ItemArray | ItemArrayEnd
    | ItemTableStart | ItemTableEnd | ItemArrayTableStart | ItemArrayTableEnd
    | ItemKeyStart | ItemCommentStart

  /** Error items carry no text here. */
  datatype Item = Item(typ: ItemType, val: string, line: int)

  /** The state functions; Nil is Go's nil and Skip(s) the closure lexSkip makes. */
  datatype State =
    | Nil | Top | TopEnd | TableStart | TableEnd | ArrayTableEnd | TableNameStart | TableName
    | KeyStart | Key | KeyEnd | Val | ArrayValue | ArrayValueEnd | ArrayEnd
    | Str | StrEscape | StrUnicode | MStr | MStrEscape | MStrUnicode | RawStr | MRawStr
    | NumberOrDateStart | NumberOrDate | DateAfterYear | NumberStart | Number | FloatStart | Float
    | True | False | CommentStart | Comment | Skip(next: State)

  /** The lexer's fields; `out` is everything sent to the items channel so far. */
  datatype Scan = Scan(
    input: string, start: nat, pos: nat, width: nat, line: int,
    stack: seq<State>, out: seq<Item>, state: State)

  function Newlines(s: string, n: nat): nat
    requires n <= |s|
  {
    if n == 0 then 0 else Newlines(s, n - 1) + if s[n - 1] == '\n' then 1 else 0
  }

  /** The pending text is inside the input, which ends a line, and the line number is right. */
  type Lx = l: Scan | EndsLine(l.input) && l.start <= l.pos <= |l.input| && l.line == 1 + Newlines(l.input, l.pos)
    witness Scan("\n", 0, 0, 0, 1, [], [], Nil)

  predicate EndsLine(s: string) {
    s != "" && s[|s| - 1] == '\n'
  }

  const EOF: char := 0 as char

  // ---------- primitives ----------

  function Start(text: string): Lx
  {
    Scan(text + "\n", 0, 0, 0, 1, [], [], Top)
  }

  function Push(l: Lx, s: State): Lx
  {
    l.(stack := l.stack + [s])
  }

  function Errorf(l: Lx): Lx
  {
    l.(out := l.out + [Item(ItemError, "", l.line)], state := Nil)
  }

  function Pop(l: Lx): Lx
  {
    if l.stack == [] then Errorf(l)
    else l.(stack := l.stack[..|l.stack| - 1], state := l.stack[|l.stack| - 1])
  }

  function Current(l: Lx): string
  {
    l.input[l.start..l.pos]
  }

  function Emit(l: Lx, typ: ItemType): Lx
  {
    l.(out := l.out + [Item(typ, Current(l), l.line)], start := l.pos)
  }

  predicate IsSpace(c: char) {
    c in {'\t', '\n', 11 as char, 12 as char, '\r', ' '}
  }

  /** strings.TrimSpace. */
  function TrimSpace(s: string): string
  {
    if s != "" && IsSpace(s[0]) then TrimSpace(s[1..])
    else if s != "" && IsSpace(s[|s| - 1]) then TrimSpace(s[..|s| - 1])
    else s
  }

  function EmitTrim(l: Lx, typ: ItemType): Lx
  {
    l.(out := l.out + [Item(typ, TrimSpace(Current(l)), l.line)], start := l.pos)
  }

  /** What `next` returns, and what it does. */
  function Rune(l: Lx): char
  {
    if l.pos >= |l.input| then EOF else l.input[l.pos]
  }

  function Next(l: Lx): Lx
  {
    if l.pos >= |l.input| then l.(width := 0)
    else l.(width := 1, pos := l.pos + 1, line := if l.input[l.pos] == '\n' then l.line + 1 else l.line)
  }

  function Ignore(l: Lx): Lx
  {
    l.(start := l.pos)
  }

  /** `width` is the last rune's: one byte, or nothing at the end of the input. */
  predicate LastRune(l: Lx) {
    l.width == 1 || (l.width == 0 && l.pos == |l.input|)
  }

  function Backup(l: Lx): Lx
    requires l.start + l.width <= l.pos && LastRune(l)
  {
    var p := l.pos - l.width;
    l.(pos := p, line := if p < |l.input| && l.input[p] == '\n' then l.line - 1 else l.line)
  }

  /** The effect of `accept(c)`, which returns whether Rune(l) == c. */
  function Accept(l: Lx, c: char): Lx
  {
    if Rune(l) == c then Next(l) else Backup(Next(l))
  }

  /** The effect of `peek`, which returns Rune(l). */
  function Peek(l: Lx): Lx
  {
    Backup(Next(l))
  }

  function Go(l: Lx, s: State): Lx
  {
    l.(state := s)
  }

  // ---------- characters ----------

  predicate IsWhitespace(r: char) {
    r == '\t' || r == ' '
  }

  predicate IsNL(r: char) {
    r == '\n' || r == '\r'
  }

  predicate IsDigit(r: char) {
    '0' <= r <= '9'
  }

  predicate IsHexadecimal(r: char) {
    '0' <= r <= '9' || 'a' <= r <= 'f' || 'A' <= r <= 'F'
  }

  /** The letters that may follow a backslash, besides `u`. */
  predicate IsEscape(r: char) {
    r == 'b' || r == 't' || r == 'n' || r == 'f' || r == 'r' || r == '\"' || r == '/' || r == '\\'
  }

  // ---------- states ----------

  function LexTop(l: Lx): (after: Lx)
    ensures after.input == l.input && l.out <= after.out
  {
    var r, n := Rune(l), Next(l);
    if IsWhitespace(r) || IsNL(r) then Go(n, Skip(Top))
    else if r == '#' then Go(Push(n, Top), CommentStart)
    else if r == '[' then Go(n, TableStart)
    else if r == EOF then if n.pos > n.start then Errorf(n) else Go(Emit(n, ItemEOF), Nil)
    else Go(Push(Backup(n), TopEnd), KeyStart)
  }

  function LexTopEnd(l: Lx): (after: Lx)
    ensures after.input == l.input && l.out <= after.out
  {
    var r, n := Rune(l), Next(l);
    if r == '#' then Go(Push(n, Top), CommentStart)
    else if IsWhitespace(r) then Go(n, TopEnd)
    else if IsNL(r) || r == EOF then Go(Ignore(n), Top)
    else Errorf(n)
  }

  function LexTableStart(l: Lx): (after: Lx)
    ensures after.input == l.input && l.out <= after.out
  {
    var p := Peek(l);
    if Rune(l) == '[' then Go(Push(Emit(Next(p), ItemArrayTableStart), ArrayTableEnd), TableNameStart)
    else Go(Push(Emit(p, ItemTableStart), TableEnd), TableNameStart)
  }

  function LexTableEnd(l: Lx): (after: Lx)
    ensures after.input == l.input && l.out <= after.out
  {
    Go(Emit(l, ItemTableEnd), TopEnd)
  }

  function LexArrayTableEnd(l: Lx): (after: Lx)
    ensures after.input == l.input && l.out <= after.out
  {
    if Rune(l) != ']' then Errorf(Next(l)) else Go(Emit(Next(l), ItemArrayTableEnd), TopEnd)
  }

  function LexTableNameStart(l: Lx): (after: Lx)
    ensures after.input == l.input && l.out <= after.out
  {
    var r := Rune(l);
    if r == ']' || r == EOF || r == '.' then Errorf(Next(l)) else Go(Next(l), TableName)
  }

  function LexTableName(l: Lx): (after: Lx)
    ensures after.input == l.input && l.out <= after.out
  {
    var r, p := Rune(l), Peek(l);
    if r == EOF || r == '[' then Errorf(p)
    else if r == ']' then Pop(Next(Emit(p, ItemText)))
    else if r == '.' then Go(Ignore(Next(Emit(p, ItemText))), TableNameStart)
    else Go(Next(p), TableName)
  }

  function LexKeyStart(l: Lx): (after: Lx)
    ensures after.input == l.input && l.out <= after.out
  {
    var r, p := Rune(l), Peek(l);
    if r == '=' then Errorf(p)
    else if IsWhitespace(r) || IsNL(r) then Go(Next(p), Skip(KeyStart))
    else Go(Next(Emit(Ignore(p), ItemKeyStart)), Key)
  }

  function LexKey(l: Lx): (after: Lx)
    ensures after.input == l.input && l.out <= after.out
  {
    var r, p := Rune(l), Peek(l);
    if r == '#' then Errorf(p)
    else if IsNL(r) || r == '=' then Go(EmitTrim(p, ItemText), KeyEnd)
    else Go(Next(p), Key)
  }

  function LexKeyEnd(l: Lx): (after: Lx)
    ensures after.input == l.input && l.out <= after.out
  {
    if Rune(l) == '=' then Go(Next(l), Skip(Val)) else Errorf(Next(l))
  }

  /** One, or three, opening quotes: `n` is past the first. */
  function LexQuotes(n: Lx, quote: char, single: State, triple: State): (after: Lx)
    requires n.start < n.pos && n.width == 1 && quote != EOF
    ensures after.input == n.input && n.out <= after.out
  {
    if Rune(n) == quote then
      var a := Accept(n, quote);
      if Rune(a) == quote then Go(Ignore(Accept(a, quote)), triple)
      else Go(Ignore(Backup(Accept(a, quote))), single)
    else Go(Ignore(Accept(n, quote)), single)
  }

  function LexValue(l: Lx): (after: Lx)
    ensures after.input == l.input && l.out <= after.out
  {
    var r, n := Rune(l), Next(l);
    if IsWhitespace(r) then Go(n, Skip(Val))
    else if r == '[' then Go(Emit(Ignore(n), ItemArray), ArrayValue)
    else if r == '\"' then LexQuotes(n, '\"', Str, MStr)
    else if r == '\'' then LexQuotes(n, '\'', RawStr, MRawStr)
    else if r == 't' then Go(n, True)
    else if r == 'f' then Go(n, False)
    else if r == '-' then Go(n, NumberStart)
    else if IsDigit(r) then Go(Backup(n), NumberOrDateStart)
    else Errorf(n)
  }

  function LexArrayValue(l: Lx): (after: Lx)
    ensures after.input == l.input && l.out <= after.out
  {
    var r, n := Rune(l), Next(l);
    if IsWhitespace(r) || IsNL(r) then Go(n, Skip(ArrayValue))
    else if r == '#' then Go(Push(n, ArrayValue), CommentStart)
    else if r == ',' then Errorf(n)
    else if r == ']' then Go(n, ArrayEnd)
    else Go(Push(Backup(n), ArrayValueEnd), Val)
  }

  function LexArrayValueEnd(l: Lx): (after: Lx)
    ensures after.input == l.input && l.out <= after.out
  {
    var r, n := Rune(l), Next(l);
    if IsWhitespace(r) || IsNL(r) then Go(n, Skip(ArrayValueEnd))
    else if r == '#' then Go(Push(n, ArrayValueEnd), CommentStart)
    else if r == ',' then Go(Ignore(n), ArrayValue)
    else if r == ']' then Go(n, ArrayEnd)
    else Errorf(n)
  }

  function LexArrayEnd(l: Lx): (after: Lx)
    ensures after.input == l.input && l.out <= after.out
  {
    Pop(Emit(Ignore(l), ItemArrayEnd))
  }

  function LexString(l: Lx): (after: Lx)
    ensures after.input == l.input && l.out <= after.out
  {
    var r, n := Rune(l), Next(l);
    if IsNL(r) then Errorf(n)
    else if r == '\\' then Go(n, StrEscape)
    else if r == '\"' then Pop(Ignore(Next(Emit(Backup(n), ItemString))))
    else Go(n, Str)
  }

  function LexStringEscapeHandler(l: Lx, stringFn: State, unicodeFn: State): (after: Lx)
    ensures after.input == l.input && l.out <= after.out
  {
    var r, n := Rune(l), Next(l);
    if IsEscape(r) then Go(n, stringFn)
    else if r == 'u' then Go(n, unicodeFn)
    else Errorf(n)
  }

  function LexMultilineStringEscape(l: Lx): (after: Lx)
    ensures after.input == l.input && l.out <= after.out
  {
    var n := Next(l);
    if IsNL(Rune(l)) then Go(Next(n), MStr)
    else LexStringEscapeHandler(Backup(n), MStr, MStrUnicode)
  }

  /** The loop over four digits, from the i-th. */
  function LexUnicode(l: Lx, i: nat, nextFn: State): (after: Lx)
    requires i <= 4
    ensures after.input == l.input && l.out <= after.out
    decreases 4 - i
  {
    if i == 4 then Go(l, nextFn)
    else if !IsHexadecimal(Rune(l)) then Errorf(Next(l))
    else LexUnicode(Next(l), i + 1, nextFn)
  }

  /** Behind three closing quotes: they are not part of the text. */
  function EndTriple(l: Lx, typ: ItemType): (after: Lx)
    requires l.start + 3 <= l.pos && l.width == 1
    ensures after.input == l.input && l.out <= after.out
  {
    Pop(Ignore(Next(Next(Next(Emit(Backup(Backup(Backup(l))), typ))))))
  }

  /** Three closing quotes: `n` is past the first. */
  function LexTriple(n: Lx, quote: char, state: State, typ: ItemType): (after: Lx)
    requires n.start < n.pos && n.width == 1 && quote != EOF
    ensures after.input == n.input && n.out <= after.out
  {
    if Rune(n) == quote then
      var a := Accept(n, quote);
      if Rune(a) == quote then EndTriple(Accept(a, quote), typ)
      else Go(Backup(Accept(a, quote)), state)
    else Go(Accept(n, quote), state)
  }

  function LexMultilineString(l: Lx): (after: Lx)
    ensures after.input == l.input && l.out <= after.out
  {
    var r, n := Rune(l), Next(l);
    if r == '\\' then Go(n, MStrEscape)
    else if r == '\"' then LexTriple(n, '\"', MStr, ItemMultilineString)
    else Go(n, MStr)
  }

  function LexRawString(l: Lx): (after: Lx)
    ensures after.input == l.input && l.out <= after.out
  {
    var r, n := Rune(l), Next(l);
    if IsNL(r) then Errorf(n)
    else if r == '\'' then Pop(Ignore(Next(Emit(Backup(n), ItemRawString))))
    else Go(n, RawStr)
  }

  function LexMultilineRawString(l: Lx): (after: Lx)
    ensures after.input == l.input && l.out <= after.out
  {
    var r, n := Rune(l), Next(l);
    if r == '\'' then LexTriple(n, '\'', MRawStr, ItemRawMultilineString) else Go(n, MRawStr)
  }

  function LexNumberOrDateStart(l: Lx): (after: Lx)
    ensures after.input == l.input && l.out <= after.out
  {
    if IsDigit(Rune(l)) then Go(Next(l), NumberOrDate) else Errorf(Next(l))
  }

  function LexNumberOrDate(l: Lx): (after: Lx)
    ensures after.input == l.input && l.out <= after.out
  {
    var r, n := Rune(l), Next(l);
    if r == '-' then if n.pos - n.start != 5 then Errorf(n) else Go(n, DateAfterYear)
    else if IsDigit(r) then Go(n, NumberOrDate)
    else if r == '.' then Go(n, FloatStart)
    else Pop(Emit(Backup(n), ItemInteger))
  }

  const DATE_FORMAT: string := "00-00T00:00:00Z"

  predicate FitsFormat(f: char, r: char) {
    if f == '0' then IsDigit(r) else r == f
  }

  /** The loop over the format, from its i-th character. */
  function LexDate(l: Lx, i: nat): (after: Lx)
    requires i <= |DATE_FORMAT|
    ensures after.input == l.input && l.out <= after.out
    decreases |DATE_FORMAT| - i
  {
    if i == |DATE_FORMAT| then Pop(Emit(l, ItemDatetime))
    else if FitsFormat(DATE_FORMAT[i], Rune(l)) then LexDate(Next(l), i + 1)
    else Errorf(Next(l))
  }

  function LexNumberStart(l: Lx): (after: Lx)
    ensures after.input == l.input && l.out <= after.out
  {
    if IsDigit(Rune(l)) then Go(Next(l), Number) else Errorf(Next(l))
  }

  function LexNumber(l: Lx): (after: Lx)
    ensures after.input == l.input && l.out <= after.out
  {
    var r, n := Rune(l), Next(l);
    if IsDigit(r) then Go(n, Number)
    else if r == '.' then Go(n, FloatStart)
    else Pop(Emit(Backup(n), ItemInteger))
  }

  function LexFloatStart(l: Lx): (after: Lx)
    ensures after.input == l.input && l.out <= after.out
  {
    if IsDigit(Rune(l)) then Go(Next(l), Float) else Errorf(Next(l))
  }

  function LexFloat(l: Lx): (after: Lx)
    ensures after.input == l.input && l.out <= after.out
  {
    var n := Next(l);
    if IsDigit(Rune(l)) then Go(n, Float) else Pop(Emit(Backup(n), ItemFloat))
  }

  /** lexConst, from the i-th character of `s`. An error is sent, but the nil it returns is also
      what success returns, so the caller carries on. */
  function LexConst(l: Lx, s: string, i: nat): (after: Lx)
    requires i <= |s|
    ensures after.input == l.input && l.out <= after.out
    decreases |s| - i
  {
    if i == |s| then l
    else if Rune(l) != s[i] then Errorf(Next(l))
    else LexConst(Next(l), s, i + 1)
  }

  function LexBool(l: Lx, s: string): (after: Lx)
    requires s != ""
    ensures after.input == l.input && l.out <= after.out
  {
    Pop(Emit(LexConst(l, s, 1), ItemBool))
  }

  function LexCommentStart(l: Lx): (after: Lx)
    ensures after.input == l.input && l.out <= after.out
  {
    Go(Emit(Ignore(l), ItemCommentStart), Comment)
  }

  function LexComment(l: Lx): (after: Lx)
    ensures after.input == l.input && l.out <= after.out
  {
    var r, p := Rune(l), Peek(l);
    if IsNL(r) || r == EOF then Pop(Emit(p, ItemText)) else Go(Next(p), Comment)
  }

  /** One turn of the loop in nextItem: `lx.state = lx.state(lx)`. */
  function Step(l: Lx): (after: Lx)
    requires l.state != Nil
    ensures after.input == l.input && l.out <= after.out
  {
    match l.state
    case Top => LexTop(l)
    case TopEnd => LexTopEnd(l)
    case TableStart => LexTableStart(l)
    case TableEnd => LexTableEnd(l)
    case ArrayTableEnd => LexArrayTableEnd(l)
    case TableNameStart => LexTableNameStart(l)
    case TableName => LexTableName(l)
    case KeyStart => LexKeyStart(l)
    case Key => LexKey(l)
    case KeyEnd => LexKeyEnd(l)
    case Val => LexValue(l)
    case ArrayValue => LexArrayValue(l)
    case ArrayValueEnd => LexArrayValueEnd(l)
    case ArrayEnd => LexArrayEnd(l)
    case Str => LexString(l)
    case StrEscape => LexStringEscapeHandler(l, Str, StrUnicode)
    case StrUnicode => LexUnicode(l, 0, Str)
    case MStr => LexMultilineString(l)
    case MStrEscape => LexMultilineStringEscape(l)
    case MStrUnicode => LexUnicode(l, 0, MStr)
    case RawStr => LexRawString(l)
    case MRawStr => LexMultilineRawString(l)
    case NumberOrDateStart => LexNumberOrDateStart(l)
    case NumberOrDate => LexNumberOrDate(l)
    case DateAfterYear => LexDate(l, 0)
    case NumberStart => LexNumberStart(l)
    case Number => LexNumber(l)
    case FloatStart => LexFloatStart(l)
    case Float => LexFloat(l)
    case True => LexBool(l, "true")
    case False => LexBool(l, "false")
    case CommentStart => LexCommentStart(l)
    case Comment => LexComment(l)
    case Skip(next) => Go(Ignore(l), next)
  }
}
