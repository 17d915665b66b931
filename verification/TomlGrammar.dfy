/** The grammar of items the parser relies on, and the proof that the lexer only ever sends a
    prefix of it (lex.go, and what parse.go expects of it). */
module TomlGrammar {
  import opened TomlLex

  // ---------- the texts of items ----------

  predicate AllDigits(s: string) {
    s != "" && forall c <- s :: IsDigit(c)
  }

  predicate IsInteger(s: string) {
    s != "" && AllDigits(if s[0] == '-' then s[1..] else s)
  }

  predicate IsFloat(s: string) {
    exists i | 0 <= i < |s| :: IsInteger(s[..i]) && s[i] == '.' && AllDigits(s[i + 1..])
  }

  const DATETIME: string := "0000-" + DATE_FORMAT

  predicate FitsDate(s: string) {
    |s| <= |DATETIME| && forall i | 0 <= i < |s| :: FitsFormat(DATETIME[i], s[i])
  }

  /** The text of a basic string: no bare quote, no line end, only known escapes. */
  predicate StringText(s: string) {
    s == "" ||
    if s[0] == '\\' then
      |s| >= 2 &&
      if s[1] == 'u' then
        |s| >= 6 && (forall i | 2 <= i < 6 :: IsHexadecimal(s[i])) && StringText(s[6..])
      else IsEscape(s[1]) && StringText(s[2..])
    else s[0] != '\"' && !IsNL(s[0]) && StringText(s[1..])
  }

  predicate RawText(s: string) {
    forall c <- s :: c != '\'' && !IsNL(c)
  }

  predicate CommentText(s: string) {
    forall c <- s :: !IsNL(c)
  }

  /** A piece of a table name. Its first character may be a bracket. */
  predicate NamePiece(s: string) {
    s != "" && s[0] != ']' && forall i | 0 <= i < |s| :: s[i] != '.' && s[i] != EOF && (i > 0 ==> s[i] !in "[]")
  }

  predicate KeyName(s: string) {
    forall c <- s :: c != '=' && c != '#' && !IsNL(c)
  }

  predicate Trimmed(s: string) {
    s == "" || (!IsSpace(s[0]) && !IsSpace(s[|s| - 1]))
  }

  predicate IsValue(it: Item) {
    match it.typ
    case ItemString => StringText(it.val)
    case ItemRawString => RawText(it.val)
    case ItemMultilineString => true
    case ItemRawMultilineString => true
    case ItemBool => it.val in {"true", "false"}
    case ItemInteger => IsInteger(it.val)
    case ItemFloat => IsFloat(it.val)
    case ItemDatetime => |it.val| == |DATETIME| && FitsDate(it.val)
    case _ => false
  }

  // ---------- the grammar ----------

  /** What may come next: top-level items or, inside arrays, values; the text of a comment, of a
      table name or of a key; the value of a key. After an error or the end nothing is read. */
  datatype Expect =
    | Items(depth: nat) | Comment(depth: nat)
    | FirstName(isArray: bool) | MoreName(isArray: bool)
    | KeyText | KeyValue
    | Finished | Rejected

  function Consume(e: Expect, it: Item): Expect
  {
    if e == Rejected then Rejected
    else if e == Finished || it.typ == ItemError then Finished else
    match e
    case Items(depth) =>
      if it.typ == ItemCommentStart then Expect.Comment(depth)
      else if depth > 0 then
        if it.typ == ItemArray then Items(depth + 1)
        else if it.typ == ItemArrayEnd then Items(depth - 1)
        else if IsValue(it) then e
        else Rejected
      else if it.typ == ItemEOF then Finished
      else if it.typ == ItemTableStart then FirstName(false)
      else if it.typ == ItemArrayTableStart then FirstName(true)
      else if it.typ == ItemKeyStart then KeyText
      else Rejected
    case Comment(depth) => if it.typ == ItemText && CommentText(it.val) then Items(depth) else Rejected
    case FirstName(a) => if it.typ == ItemText && NamePiece(it.val) then MoreName(a) else Rejected
    case MoreName(a) =>
      if it.typ == ItemText && NamePiece(it.val) then e
      else if it.typ == (if a then ItemArrayTableEnd else ItemTableEnd) then Items(0)
      else Rejected
    case KeyText => if it.typ == ItemText && KeyName(it.val) && Trimmed(it.val) then KeyValue else Rejected
    case KeyValue =>
      if it.typ == ItemArray then Items(1) else if IsValue(it) then Items(0) else Rejected
    case Finished => Finished
    case Rejected => Rejected
  }

  function ConsumeAll(items: seq<Item>): Expect
  {
    if items == [] then Items(0) else Consume(ConsumeAll(items[..|items| - 1]), items[|items| - 1])
  }

  lemma ConsumeOne(items: seq<Item>, it: Item)
    ensures ConsumeAll(items + [it]) == Consume(ConsumeAll(items), it)
  {
    assert (items + [it])[..|items|] == items;
  }

  // ---------- where the lexer is ----------

  /** The continuations under a value at array depth `d`. */
  function Under(d: nat): seq<State>
  {
    if d == 0 then [TopEnd] else Under(d - 1) + [ArrayValueEnd]
  }

  predicate AtValue(l: Lx, e: Expect) {
    (e.KeyValue? && l.stack == Under(0)) || (e.Items? && e.depth > 0 && l.stack == Under(e.depth))
  }

  predicate InArray(l: Lx, depth: nat) {
    depth > 0 && l.stack == Under(depth - 1)
  }

  /** A comment returns to the state it interrupted. */
  predicate InComment(l: Lx, depth: nat) {
    if depth == 0 then l.stack == [Top]
    else l.stack in {Under(depth - 1) + [ArrayValue], Under(depth - 1) + [ArrayValueEnd]}
  }

  predicate InName(l: Lx, e: Expect) {
    (e.FirstName? || e.MoreName?) && l.stack == [if e.isArray then ArrayTableEnd else TableEnd]
  }

  /** What holds on entry to state `s`: the stack, what the parser expects, the pending text. */
  predicate InPlace(l: Lx, s: State, e: Expect)
  {
    match s
    case Nil => false
    case Top => l.stack == [] && e == Items(0) && l.start == l.pos
    case TopEnd => l.stack == [] && e == Items(0)
    case TableStart => l.stack == [] && e == Items(0)
    case TableEnd => l.stack == [] && e == MoreName(false)
    case ArrayTableEnd => l.stack == [] && e == MoreName(true)
    case TableNameStart => InName(l, e) && l.start == l.pos
    case TableName => InName(l, e) && NamePiece(Current(l))
    case KeyStart =>
      l.stack == [TopEnd] && e == Items(0) && l.start == l.pos < |l.input| &&
      Rune(l) != '#' && Rune(l) != EOF && !IsWhitespace(Rune(l)) && !IsNL(Rune(l))
    case Key => l.stack == [TopEnd] && e == KeyText && KeyName(Current(l)) && l.pos < |l.input|
    case KeyEnd => l.stack == [TopEnd] && e == KeyValue
    case Val => AtValue(l, e) && l.start == l.pos
    case ArrayValue => e.Items? && InArray(l, e.depth) && l.start == l.pos
    case ArrayValueEnd => e.Items? && InArray(l, e.depth) && l.start == l.pos
    case ArrayEnd => e.Items? && InArray(l, e.depth)
    case Str => AtValue(l, e) && StringText(Current(l)) && l.pos < |l.input|
    case StrEscape =>
      AtValue(l, e) && l.start < l.pos && StringText(l.input[l.start..l.pos - 1]) && l.input[l.pos - 1] == '\\'
    case StrUnicode =>
      AtValue(l, e) && l.start < l.pos - 1 && StringText(l.input[l.start..l.pos - 2]) &&
      l.input[l.pos - 2] == '\\' && l.input[l.pos - 1] == 'u'
    case MStr => AtValue(l, e) && HasTriple(l.input, l.pos, '\"')
    case MStrEscape => AtValue(l, e) && HasTriple(l.input, l.pos, '\"')
    case MStrUnicode => AtValue(l, e) && HasTriple(l.input, l.pos, '\"')
    case RawStr => AtValue(l, e) && RawText(Current(l)) && l.pos < |l.input|
    case MRawStr => AtValue(l, e) && HasTriple(l.input, l.pos, '\'')
    case NumberOrDateStart => AtValue(l, e) && l.start == l.pos
    case NumberOrDate => AtValue(l, e) && AllDigits(Current(l))
    case DateAfterYear => AtValue(l, e) && |Current(l)| == 5 && FitsDate(Current(l))
    case NumberStart => AtValue(l, e) && Current(l) == "-"
    case Number => AtValue(l, e) && IsInteger(Current(l))
    case FloatStart =>
      AtValue(l, e) && l.start < l.pos && IsInteger(l.input[l.start..l.pos - 1]) && l.input[l.pos - 1] == '.'
    case Float => AtValue(l, e) && IsFloat(Current(l))
    case True => AtValue(l, e) && Current(l) == "t"
    case False => AtValue(l, e) && Current(l) == "f"
    case CommentStart => e.Items? && InComment(l, e.depth)
    case Comment => e.Comment? && InComment(l, e.depth) && CommentText(Current(l))
    case Skip(_) => false
  }

  /** An opening triple quote lies behind. */
  predicate HasTriple(s: string, n: nat, quote: char)
    requires n <= |s|
  {
    exists i | 0 <= i <= n - 3 :: TripleAt(s, i, quote)
  }

  predicate TripleAt(s: string, i: nat, quote: char)
    requires i + 3 <= |s|
  {
    s[i] == s[i + 1] == s[i + 2] == quote
  }

  /** Nothing but a prefix of the grammar was sent and the lexer is where it should be. */
  predicate Agrees(l: Lx) {
    var e := ConsumeAll(l.out);
    e == Finished || if l.state.Skip? then InPlace(Ignore(l), l.state.next, e) else InPlace(l, l.state, e)
  }
}
