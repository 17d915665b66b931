/** From the lexer's items to values and top-level events (parse.go). */
module TomlItems {
  import opened Options
  import opened TomlTree
  import opened TomlContext
  import opened TomlQuote
  import L = TomlLex
  import G = TomlGrammar

  /** Why parsing stops early: a parse error; the source's `bug`, with the reading of a \u escape and
      of a date told apart; a slice out of range; or a lexer that sends nothing more. */
  datatype Failure = SyntaxError | Bug | BadEscape | BadDate | OutOfRange | Endless

  datatype Result<T> = Got(value: T, rest: seq<L.Item>) | Failed(why: Failure)

  /** What is left after reading some items. */
  predicate IsRest(rest: seq<L.Item>, items: seq<L.Item>) {
    |rest| <= |items| && rest == items[|items| - |rest|..]
  }

  /** next. */
  function NextItem(items: seq<L.Item>): (r: Result<L.Item>)
    ensures r.Got? ==> IsRest(r.rest, items) && |r.rest| < |items| && r.value.typ != L.ItemError
  {
    if items == [] then Failed(Endless)
    else if items[0].typ == L.ItemError then Failed(SyntaxError)
    else Got(items[0], items[1..])
  }

  // ---------- the texts of strings, numbers and dates ----------

  function StripFirstNewline(s: string): string
  {
    if s == "" || s[0] != '\n' then s else s[1..]
  }

  /** stripEscapedWhitespace: a backslash at a line's end swallows the white space that follows. */
  function StripEscapedWhitespace(s: string, swallow: bool): string
  {
    if s == "" then ""
    else if |s| >= 2 && s[0] == '\\' && s[1] == '\n' then StripEscapedWhitespace(s[2..], true)
    else if swallow && L.IsSpace(s[0]) then StripEscapedWhitespace(s[1..], true)
    else [s[0]] + StripEscapedWhitespace(s[1..], false)
  }

  /** The number a run of digits stands for. */
  function Decimal(s: string): (n: nat)
    requires forall c <- s :: L.IsDigit(c)
  {
    if s == "" then 0 else
    assert forall c <- s[..|s| - 1] :: c in s;
    assert L.IsDigit(s[|s| - 1]);
    10 * Decimal(s[..|s| - 1]) + (s[|s| - 1] as int - '0' as int)
  }

  /** strconv.ParseInt(s, 10, 64). */
  function ParseInt(s: string): Result<int>
  {
    if s == "" then Failed(Bug) else
    var digits := if s[0] == '-' || s[0] == '+' then s[1..] else s;
    if !G.AllDigits(digits) then Failed(Bug) else
    var n: int := if s[0] == '-' then -(Decimal(digits) as int) else Decimal(digits);
    if -0x8000_0000_0000_0000 <= n < 0x8000_0000_0000_0000 then Got(n, []) else Failed(SyntaxError)
  }

  /** The place of the point, or the end. */
  function Point(s: string): (i: nat)
    ensures i <= |s| && '.' !in s[..i] && (i < |s| ==> s[i] == '.')
  {
    if s == "" || s[0] == '.' then 0 else
    var i := 1 + Point(s[1..]);
    assert s[..i] == [s[0]] + s[1..][..i - 1];
    i
  }

  function PowerOfTwo(n: nat): nat
  {
    if n == 0 then 1 else 2 * PowerOfTwo(n - 1)
  }

  /** Nearer to infinity than to the largest float64, 2^1024 - 2^971. */
  predicate Overflows(n: nat) {
    n + PowerOfTwo(970) >= PowerOfTwo(1024)
  }

  /** strconv.ParseFloat(s, 64) on the texts of float items. Rounding aside, what it can object to is
      the whole part. */
  function ParseFloat(s: string): Result<string>
  {
    var i := Point(s);
    if i == |s| || !G.IsInteger(s[..i]) || !G.AllDigits(s[i + 1..]) then Failed(Bug)
    else if Overflows(Decimal(if s[0] == '-' then s[..i][1..] else s[..i])) then Failed(SyntaxError)
    else Got(s, [])
  }

  predicate LeapYear(year: int) {
    year % 4 == 0 && (year % 100 != 0 || year % 400 == 0)
  }

  function DaysIn(month: int, year: int): int
  {
    if month == 2 then if LeapYear(year) then 29 else 28
    else if month in {4, 6, 9, 11} then 30
    else 31
  }

  function TwoDigits(s: string, i: nat): int
    requires i + 2 <= |s|
  {
    10 * (s[i] as int - '0' as int) + (s[i + 1] as int - '0' as int)
  }

  predicate IsDate(s: string) {
    |s| == |G.DATETIME| && G.FitsDate(s)
  }

  /** The calendar and the clock have this date. */
  predicate RealDate(s: string)
    requires |s| == |G.DATETIME|
  {
    var year, month := 100 * TwoDigits(s, 0) + TwoDigits(s, 2), TwoDigits(s, 5);
    1 <= month <= 12 && 1 <= TwoDigits(s, 8) <= DaysIn(month, year) &&
    TwoDigits(s, 11) < 24 && TwoDigits(s, 14) < 60 && TwoDigits(s, 17) < 60
  }

  /** time.Parse("2006-01-02T15:04:05Z", s) on the texts of date items. */
  function ParseDate(s: string): Result<string>
  {
    if !IsDate(s) then Failed(Bug) else if RealDate(s) then Got(s, []) else Failed(BadDate)
  }

  function StringValue(r: Reading, rest: seq<L.Item>): Result<Value>
  {
    match r
    case Read(s) => Got(Str(s), rest)
    case Bad => Failed(BadEscape)
    case Crash => Failed(OutOfRange)
  }

  // ---------- values ----------

  /** The constructor decides the TOML type. */
  predicate SameType(a: Value, b: Value) {
    match a
    case Str(_) => b.Str?
    case Int(_) => b.Int?
    case Bool(_) => b.Bool?
    case Array(_) => b.Array?
    case Float(_) => b.Float?
    case Datetime(_) => b.Datetime?
  }

  /** typeOfArray does not complain. */
  predicate Uniform(vs: seq<Value>) {
    forall i | 0 <= i < |vs| :: SameType(vs[0], vs[i])
  }

  /** value: `it` was read already. */
  function ParseValue(it: L.Item, items: seq<L.Item>): (r: Result<Value>)
    ensures r.Got? ==> IsRest(r.rest, items)
    decreases |items|, 1
  {
    match it.typ
    case ItemString => StringValue(Unquote(it.val), items)
    case ItemMultilineString =>
      StringValue(Unquote(StripFirstNewline(StripEscapedWhitespace(it.val, false))), items)
    case ItemRawString => Got(Str(it.val), items)
    case ItemRawMultilineString => Got(Str(StripFirstNewline(it.val)), items)
    case ItemBool =>
      if it.val == "true" then Got(Bool(true), items)
      else if it.val == "false" then Got(Bool(false), items)
      else Failed(Bug)
    case ItemInteger =>
      (match ParseInt(it.val)
       case Got(n, _) => Got(Int(n), items)
       case Failed(why) => Failed(why))
    case ItemFloat =>
      (match ParseFloat(it.val)
       case Got(text, _) => Got(Float(text), items)
       case Failed(why) => Failed(why))
    case ItemDatetime =>
      (match ParseDate(it.val)
       case Got(text, _) => Got(Datetime(text), items)
       case Failed(why) => Failed(why))
    case ItemArray => ParseArray(items, [])
    case _ => Failed(Bug)
  }

  /** The loop over an array's items. */
  function ParseArray(items: seq<L.Item>, elems: seq<Value>): (r: Result<Value>)
    ensures r.Got? ==> IsRest(r.rest, items)
    decreases |items|, 0
  {
    match NextItem(items)
    case Failed(why) => Failed(why)
    case Got(it, rest) =>
      if it.typ == L.ItemArrayEnd then
        if Uniform(elems) then Got(Array(elems), rest) else Failed(SyntaxError)
      else if it.typ == L.ItemCommentStart then
        match Expect(L.ItemText, rest)
        case Failed(why) => Failed(why)
        case Got(_, rest') => ParseArray(rest', elems)
      else
        match ParseValue(it, rest)
        case Failed(why) => Failed(why)
        case Got(v, rest') => ParseArray(rest', elems + [v])
  }

  /** expect. */
  function Expect(typ: L.ItemType, items: seq<L.Item>): (r: Result<L.Item>)
    ensures r.Got? ==> IsRest(r.rest, items) && |r.rest| < |items| && r.value.typ == typ
  {
    match NextItem(items)
    case Failed(why) => Failed(why)
    case Got(it, rest) => if it.typ == typ then Got(it, rest) else Failed(Bug)
  }

  // ---------- top level ----------

  /** The loop over the pieces of a table's name; the first was read already. */
  function ParseName(key: Key, end: L.ItemType, items: seq<L.Item>): (r: Result<Key>)
    requires end != L.ItemText
    ensures r.Got? ==> IsRest(r.rest, items) && |r.rest| < |items| && key <= r.value
    decreases |items|
  {
    match NextItem(items)
    case Failed(why) => Failed(why)
    case Got(it, rest) =>
      if it.typ == L.ItemText then ParseName(key + [it.val], end, rest)
      else if it.typ == end then Got(key, rest)
      else Failed(Bug)
  }

  function ParseHeader(isArray: bool, items: seq<L.Item>): (r: Result<Option<Event>>)
    ensures r.Got? ==> IsRest(r.rest, items) && |r.rest| < |items| && r.value.Some? && Named(r.value.value)
  {
    match Expect(L.ItemText, items)
    case Failed(why) => Failed(why)
    case Got(first, rest) =>
      match ParseName([first.val], if isArray then L.ItemArrayTableEnd else L.ItemTableEnd, rest)
      case Failed(why) => Failed(why)
      case Got(key, rest') => Got(Some(if isArray then ArrayHeader(key) else Header(key)), rest')
  }

  /** topLevel, up to the event it acts on; a comment has none. */
  function ParseEvent(it: L.Item, items: seq<L.Item>): (r: Result<Option<Event>>)
    ensures r.Got? ==> IsRest(r.rest, items) && |r.rest| < |items| && (r.value.Some? ==> Named(r.value.value))
  {
    match it.typ
    case ItemCommentStart =>
      (match Expect(L.ItemText, items)
       case Failed(why) => Failed(why)
       case Got(_, rest) => Got(None, rest))
    case ItemTableStart => ParseHeader(false, items)
    case ItemArrayTableStart => ParseHeader(true, items)
    case ItemKeyStart =>
      (match Expect(L.ItemText, items)
       case Failed(why) => Failed(why)
       case Got(name, rest) =>
         match NextItem(rest)
         case Failed(why) => Failed(why)
         case Got(first, rest') =>
           match ParseValue(first, rest')
           case Failed(why) => Failed(why)
           case Got(v, rest'') => Got(Some(KeyVal(name.val, v)), rest''))
    case _ => Failed(Bug)
  }

  /** How a parse ends. */
  datatype Ending = Parsed(st: State) | Stopped(why: Failure) | TableError | TableBug

  /** parse. */
  function Parse(st: State, items: seq<L.Item>): Ending
    decreases |items|
  {
    match NextItem(items)
    case Failed(why) => Stopped(why)
    case Got(it, rest) =>
      if it.typ == L.ItemEOF then Parsed(st) else
      match ParseEvent(it, rest)
      case Failed(why) => Stopped(why)
      case Got(None, rest') => Parse(st, rest')
      case Got(Some(ev), rest') =>
        match Step(st, ev)
        case Done(st') => Parse(st', rest')
        case ParseError => TableError
        case Fatal => TableBug
  }
}
