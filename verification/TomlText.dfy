/** From printed text back to items: what the lexer makes of the lines the encoder writes
    (encode.go, lex.go). */
module TomlText {
  import opened TomlTree
  import C = TomlContext
  import opened TomlQuote
  import opened TomlLex
  import opened TomlItems
  import G = TomlGrammar
  import R = TomlLexRuns

  // ---------- the text of values and lines ----------

  function DecimalText(n: nat): (s: string)
    ensures s != "" && forall c <- s :: IsDigit(c)
  {
    if n < 10 then [('0' as int + n) as char] else DecimalText(n / 10) + [('0' as int + n % 10) as char]
  }

  function IntText(i: int): string
  {
    if i < 0 then "-" + DecimalText(-i) else DecimalText(i)
  }

  /** eElement. */
  function ValueText(v: Value): string
    decreases v, 1, 0
  {
    match v
    case Str(s) => "\"" + Quote(s) + "\""
    case Int(i) => IntText(i)
    case Bool(b) => Word(b)
    case Array(_) => "[" + ElementsText(v, 0)
    case Float(text) => text
    case Datetime(text) => text
  }

  /** The elements of an array from the i-th, and the bracket that closes it. */
  function ElementsText(v: Value, i: nat): string
    requires v.Array? && i <= |v.elems|
    decreases v, 0, |v.elems| - i
  {
    if i == |v.elems| then "]"
    else ValueText(v.elems[i]) + if i == |v.elems| - 1 then "]" else ", " + ElementsText(v, i + 1)
  }

  /** One line, without its indentation and its end. */
  function LineText(ev: C.Event): string
    requires C.Named(ev)
  {
    match ev
    case Header(key) => "[" + C.Join(key) + "]"
    case ArrayHeader(key) => "[[" + C.Join(key) + "]]"
    case KeyVal(name, value) => name + " = " + ValueText(value)
  }

  /** What the encoder prints for finite floats and for years of four digits: floats have digits on
      both sides of a point, dates have the full form. */
  predicate Lexable(v: Value)
  {
    match v
    case Array(elems) => forall e <- elems :: Lexable(e)
    case Float(text) => G.IsFloat(text)
    case Datetime(text) => IsDate(text)
    case _ => true
  }

  /** The digits before the point. */
  function WholePart(s: string): string
    requires s != ""
  {
    if s[0] == '-' then s[..Point(s)][1..] else s[..Point(s)]
  }

  /** What reads back as itself: strings without \u, 64-bit integers, floats in range, dates the
      calendar has, arrays of one type. */
  predicate SafeValue(v: Value)
  {
    match v
    case Str(s) => !HasEscape(s)
    case Int(i) => -0x8000_0000_0000_0000 <= i < 0x8000_0000_0000_0000
    case Bool(_) => true
    case Array(elems) => Uniform(elems) && forall e <- elems :: SafeValue(e)
    case Float(text) => G.IsFloat(text) && G.AllDigits(WholePart(text)) && !Overflows(Decimal(WholePart(text)))
    case Datetime(text) => IsDate(text) && RealDate(text)
  }

  /** What the parser makes of a printed value: a value, or a failure. */
  datatype Regained = As(v: Value) | Lost(why: Failure)

  function Regain(v: Value): Regained
    decreases v, 1, 0
  {
    match v
    case Str(s) =>
      (match Unquote(Quote(s))
       case Read(t) => As(Value.Str(t))
       case Bad => Lost(BadEscape)
       case Crash => Lost(OutOfRange))
    case Int(i) => if -0x8000_0000_0000_0000 <= i < 0x8000_0000_0000_0000 then As(v) else Lost(SyntaxError)
    case Bool(_) => As(v)
    case Array(_) => RegainFrom(v, 0, [])
    case Float(text) => if ParseFloat(text).Got? then As(v) else Lost(ParseFloat(text).why)
    case Datetime(text) => if ParseDate(text).Got? then As(v) else Lost(ParseDate(text).why)
  }

  /** The elements from the i-th, behind those regained. */
  function RegainFrom(v: Value, i: nat, elems: seq<Value>): Regained
    requires v.Array? && i <= |v.elems|
    decreases v, 0, |v.elems| - i
  {
    if i == |v.elems| then if Uniform(elems) then As(Array(elems)) else Lost(SyntaxError)
    else
      var r := Regain(v.elems[i]);
      if r.As? then RegainFrom(v, i + 1, elems + [r.v]) else r
  }

  predicate SafePiece(s: string) {
    s != "" && forall c <- s :: c !in "[]." && c != EOF
  }

  /** A key the lexer takes whole: no separator, comment or line end in it, nothing at its ends that
      is trimmed, and no bracket or NUL in front. */
  predicate SafeName(s: string) {
    s != "" && G.KeyName(s) && !IsSpace(s[0]) && !IsSpace(s[|s| - 1]) && s[0] != '[' && s[0] != EOF
  }

  /** A line the lexer takes as it is meant. */
  predicate LexableEvent(ev: C.Event) {
    C.Named(ev) &&
    match ev
    case Header(key) => forall i | 0 <= i < |key| :: SafePiece(key[i])
    case ArrayHeader(key) => forall i | 0 <= i < |key| :: SafePiece(key[i])
    case KeyVal(name, value) => SafeName(name) && Lexable(value)
  }

  // ---------- turns of the lexer ----------

  /** `n` turns lead from `l` to `r`. */
  predicate Steps(l: Lx, r: Lx, n: nat)
    decreases n
  {
    if n == 0 then l == r else l.state != Nil && Steps(Step(l), r, n - 1)
  }

  lemma {:induction false} StepsOn(l: Lx, m: Lx, r: Lx, a: nat, b: nat)
    requires Steps(l, m, a) && Steps(m, r, b)
    ensures Steps(l, r, a + b)
    decreases a
  {
    hide Step;
    if a > 0 {
      StepsOn(Step(l), m, r, a - 1, b);
    }
  }

  function Ahead(l: Lx): string
  {
    l.input[l.pos..]
  }

  /** The lexer has moved over `s` and done nothing else. */
  predicate Slides(l: Lx, r: Lx, s: string) {
    r == l.(pos := r.pos, width := r.width, line := r.line) && Ahead(l) == s + Ahead(r)
  }

  lemma AheadOf(a: Lx, b: Lx)
    requires a.input == b.input && a.pos == b.pos
    ensures Ahead(a) == Ahead(b)
  {
  }

  lemma Read(l: Lx, c: char, t: string)
    requires Ahead(l) == [c] + t
    ensures l.pos < |l.input| && Rune(l) == c && Ahead(Next(l)) == t
    ensures Next(l) == l.(pos := l.pos + 1, width := 1, line := Next(l).line)
  {
    hide Newlines;
    assert Ahead(l)[0] == c && Ahead(l)[1..] == t;
  }

  lemma SlidesOn(l: Lx, m: Lx, r: Lx, s: string, t: string)
    requires Slides(l, m, s) && Slides(m, r, t)
    ensures Slides(l, r, s + t)
  {
    assert s + (t + Ahead(r)) == (s + t) + Ahead(r);
  }

  lemma SlidesFields(l: Lx, r: Lx, s: string)
    requires Slides(l, r, s)
    ensures r == l.(pos := r.pos, width := r.width, line := r.line)
  {
  }

  lemma SlidesText(l: Lx, r: Lx, s: string)
    requires Slides(l, r, s)
    ensures r.pos == l.pos + |s| && Current(r) == Current(l) + s
  {
    hide Newlines;
    assert |Ahead(l)| == |s| + |Ahead(r)|;
    assert l.input[l.pos..r.pos] == Ahead(l)[..|s|] == s;
    assert l.input[l.start..r.pos] == l.input[l.start..l.pos] + l.input[l.pos..r.pos];
  }

  // ---------- strings ----------

  lemma Stays(l: Lx)
    ensures Slides(l, l, "")
  {
    assert "" + Ahead(l) == Ahead(l);
  }

  lemma QuotedShape(c: char)
    ensures var q := QuoteChar(c);
            if |q| == 2 then q[0] == '\\' && IsEscape(q[1])
            else q == [c] && c != '\\' && c != '\"' && !IsNL(c)
  {
  }

  // ---------- values ----------

  /** The lexer is back from a value: at the state under it, with `it` sent, in front of `after`. */
  predicate Back(l: Lx, r: Lx, its: seq<Item>, after: string) {
    l.stack != [] && r.input == l.input && r.start == r.pos && Ahead(r) == after &&
    r.stack == l.stack[..|l.stack| - 1] && r.state == l.stack[|l.stack| - 1] && r.out == l.out + its
  }

  lemma BackVia(l: Lx, e: Lx, r: Lx, its: seq<Item>, after: string)
    requires Back(e, r, its, after) && e.stack == l.stack && e.out == l.out && e.input == l.input
    ensures Back(l, r, its, after)
  {
  }

  /** The lexer is about to read a value. */
  predicate AtValue(l: Lx, text: string) {
    l.state == State.Val && l.stack != [] && l.start == l.pos && Ahead(l) == text
  }

  lemma StepsOne(l: Lx, m: Lx, r: Lx, n: nat)
    requires l.state != Nil && m == Step(l) && Steps(m, r, n)
    ensures Steps(l, r, n + 1)
  {
    hide Step;
  }

  lemma StepsThen(l: Lx, m: Lx, r: Lx, n: nat)
    requires Steps(l, m, n) && m.state != Nil && r == Step(m)
    ensures Steps(l, r, n + 1)
  {
    hide Step;
    assert Steps(r, r, 0);
    assert Steps(m, r, 1);
    StepsOn(l, m, r, n, 1);
  }

  // ---------- numbers and booleans ----------

  /** What may follow a value: a line's end, a blank, a comment, a comma, a closing bracket, a NUL. */
  predicate Ends(after: string) {
    after != "" && after[0] in {'\n', '\r', '\t', ' ', '#', ',', ']', EOF}
  }

  lemma {:induction false} DigitsRun(l: Lx, s: string, after: string) returns (r: Lx, n: nat)
    requires l.state in {NumberOrDate, Number, State.Float} && (forall c <- s :: IsDigit(c)) && Ahead(l) == s + after
    ensures Steps(l, r, n) && Slides(l, r, s) && Ahead(r) == after
    decreases |s|
  {
    hide Newlines, Next, Ahead, Steps;
    if s == "" {
      r, n := l, 0;
      Stays(l);
      NoSteps(l);
      assert s + after == after;
    } else {
      var t := s[1..] + after;
      assert s + after == [s[0]] + t;
      assert IsDigit(s[0]);
      Read(l, s[0], t);
      var m := Step(l);
      assert m == Next(l);
      assert forall c <- s[1..] :: c in s;
      var k: nat;
      r, k := DigitsRun(m, s[1..], after);
      StepsOne(l, m, r, k);
      n := k + 1;
      assert s + Ahead(r) == s + after;
    }
  }

  lemma NoSteps(l: Lx)
    ensures Steps(l, l, 0)
  {
  }

  function NumberType(s: State): ItemType
  {
    if s.Float? then ItemFloat else ItemInteger
  }

  /** What ends a number. */
  predicate NumberEnds(s: State, after: string) {
    after != "" && !IsDigit(after[0]) && (after[0] == '.' ==> s.Float?) && (after[0] == '-' ==> !s.NumberOrDate?)
  }

  lemma NumberCloses(l: Lx, after: string) returns (it: Item, r: Lx)
    requires l.state in {NumberOrDate, Number, State.Float} && Ahead(l) == after && NumberEnds(l.state, after)
    requires l.stack != []
    ensures r == Step(l) && it.typ == NumberType(l.state) && it.val == Current(l) && Back(l, r, [it], after)
  {
    hide Newlines, Next, Backup, Ahead, Back;
    assert after == [after[0]] + after[1..];
    Read(l, after[0], after[1..]);
    R.Moves(Next(l));
    var b := Backup(Next(l));
    AheadOf(b, l);
    assert Current(b) == Current(l);
    r := Step(l);
    assert r == Pop(Emit(b, NumberType(l.state)));
    it := ValueEnded(b, NumberType(l.state), after);
    BackVia(l, b, r, [it], after);
  }

  lemma ValueEnded(b: Lx, typ: ItemType, after: string) returns (it: Item)
    requires Ahead(b) == after && b.stack != []
    ensures it.typ == typ && it.val == Current(b) && Back(b, Pop(Emit(b, typ)), [it], after)
  {
    hide Newlines;
    it := Item(typ, Current(b), b.line);
  }

  /** The first digit, or the sign and the first digit. */
  lemma NumberOpens(l: Lx, s: string, after: string) returns (m: Lx, n: nat)
    requires s != "" && (forall c <- s :: IsDigit(c)) && AtValue(l, s + after)
    ensures Steps(l, m, n) && m.state == NumberOrDate && Ahead(m) == s[1..] + after
    ensures m == l.(pos := m.pos, width := m.width, line := m.line, state := m.state) && Current(m) == [s[0]]
  {
    hide Newlines, Steps, Next, Ahead, Current, Backup;
    var t := s[1..] + after;
    assert s + after == [s[0]] + t;
    assert IsDigit(s[0]);
    Read(l, s[0], t);
    R.Moves(Next(l));
    var a := DigitTurn(l);
    assert Ahead(a) == [s[0]] + t by { AheadOf(a, l); }
    Read(a, s[0], t);
    m := FirstDigitTurn(a);
    assert Ahead(m) == t by { AheadOf(m, Next(a)); }
    OneRead(l, m, s[0], t);
    NoSteps(m);
    StepsOne(a, m, m, 0);
    StepsOne(l, a, m, 1);
    n := 2;
  }

  lemma DigitTurn(l: Lx) returns (a: Lx)
    requires l.state == State.Val && l.start == l.pos < |l.input| && IsDigit(Rune(l))
    ensures a == Step(l) && a == Go(Backup(Next(l)), NumberOrDateStart)
  {
    hide Newlines;
    a := Step(l);
  }

  lemma FirstDigitTurn(a: Lx) returns (m: Lx)
    requires a.state == NumberOrDateStart && IsDigit(Rune(a))
    ensures m == Step(a) && m == Go(Next(a), NumberOrDate)
  {
    hide Newlines, Next;
    m := Step(a);
  }

  lemma SignOpens(l: Lx, s: string, after: string) returns (m: Lx, n: nat)
    requires s != "" && (forall c <- s :: IsDigit(c)) && AtValue(l, "-" + s + after)
    ensures Steps(l, m, n) && m.state == Number && Ahead(m) == s[1..] + after
    ensures m == l.(pos := m.pos, width := m.width, line := m.line, state := m.state) && Current(m) == "-" + [s[0]]
  {
    hide Newlines, Steps, Next, Ahead, Current;
    var t := s[1..] + after;
    assert "-" + s + after == ['-'] + ([s[0]] + t);
    assert IsDigit(s[0]);
    Read(l, '-', [s[0]] + t);
    var a := Step(l);
    assert a == Go(Next(l), NumberStart);
    assert Ahead(a) == [s[0]] + t by { AheadOf(a, Next(l)); }
    Read(a, s[0], t);
    m := Step(a);
    assert m == Go(Next(a), Number);
    assert Ahead(m) == t by { AheadOf(m, Next(a)); }
    NoSteps(m);
    StepsOne(a, m, m, 0);
    StepsOne(l, a, m, 1);
    n := 2;
    TwoRead(l, m, '-', s[0], t);
  }

  lemma TwoRead(l: Lx, m: Lx, c: char, d: char, t: string)
    requires l.start == l.pos == m.start && m.pos == l.pos + 2 && m.input == l.input && Ahead(l) == [c] + ([d] + t)
    ensures Current(m) == [c] + [d]
  {
    hide Newlines;
    assert Ahead(l)[..2] == [c] + [d];
    assert l.input[l.pos..l.pos + 2] == Ahead(l)[..2];
  }

  /** Digits, and the end of the number. */
  lemma DigitsClose(m: Lx, d: string, after: string) returns (r: Lx, n: nat, it: Item)
    requires m.state in {NumberOrDate, Number, State.Float} && m.stack != [] && forall c <- d :: IsDigit(c)
    requires Ahead(m) == d + after && NumberEnds(m.state, after)
    ensures Steps(m, r, n) && Back(m, r, [it], after) && it.typ == NumberType(m.state) && it.val == Current(m) + d
  {
    hide Newlines, Step, Next, Steps, Ahead, NumberEnds, Slides, Back, Current;
    var e, j := DigitsRun(m, d, after);
    SlidesText(m, e, d);
    SlidesFields(m, e, d);
    it, r := NumberCloses(e, after);
    BackVia(m, e, r, [it], after);
    StepsThen(m, e, r, j);
    n := j + 1;
  }

  /** Over the first digits of a number, with or without a sign. */
  lemma WholeRuns(l: Lx, w: string, after: string) returns (r: Lx, n: nat)
    requires G.IsInteger(w) && AtValue(l, w + after)
    ensures Steps(l, r, n) && r.state in {NumberOrDate, Number} && Ahead(r) == after && Current(r) == w
    ensures r.state == if w[0] == '-' then Number else NumberOrDate
    ensures r == l.(pos := r.pos, width := r.width, line := r.line, state := r.state)
  {
    hide Newlines, Step, Next, Steps, Ahead, Slides, Current;
    var d := if w[0] == '-' then w[1..] else w;
    assert d[0] in d && d == [d[0]] + d[1..];
    assert forall c <- d[1..] :: c in d;
    var m, k;
    if w[0] == '-' {
      assert w == "-" + d;
      m, k := SignOpens(l, d, after);
    } else {
      m, k := NumberOpens(l, d, after);
    }
    var j;
    r, j := DigitsRun(m, d[1..], after);
    SlidesText(m, r, d[1..]);
    SlidesFields(m, r, d[1..]);
    StepsOn(l, m, r, k, j);
    n := k + j;
  }

  lemma IntIsInteger(i: int)
    ensures G.IsInteger(IntText(i))
  {
    var d := DecimalText(if i < 0 then -i else i);
    assert IsDigit(d[0]);
    assert i < 0 ==> IntText(i)[1..] == d;
  }

  // ---------- floats and dates ----------

  /** The point and the first digit behind it. */
  lemma PointRuns(l: Lx, c: char, t: string) returns (r: Lx)
    requires l.state in {NumberOrDate, Number} && IsDigit(c) && Ahead(l) == ['.'] + ([c] + t)
    ensures Steps(l, r, 2) && r.state == State.Float && Ahead(r) == t && Current(r) == Current(l) + ['.'] + [c]
    ensures r == l.(pos := r.pos, width := r.width, line := r.line, state := State.Float)
  {
    hide Newlines, Step, Next, Steps, Ahead, Slides, Current;
    Read(l, '.', [c] + t);
    var m := PointTurn(l);
    assert Ahead(m) == [c] + t by { AheadOf(m, Next(l)); }
    Read(m, c, t);
    r := FractionTurn(m);
    assert Ahead(r) == t by { AheadOf(r, Next(m)); }
    NoSteps(r);
    StepsOne(m, r, r, 0);
    StepsOne(l, m, r, 1);
    TwoMore(l, r, '.', c, t);
  }

  lemma PointTurn(l: Lx) returns (m: Lx)
    requires l.state in {NumberOrDate, Number} && Rune(l) == '.'
    ensures m == Step(l) && m == Go(Next(l), FloatStart)
  {
    hide Newlines, Next;
    m := Step(l);
  }

  lemma FractionTurn(m: Lx) returns (r: Lx)
    requires m.state == FloatStart && IsDigit(Rune(m))
    ensures r == Step(m) && r == Go(Next(m), State.Float)
  {
    hide Newlines, Next;
    r := Step(m);
  }

  lemma TwoMore(l: Lx, m: Lx, c: char, d: char, t: string)
    requires l.start == m.start && m.pos == l.pos + 2 && m.input == l.input && Ahead(l) == [c] + ([d] + t)
    ensures Current(m) == Current(l) + [c] + [d]
  {
    hide Newlines;
    assert Ahead(l)[..2] == [c] + [d];
    assert l.input[l.pos..l.pos + 2] == Ahead(l)[..2];
    assert l.input[l.start..m.pos] == l.input[l.start..l.pos] + l.input[l.pos..m.pos];
  }

  lemma FloatSplits(f: string) returns (w: string, c: char, d: string)
    requires G.IsFloat(f)
    ensures G.IsInteger(w) && IsDigit(c) && (forall c <- d :: IsDigit(c)) && f == w + ['.'] + [c] + d
  {
    hide G.IsInteger, IsDigit;
    var i :| 0 <= i < |f| && G.IsInteger(f[..i]) && f[i] == '.' && G.AllDigits(f[i + 1..]);
    w, c, d := f[..i], f[i + 1], f[i + 2..];
    assert f[i + 1..][0] == c && forall c <- d :: c in f[i + 1..];
  }

  lemma FloatLexes(l: Lx, f: string, after: string) returns (r: Lx, n: nat, it: Item)
    requires AtValue(l, f + after) && G.IsFloat(f) && NumberEnds(State.Float, after)
    ensures Steps(l, r, n) && Back(l, r, [it], after) && it.typ == ItemFloat && it.val == f
  {
    hide Newlines, Step, Next, Steps, Ahead, Slides, Current, Back, NumberEnds, IsDigit, G.IsInteger, G.IsFloat;
    var w, c, d := FloatSplits(f);
    assert f + after == w + (['.'] + ([c] + (d + after)));
    var m, a := WholeRuns(l, w, ['.'] + ([c] + (d + after)));
    var e := PointRuns(m, c, d + after);
    StepsOn(l, m, e, a, 2);
    var b;
    r, b, it := DigitsClose(e, d, after);
    StepsOn(l, e, r, a + 2, b);
    n := a + 2 + b;
    BackVia(l, e, r, [it], after);
  }

  lemma {:induction false} DateRuns(l: Lx, s: string, i: nat, after: string)
    requires i <= |DATE_FORMAT| && |s| == |DATE_FORMAT| - i && Ahead(l) == s + after && l.stack != []
    requires forall k | 0 <= k < |s| :: FitsFormat(DATE_FORMAT[i + k], s[k])
    ensures exists it: Item :: Back(l, LexDate(l, i), [it], after) && it.typ == ItemDatetime && it.val == Current(l) + s
    decreases |s|
  {
    hide Newlines, Next, Ahead, Back, Current, FitsFormat, Pop, Emit;
    if s == "" {
      assert s + after == after && Current(l) + s == Current(l);
      var it := ValueEnded(l, ItemDatetime, after);
    } else {
      assert s + after == [s[0]] + (s[1..] + after);
      Read(l, s[0], s[1..] + after);
      var m := Next(l);
      assert FitsFormat(DATE_FORMAT[i + 0], s[0]);
      assert forall k | 0 <= k < |s[1..]| :: FitsFormat(DATE_FORMAT[i + 1 + k], s[1..][k]) by {
        assert forall k | 0 <= k < |s[1..]| :: s[1..][k] == s[k + 1] && FitsFormat(DATE_FORMAT[i + (k + 1)], s[k + 1]);
      }
      DateRuns(m, s[1..], i + 1, after);
      assert LexDate(l, i) == LexDate(m, i + 1);
      var it: Item :| Back(m, LexDate(m, i + 1), [it], after) && it.typ == ItemDatetime &&
        it.val == Current(m) + s[1..];
      OneMore(l, m, s[0], s[1..] + after);
      assert Current(l) + [s[0]] + s[1..] == Current(l) + s;
      BackVia(l, m, LexDate(l, i), [it], after);
    }
  }

  lemma OneMore(l: Lx, m: Lx, c: char, t: string)
    requires l.start == m.start && m.pos == l.pos + 1 && m.input == l.input && Ahead(l) == [c] + t
    ensures Current(m) == Current(l) + [c]
  {
    hide Newlines;
    assert Ahead(l)[..1] == [c];
    assert l.input[l.pos..l.pos + 1] == Ahead(l)[..1];
    assert l.input[l.start..m.pos] == l.input[l.start..l.pos] + l.input[l.pos..m.pos];
  }

  /** The year and the dash behind it. */
  lemma YearRuns(l: Lx, y: string, t: string) returns (r: Lx, n: nat)
    requires |y| == 4 && (forall c <- y :: IsDigit(c)) && AtValue(l, y + (['-'] + t))
    ensures Steps(l, r, n) && r.state == DateAfterYear && Ahead(r) == t && Current(r) == y + ['-']
    ensures r == l.(pos := r.pos, width := r.width, line := r.line, state := DateAfterYear)
  {
    hide Newlines, Step, Next, Steps, Ahead, Slides;
    assert y[0] in y;
    var m, k;
    assert G.IsInteger(y);
    m, k := WholeRuns(l, y, ['-'] + t);
    Read(m, '-', t);
    r := DashTurn(m);
    AheadOf(r, Next(m));
    OneMore(m, r, '-', t);
    StepsThen(l, m, r, k);
    n := k + 1;
  }

  lemma DashTurn(m: Lx) returns (r: Lx)
    requires m.state == NumberOrDate && Rune(m) == '-' && m.pos - m.start == 4 && m.pos < |m.input|
    ensures r == Step(m) && r == Go(Next(m), DateAfterYear)
  {
    hide Newlines;
    r := Step(m);
  }

  lemma DateSplits(d: string)
    requires IsDate(d)
    ensures |d| == 20 && d == d[..4] + (['-'] + d[5..]) && forall c <- d[..4] :: IsDigit(c)
    ensures |d[5..]| == |DATE_FORMAT| && forall k | 0 <= k < |d[5..]| :: FitsFormat(DATE_FORMAT[k], d[5..][k])
  {
    hide FitsFormat, IsDate;
    DateFits(d);
    YearDigits(d);
    assert d == d[..4] + ([d[4]] + d[5..]);
  }

  lemma DateFits(d: string)
    requires IsDate(d)
    ensures |d| == 20 && FitsFormat('-', d[4]) && forall k | 0 <= k < 4 :: FitsFormat('0', d[k])
    ensures forall k | 0 <= k < |DATE_FORMAT| :: FitsFormat(DATE_FORMAT[k], d[k + 5])
  {
    hide FitsFormat;
    FormatSplits();
    assert FitsFormat(G.DATETIME[4], d[4]);
    forall k | 0 <= k < 4
      ensures FitsFormat('0', d[k])
    {
      assert FitsFormat(G.DATETIME[k], d[k]);
    }
    forall k | 0 <= k < |DATE_FORMAT|
      ensures FitsFormat(DATE_FORMAT[k], d[k + 5])
    {
      assert FitsFormat(G.DATETIME[k + 5], d[k + 5]);
    }
  }

  lemma YearDigits(d: string)
    requires |d| >= 5 && FitsFormat('-', d[4]) && forall k | 0 <= k < 4 :: FitsFormat('0', d[k])
    ensures d[4] == '-' && forall c <- d[..4] :: IsDigit(c)
  {
  }

  lemma FormatSplits()
    ensures |G.DATETIME| == 20 && |DATE_FORMAT| == 15
    ensures G.DATETIME[4] == '-' && forall k | 0 <= k < 4 :: G.DATETIME[k] == '0'
    ensures forall k | 0 <= k < |DATE_FORMAT| :: G.DATETIME[k + 5] == DATE_FORMAT[k]
  {
  }

  lemma DateLexes(l: Lx, d: string, after: string) returns (r: Lx, n: nat, it: Item)
    requires AtValue(l, d + after) && IsDate(d)
    ensures Steps(l, r, n) && Back(l, r, [it], after) && it.typ == ItemDatetime && it.val == d
  {
    hide Newlines, Step, Next, Steps, Ahead, Slides, Current, Back, IsDate, FitsFormat, LexDate;
    DateSplits(d);
    assert d + after == d[..4] + (['-'] + (d[5..] + after));
    var m, k := YearRuns(l, d[..4], d[5..] + after);
    DateRuns(m, d[5..], 0, after);
    r := LexDate(m, 0);
    DateTurn(m);
    it :| Back(m, r, [it], after) && it.typ == ItemDatetime && it.val == Current(m) + d[5..];
    assert d[..4] + ['-'] + d[5..] == d;
    StepsThen(l, m, r, k);
    n := k + 1;
    BackVia(l, m, r, [it], after);
  }

  lemma DateTurn(m: Lx)
    requires m.state == DateAfterYear
    ensures Step(m) == LexDate(m, 0)
  {
    hide LexDate;
  }

  lemma {:induction false} ConstRuns(l: Lx, s: string, i: nat, after: string)
    requires i <= |s| && Ahead(l) == s[i..] + after
    ensures Slides(l, LexConst(l, s, i), s[i..]) && Ahead(LexConst(l, s, i)) == after
    decreases |s| - i
  {
    hide Newlines, Next, Ahead;
    if i == |s| {
      assert s[i..] + after == after;
      Stays(l);
    } else {
      var t := s[i + 1..] + after;
      assert s[i..] + after == [s[i]] + t;
      Read(l, s[i], t);
      ConstRuns(Next(l), s, i + 1, after);
    }
  }

  function Word(b: bool): string
  {
    if b then "true" else "false"
  }

  lemma BoolOpens(l: Lx, b: bool, after: string) returns (m: Lx)
    requires AtValue(l, Word(b) + after)
    ensures m == Step(l) && m == l.(pos := m.pos, width := m.width, line := m.line, state := m.state)
    ensures m.state == (if b then State.True else State.False)
    ensures Current(m) == Word(b)[..1] && Ahead(m) == Word(b)[1..] + after
  {
    hide Newlines, Next, Ahead, Current;
    var s := Word(b);
    assert s + after == [s[0]] + (s[1..] + after);
    Read(l, s[0], s[1..] + after);
    m := Step(l);
    assert m == Go(Next(l), if b then State.True else State.False);
    AheadOf(m, Next(l));
    OneRead(l, m, s[0], s[1..] + after);
  }

  lemma BoolCloses(m: Lx, b: bool, after: string) returns (r: Lx, it: Item)
    requires m.state == (if b then State.True else State.False) && m.stack != []
    requires Current(m) == Word(b)[..1] && Ahead(m) == Word(b)[1..] + after
    ensures r == Step(m) && Back(m, r, [it], after) && it.typ == ItemBool && it.val == Word(b)
  {
    hide Newlines, LexConst, Slides, Ahead, Current, Back, Pop, Emit, Word;
    var s := Word(b);
    WordSplits(b);
    ConstRuns(m, s, 1, after);
    var e := LexConst(m, s, 1);
    SlidesText(m, e, s[1..]);
    SlidesFields(m, e, s[1..]);
    it, r := ConstCloses(e, after);
    BoolStep(m, b);
    BackVia(m, e, r, [it], after);
  }

  lemma WordSplits(b: bool)
    ensures Word(b) != "" && Word(b) == Word(b)[..1] + Word(b)[1..]
  {
  }

  lemma BoolStep(m: Lx, b: bool)
    requires m.state == (if b then State.True else State.False)
    ensures Word(b) != "" && Step(m) == Pop(Emit(LexConst(m, Word(b), 1), ItemBool))
  {
    hide LexConst, Pop, Emit;
  }

  lemma BoolLexes(l: Lx, b: bool, after: string) returns (r: Lx, n: nat, it: Item)
    requires AtValue(l, Word(b) + after)
    ensures Steps(l, r, n) && Back(l, r, [it], after) && it.typ == ItemBool && it.val == Word(b)
  {
    hide Newlines, Steps, Ahead, Current, Back, Step, Word;
    var m := BoolOpens(l, b, after);
    r, it := BoolCloses(m, b, after);
    BackVia(l, m, r, [it], after);
    NoSteps(r);
    StepsOne(m, r, r, 0);
    StepsOne(l, m, r, 1);
    n := 2;
  }

  lemma OneRead(l: Lx, m: Lx, c: char, t: string)
    requires l.start == l.pos == m.start && m.pos == l.pos + 1 && m.input == l.input && Ahead(l) == [c] + t
    ensures Current(m) == [c]
  {
    hide Newlines;
    assert Ahead(l)[..1] == [c];
    assert l.input[l.pos..l.pos + 1] == Ahead(l)[..1];
  }

  lemma ConstCloses(e: Lx, after: string) returns (it: Item, r: Lx)
    requires Ahead(e) == after && e.stack != []
    ensures r == Pop(Emit(e, ItemBool)) && it.typ == ItemBool && it.val == Current(e) && Back(e, r, [it], after)
  {
    hide Newlines;
    it := Item(ItemBool, Current(e), e.line);
    r := Pop(Emit(e, ItemBool));
  }

  // ---------- reading back ----------

  /** No error among them, and not the end. */
  predicate NoStop(its: seq<Item>) {
    forall it <- its :: it.typ != ItemError && it.typ != ItemEOF
  }

  /** Whatever follows, this is what the parser makes of these items. */
  ghost predicate Reads(its: seq<Item>, r: Regained) {
    its != [] && its[0].typ !in {ItemError, ItemEOF, ItemCommentStart, ItemArrayEnd} && NoStop(its) &&
    forall rest :: ReadAs(ParseValue(its[0], its[1..] + rest), r, rest)
  }

  predicate ReadAs(p: Result<Value>, r: Regained, rest: seq<Item>) {
    p == if r.As? then Got(r.v, rest) else Failed(r.why)
  }

  lemma OneReads(it: Item, r: Regained)
    requires it.typ !in {ItemError, ItemEOF, ItemCommentStart, ItemArrayEnd}
    requires forall rest :: ReadAs(ParseValue(it, rest), r, rest)
    ensures Reads([it], r)
  {
    hide ParseValue, ReadAs;
    forall rest
      ensures ReadAs(ParseValue([it][0], [it][1..] + rest), r, rest)
    {
      assert [it][1..] + rest == rest;
    }
  }

  lemma SameText(text: string)
    ensures ParseFloat(text).Got? ==> ParseFloat(text).value == text
    ensures ParseDate(text).Got? ==> ParseDate(text).value == text
  {
    hide Overflows, RealDate;
  }

  lemma {:induction false} DecimalReads(n: nat)
    ensures Decimal(DecimalText(n)) == n
  {
    if n >= 10 {
      DecimalReads(n / 10);
      var s := DecimalText(n);
      assert s[..|s| - 1] == DecimalText(n / 10);
    }
  }

  lemma IntParses(i: int)
    ensures ParseInt(IntText(i)) ==
            if -0x8000_0000_0000_0000 <= i < 0x8000_0000_0000_0000 then Got(i, []) else Failed(SyntaxError)
  {
    hide Decimal, DecimalText;
    var d := DecimalText(if i < 0 then -i else i);
    DecimalReads(if i < 0 then -i else i);
    assert IsDigit(d[0]);
    if i < 0 {
      assert ("-" + d)[1..] == d;
    }
  }

  /** The items from the i-th element to the closing bracket, behind `acc`. */
  ghost predicate ReadsRest(its: seq<Item>, acc: seq<Value>, r: Regained) {
    NoStop(its) && forall rest :: ReadAs(ParseArray(its + rest, acc), r, rest)
  }

  lemma EndReads(it: Item, acc: seq<Value>)
    requires it.typ == ItemArrayEnd
    ensures ReadsRest([it], acc, if Uniform(acc) then As(Array(acc)) else Lost(SyntaxError))
  {
    hide Uniform;
    forall rest
      ensures ParseArray([it] + rest, acc) == if Uniform(acc) then Got(Array(acc), rest) else Failed(SyntaxError)
    {
      assert ([it] + rest)[1..] == rest;
    }
  }

  lemma ArrayTakes(its: seq<Item>, tail: seq<Item>, acc: seq<Value>, r: Regained)
    requires Reads(its, r)
    ensures ParseArray(its + tail, acc) == if r.As? then ParseArray(tail, acc + [r.v]) else Failed(r.why)
  {
    hide Uniform, ParseValue;
    var all := its + tail;
    assert all[0] == its[0] && all[1..] == its[1..] + tail;
    assert ReadAs(ParseValue(its[0], its[1..] + tail), r, tail);
  }

  lemma LostIs(r: Regained, rest: seq<Item>)
    requires r.Lost?
    ensures ReadAs(Failed(r.why), r, rest)
  {
  }

  lemma ArrayReads(it: Item, its: seq<Item>, r: Regained)
    requires it.typ == ItemArray && ReadsRest(its, [], r)
    ensures Reads([it] + its, r)
  {
    hide ParseArray, ReadAs;
    forall rest
      ensures ReadAs(ParseValue(([it] + its)[0], ([it] + its)[1..] + rest), r, rest)
    {
      assert ([it] + its)[1..] == its;
      assert ReadAs(ParseArray(its + rest, []), r, rest);
    }
  }

  // ---------- arrays ----------

  lemma ArrayOpens(l: Lx, t: string) returns (r: Lx, it: Item)
    requires AtValue(l, "[" + t)
    ensures r == Step(l) && r.state == ArrayValue && r.start == r.pos && Ahead(r) == t
    ensures it.typ == ItemArray && r.out == l.out + [it] && r.stack == l.stack && r.input == l.input
  {
    hide Newlines, Next;
    Read(l, '[', t);
    var m := Ignore(Next(l));
    it := Item(ItemArray, Current(m), m.line);
    r := Step(l);
  }

  /** At an element of an array. */
  predicate AtElement(l: Lx, text: string) {
    l.state == ArrayValue && l.stack != [] && l.start == l.pos && Ahead(l) == text
  }

  lemma ElementOpens(l: Lx, c: char, t: string) returns (r: Lx)
    requires AtElement(l, [c] + t) && !IsWhitespace(c) && !IsNL(c) && c !in {'#', ',', ']'}
    ensures r == Step(l) && AtValue(r, [c] + t)
    ensures r.stack == l.stack + [ArrayValueEnd] && r.out == l.out && r.input == l.input
  {
    hide Newlines;
    Read(l, c, t);
    r := Step(l);
    assert Backup(Next(l)) == l.(width := 1);
  }

  /** After an element comes the closing bracket, or a comma, a blank and the next element. */
  lemma ArrayCloses(l: Lx, after: string) returns (r: Lx, n: nat, it: Item)
    requires l.state in {ArrayValue, ArrayValueEnd} && l.stack != [] && Ahead(l) == "]" + after
    ensures Steps(l, r, n) && Back(l, r, [it], after) && it.typ == ItemArrayEnd
  {
    hide Newlines, Next, Steps, Ahead;
    Read(l, ']', after);
    var m := Step(l);
    assert m == Go(Next(l), ArrayEnd);
    AheadOf(m, Next(l));
    it, r := ArrayEnded(m, after);
    BackVia(l, m, r, [it], after);
    NoSteps(r);
    StepsOne(m, r, r, 0);
    StepsOne(l, m, r, 1);
    n := 2;
  }

  lemma ArrayEnded(m: Lx, after: string) returns (it: Item, r: Lx)
    requires m.state == ArrayEnd && m.stack != [] && Ahead(m) == after
    ensures r == Step(m) && Back(m, r, [it], after) && it.typ == ItemArrayEnd
  {
    hide Newlines;
    var e := Ignore(m);
    it := Item(ItemArrayEnd, Current(e), e.line);
    r := Step(m);
  }

  lemma Comma(l: Lx, t: string) returns (m: Lx)
    requires l.state == ArrayValueEnd && Ahead(l) == [','] + t
    ensures m == Step(l) && m == l.(start := m.pos, pos := m.pos, width := 1, line := m.line, state := ArrayValue)
    ensures Ahead(m) == t
  {
    hide Newlines, Next, Ahead;
    Read(l, ',', t);
    m := Step(l);
    assert m == Go(Ignore(Next(l)), ArrayValue);
    AheadOf(m, Next(l));
  }

  lemma Blank(l: Lx, t: string) returns (m: Lx)
    requires l.state in {ArrayValue, Val} && Ahead(l) == [' '] + t
    ensures m == Step(l) && m == l.(pos := m.pos, width := 1, line := m.line, state := Skip(l.state))
    ensures Ahead(m) == t
  {
    hide Newlines, Next, Ahead;
    Read(l, ' ', t);
    m := Step(l);
    assert m == Go(Next(l), Skip(l.state));
    AheadOf(m, Next(l));
  }

  lemma Skipped(l: Lx, s: State) returns (m: Lx)
    requires l.state == Skip(s)
    ensures m == Step(l) && m == l.(start := l.pos, state := s)
  {
    hide Newlines;
    m := Step(l);
  }

  lemma IntegerBegins(s: string)
    requires G.IsInteger(s)
    ensures s != "" && (s[0] == '-' || IsDigit(s[0]))
  {
    assert s[0] in s;
  }

  lemma BackMore(l: Lx, m: Lx, r: Lx, it: Item, more: seq<Item>, after: string)
    requires Back(m, r, more, after) && m.stack == l.stack && m.input == l.input && m.out == l.out + [it]
    ensures Back(l, r, [it] + more, after)
  {
    assert l.out + [it] + more == l.out + ([it] + more);
  }

  lemma BackAppend(l: Lx, m: Lx, r: Lx, first: seq<Item>, more: seq<Item>, after: string)
    requires Back(m, r, more, after) && m.stack == l.stack && m.input == l.input && m.out == l.out + first
    ensures Back(l, r, first + more, after)
  {
    assert l.out + first + more == l.out + (first + more);
  }

  // ---------- what comes back ----------

  /** The elements before the i-th are those regained. */
  lemma {:induction false} RegainKeeps(v: Value, i: nat, acc: seq<Value>)
    requires v.Array? && i <= |v.elems|
    ensures var r := RegainFrom(v, i, acc); r.As? ==> r.v.Array? && acc <= r.v.elems
    decreases |v.elems| - i
  {
    hide Regain, Uniform;
    if i < |v.elems| && Regain(v.elems[i]).As? {
      RegainKeeps(v, i + 1, acc + [Regain(v.elems[i]).v]);
    }
  }

  lemma {:induction false} ElementsRegained(v: Value, i: nat)
    requires v.Array? && i <= |v.elems|
    ensures RegainFrom(v, i, v.elems[..i]) == As(v) <==>
            Uniform(v.elems) && forall j | i <= j < |v.elems| :: Regain(v.elems[j]) == As(v.elems[j])
    decreases |v.elems| - i
  {
    hide Regain, Uniform;
    if i == |v.elems| {
      assert v.elems[..i] == v.elems;
    } else {
      var e := Regain(v.elems[i]);
      if e == As(v.elems[i]) {
        assert v.elems[..i] + [e.v] == v.elems[..i + 1];
        ElementsRegained(v, i + 1);
      } else if e.As? {
        RegainKeeps(v, i + 1, v.elems[..i] + [e.v]);
        assert (v.elems[..i] + [e.v])[i] != v.elems[i];
      }
    }
  }

  /** Exactly the safe values come back as themselves. */
  lemma {:induction false} RegainedExactly(v: Value)
    requires Lexable(v)
    ensures Regain(v) == As(v) <==> SafeValue(v)
  {
    hide Quote, Unquote, HasEscape, ParseFloat, ParseDate, Uniform, RegainFrom;
    match v
    case Str(s) => QuoteRoundTrip(s);
    case Int(_) =>
    case Bool(_) =>
    case Float(text) => FloatKept(text);
    case Datetime(text) => DateKept(text);
    case Array(elems) =>
      assert elems[..0] == [];
      ElementsRegained(v, 0);
      forall j | 0 <= j < |elems|
        ensures Regain(elems[j]) == As(elems[j]) <==> SafeValue(elems[j])
      {
        assert elems[j] in elems;
        RegainedExactly(elems[j]);
      }
      assert (forall e <- elems :: SafeValue(e)) <==> forall j | 0 <= j < |elems| :: SafeValue(elems[j]);
  }

  lemma FloatKept(text: string)
    requires G.IsFloat(text)
    ensures ParseFloat(text).Got? <==> SafeValue(Value.Float(text))
  {
    hide Overflows, Decimal;
  }

  lemma DateKept(text: string)
    requires IsDate(text)
    ensures ParseDate(text).Got? <==> SafeValue(Value.Datetime(text))
  {
    hide RealDate;
  }
}
