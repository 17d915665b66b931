/** Values as a text may write them, in every notation the lexer knows, and what lexer and parser make of
    each (lex.go, parse.go). */
module TomlForms {
  import opened TomlTree
  import Q = TomlQuote
  import opened TomlLex
  import opened TomlItems
  import opened TomlText
  import G = TomlGrammar
  import R = TomlLexRuns
  import S = TomlLexStates

  // ---------- notation ----------

  /** What may stand between the elements of an array: white space, line ends, comments. */
  datatype Gap = White(c: char) | Note(text: string, end: char)

  /** A value as it is written: one token, or an array of values, each but the last followed by a comma. */
  datatype Form = Token(typ: ItemType, text: string) | List(elems: seq<Elem>, last: seq<Gap>)

  datatype Elem = Elem(before: seq<Gap>, form: Form, after: seq<Gap>, comma: bool)

  /** The text of a comment: it ends at a line's end, and a NUL would end it, too. */
  predicate NoteText(s: string) {
    forall c <- s :: !IsNL(c) && c != EOF
  }

  predicate IsGap(g: Gap) {
    match g
    case White(c) => IsWhitespace(c) || IsNL(c)
    case Note(text, end) => NoteText(text) && IsNL(end)
  }

  function GapText(g: Gap): string
  {
    match g
    case White(c) => [c]
    case Note(text, end) => "#" + text + [end]
  }

  predicate AreGaps(gs: seq<Gap>) {
    forall i | 0 <= i < |gs| :: IsGap(gs[i])
  }

  function GapsText(gs: seq<Gap>): string
  {
    if gs == [] then "" else GapText(gs[0]) + GapsText(gs[1..])
  }

  /** What may stand between triple quotes: never three in a row, and no quote at the end; a backslash in a
      basic string begins an escape, or hides a line's end and the character behind it. */
  predicate MultiText(q: char, s: string)
    decreases |s|
  {
    s == "" ||
    if s[0] == '\\' && q == '\"' then
      |s| >= 2 &&
      if IsNL(s[1]) then |s| >= 3 && MultiText(q, s[3..])
      else if s[1] == 'u' then |s| >= 6 && (forall i | 2 <= i < 6 :: IsHexadecimal(s[i])) && MultiText(q, s[6..])
      else IsEscape(s[1]) && MultiText(q, s[2..])
    else if s[0] == q then |s| >= 2 && !(|s| >= 3 && s[1] == q && s[2] == q) && MultiText(q, s[1..])
    else MultiText(q, s[1..])
  }

  predicate IsForm(f: Form)
    decreases f, 1
  {
    match f
    case Token(typ, text) =>
      (match typ
       case ItemString => G.StringText(text)
       case ItemRawString => G.RawText(text)
       case ItemMultilineString => MultiText('\"', text)
       case ItemRawMultilineString => MultiText('\'', text)
       case ItemBool => text in {"true", "false"}
       case ItemInteger => G.IsInteger(text)
       case ItemFloat => G.IsFloat(text)
       case ItemDatetime => IsDate(text)
       case _ => false)
    case List(elems, last) =>
      AreGaps(last) && forall i | 0 <= i < |elems| :: IsElem(elems[i]) && (i < |elems| - 1 ==> elems[i].comma)
  }

  predicate IsElem(e: Elem)
    decreases e, 0
  {
    AreGaps(e.before) && IsForm(e.form) && AreGaps(e.after)
  }

  function FormText(f: Form): string
    decreases f, 2, 0
  {
    match f
    case Token(typ, text) =>
      (match typ
       case ItemString => "\"" + text + "\""
       case ItemRawString => "'" + text + "'"
       case ItemMultilineString => "\"\"\"" + text + "\"\"\""
       case ItemRawMultilineString => "'''" + text + "'''"
       case _ => text)
    case List(_, _) => "[" + ElemsText(f, 0)
  }

  /** The elements of an array from the i-th, and the bracket that closes it. */
  function ElemsText(f: Form, i: nat): string
    requires f.List? && i <= |f.elems|
    decreases f, 1, |f.elems| - i
  {
    if i == |f.elems| then GapsText(f.last) + "]" else ElemText(f.elems[i]) + ElemsText(f, i + 1)
  }

  function ElemText(e: Elem): string
    decreases e, 0, 0
  {
    GapsText(e.before) + FormText(e.form) + GapsText(e.after) + if e.comma then "," else ""
  }

  /** What the parser makes of a value: the values of its elements in an array, which must be of one type. */
  function Meant(f: Form): Regained
    decreases f, 1, 0
  {
    match f
    case Token(typ, text) =>
      (match ParseValue(Item(typ, text, 1), [])
       case Got(v, _) => As(v)
       case Failed(why) => Lost(why))
    case List(_, _) => MeantFrom(f, 0, [])
  }

  function MeantFrom(f: Form, i: nat, acc: seq<Value>): Regained
    requires f.List? && i <= |f.elems|
    decreases f, 0, |f.elems| - i
  {
    if i == |f.elems| then if Uniform(acc) then As(Array(acc)) else Lost(SyntaxError)
    else
      var r := Meant(f.elems[i].form);
      if r.As? then MeantFrom(f, i + 1, acc + [r.v]) else r
  }

  // ---------- quotes ----------

  function Quoting(q: char): State
  {
    if q == '\"' then State.Str else State.RawStr
  }

  function Quoted(q: char): ItemType
  {
    if q == '\"' then ItemString else ItemRawString
  }

  function Tripled(q: char): State
  {
    if q == '\"' then State.MStr else State.MRawStr
  }

  function TripleQuoted(q: char): ItemType
  {
    if q == '\"' then ItemMultilineString else ItemRawMultilineString
  }

  /** One quote opens a string, unless two more follow. */
  lemma OneOpens(l: Lx, q: char, u: string) returns (m: Lx)
    requires q in {'\"', '\''} && AtValue(l, [q] + u) && u != "" && (u[0] == q ==> |u| >= 2 && u[1] != q)
    ensures m == Step(l) && m.state == Quoting(q) && m.start == m.pos && Ahead(m) == u
    ensures m.stack == l.stack && m.out == l.out && m.input == l.input
  {
    hide Newlines, Next, LexQuotes, Ahead;
    Read(l, q, u);
    m := Step(l);
    var n := Next(l);
    assert m == LexQuotes(n, q, Quoting(q), Tripled(q));
    OneQuoteIs(n, q, u);
    AheadOf(m, n);
  }

  lemma OneQuoteIs(n: Lx, q: char, u: string)
    requires q in {'\"', '\''} && n.start < n.pos && n.width == 1
    requires Ahead(n) == u && u != "" && (u[0] == q ==> |u| >= 2 && u[1] != q)
    ensures var m := LexQuotes(n, q, Quoting(q), Tripled(q));
            m == n.(start := n.pos, width := m.width, line := m.line, state := Quoting(q))
  {
    hide Newlines, Next, Backup, Accept, Ahead;
    R.AcceptMoves(n, q);
    assert u == [u[0]] + u[1..];
    Read(n, u[0], u[1..]);
    if u[0] == q {
      var a := Accept(n, q);
      AheadOf(a, Next(n));
      R.AcceptMoves(a, q);
      assert u[1..] == [u[1]] + u[2..];
      Read(a, u[1], u[2..]);
      R.Moves(Accept(a, q));
    }
  }

  /** Three quotes open a multi-line string. */
  lemma TripleOpens(l: Lx, q: char, u: string) returns (m: Lx)
    requires q in {'\"', '\''} && AtValue(l, [q, q, q] + u)
    ensures m == Step(l) && m.state == Tripled(q) && m.start == m.pos && Ahead(m) == u
    ensures m.stack == l.stack && m.out == l.out && m.input == l.input
  {
    hide Newlines, Next, LexQuotes, Ahead;
    assert [q, q, q] + u == [q] + ([q] + ([q] + u));
    Read(l, q, [q] + ([q] + u));
    m := Step(l);
    assert m == LexQuotes(Next(l), q, Quoting(q), Tripled(q));
    ThreeQuotes(Next(l), q, u);
  }

  lemma ThreeQuotes(n: Lx, q: char, u: string)
    requires q in {'\"', '\''} && n.start < n.pos && n.width == 1 && Ahead(n) == [q] + ([q] + u)
    ensures var m := LexQuotes(n, q, Quoting(q), Tripled(q));
            m == n.(start := m.pos, pos := m.pos, width := m.width, line := m.line, state := Tripled(q))
            && Ahead(m) == u
  {
    hide Newlines, Next, Backup, Accept, Ahead;
    R.AcceptMoves(n, q);
    Read(n, q, [q] + u);
    var a := Accept(n, q);
    AheadOf(a, Next(n));
    R.AcceptMoves(a, q);
    Read(a, q, u);
    AheadOf(Accept(a, q), Next(a));
    AheadOf(LexQuotes(n, q, Quoting(q), Tripled(q)), Next(a));
  }

  lemma OneCloses(l: Lx, q: char, after: string) returns (r: Lx, it: Item)
    requires q in {'\"', '\''} && l.state == Quoting(q) && l.stack != [] && Ahead(l) == [q] + after
    ensures r == Step(l) && it.typ == Quoted(q) && it.val == Current(l) && Back(l, r, [it], after)
  {
    hide Newlines;
    Read(l, q, after);
    it := Item(Quoted(q), Current(l), l.line);
    r := Step(l);
    var b := Backup(Next(l));
    assert b == l.(width := 1);
    assert Next(Emit(b, Quoted(q))).pos == l.pos + 1;
  }

  lemma TripleCloses(l: Lx, q: char, after: string) returns (r: Lx, it: Item)
    requires q in {'\"', '\''} && l.state == Tripled(q) && l.stack != [] && Ahead(l) == [q, q, q] + after
    ensures r == Step(l) && it.typ == TripleQuoted(q) && it.val == Current(l) && Back(l, r, [it], after)
  {
    hide Newlines, Next, LexTriple, Ahead, Back;
    assert [q, q, q] + after == [q] + ([q] + ([q] + after));
    Read(l, q, [q] + ([q] + after));
    r := Step(l);
    assert r == LexTriple(Next(l), q, Tripled(q), TripleQuoted(q));
    it := TripleEnds(l, q, after);
  }

  lemma TripleEnds(l: Lx, q: char, after: string) returns (it: Item)
    requires q in {'\"', '\''} && l.state == Tripled(q) && l.stack != [] && Ahead(l) == [q] + ([q] + ([q] + after))
    requires Next(l) == l.(pos := l.pos + 1, width := 1, line := Next(l).line)
    ensures it.typ == TripleQuoted(q) && it.val == Current(l)
    ensures Back(l, LexTriple(Next(l), q, Tripled(q), TripleQuoted(q)), [it], after)
  {
    hide Newlines, Next, Backup, Accept, Ahead, EndTriple;
    Read(l, q, [q] + ([q] + after));
    var n := Next(l);
    Read(n, q, [q] + after);
    R.AcceptMoves(n, q);
    var a := Accept(n, q);
    AheadOf(a, Next(n));
    Read(a, q, after);
    R.AcceptMoves(a, q);
    var e := Accept(a, q);
    AheadOf(e, Next(a));
    it := TripleBack(l, e, TripleQuoted(q), after);
  }

  /** Three characters back the text is sent, and three forward the value is left. */
  lemma TripleBack(l: Lx, e: Lx, typ: ItemType, after: string) returns (it: Item)
    requires l.stack != [] && e == l.(pos := l.pos + 3, width := 1, line := e.line) && Ahead(e) == after
    ensures it.typ == typ && it.val == Current(l) && Back(l, EndTriple(e, typ), [it], after)
  {
    hide Newlines;
    it := Item(typ, Current(l), l.line);
    var b := Backup(Backup(Backup(e)));
    assert b == l.(width := 1);
    assert Next(Next(Next(Emit(b, typ)))).pos == l.pos + 3;
  }

  // ---------- the texts of strings ----------

  /** The state behind a backslash, and behind its u. */
  function Escaping(s: State): State
  {
    if s == State.Str then StrEscape else MStrEscape
  }

  function Counting(s: State): State
  {
    if s == State.Str then StrUnicode else MStrUnicode
  }

  predicate InBasic(l: Lx) {
    l.state == State.Str || l.state == State.MStr
  }

  lemma PlainRuns(l: Lx, c: char, t: string) returns (m: Lx)
    requires l.state in {State.Str, State.MStr, State.RawStr, State.MRawStr} && Ahead(l) == [c] + t
    requires InBasic(l) ==> c != '\\' && c != '\"'
    requires !InBasic(l) ==> c != '\''
    requires l.state in {State.Str, State.RawStr} ==> !IsNL(c)
    ensures m == Step(l) && Slides(l, m, [c]) && Ahead(m) == t
  {
    hide Newlines, Next, Ahead;
    Read(l, c, t);
    m := Step(l);
    assert m == Next(l);
  }

  lemma BackslashTurn(l: Lx, t: string) returns (m: Lx)
    requires InBasic(l) && Ahead(l) == ['\\'] + t
    ensures m == Step(l) && m == l.(pos := m.pos, width := m.width, line := m.line, state := Escaping(l.state))
    ensures Ahead(m) == t
  {
    hide Newlines, Next, Ahead;
    Read(l, '\\', t);
    m := Step(l);
    assert m == Go(Next(l), Escaping(l.state));
    AheadOf(m, Next(l));
  }

  lemma EscapedTurn(m: Lx, s: State, c: char, t: string) returns (r: Lx)
    requires s in {State.Str, State.MStr} && m.state == Escaping(s) && Ahead(m) == [c] + t && (IsEscape(c) || c == 'u')
    ensures r == Step(m) && Ahead(r) == t
    ensures r == m.(pos := r.pos, width := r.width, line := r.line, state := if c == 'u' then Counting(s) else s)
  {
    hide Newlines, Next, Backup, Ahead;
    Read(m, c, t);
    r := Step(m);
    R.Moves(m);
    R.Moves(Next(m));
    var b := Backup(Next(m));
    AheadOf(b, m);
    Read(b, c, t);
    AheadOf(r, if s == State.Str then Next(m) else Next(b));
  }

  /** A backslash and the letter behind it. */
  lemma EscapeRuns(l: Lx, c: char, t: string) returns (r: Lx)
    requires InBasic(l) && Ahead(l) == ['\\', c] + t && IsEscape(c)
    ensures Steps(l, r, 2) && Slides(l, r, ['\\', c]) && Ahead(r) == t
  {
    hide Newlines, Step, Next, Ahead, Steps;
    assert ['\\', c] + t == ['\\'] + ([c] + t);
    var m := BackslashTurn(l, [c] + t);
    r := EscapedTurn(m, l.state, c, t);
    NoSteps(r);
    StepsOne(m, r, r, 0);
    StepsOne(l, m, r, 1);
  }

  lemma {:induction false} CodeRuns(l: Lx, h: string, i: nat, t: string, next: State)
    requires i <= 4 && |h| == 4 - i && (forall c <- h :: IsHexadecimal(c)) && Ahead(l) == h + t
    ensures var r := LexUnicode(l, i, next);
            Ahead(r) == t && r == l.(pos := r.pos, width := r.width, line := r.line, state := next)
    decreases |h|
  {
    hide Newlines, Next, Ahead;
    if h == "" {
      assert h + t == t;
      AheadOf(LexUnicode(l, i, next), l);
    } else {
      assert h + t == [h[0]] + (h[1..] + t);
      assert IsHexadecimal(h[0]) && forall c <- h[1..] :: c in h;
      Read(l, h[0], h[1..] + t);
      CodeRuns(Next(l), h[1..], i + 1, t, next);
    }
  }

  /** A backslash, a u and four digits. */
  lemma UnicodeRuns(l: Lx, h: string, t: string) returns (r: Lx)
    requires InBasic(l) && |h| == 4 && (forall c <- h :: IsHexadecimal(c)) && Ahead(l) == "\\u" + h + t
    ensures Steps(l, r, 3) && Slides(l, r, "\\u" + h) && Ahead(r) == t
  {
    hide Newlines, Step, Next, Ahead, Steps, LexUnicode, IsHexadecimal, Slides;
    assert "\\u" + h + t == ['\\'] + (['u'] + (h + t));
    var m := BackslashTurn(l, ['u'] + (h + t));
    var e := EscapedTurn(m, l.state, 'u', h + t);
    CodeRuns(e, h, 0, t, l.state);
    r := CodeTurn(e, l.state);
    NoSteps(r);
    StepsOne(e, r, r, 0);
    StepsOne(m, e, r, 1);
    StepsOne(l, m, r, 2);
    SlidesIs(l, r, "\\u" + h);
  }

  lemma CodeTurn(e: Lx, s: State) returns (r: Lx)
    requires s in {State.Str, State.MStr} && e.state == Counting(s)
    ensures r == Step(e) == LexUnicode(e, 0, s)
  {
    hide Newlines, LexUnicode;
    r := Step(e);
  }

  lemma SlidesIs(l: Lx, r: Lx, s: string)
    requires r == l.(pos := r.pos, width := r.width, line := r.line) && Ahead(l) == s + Ahead(r)
    ensures Slides(l, r, s)
  {
  }

  /** A backslash at a line's end; the character behind the line's end goes, too. */
  lemma FoldRuns(l: Lx, c: char, d: char, t: string) returns (r: Lx)
    requires l.state == State.MStr && IsNL(c) && Ahead(l) == ['\\', c, d] + t
    ensures Steps(l, r, 2) && Slides(l, r, ['\\', c, d]) && Ahead(r) == t
  {
    hide Newlines, Next, Ahead, Steps;
    assert ['\\', c, d] + t == ['\\'] + ([c] + ([d] + t));
    var m := BackslashTurn(l, [c] + ([d] + t));
    Read(m, c, [d] + t);
    Read(Next(m), d, t);
    r := Step(m);
    assert r == Go(Next(Next(m)), State.MStr);
    AheadOf(r, Next(Next(m)));
    NoSteps(r);
    StepsOne(m, r, r, 0);
    StepsOne(l, m, r, 1);
  }

  /** A quote that does not close. */
  lemma QuoteInside(l: Lx, q: char, t: string) returns (r: Lx)
    requires q in {'\"', '\''} && l.state == Tripled(q) && Ahead(l) == [q] + t
    requires t != "" && (t[0] == q ==> |t| >= 2 && t[1] != q)
    ensures r == Step(l) && Slides(l, r, [q]) && Ahead(r) == t
  {
    hide Newlines, Next, LexTriple, Ahead;
    Read(l, q, t);
    r := Step(l);
    assert r == LexTriple(Next(l), q, Tripled(q), TripleQuoted(q));
    NoTriple(Next(l), q, t);
    AheadOf(r, Next(l));
  }

  lemma NoTriple(n: Lx, q: char, t: string)
    requires q in {'\"', '\''} && n.start < n.pos && n.width == 1
    requires Ahead(n) == t && t != "" && (t[0] == q ==> |t| >= 2 && t[1] != q)
    ensures var r := LexTriple(n, q, Tripled(q), TripleQuoted(q));
            r == n.(pos := n.pos, width := r.width, line := r.line, state := Tripled(q))
  {
    hide Newlines, Next, Backup, Accept, Ahead, EndTriple;
    assert t == [t[0]] + t[1..];
    Read(n, t[0], t[1..]);
    R.AcceptMoves(n, q);
    if t[0] == q {
      var a := Accept(n, q);
      AheadOf(a, Next(n));
      assert t[1..] == [t[1]] + t[2..];
      Read(a, t[1], t[2..]);
      R.AcceptMoves(a, q);
      BackOne(a, q);
    }
  }

  lemma BackOne(a: Lx, q: char)
    requires a.start + 1 < a.pos < |a.input| && Rune(a) != q && q != EOF
    ensures var b := Backup(Accept(a, q)); b == a.(pos := a.pos - 1, width := b.width, line := b.line)
  {
    hide Newlines;
  }

  /** One more piece of a text that is being run over. */
  lemma More(l: Lx, m: Lx, r: Lx, k: nat, n: nat, s: string, t: string)
    requires Steps(l, m, k) && Slides(l, m, s) && Steps(m, r, n) && Slides(m, r, t)
    ensures Steps(l, r, k + n) && Slides(l, r, s + t)
  {
    hide Step, Steps, Slides;
    StepsOn(l, m, r, k, n);
    SlidesOn(l, m, r, s, t);
  }

  lemma OneTurn(l: Lx, m: Lx)
    requires l.state != Nil && m == Step(l)
    ensures Steps(l, m, 1)
  {
    NoSteps(m);
    StepsOne(l, m, m, 0);
  }

  lemma {:induction false} TextRuns(l: Lx, s: string, after: string) returns (r: Lx, n: nat)
    requires l.state == State.Str && G.StringText(s) && Ahead(l) == s + after
    ensures Steps(l, r, n) && Slides(l, r, s) && Ahead(r) == after
    decreases |s|
  {
    hide Newlines, Step, Next, Ahead, Steps, Slides;
    if s == "" {
      r, n := l, 0;
      NoSteps(l);
      Stays(l);
      assert s + after == after;
    } else {
      var k, p, m := TextPiece(l, s, after);
      var j;
      r, j := TextRuns(m, s[p..], after);
      More(l, m, r, k, j, s[..p], s[p..]);
      n := k + j;
      SlidesSame(m, r, s[p..]);
      assert s[..p] + s[p..] == s;
    }
  }

  lemma SlidesSame(l: Lx, r: Lx, s: string)
    requires Slides(l, r, s)
    ensures r.state == l.state
  {
  }

  /** The first character of a basic string, or its first escape. */
  lemma TextPiece(l: Lx, s: string, after: string) returns (k: nat, p: nat, m: Lx)
    requires l.state == State.Str && s != "" && G.StringText(s) && Ahead(l) == s + after
    ensures 0 < p <= |s| && Steps(l, m, k) && Slides(l, m, s[..p]) && Ahead(m) == s[p..] + after && m.state == State.Str
    ensures G.StringText(s[p..])
  {
    hide Newlines, Step, Next, Ahead, Steps, IsHexadecimal, IsEscape, IsNL;
    if s[0] == '\\' && s[1] == 'u' {
      k, p := 3, 6;
      SixSplits(s, after);
      m := UnicodeRuns(l, s[2..6], s[6..] + after);
    } else if s[0] == '\\' {
      k, p := 2, 2;
      assert s + after == ['\\', s[1]] + (s[2..] + after) && s[..2] == ['\\', s[1]];
      m := EscapeRuns(l, s[1], s[2..] + after);
    } else {
      k, p := 1, 1;
      assert s + after == [s[0]] + (s[1..] + after) && s[..1] == [s[0]];
      m := PlainRuns(l, s[0], s[1..] + after);
      OneTurn(l, m);
    }
  }

  lemma SixSplits(s: string, after: string)
    requires |s| >= 6 && s[0] == '\\' && s[1] == 'u' && forall i | 2 <= i < 6 :: IsHexadecimal(s[i])
    ensures s + after == "\\u" + s[2..6] + (s[6..] + after) && s[..6] == "\\u" + s[2..6]
    ensures forall c <- s[2..6] :: IsHexadecimal(c)
  {
    hide IsHexadecimal;
  }

  lemma {:induction false} RawRuns(l: Lx, s: string, after: string) returns (r: Lx, n: nat)
    requires l.state == State.RawStr && G.RawText(s) && Ahead(l) == s + after
    ensures Steps(l, r, n) && Slides(l, r, s) && Ahead(r) == after
    decreases |s|
  {
    hide Newlines, Step, Next, Ahead, Steps, Slides, IsNL;
    if s == "" {
      r, n := l, 0;
      NoSteps(l);
      Stays(l);
      assert s + after == after;
    } else {
      assert s + after == [s[0]] + (s[1..] + after);
      assert s[0] in s && forall c <- s[1..] :: c in s;
      var m := PlainRuns(l, s[0], s[1..] + after);
      OneTurn(l, m);
      SlidesSame(l, m, [s[0]]);
      var j;
      r, j := RawRuns(m, s[1..], after);
      More(l, m, r, 1, j, [s[0]], s[1..]);
      n := 1 + j;
      assert [s[0]] + s[1..] == s;
    }
  }

  lemma {:induction false} MultiRuns(l: Lx, q: char, s: string, after: string) returns (r: Lx, n: nat)
    requires q in {'\"', '\''} && l.state == Tripled(q) && MultiText(q, s) && Ahead(l) == s + after
    requires |after| >= 3 && after[0] == q
    ensures Steps(l, r, n) && Slides(l, r, s) && Ahead(r) == after
    decreases |s|
  {
    hide Newlines, Step, Next, Ahead, Steps, Slides, MultiText;
    if s == "" {
      r, n := l, 0;
      NoSteps(l);
      Stays(l);
      assert s + after == after;
    } else {
      var k, p, m := MultiPiece(l, q, s, after);
      var j;
      r, j := MultiRuns(m, q, s[p..], after);
      More(l, m, r, k, j, s[..p], s[p..]);
      n := k + j;
      assert s[..p] + s[p..] == s;
    }
  }

  lemma MultiPiece(l: Lx, q: char, s: string, after: string) returns (k: nat, p: nat, m: Lx)
    requires q in {'\"', '\''} && l.state == Tripled(q) && s != "" && MultiText(q, s) && Ahead(l) == s + after
    requires |after| >= 3 && after[0] == q
    ensures 0 < p <= |s| && Steps(l, m, k) && Slides(l, m, s[..p]) && Ahead(m) == s[p..] + after
    ensures m.state == Tripled(q)
    ensures MultiText(q, s[p..])
  {
    hide Newlines, Step, Next, Ahead, Steps, IsHexadecimal, IsEscape, IsNL;
    if s[0] == '\\' && q == '\"' {
      if IsNL(s[1]) {
        k, p := 2, 3;
        assert s + after == ['\\', s[1], s[2]] + (s[3..] + after) && s[..3] == ['\\', s[1], s[2]];
        m := FoldRuns(l, s[1], s[2], s[3..] + after);
      } else if s[1] == 'u' {
        k, p := 3, 6;
        SixSplits(s, after);
        m := UnicodeRuns(l, s[2..6], s[6..] + after);
      } else {
        k, p := 2, 2;
        assert s + after == ['\\', s[1]] + (s[2..] + after) && s[..2] == ['\\', s[1]];
        m := EscapeRuns(l, s[1], s[2..] + after);
      }
    } else {
      k, p := 1, 1;
      assert s + after == [s[0]] + (s[1..] + after) && s[..1] == [s[0]];
      if s[0] == q {
        QuoteAlone(q, s, after);
        m := QuoteInside(l, q, s[1..] + after);
      } else {
        m := PlainRuns(l, s[0], s[1..] + after);
      }
      OneTurn(l, m);
    }
  }

  lemma QuoteAlone(q: char, s: string, after: string)
    requires q in {'\"', '\''} && s != "" && s[0] == q && MultiText(q, s) && |after| >= 3 && after[0] == q
    ensures var t := s[1..] + after; t != "" && (t[0] == q ==> |t| >= 2 && t[1] != q)
  {
    hide IsHexadecimal, IsEscape, IsNL;
    assert !MultiText(q, [q]);
    if |s| == 2 {
      assert s[1..] == [s[1]];
    }
  }

  // ---------- one token ----------

  lemma QuotedLexes(l: Lx, q: char, s: string, after: string) returns (r: Lx, n: nat, it: Item)
    requires q in {'\"', '\''} && (if q == '\"' then G.StringText(s) else G.RawText(s))
    requires AtValue(l, [q] + s + [q] + after) && (s == "" ==> after != "" && after[0] != q)
    ensures Steps(l, r, n) && Back(l, r, [it], after) && it.typ == Quoted(q) && it.val == s
  {
    hide Newlines, Step, Next, Ahead, Steps, Slides, Back, G.StringText, Current;
    var u := s + ([q] + after);
    assert [q] + s + [q] + after == [q] + u;
    FirstUnquoted(q, s);
    var m := OneOpens(l, q, u);
    OneTurn(l, m);
    var e, k;
    if q == '\"' {
      e, k := TextRuns(m, s, [q] + after);
    } else {
      e, k := RawRuns(m, s, [q] + after);
    }
    SlidesText(m, e, s);
    SlidesFields(m, e, s);
    NothingYet(m);
    StepsOn(l, m, e, 1, k);
    r, it := OneCloses(e, q, after);
    StepsThen(l, e, r, 1 + k);
    n := k + 2;
    assert "" + s == s;
    BackVia(l, e, r, [it], after);
  }

  lemma NothingYet(m: Lx)
    requires m.start == m.pos
    ensures Current(m) == ""
  {
  }

  lemma FirstUnquoted(q: char, s: string)
    requires if q == '\"' then G.StringText(s) else G.RawText(s)
    requires q in {'\"', '\''}
    ensures s != "" ==> s[0] != q
  {
    assert s != "" ==> s[0] in s;
  }

  lemma TripledLexes(l: Lx, q: char, s: string, after: string) returns (r: Lx, n: nat, it: Item)
    requires q in {'\"', '\''} && MultiText(q, s) && AtValue(l, [q, q, q] + s + [q, q, q] + after)
    ensures Steps(l, r, n) && Back(l, r, [it], after) && it.typ == TripleQuoted(q) && it.val == s
  {
    hide Newlines, Step, Next, Ahead, Steps, Slides, Back, MultiText, Current;
    var u := s + ([q, q, q] + after);
    assert [q, q, q] + s + [q, q, q] + after == [q, q, q] + u;
    var m := TripleOpens(l, q, u);
    OneTurn(l, m);
    var e, k := MultiRuns(m, q, s, [q, q, q] + after);
    SlidesText(m, e, s);
    SlidesFields(m, e, s);
    NothingYet(m);
    StepsOn(l, m, e, 1, k);
    r, it := TripleCloses(e, q, after);
    StepsThen(l, e, r, 1 + k);
    n := k + 2;
    assert "" + s == s;
    BackVia(l, e, r, [it], after);
  }

  lemma IntegerLexes(l: Lx, s: string, after: string) returns (r: Lx, n: nat, it: Item)
    requires AtValue(l, s + after) && G.IsInteger(s) && NumberEnds(if s[0] == '-' then Number else NumberOrDate, after)
    ensures Steps(l, r, n) && Back(l, r, [it], after) && it.typ == ItemInteger && it.val == s
  {
    hide Newlines, Step, Next, Steps, Ahead, Back, Current;
    var m, k := WholeRuns(l, s, after);
    it, r := NumberCloses(m, after);
    StepsThen(l, m, r, k);
    n := k + 1;
    BackVia(l, m, r, [it], after);
  }

  /** One token is one item, of its type and with its text. */
  lemma TokenLexes(l: Lx, f: Form, after: string) returns (r: Lx, n: nat, it: Item)
    requires f.Token? && IsForm(f) && AtValue(l, FormText(f) + after) && Ends(after)
    ensures Steps(l, r, n) && Back(l, r, [it], after) && it.typ == f.typ && it.val == f.text
  {
    hide Newlines, Step, Next, Steps, Ahead, Back, Current, G.StringText, MultiText, G.IsFloat, IsDate, G.IsInteger;
    match f.typ {
      case ItemString => r, n, it := QuotedLexes(l, '\"', f.text, after);
      case ItemRawString => r, n, it := QuotedLexes(l, '\'', f.text, after);
      case ItemMultilineString => r, n, it := TripledLexes(l, '\"', f.text, after);
      case ItemRawMultilineString => r, n, it := TripledLexes(l, '\'', f.text, after);
      case ItemBool => r, n, it := BoolLexes(l, f.text == "true", after);
      case ItemInteger => r, n, it := IntegerLexes(l, f.text, after);
      case ItemFloat => r, n, it := FloatLexes(l, f.text, after);
      case ItemDatetime => r, n, it := DateLexes(l, f.text, after);
    }
  }

  lemma TokenReads(f: Form, it: Item)
    requires f.Token? && IsForm(f) && it.typ == f.typ && it.val == f.text
    ensures Reads([it], Meant(f))
  {
    hide Q.Unquote, ParseInt, ParseFloat, ParseDate, StripFirstNewline, StripEscapedWhitespace, G.StringText, MultiText,
      G.IsFloat, IsDate, G.IsInteger, G.RawText;
    forall rest
      ensures ReadAs(ParseValue(it, rest), Meant(f), rest)
    {
    }
    OneReads(it, Meant(f));
  }

  // ---------- comments and white space ----------

  /** A comment is two items. */
  predicate IsNote(its: seq<Item>) {
    |its| == 2 && its[0].typ == ItemCommentStart && its[1].typ == ItemText
  }

  predicate Inside(l: Lx, text: string) {
    l.state in {ArrayValue, ArrayValueEnd} && l.stack != [] && l.start == l.pos && Ahead(l) == text
  }

  /** Where the lexer goes on behind a comment. */
  function Resumed(s: State): State
  {
    if s == TopEnd then Top else s
  }

  lemma NoteOpens(l: Lx, t: string) returns (r: Lx, it: Item)
    requires l.state in {Top, TopEnd, ArrayValue, ArrayValueEnd} && Ahead(l) == ['#'] + t
    ensures Steps(l, r, 2) && r.state == Comment && r.start == r.pos && Ahead(r) == t
    ensures r.stack == l.stack + [Resumed(l.state)] && r.input == l.input && r.out == l.out + [it]
    ensures it.typ == ItemCommentStart
  {
    hide Newlines, Next, Steps, Ahead;
    Read(l, '#', t);
    var m := Step(l);
    assert m == Go(Push(Next(l), Resumed(l.state)), CommentStart);
    AheadOf(m, Next(l));
    it := Item(ItemCommentStart, Current(Ignore(m)), m.line);
    r := Step(m);
    AheadOf(r, m);
    OneTurn(m, r);
    StepsOne(l, m, r, 1);
  }

  lemma {:induction false} NoteRuns(l: Lx, s: string, after: string) returns (r: Lx, n: nat)
    requires l.state == Comment && NoteText(s) && Ahead(l) == s + after
    ensures Steps(l, r, n) && Slides(l, r, s) && Ahead(r) == after
    decreases |s|
  {
    hide Newlines, Step, Next, Ahead, Steps, Slides, IsNL;
    if s == "" {
      r, n := l, 0;
      NoSteps(l);
      Stays(l);
      assert s + after == after;
    } else {
      assert s + after == [s[0]] + (s[1..] + after);
      assert s[0] in s && forall c <- s[1..] :: c in s;
      var m := NoteChar(l, s[0], s[1..] + after);
      OneTurn(l, m);
      SlidesSame(l, m, [s[0]]);
      var j;
      r, j := NoteRuns(m, s[1..], after);
      More(l, m, r, 1, j, [s[0]], s[1..]);
      n := 1 + j;
      assert [s[0]] + s[1..] == s;
    }
  }

  lemma NoteChar(l: Lx, c: char, t: string) returns (m: Lx)
    requires l.state == Comment && Ahead(l) == [c] + t && !IsNL(c) && c != EOF
    ensures m == Step(l) && Slides(l, m, [c]) && Ahead(m) == t
  {
    hide Newlines;
    Read(l, c, t);
    S.PeekSame(l);
    m := Step(l);
  }

  lemma NoteCloses(l: Lx, end: char, t: string) returns (r: Lx, it: Item)
    requires l.state == Comment && l.stack != [] && Ahead(l) == [end] + t && (IsNL(end) || end == EOF)
    ensures r == Step(l) && Back(l, r, [it], [end] + t) && it.typ == ItemText
  {
    hide Newlines, Ahead;
    Read(l, end, t);
    S.PeekSame(l);
    var p := Peek(l);
    it := Item(ItemText, Current(p), p.line);
    r := Step(l);
    AheadOf(r, l);
  }

  /** A comment: two items, and the state it interrupted. */
  lemma NoteLexes(l: Lx, s: string, end: char, t: string) returns (r: Lx, n: nat, its: seq<Item>)
    requires l.state in {Top, TopEnd, ArrayValue, ArrayValueEnd} && NoteText(s) && (IsNL(end) || end == EOF)
    requires Ahead(l) == "#" + s + ([end] + t)
    ensures Steps(l, r, n) && r.state == Resumed(l.state) && r.stack == l.stack && r.start == r.pos
    ensures Ahead(r) == [end] + t && r.input == l.input && r.out == l.out + its && IsNote(its)
  {
    hide Newlines, Step, Next, Ahead, Steps, Slides, NoteText, IsNL;
    assert "#" + s + ([end] + t) == ['#'] + (s + ([end] + t));
    var m, first := NoteOpens(l, s + ([end] + t));
    var e, k := NoteRuns(m, s, [end] + t);
    SlidesFields(m, e, s);
    StepsOn(l, m, e, 2, k);
    var last;
    r, last := NoteCloses(e, end, t);
    StepsThen(l, e, r, 2 + k);
    n := k + 3;
    its := [first, last];
    assert l.out + [first] + [last] == l.out + its;
    assert (l.stack + [Resumed(l.state)])[..|l.stack|] == l.stack;
  }

  lemma WhiteRuns(l: Lx, c: char, t: string) returns (r: Lx)
    requires l.state in {Top, ArrayValue, ArrayValueEnd} && (IsWhitespace(c) || IsNL(c)) && Ahead(l) == [c] + t
    ensures Steps(l, r, 2) && r.state == l.state && r.stack == l.stack && r.start == r.pos
    ensures Ahead(r) == t && r.input == l.input && r.out == l.out
  {
    hide Newlines, Next, Steps, Ahead;
    Read(l, c, t);
    var m := Step(l);
    assert m == Go(Next(l), Skip(l.state));
    AheadOf(m, Next(l));
    r := Skipped(m, l.state);
    AheadOf(r, m);
    OneTurn(m, r);
    StepsOne(l, m, r, 1);
  }

  /** Comments among the items of an array are passed over. */
  ghost predicate PassedOver(its: seq<Item>) {
    NoStop(its) && forall rest, acc :: ParseArray(its + rest, acc) == ParseArray(rest, acc)
  }

  lemma NothingPassed()
    ensures PassedOver([])
  {
    hide ParseArray;
    forall rest: seq<Item>, acc
      ensures ParseArray([] + rest, acc) == ParseArray(rest, acc)
    {
      assert [] + rest == rest;
    }
  }

  lemma NotePassed(its: seq<Item>, more: seq<Item>)
    requires IsNote(its) && PassedOver(more)
    ensures PassedOver(its + more)
  {
    hide ParseArray;
    assert forall it <- its + more :: it in its || it in more;
    forall rest, acc
      ensures ParseArray(its + more + rest, acc) == ParseArray(rest, acc)
    {
      NoteSkipped(its, more + rest, acc);
      assert its + more + rest == its + (more + rest);
    }
  }

  lemma NoteSkipped(its: seq<Item>, rest: seq<Item>, acc: seq<Value>)
    requires IsNote(its)
    ensures ParseArray(its + rest, acc) == ParseArray(rest, acc)
  {
    hide ParseValue;
    var all := its + rest;
    assert all[0] == its[0] && all[1..][0] == its[1] && all[1..][1..] == rest;
  }

  lemma GapLexes(l: Lx, g: Gap, after: string) returns (r: Lx, n: nat, its: seq<Item>)
    requires IsGap(g) && Inside(l, GapText(g) + after)
    ensures Steps(l, r, n) && Inside(r, after) && r.state == l.state && r.stack == l.stack && r.input == l.input
    ensures r.out == l.out + its && (its == [] || IsNote(its))
  {
    hide Newlines, Step, Next, Ahead, Steps, NoteText;
    match g {
      case White(c) =>
        r := WhiteRuns(l, c, after);
        n, its := 2, [];
      case Note(text, end) =>
        assert GapText(g) + after == "#" + text + ([end] + after);
        var m, k;
        m, k, its := NoteLexes(l, text, end, after);
        r := WhiteRuns(m, end, after);
        StepsOn(l, m, r, k, 2);
        n := k + 2;
    }
  }

  lemma {:induction false} GapsLex(l: Lx, gs: seq<Gap>, after: string) returns (r: Lx, n: nat, its: seq<Item>)
    requires AreGaps(gs) && Inside(l, GapsText(gs) + after)
    ensures Steps(l, r, n) && Inside(r, after) && r.state == l.state && r.stack == l.stack && r.input == l.input
    ensures r.out == l.out + its && PassedOver(its)
    decreases |gs|
  {
    hide Newlines, Step, Next, Ahead, Steps, IsGap, GapText, PassedOver, Inside;
    if gs == [] {
      r, n, its := l, 0, [];
      NoSteps(l);
      NothingPassed();
      assert GapsText(gs) + after == after && l.out + [] == l.out;
    } else {
      assert GapsText(gs) + after == GapText(gs[0]) + (GapsText(gs[1..]) + after);
      var m, k, first := GapLexes(l, gs[0], GapsText(gs[1..]) + after);
      var j, more;
      r, j, more := GapsLex(m, gs[1..], after);
      StepsOn(l, m, r, k, j);
      n := k + j;
      its := first + more;
      assert l.out + first + more == l.out + its;
      if first == [] {
        assert its == more;
      } else {
        NotePassed(first, more);
      }
    }
  }

  lemma PassedReads(its: seq<Item>, more: seq<Item>, acc: seq<Value>, r: Regained)
    requires PassedOver(its) && ReadsRest(more, acc, r)
    ensures ReadsRest(its + more, acc, r)
  {
    hide ParseArray, ReadAs;
    assert forall it <- its + more :: it in its || it in more;
    forall rest
      ensures ReadAs(ParseArray(its + more + rest, acc), r, rest)
    {
      assert its + more + rest == its + (more + rest);
      assert ReadAs(ParseArray(more + rest, acc), r, rest);
    }
  }

  // ---------- values ----------

  /** No value begins like something else an array may hold. */
  lemma FormBegins(f: Form)
    requires IsForm(f)
    ensures var s := FormText(f); s != "" && !IsWhitespace(s[0]) && !IsNL(s[0]) && s[0] !in {'#', ',', ']'}
  {
    hide G.StringText, MultiText, G.RawText, FitsFormat, G.IsInteger;
    if f.Token? {
      match f.typ {
        case ItemInteger => IntegerBegins(f.text);
        case ItemFloat =>
          var w, c, d := FloatSplits(f.text);
          IntegerBegins(w);
          assert f.text[0] == w[0];
        case ItemDatetime =>
          DateSplits(f.text);
          assert f.text[0] in f.text[..4];
        case _ =>
      }
    }
  }

  lemma GapEnds(g: Gap)
    requires IsGap(g)
    ensures GapText(g) != "" && GapText(g)[0] in {'\n', '\r', '\t', ' ', '#'}
  {
  }

  /** What follows a value in an array ends it. */
  lemma GapsEnd(gs: seq<Gap>, after: string)
    requires AreGaps(gs) && (gs == [] ==> Ends(after))
    ensures Ends(GapsText(gs) + after)
  {
    hide IsGap, GapText;
    if gs == [] {
      assert GapsText(gs) + after == after;
    } else {
      GapEnds(gs[0]);
      assert (GapsText(gs) + after)[0] == GapText(gs[0])[0];
    }
  }

  /** What the lexer sends for a value, the parser makes of it what is meant. */
  lemma {:induction false} FormLexes(l: Lx, f: Form, after: string) returns (r: Lx, n: nat, its: seq<Item>)
    requires IsForm(f) && AtValue(l, FormText(f) + after) && Ends(after)
    ensures Steps(l, r, n) && Back(l, r, its, after) && Reads(its, Meant(f))
    decreases f, 2, 0
  {
    hide Newlines, Steps, Back, Reads, Step, ReadsRest, Ahead, ElemsText, MeantFrom, ParseValue, IsForm, Ends;
    if f.Token? {
      var it;
      r, n, it := TokenLexes(l, f, after);
      TokenReads(f, it);
      its := [it];
    } else {
      assert FormText(f) + after == "[" + (ElemsText(f, 0) + after);
      var m, it := ArrayOpens(l, ElemsText(f, 0) + after);
      var k, more;
      r, k, more := ElemsLex(m, f, 0, [], after);
      StepsOne(l, m, r, k);
      n := k + 1;
      its := [it] + more;
      ArrayReads(it, more, MeantFrom(f, 0, []));
      BackMore(l, m, r, it, more, after);
    }
  }

  /** The elements from the i-th, when `acc` is what came of those before it. */
  lemma {:induction false} ElemsLex(l: Lx, f: Form, i: nat, acc: seq<Value>, after: string)
    returns (r: Lx, n: nat, its: seq<Item>)
    requires f.List? && IsForm(f) && i <= |f.elems| && Inside(l, ElemsText(f, i) + after)
    requires i < |f.elems| ==> l.state == ArrayValue
    ensures Steps(l, r, n) && Back(l, r, its, after) && ReadsRest(its, acc, MeantFrom(f, i, acc))
    decreases f, 1, |f.elems| - i
  {
    hide Newlines, Steps, Back, Reads, Step, ReadsRest, Ahead, Uniform, Meant, PassedOver, GapsText, ElemText, AreGaps,
      IsElem, Inside;
    if i == |f.elems| {
      r, n, its := ListEnds(l, f.last, acc, after);
    } else {
      var e := f.elems[i];
      assert ElemsText(f, i) + after == ElemText(e) + (ElemsText(f, i + 1) + after);
      if !e.comma { TextEnds(f, i + 1, after); }
      var m, k, first := ElemLexes(l, e, ElemsText(f, i + 1) + after);
      var acc' := acc + [if Meant(e.form).As? then Meant(e.form).v else Value.Int(0)];
      var more, j;
      r, j, more := ElemsLex(m, f, i + 1, acc', after);
      StepsOn(l, m, r, k, j);
      n := k + j;
      its := first + more;
      ElemReads(first, more, acc, Meant(e.form), MeantFrom(f, i, acc), acc', MeantFrom(f, i + 1, acc'));
      BackAppend(l, m, r, first, more, after);
    }
  }

  lemma ListEnds(l: Lx, gs: seq<Gap>, acc: seq<Value>, after: string) returns (r: Lx, n: nat, its: seq<Item>)
    requires AreGaps(gs) && Inside(l, GapsText(gs) + "]" + after)
    ensures Steps(l, r, n) && Back(l, r, its, after)
    ensures ReadsRest(its, acc, if Uniform(acc) then As(Array(acc)) else Lost(SyntaxError))
  {
    hide Newlines, Steps, Back, Step, ReadsRest, Ahead, Uniform, PassedOver, GapsText, AreGaps;
    assert GapsText(gs) + "]" + after == GapsText(gs) + ("]" + after);
    var m, k, notes := GapsLex(l, gs, "]" + after);
    var j, it;
    r, j, it := ArrayCloses(m, after);
    StepsOn(l, m, r, k, j);
    n := k + j;
    its := notes + [it];
    EndReads(it, acc);
    PassedReads(notes, [it], acc, if Uniform(acc) then As(Array(acc)) else Lost(SyntaxError));
    BackAppend(l, m, r, notes, [it], after);
  }

  /** Items of one element, with comments around it. */
  ghost predicate ReadsElem(its: seq<Item>, e: Regained) {
    NoStop(its) && forall rest, acc :: ElemAs(its, e, rest, acc)
  }

  lemma ElemReads(its: seq<Item>, more: seq<Item>, acc: seq<Value>, e: Regained, r: Regained, acc': seq<Value>,
        r': Regained)
    requires ReadsElem(its, e) && ReadsRest(more, acc', r')
    requires if e.As? then acc' == acc + [e.v] && r == r' else r == e
    ensures ReadsRest(its + more, acc, r)
  {
    hide ParseArray, ReadAs;
    assert forall it <- its + more :: it in its || it in more;
    forall rest
      ensures ReadAs(ParseArray(its + more + rest, acc), r, rest)
    {
      assert its + more + rest == its + (more + rest);
      assert ReadAs(ParseArray(more + rest, acc'), r', rest);
      assert ElemAs(its, e, more + rest, acc);
      if e.Lost? {
        LostIs(e, rest);
      }
    }
  }

  lemma AroundReads(a: seq<Item>, its: seq<Item>, b: seq<Item>, e: Regained)
    requires PassedOver(a) && Reads(its, e) && PassedOver(b)
    ensures ReadsElem(a + its + b, e)
  {
    hide PassedOver, Reads;
    var all := a + its + b;
    AroundPlain(a, its, b, e);
    forall rest: seq<Item>, acc: seq<Value>
      ensures ElemAs(all, e, rest, acc)
    {
      AroundTakes(a, its, b, e, rest, acc);
    }
  }

  predicate ElemAs(its: seq<Item>, e: Regained, rest: seq<Item>, acc: seq<Value>) {
    ParseArray(its + rest, acc) == if e.As? then ParseArray(rest, acc + [e.v]) else Failed(e.why)
  }

  lemma AroundPlain(a: seq<Item>, its: seq<Item>, b: seq<Item>, e: Regained)
    requires PassedOver(a) && Reads(its, e) && PassedOver(b)
    ensures NoStop(a + its + b)
  {
    hide ParseArray, ParseValue;
    assert forall it <- a + its + b :: it in a || it in its || it in b;
  }

  lemma AroundTakes(a: seq<Item>, its: seq<Item>, b: seq<Item>, e: Regained, rest: seq<Item>, acc: seq<Value>)
    requires PassedOver(a) && Reads(its, e) && PassedOver(b)
    ensures ElemAs(a + its + b, e, rest, acc)
  {
    hide ParseArray, Reads;
    assert a + its + b + rest == a + (its + (b + rest));
    ArrayTakes(its, b + rest, acc, e);
  }

  /** Something comes behind every element. */
  lemma TextEnds(f: Form, i: nat, after: string)
    requires f.List? && IsForm(f) && 0 < i <= |f.elems| && !f.elems[i - 1].comma
    ensures i == |f.elems| && Ends(ElemsText(f, i) + after)
  {
    GapsEnd(f.last, "]" + after);
    assert GapsText(f.last) + ("]" + after) == GapsText(f.last) + "]" + after;
  }

  /** One element, what is around it, and its comma. */
  lemma {:induction false} ElemLexes(l: Lx, e: Elem, after: string)
    returns (m: Lx, n: nat, its: seq<Item>)
    requires IsElem(e) && l.state == ArrayValue && Inside(l, ElemText(e) + after) && (e.comma || Ends(after))
    ensures Steps(l, m, n) && Inside(m, after) && m.state == (if e.comma then ArrayValue else ArrayValueEnd)
    ensures m.stack == l.stack && m.input == l.input && m.out == l.out + its && ReadsElem(its, Meant(e.form))
    decreases e, 3
  {
    hide Newlines, Steps, Back, Reads, Step, Ahead, Meant, PassedOver, GapsText, FormText, AreGaps, IsForm, ReadsElem,
      Ends;
    var comma := if e.comma then "," else "";
    var behind := GapsText(e.after) + (comma + after);
    assert ElemText(e) + after == GapsText(e.before) + (FormText(e.form) + behind);
    var a, k, notes := GapsLex(l, e.before, FormText(e.form) + behind);
    CommaEnds(e.after, comma, after);
    var b, j, value := ValueInside(a, e.form, behind);
    StepsOn(l, a, b, k, j);
    var c, x, more := GapsLex(b, e.after, comma + after);
    StepsOn(l, b, c, k + j, x);
    n := k + j + x;
    its := notes + value + more;
    AroundReads(notes, value, more, Meant(e.form));
    assert l.out + notes + value + more == l.out + its;
    if e.comma {
      m := CommaRuns(c, after);
      StepsThen(l, c, m, n);
      n := n + 1;
    } else {
      assert comma + after == after;
      m := c;
    }
  }

  lemma CommaEnds(gs: seq<Gap>, comma: string, after: string)
    requires AreGaps(gs) && (comma == "," || (comma == "" && Ends(after)))
    ensures Ends(GapsText(gs) + (comma + after))
  {
    hide AreGaps, GapsText;
    assert comma == "" ==> comma + after == after;
    GapsEnd(gs, comma + after);
  }

  lemma CommaRuns(l: Lx, t: string) returns (m: Lx)
    requires l.state == ArrayValueEnd && Inside(l, "," + t)
    ensures m == Step(l) && m.state == ArrayValue && Inside(m, t)
    ensures m.stack == l.stack && m.out == l.out && m.input == l.input
  {
    hide Newlines, Step, Ahead;
    assert "," + t == [','] + t;
    m := Comma(l, t);
    assert m.stack == l.stack && m.start == m.pos;
  }

  lemma {:induction false} ValueInside(l: Lx, f: Form, after: string) returns (m: Lx, n: nat, its: seq<Item>)
    requires IsForm(f) && l.state == ArrayValue && Inside(l, FormText(f) + after) && Ends(after)
    ensures Steps(l, m, n) && Inside(m, after) && m.state == ArrayValueEnd && m.stack == l.stack && m.input == l.input
    ensures m.out == l.out + its && Reads(its, Meant(f))
    decreases f, 3
  {
    hide Newlines, Steps, Reads, Step, Ahead, Meant, FormText, IsForm, Ends;
    FormBegins(f);
    var s := FormText(f);
    assert s + after == [s[0]] + (s[1..] + after);
    var a := ElementOpens(l, s[0], s[1..] + after);
    var k;
    m, k, its := FormLexes(a, f, after);
    StepsOne(l, a, m, k);
    n := k + 1;
  }
}
