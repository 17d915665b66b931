/** Whole texts as they may be written: statements with comments, blanks and line ends around them, and what
    lexer and parser make of them (lex.go, parse.go). */
module TomlWritten {
  import opened Options
  import opened TomlTree
  import opened TomlContext
  import opened TomlItems
  import opened TomlText
  import opened TomlForms
  import L = TomlLex
  import S = TomlLexStates
  import R = TomlLexRuns
  import G = TomlGrammar

  // ---------- notation ----------

  /** A header, or a key as it is written up to the equals sign, blanks, and a value. */
  datatype Stmt = Head(isArray: bool, key: Key) | Assign(raw: string, gap: string, form: Form)

  /** A blank or an empty line's end; a comment and its line's end; a statement, blanks behind it, perhaps a
      comment, and its line's end, for which a NUL will do, too. */
  datatype Line =
    | Blank(c: char)
    | Remark(text: string, end: char)
    | Statement(stmt: Stmt, pad: string, note: Option<string>, end: char)

  predicate Blanks(s: string) {
    forall c <- s :: L.IsWhitespace(c)
  }

  /** What may stand for a key: no equals sign, number sign or line end in it, and nothing else in front that
      begins something else. */
  predicate IsKeyText(s: string) {
    s != "" && G.KeyName(s) && !L.IsWhitespace(s[0]) && s[0] != '[' && s[0] != L.EOF
  }

  predicate IsStmt(s: Stmt) {
    match s
    case Head(isArray, key) =>
      key != [] && (forall i | 0 <= i < |key| :: G.NamePiece(key[i])) && (isArray || key[0][0] != '[')
    case Assign(raw, gap, form) => IsKeyText(raw) && Blanks(gap) && IsForm(form)
  }

  predicate IsLine(line: Line) {
    match line
    case Blank(c) => L.IsWhitespace(c) || L.IsNL(c)
    case Remark(text, end) => NoteText(text) && L.IsNL(end)
    case Statement(stmt, pad, note, end) =>
      IsStmt(stmt) && Blanks(pad) && (L.IsNL(end) || (note.None? && end == L.EOF))
      && (note.Some? ==> NoteText(note.value))
  }

  predicate AreLines(lines: seq<Line>) {
    forall i | 0 <= i < |lines| :: IsLine(lines[i])
  }

  function Opening(isArray: bool): string
  {
    if isArray then "[[" else "["
  }

  function Closing(isArray: bool): string
  {
    if isArray then "]" else ""
  }

  function StmtText(s: Stmt): string
  {
    match s
    case Head(isArray, key) => Opening(isArray) + Join(key) + "]" + Closing(isArray)
    case Assign(raw, gap, form) => raw + "=" + gap + FormText(form)
  }

  function NoteOf(note: Option<string>): string
  {
    if note.Some? then "#" + note.value else ""
  }

  function LineOf(line: Line): string
  {
    match line
    case Blank(c) => [c]
    case Remark(text, end) => "#" + text + [end]
    case Statement(stmt, pad, note, end) => StmtText(stmt) + pad + NoteOf(note) + [end]
  }

  function TextOf(lines: seq<Line>): string
  {
    if lines == [] then "" else LineOf(lines[0]) + TextOf(lines[1..])
  }

  function HeaderOf(isArray: bool, key: Key): Event
  {
    if isArray then ArrayHeader(key) else Header(key)
  }

  /** What the parser makes of a statement: an event, or a failure. */
  function EventOf(s: Stmt): (r: Result<Event>)
    requires IsStmt(s)
    ensures r.Got? ==> Named(r.value) && r.rest == []
  {
    match s
    case Head(isArray, key) => Got(HeaderOf(isArray, key), [])
    case Assign(raw, _, form) =>
      if Meant(form).As? then Got(KeyVal(L.TrimSpace(raw), Meant(form).v), []) else Failed(Meant(form).why)
  }

  /** How the parse of written lines ends: the events of the statements go to the tables, the rest has no
      effect. */
  function EndOf(st: State, lines: seq<Line>): Ending
    requires AreLines(lines)
    decreases |lines|
  {
    if lines == [] then Parsed(st)
    else if !lines[0].Statement? then EndOf(st, lines[1..])
    else
      match EventOf(lines[0].stmt)
      case Failed(why) => Stopped(why)
      case Got(ev, _) =>
        match Step(st, ev)
        case Done(st') => EndOf(st', lines[1..])
        case ParseError => TableError
        case Fatal => TableBug
  }

  // ---------- table names ----------

  /** The lexer runs over the rest of a name piece. */
  lemma {:induction false} PieceRuns(l: L.Lx, s: string, after: string) returns (r: L.Lx, n: nat)
    requires l.state == L.TableName && (forall c <- s :: c !in "[]." && c != L.EOF) && Ahead(l) == s + after
    ensures Steps(l, r, n) && Slides(l, r, s) && Ahead(r) == after
    decreases |s|
  {
    hide L.Newlines, L.Next, Ahead, Steps;
    if s == "" {
      r, n := l, 0;
      Stays(l);
      NoSteps(l);
      assert s + after == after;
    } else {
      var t := s[1..] + after;
      assert s + after == [s[0]] + t;
      assert s[0] in s;
      Read(l, s[0], t);
      var m := PieceChar(l, s[0], t);
      assert forall c <- s[1..] :: c in s;
      var k: nat;
      r, k := PieceRuns(m, s[1..], after);
      StepsOne(l, m, r, k);
      n := k + 1;
      assert s + Ahead(r) == s + after;
    }
  }

  lemma PieceChar(l: L.Lx, c: char, t: string) returns (m: L.Lx)
    requires l.state == L.TableName && Ahead(l) == [c] + t && c !in "[]." && c != L.EOF
    ensures m == L.Step(l) && m == L.Next(l)
  {
    hide L.Newlines;
    Read(l, c, t);
    S.PeekSame(l);
    m := L.Step(l);
  }

  /** One piece, up to the separator or the bracket behind it. */
  lemma PieceLexes(l: L.Lx, s: string, after: string) returns (r: L.Lx, n: nat)
    requires l.state == L.TableNameStart && l.start == l.pos && G.NamePiece(s) && Ahead(l) == s + after
    ensures Steps(l, r, n) && Ahead(r) == after && L.Current(r) == s
    ensures r == l.(pos := r.pos, width := r.width, line := r.line, state := L.TableName)
  {
    hide L.Newlines, L.Next, Ahead, Steps, L.Current;
    var t := s[1..] + after;
    assert s + after == [s[0]] + t;
    assert s[0] in s;
    Read(l, s[0], t);
    var m := L.Step(l);
    assert m == L.Go(L.Next(l), L.TableName);
    AheadOf(m, L.Next(l));
    OneRead(l, m, s[0], t);
    assert forall i | 0 <= i < |s[1..]| :: s[1..][i] == s[i + 1];
    var k: nat;
    r, k := PieceRuns(m, s[1..], after);
    SlidesText(m, r, s[1..]);
    SlidesFields(m, r, s[1..]);
    assert s == [s[0]] + s[1..];
    StepsOne(l, m, r, k);
    n := k + 1;
  }

  predicate Names(its: seq<L.Item>, key: Key) {
    |its| == |key| && forall i | 0 <= i < |its| :: its[i].typ == L.ItemText && its[i].val == key[i]
  }

  lemma PieceSeparated(l: L.Lx, t: string) returns (r: L.Lx, it: L.Item)
    requires l.state == L.TableName && Ahead(l) == ['.'] + t
    ensures r == L.Step(l) && r.state == L.TableNameStart && r.start == r.pos && Ahead(r) == t
    ensures r.stack == l.stack && r.input == l.input && r.out == l.out + [it] && it.typ == L.ItemText
    ensures it.val == L.Current(l)
  {
    hide L.Newlines;
    Read(l, '.', t);
    S.PeekSame(l);
    var p := L.Peek(l);
    it := L.Item(L.ItemText, L.Current(p), p.line);
    r := L.Step(l);
  }

  lemma PieceEnded(l: L.Lx, t: string) returns (r: L.Lx, it: L.Item)
    requires l.state == L.TableName && Ahead(l) == [']'] + t && l.stack != []
    ensures r == L.Step(l) && r.state == l.stack[|l.stack| - 1] && r.stack == l.stack[..|l.stack| - 1] && Ahead(r) == t
    ensures r.input == l.input && r.out == l.out + [it] && it.typ == L.ItemText && it.val == L.Current(l)
  {
    hide L.Newlines;
    Read(l, ']', t);
    S.PeekSame(l);
    var p := L.Peek(l);
    it := L.Item(L.ItemText, L.Current(p), p.line);
    r := L.Step(l);
  }

  lemma JoinSplits(key: Key)
    requires key != []
    ensures Join(key) == if |key| == 1 then key[0] else key[0] + "." + Join(key[1..])
  {
  }

  lemma {:induction false} NameLexes(l: L.Lx, key: Key, after: string) returns (r: L.Lx, n: nat, its: seq<L.Item>)
    requires key != [] && forall i | 0 <= i < |key| :: G.NamePiece(key[i])
    requires l.state == L.TableNameStart && l.start == l.pos && l.stack != [] && Ahead(l) == Join(key) + "]" + after
    ensures Steps(l, r, n) && r.state == l.stack[|l.stack| - 1] && r.stack == l.stack[..|l.stack| - 1]
    ensures Ahead(r) == after
    ensures r.input == l.input && r.out == l.out + its && Names(its, key)
    decreases |key|
  {
    hide L.Newlines, L.Step, Steps, Ahead, Join, G.NamePiece, L.Current, Names;
    JoinSplits(key);
    if |key| == 1 {
      assert Join(key) + "]" + after == key[0] + ([']'] + after);
      var it;
      r, n, it := LastPiece(l, key[0], after);
      its := [it];
      OneName(it, key);
    } else {
      var t := Join(key[1..]) + "]" + after;
      assert Join(key) + "]" + after == key[0] + (['.'] + t);
      var e, k, it := FirstPiece(l, key[0], t);
      var j, more;
      r, j, more := NameLexes(e, key[1..], after);
      StepsOn(l, e, r, k, j);
      n := k + j;
      its := [it] + more;
      MoreNames(it, more, key);
      assert l.out + [it] + more == l.out + its;
    }
  }

  lemma OneName(it: L.Item, key: Key)
    requires |key| == 1 && it.typ == L.ItemText && it.val == key[0]
    ensures Names([it], key)
  {
  }

  lemma MoreNames(it: L.Item, more: seq<L.Item>, key: Key)
    requires key != [] && it.typ == L.ItemText && it.val == key[0] && Names(more, key[1..])
    ensures Names([it] + more, key)
  {
  }

  lemma LastPiece(l: L.Lx, s: string, after: string) returns (r: L.Lx, n: nat, it: L.Item)
    requires l.state == L.TableNameStart && l.start == l.pos && l.stack != [] && G.NamePiece(s)
    requires Ahead(l) == s + ([']'] + after)
    ensures Steps(l, r, n) && r.state == l.stack[|l.stack| - 1] && r.stack == l.stack[..|l.stack| - 1]
    ensures Ahead(r) == after && r.input == l.input && r.out == l.out + [it] && it.typ == L.ItemText && it.val == s
  {
    hide L.Newlines, L.Step, Steps, Ahead, G.NamePiece, L.Current;
    var m, k := PieceLexes(l, s, [']'] + after);
    r, it := PieceEnded(m, after);
    StepsThen(l, m, r, k);
    n := k + 1;
  }

  lemma FirstPiece(l: L.Lx, s: string, t: string) returns (r: L.Lx, n: nat, it: L.Item)
    requires l.state == L.TableNameStart && l.start == l.pos && G.NamePiece(s) && Ahead(l) == s + (['.'] + t)
    ensures Steps(l, r, n) && r.state == L.TableNameStart && r.start == r.pos && r.stack == l.stack
    ensures Ahead(r) == t && r.input == l.input && r.out == l.out + [it] && it.typ == L.ItemText && it.val == s
  {
    hide L.Newlines, L.Step, Steps, Ahead, G.NamePiece, L.Current;
    var m, k := PieceLexes(l, s, ['.'] + t);
    r, it := PieceSeparated(m, t);
    StepsThen(l, m, r, k);
    n := k + 1;
  }

  lemma {:induction false} NamesRead(key: Key, its: seq<L.Item>, end: L.Item, rest: seq<L.Item>, acc: Key)
    requires Names(its, key) && end.typ in {L.ItemTableEnd, L.ItemArrayTableEnd}
    ensures ParseName(acc, end.typ, its + [end] + rest) == Got(acc + key, rest)
    decreases |key|
  {
    var all := its + [end] + rest;
    if key == [] {
      assert all[0] == end && all[1..] == rest && acc + key == acc;
    } else {
      assert all[0] == its[0] && all[1..] == its[1..] + [end] + rest;
      NamesRead(key[1..], its[1..], end, rest, acc + [key[0]]);
      assert acc + [key[0]] + key[1..] == acc + key;
    }
  }

  // ---------- headers ----------

  /** The lexer is at the top level, in front of `text`. */
  predicate AtTop(l: L.Lx, text: string) {
    l.state == L.Top && l.stack == [] && l.start == l.pos && Ahead(l) == text
  }

  /** Or behind a statement. */
  predicate AtTopEnd(l: L.Lx, text: string) {
    l.state == L.TopEnd && l.stack == [] && Ahead(l) == text
  }

  lemma HeaderOpens(l: L.Lx, isArray: bool, c: char, t: string) returns (r: L.Lx, n: nat, it: L.Item)
    requires AtTop(l, Opening(isArray) + ([c] + t)) && (isArray || c != '[')
    ensures Steps(l, r, n) && r.state == L.TableNameStart && r.start == r.pos && Ahead(r) == [c] + t
    ensures r.stack == [if isArray then L.ArrayTableEnd else L.TableEnd] && r.input == l.input
    ensures r.out == l.out + [it] && it.typ == if isArray then L.ItemArrayTableStart else L.ItemTableStart
  {
    hide L.Newlines, Steps, Ahead, L.Next;
    var u := (if isArray then "[" else "") + ([c] + t);
    assert Opening(isArray) + ([c] + t) == ['['] + u;
    Read(l, '[', u);
    var m := L.Step(l);
    assert m == L.Go(L.Next(l), L.TableStart);
    AheadOf(m, L.Next(l));
    r, it := HeaderStarts(m, isArray, c, t);
    NoSteps(r);
    StepsOne(m, r, r, 0);
    StepsOne(l, m, r, 1);
    n := 2;
  }

  lemma HeaderStarts(m: L.Lx, isArray: bool, c: char, t: string) returns (r: L.Lx, it: L.Item)
    requires m.state == L.TableStart && m.stack == [] && (isArray || c != '[')
    requires Ahead(m) == (if isArray then "[" else "") + ([c] + t)
    ensures r == L.Step(m) && r.state == L.TableNameStart && r.start == r.pos && Ahead(r) == [c] + t
    ensures r.stack == [if isArray then L.ArrayTableEnd else L.TableEnd] && r.input == m.input
    ensures r.out == m.out + [it] && it.typ == if isArray then L.ItemArrayTableStart else L.ItemTableStart
  {
    hide L.Newlines;
    if isArray {
      r, it := ArrayHeaderStarts(m, [c] + t);
    } else {
      assert Ahead(m) == [c] + t;
      r, it := TableHeaderStarts(m, c, t);
    }
  }

  lemma ArrayHeaderStarts(m: L.Lx, t: string) returns (r: L.Lx, it: L.Item)
    requires m.state == L.TableStart && m.stack == [] && Ahead(m) == "[" + t
    ensures r == L.Step(m) && r.state == L.TableNameStart && r.start == r.pos && Ahead(r) == t
    ensures r.stack == [L.ArrayTableEnd] && r.input == m.input
    ensures r.out == m.out + [it] && it.typ == L.ItemArrayTableStart
  {
    hide L.Newlines;
    S.PeekSame(m);
    Read(m, '[', t);
    var p := L.Next(L.Peek(m));
    it := L.Item(L.ItemArrayTableStart, L.Current(p), p.line);
    r := L.Step(m);
  }

  lemma TableHeaderStarts(m: L.Lx, c: char, t: string) returns (r: L.Lx, it: L.Item)
    requires m.state == L.TableStart && m.stack == [] && c != '[' && Ahead(m) == [c] + t
    ensures r == L.Step(m) && r.state == L.TableNameStart && r.start == r.pos && Ahead(r) == [c] + t
    ensures r.stack == [L.TableEnd] && r.input == m.input
    ensures r.out == m.out + [it] && it.typ == L.ItemTableStart
  {
    hide L.Newlines;
    S.PeekSame(m);
    Read(m, c, t);
    var p := L.Peek(m);
    it := L.Item(L.ItemTableStart, L.Current(p), p.line);
    r := L.Step(m);
  }

  lemma HeaderEnds(l: L.Lx, isArray: bool, t: string) returns (r: L.Lx, it: L.Item)
    requires l.state == (if isArray then L.ArrayTableEnd else L.TableEnd) && l.stack == []
    requires Ahead(l) == Closing(isArray) + t
    ensures r == L.Step(l) && r.state == L.TopEnd && r.stack == [] && Ahead(r) == t && r.input == l.input
    ensures r.out == l.out + [it] && it.typ == if isArray then L.ItemArrayTableEnd else L.ItemTableEnd
  {
    hide L.Newlines;
    if isArray {
      Read(l, ']', t);
    } else {
      assert Ahead(l) == t;
    }
    var p := if isArray then L.Next(l) else l;
    it := L.Item(if isArray then L.ItemArrayTableEnd else L.ItemTableEnd, L.Current(p), p.line);
    r := L.Step(l);
  }

  /** Whatever follows, the parser makes that of these items. */
  ghost predicate ReadsEvent(its: seq<L.Item>, r: Result<Event>)
    requires r.Got? ==> Named(r.value)
  {
    its != [] && NoStop(its) && its[0].typ != L.ItemCommentStart &&
    forall rest :: EventAs(ParseEvent(its[0], its[1..] + rest), r, rest)
  }

  predicate EventAs(p: Result<Option<Event>>, r: Result<Event>, rest: seq<L.Item>)
    requires r.Got? ==> Named(r.value)
  {
    p == if r.Got? then Got(Some(r.value), rest) else Failed(r.why)
  }

  lemma HeaderReads(first: L.Item, names: seq<L.Item>, last: L.Item, isArray: bool, key: Key)
    requires key != [] && Names(names, key)
    requires first.typ == if isArray then L.ItemArrayTableStart else L.ItemTableStart
    requires last.typ == if isArray then L.ItemArrayTableEnd else L.ItemTableEnd
    ensures ReadsEvent([first] + names + [last], Got(HeaderOf(isArray, key), []))
  {
    hide ParseName;
    var its := [first] + names + [last];
    assert forall it <- its :: it == first || it in names || it == last;
    forall rest
      ensures EventAs(ParseEvent(its[0], its[1..] + rest), Got(HeaderOf(isArray, key), []), rest)
    {
      var all := its[1..] + rest;
      assert all[0] == names[0] && all[1..] == names[1..] + [last] + rest;
      NamesRead(key[1..], names[1..], last, rest, [key[0]]);
      assert [key[0]] + key[1..] == key;
    }
  }

  lemma JoinBegins(key: Key)
    requires key != [] && key[0] != ""
    ensures Join(key) != "" && Join(key)[0] == key[0][0]
  {
  }

  /** The text of a header, cut behind its opening brackets. */
  lemma HeaderText(isArray: bool, key: Key, t: string)
    requires Join(key) != ""
    ensures var j, tail := Join(key), Closing(isArray) + t;
            StmtText(Head(isArray, key)) + t == Opening(isArray) + ([j[0]] + (j[1..] + "]" + tail)) &&
            [j[0]] + (j[1..] + "]" + tail) == j + "]" + tail
  {
    hide Join;
    var j, tail := Join(key), Closing(isArray) + t;
    assert j == [j[0]] + j[1..];
    assert [j[0]] + (j[1..] + "]" + tail) == j + "]" + tail;
    assert Opening(isArray) + j + "]" + Closing(isArray) + t == Opening(isArray) + (j + "]" + tail);
  }

  /** A header is read as that header. */
  lemma HeaderLexes(l: L.Lx, isArray: bool, key: Key, t: string) returns (r: L.Lx, n: nat, its: seq<L.Item>)
    requires IsStmt(Head(isArray, key)) && AtTop(l, StmtText(Head(isArray, key)) + t)
    ensures Steps(l, r, n) && AtTopEnd(r, t) && r.input == l.input && r.out == l.out + its
    ensures ReadsEvent(its, Got(HeaderOf(isArray, key), []))
  {
    hide L.Newlines, L.Step, Steps, Ahead, Join, G.NamePiece, ReadsEvent, StmtText, Names, AtTop;
    var j, tail := Join(key), Closing(isArray) + t;
    FirstCharacter(key);
    JoinBegins(key);
    HeaderText(isArray, key, t);
    var m, a, first := HeaderOpens(l, isArray, j[0], j[1..] + "]" + tail);
    var e, b, names := NameLexes(m, key, tail);
    StepsOn(l, m, e, a, b);
    var last;
    r, last := HeaderEnds(e, isArray, t);
    StepsThen(l, e, r, a + b);
    n, its := a + b + 1, [first] + names + [last];
    HeaderReads(first, names, last, isArray, key);
    SentInTurn(l.out, first, names, last);
  }

  lemma SentInTurn(out: seq<L.Item>, first: L.Item, names: seq<L.Item>, last: L.Item)
    ensures out + [first] + names + [last] == out + ([first] + names + [last])
  {
  }

  lemma FirstCharacter(key: Key)
    requires key != [] && forall i | 0 <= i < |key| :: G.NamePiece(key[i])
    ensures key[0] != ""
  {
    assert G.NamePiece(key[0]);
  }

  // ---------- keys ----------

  lemma {:induction false} KeyRuns(l: L.Lx, s: string, after: string) returns (r: L.Lx, n: nat)
    requires l.state == L.State.Key && G.KeyName(s) && Ahead(l) == s + after
    ensures Steps(l, r, n) && Slides(l, r, s) && Ahead(r) == after
    decreases |s|
  {
    hide L.Newlines, L.Next, Ahead, Steps;
    if s == "" {
      r, n := l, 0;
      Stays(l);
      NoSteps(l);
      assert s + after == after;
    } else {
      var t := s[1..] + after;
      assert s + after == [s[0]] + t;
      assert s[0] in s;
      Read(l, s[0], t);
      var m := KeyChar(l, s[0], t);
      assert forall c <- s[1..] :: c in s;
      var k: nat;
      r, k := KeyRuns(m, s[1..], after);
      StepsOne(l, m, r, k);
      n := k + 1;
      assert s + Ahead(r) == s + after;
    }
  }

  lemma KeyChar(l: L.Lx, c: char, t: string) returns (m: L.Lx)
    requires l.state == L.State.Key && Ahead(l) == [c] + t && c != '=' && c != '#' && !L.IsNL(c)
    ensures m == L.Step(l) && m == L.Next(l)
  {
    hide L.Newlines;
    Read(l, c, t);
    S.PeekSame(l);
    m := L.Step(l);
  }

  lemma KeyOpens(l: L.Lx, c: char, t: string) returns (r: L.Lx, n: nat, it: L.Item)
    requires AtTop(l, [c] + t) && !L.IsWhitespace(c) && !L.IsNL(c) && c !in {'#', '[', '='} && c != L.EOF
    ensures Steps(l, r, n) && r.state == L.State.Key && Ahead(r) == t && L.Current(r) == [c]
    ensures r.stack == [L.TopEnd] && r.input == l.input && r.out == l.out + [it] && it.typ == L.ItemKeyStart
  {
    hide L.Newlines, Steps, L.Next, L.Backup, Ahead, L.Current;
    Read(l, c, t);
    R.Moves(L.Next(l));
    var m := L.Step(l);
    assert m == L.Go(L.Push(L.Backup(L.Next(l)), L.TopEnd), L.KeyStart);
    AheadOf(m, l);
    r, it := KeyStarts(m, c, t);
    NoSteps(r);
    StepsOne(m, r, r, 0);
    StepsOne(l, m, r, 1);
    n := 2;
  }

  lemma KeyStarts(m: L.Lx, c: char, t: string) returns (r: L.Lx, it: L.Item)
    requires m.state == L.KeyStart && Ahead(m) == [c] + t && !L.IsWhitespace(c) && !L.IsNL(c) && c != '='
    requires m.start == m.pos
    ensures r == L.Step(m) && r.state == L.State.Key && Ahead(r) == t && L.Current(r) == [c]
    ensures r.stack == m.stack && r.input == m.input && r.out == m.out + [it] && it.typ == L.ItemKeyStart
  {
    hide L.Newlines;
    Read(m, c, t);
    S.PeekSame(m);
    var p := L.Ignore(L.Peek(m));
    it := L.Item(L.ItemKeyStart, L.Current(p), p.line);
    r := L.Step(m);
    assert r.input[r.start..r.pos] == [c];
  }

  lemma {:induction false} TrimmedName(s: string)
    requires SafeName(s)
    ensures L.TrimSpace(s + " ") == s
  {
    assert (s + " ")[0] == s[0] && (s + " ")[..|s|] == s;
  }

  /** The equals sign ends the name; blanks behind it are dropped. */
  lemma KeyEnds(l: L.Lx, gap: string, t: string) returns (r: L.Lx, n: nat, it: L.Item)
    requires l.state == L.State.Key && l.stack != [] && Blanks(gap) && Ahead(l) == ['='] + (gap + t)
    ensures Steps(l, r, n) && AtValue(r, t) && r.stack == l.stack && r.input == l.input
    ensures r.out == l.out + [it] && it.typ == L.ItemText && it.val == L.TrimSpace(L.Current(l))
  {
    hide L.Newlines, Steps, L.Next, Ahead, L.TrimSpace, L.Current, L.Step, Blanks;
    var a;
    a, it := KeyStops(l, gap + t);
    var b := Equals(a, gap + t);
    var c := Skipped(b, L.Val);
    AheadOf(c, b);
    var k;
    r, k := GapRuns(c, gap, t);
    StepsOne(b, c, r, k);
    StepsOne(a, b, r, k + 1);
    StepsOne(l, a, r, k + 2);
    n := k + 3;
  }

  /** Blanks in front of a value. */
  lemma {:induction false} GapRuns(l: L.Lx, gap: string, t: string) returns (r: L.Lx, n: nat)
    requires Blanks(gap) && AtValue(l, gap + t)
    ensures Steps(l, r, n) && AtValue(r, t) && r.stack == l.stack && r.input == l.input && r.out == l.out
    decreases |gap|
  {
    hide L.Newlines, L.Step, Ahead, Steps;
    if gap == "" {
      r, n := l, 0;
      assert gap + t == t;
      NoSteps(l);
    } else {
      assert gap + t == [gap[0]] + (gap[1..] + t);
      assert gap[0] in gap && forall c <- gap[1..] :: c in gap;
      var m := GapChar(l, gap[0], gap[1..] + t);
      var e := Skipped(m, L.Val);
      AheadOf(e, m);
      var k;
      r, k := GapRuns(e, gap[1..], t);
      StepsOne(m, e, r, k);
      StepsOne(l, m, r, k + 1);
      n := k + 2;
    }
  }

  lemma GapChar(l: L.Lx, c: char, t: string) returns (m: L.Lx)
    requires AtValue(l, [c] + t) && L.IsWhitespace(c)
    ensures m == L.Step(l) && m == l.(pos := m.pos, width := m.width, line := m.line, state := L.Skip(L.Val))
    ensures Ahead(m) == t
  {
    hide L.Newlines, L.Next, Ahead;
    Read(l, c, t);
    m := L.Step(l);
    assert m == L.Go(L.Next(l), L.Skip(L.Val));
    AheadOf(m, L.Next(l));
  }

  lemma KeyStops(l: L.Lx, t: string) returns (r: L.Lx, it: L.Item)
    requires l.state == L.State.Key && Ahead(l) == ['='] + t
    ensures r == L.Step(l) && r.state == L.KeyEnd && Ahead(r) == ['='] + t && r.stack == l.stack && r.input == l.input
    ensures r.out == l.out + [it] && it.typ == L.ItemText && it.val == L.TrimSpace(L.Current(l))
  {
    hide L.Newlines, L.TrimSpace;
    Read(l, '=', t);
    S.PeekSame(l);
    var p := L.Peek(l);
    it := L.Item(L.ItemText, L.TrimSpace(L.Current(p)), p.line);
    r := L.Step(l);
    assert L.Current(p) == L.Current(l);
  }

  lemma Equals(l: L.Lx, t: string) returns (m: L.Lx)
    requires l.state == L.KeyEnd && Ahead(l) == ['='] + t
    ensures m == L.Step(l) && m == l.(pos := m.pos, width := 1, line := m.line, state := L.Skip(L.Val))
    ensures Ahead(m) == t
  {
    hide L.Newlines, L.Next, Ahead;
    Read(l, '=', t);
    m := L.Step(l);
    assert m == L.Go(L.Next(l), L.Skip(L.Val));
    AheadOf(m, L.Next(l));
  }

  lemma KeyReads(first: L.Item, text: L.Item, its: seq<L.Item>, name: string, v: Regained)
    requires first.typ == L.ItemKeyStart && text.typ == L.ItemText && text.val == name && Reads(its, v)
    ensures ReadsEvent([first, text] + its, if v.As? then Got(KeyVal(name, v.v), []) else Failed(v.why))
  {
    hide ParseValue;
    var all := [first, text] + its;
    assert forall it <- all :: it == first || it == text || it in its;
    var ev := if v.As? then Got(KeyVal(name, v.v), []) else Failed(v.why);
    forall rest
      ensures EventAs(ParseEvent(all[0], all[1..] + rest), ev, rest)
    {
      var items := all[1..] + rest;
      assert items[0] == text && items[1..] == its + rest;
      assert (its + rest)[0] == its[0] && (its + rest)[1..] == its[1..] + rest;
      assert ReadAs(ParseValue(its[0], its[1..] + rest), v, rest);
    }
  }

  /** The text of a key, up to the value behind it. */
  lemma KeyTextLexes(l: L.Lx, raw: string, gap: string, u: string)
    returns (r: L.Lx, n: nat, first: L.Item, second: L.Item)
    requires IsKeyText(raw) && Blanks(gap) && AtTop(l, raw + (['='] + (gap + u)))
    ensures Steps(l, r, n) && AtValue(r, u) && r.stack == [L.TopEnd] && r.input == l.input
    ensures r.out == l.out + [first] + [second]
    ensures first.typ == L.ItemKeyStart && second.typ == L.ItemText && second.val == L.TrimSpace(raw)
  {
    hide L.Newlines, L.Step, Steps, Ahead, L.TrimSpace, L.Current, L.IsWhitespace, Blanks;
    var rest := ['='] + (gap + u);
    assert raw[0] in raw && forall c <- raw[1..] :: c in raw;
    assert raw + rest == [raw[0]] + (raw[1..] + rest);
    var m, a;
    m, a, first := KeyOpens(l, raw[0], raw[1..] + rest);
    var e, b := KeyRuns(m, raw[1..], rest);
    SlidesText(m, e, raw[1..]);
    SlidesFields(m, e, raw[1..]);
    assert raw == [raw[0]] + raw[1..];
    StepsOn(l, m, e, a, b);
    var c;
    r, c, second := KeyEnds(e, gap, u);
    StepsOn(l, e, r, a + b, c);
    n := a + b + c;
  }

  /** The same for a safe name with one blank on either side of the equals sign. */
  lemma KeyFront(l: L.Lx, name: string, u: string) returns (r: L.Lx, n: nat, first: L.Item, second: L.Item)
    requires SafeName(name) && AtTop(l, name + " = " + u)
    ensures Steps(l, r, n) && AtValue(r, u) && r.stack == [L.TopEnd] && r.input == l.input
    ensures r.out == l.out + [first] + [second]
    ensures first.typ == L.ItemKeyStart && second.typ == L.ItemText && second.val == name
  {
    hide L.Newlines, L.Step, Steps, Ahead, L.TrimSpace;
    var raw := name + " ";
    assert name + " = " + u == raw + (['='] + (" " + u));
    SafeKeyText(name);
    TrimmedName(name);
    r, n, first, second := KeyTextLexes(l, raw, " ", u);
  }

  lemma SafeKeyText(name: string)
    requires SafeName(name)
    ensures IsKeyText(name + " ")
  {
    assert forall c <- name + " " :: c in name || c == ' ';
  }

  lemma AssignLexes(l: L.Lx, s: Stmt, t: string) returns (r: L.Lx, n: nat, its: seq<L.Item>)
    requires s.Assign? && IsStmt(s) && AtTop(l, StmtText(s) + t) && Ends(t)
    ensures Steps(l, r, n) && AtTopEnd(r, t) && r.input == l.input && r.out == l.out + its
    ensures ReadsEvent(its, EventOf(s))
  {
    hide L.Newlines, L.Step, Steps, Ahead, IsForm, Meant, ReadsEvent, FormText, Reads, IsKeyText, AtTop, AtValue, Ends,
      Blanks, L.TrimSpace;
    var u := FormText(s.form) + t;
    assert StmtText(s) + t == s.raw + (['='] + (s.gap + u));
    var f, a, first, second := KeyTextLexes(l, s.raw, s.gap, u);
    var d, more;
    r, d, more := FormLexes(f, s.form, t);
    StepsOn(l, f, r, a, d);
    n := a + d;
    its := [first, second] + more;
    KeyReads(first, second, more, L.TrimSpace(s.raw), Meant(s.form));
    assert l.out + [first] + [second] + more == l.out + its;
  }

  // ---------- lines ----------

  /** Blanks behind a statement. */
  lemma {:induction false} PadRuns(l: L.Lx, pad: string, t: string) returns (r: L.Lx, n: nat)
    requires Blanks(pad) && AtTopEnd(l, pad + t)
    ensures Steps(l, r, n) && AtTopEnd(r, t) && r.input == l.input && r.out == l.out
    decreases |pad|
  {
    hide L.Newlines, L.Step, Ahead, Steps;
    if pad == "" {
      r, n := l, 0;
      assert pad + t == t;
      NoSteps(l);
    } else {
      assert pad + t == [pad[0]] + (pad[1..] + t);
      assert pad[0] in pad && forall c <- pad[1..] :: c in pad;
      var m := PadChar(l, pad[0], pad[1..] + t);
      var k;
      r, k := PadRuns(m, pad[1..], t);
      StepsOne(l, m, r, k);
      n := k + 1;
    }
  }

  lemma PadChar(l: L.Lx, c: char, t: string) returns (m: L.Lx)
    requires AtTopEnd(l, [c] + t) && L.IsWhitespace(c)
    ensures m == L.Step(l) && AtTopEnd(m, t) && m.input == l.input && m.out == l.out
  {
    hide L.Newlines;
    Read(l, c, t);
    m := L.Step(l);
  }

  lemma LineEnds(l: L.Lx, c: char, t: string) returns (r: L.Lx)
    requires AtTopEnd(l, [c] + t) && (L.IsNL(c) || c == L.EOF)
    ensures r == L.Step(l) && AtTop(r, t) && r.input == l.input && r.out == l.out
  {
    hide L.Newlines;
    Read(l, c, t);
    r := L.Step(l);
  }

  /** A comment at the top level, and its line's end. */
  lemma RemarkLexes(l: L.Lx, text: string, end: char, t: string) returns (r: L.Lx, n: nat, its: seq<L.Item>)
    requires NoteText(text) && L.IsNL(end)
    requires AtTop(l, "#" + text + ([end] + t)) || AtTopEnd(l, "#" + text + ([end] + t))
    ensures Steps(l, r, n) && AtTop(r, t) && r.input == l.input && r.out == l.out + its && IsNote(its)
  {
    hide L.Newlines, L.Step, Ahead, Steps, NoteText;
    var m, k;
    m, k, its := NoteLexes(l, text, end, t);
    r := WhiteRuns(m, end, t);
    StepsOn(l, m, r, k, 2);
    n := k + 2;
  }

  /** The end of a line with a statement. */
  lemma TailLexes(l: L.Lx, pad: string, note: Option<string>, end: char, t: string)
    returns (r: L.Lx, n: nat, its: seq<L.Item>)
    requires Blanks(pad) && (L.IsNL(end) || (note.None? && end == L.EOF)) && (note.Some? ==> NoteText(note.value))
    requires AtTopEnd(l, pad + (NoteOf(note) + ([end] + t)))
    ensures Steps(l, r, n) && AtTop(r, t) && r.input == l.input && r.out == l.out + its
    ensures if note.Some? then IsNote(its) else its == []
  {
    hide L.Newlines, L.Step, Ahead, Steps, NoteText, Blanks;
    var m, k := PadRuns(l, pad, NoteOf(note) + ([end] + t));
    if note.Some? {
      var j;
      r, j, its := RemarkLexes(m, note.value, end, t);
      StepsOn(l, m, r, k, j);
      n := k + j;
    } else {
      assert NoteOf(note) + ([end] + t) == [end] + t;
      r := LineEnds(m, end, t);
      StepsThen(l, m, r, k);
      n, its := k + 1, [];
    }
  }

  lemma TailEnds(line: Line, t: string)
    requires line.Statement? && IsLine(line)
    ensures Ends(line.pad + (NoteOf(line.note) + ([line.end] + t)))
  {
    if line.pad != "" {
      assert line.pad[0] in line.pad;
    }
  }

  lemma StmtLexes(l: L.Lx, s: Stmt, t: string) returns (r: L.Lx, n: nat, its: seq<L.Item>)
    requires IsStmt(s) && AtTop(l, StmtText(s) + t) && Ends(t)
    ensures Steps(l, r, n) && AtTopEnd(r, t) && r.input == l.input && r.out == l.out + its
    ensures ReadsEvent(its, EventOf(s))
  {
    hide L.Newlines, L.Step, Steps, Ahead, IsForm, Meant, ReadsEvent, IsStmt, StmtText;
    match s {
      case Head(isArray, key) => r, n, its := HeaderLexes(l, isArray, key, t);
      case Assign(_, _, _) => r, n, its := AssignLexes(l, s, t);
    }
  }

  /** Up to the end of the input, the parser does that with these items. */
  ghost predicate ReadsAll(its: seq<L.Item>, lines: seq<Line>)
    requires AreLines(lines)
  {
    NoStop(its) && forall st, eof: L.Item | eof.typ == L.ItemEOF :: Parse(st, its + [eof]) == EndOf(st, lines)
  }

  lemma NothingReads()
    ensures ReadsAll([], [])
  {
    forall st, eof: L.Item | eof.typ == L.ItemEOF
      ensures Parse(st, [] + [eof]) == EndOf(st, [])
    {
      assert [] + [eof] == [eof];
    }
  }

  /** A comment in front changes nothing. */
  lemma NoteReads(its: seq<L.Item>, more: seq<L.Item>, lines: seq<Line>)
    requires IsNote(its) && AreLines(lines) && ReadsAll(more, lines)
    ensures ReadsAll(its + more, lines)
  {
    hide EndOf;
    assert forall it <- its + more :: it in its || it in more;
    forall st, eof: L.Item | eof.typ == L.ItemEOF
      ensures Parse(st, its + more + [eof]) == EndOf(st, lines)
    {
      var all := its + more + [eof];
      assert all[0] == its[0] && all[1..][0] == its[1] && all[1..][1..] == more + [eof];
      NoteStep(st, all);
    }
  }

  lemma NoteStep(st: State, all: seq<L.Item>)
    requires |all| >= 2 && all[0].typ == L.ItemCommentStart && all[1].typ == L.ItemText
    ensures Parse(st, all) == Parse(st, all[1..][1..])
  {
  }

  lemma StmtReads(its: seq<L.Item>, more: seq<L.Item>, line: Line, lines: seq<Line>)
    requires IsLine(line) && line.Statement? && AreLines(lines)
    requires ReadsEvent(its, EventOf(line.stmt)) && ReadsAll(more, lines)
    ensures AreLines([line] + lines) && ReadsAll(its + more, [line] + lines)
  {
    var r, all := EventOf(line.stmt), [line] + lines;
    hide ParseEvent, Step, EventOf, IsLine, Parse, EndOf;
    assert AreLines(all) && all[0] == line && all[1..] == lines;
    assert forall it <- its + more :: it in its || it in more;
    forall st, eof: L.Item | eof.typ == L.ItemEOF
      ensures Parse(st, its + more + [eof]) == EndOf(st, all)
    {
      assert its + more + [eof] == its + (more + [eof]);
      StmtStep(st, its, more + [eof], r);
      EndStep(st, all);
    }
  }

  /** One event off the front. */
  lemma StmtStep(st: State, its: seq<L.Item>, rest: seq<L.Item>, r: Result<Event>)
    requires (r.Got? ==> Named(r.value)) && ReadsEvent(its, r)
    ensures Parse(st, its + rest) ==
            if r.Failed? then Stopped(r.why)
            else if Step(st, r.value).Done? then Parse(Step(st, r.value).st, rest)
            else if Step(st, r.value).Fatal? then TableBug else TableError
  {
    hide ParseEvent, Step;
    var all := its + rest;
    assert all[0] == its[0] && all[1..] == its[1..] + rest;
    assert EventAs(ParseEvent(its[0], its[1..] + rest), r, rest);
  }

  lemma EndStep(st: State, lines: seq<Line>)
    requires AreLines(lines) && lines != [] && lines[0].Statement?
    ensures IsLine(lines[0]) && AreLines(lines[1..])
    ensures var r := EventOf(lines[0].stmt);
            EndOf(st, lines) ==
            if r.Failed? then Stopped(r.why)
            else if Step(st, r.value).Done? then EndOf(Step(st, r.value).st, lines[1..])
            else if Step(st, r.value).Fatal? then TableBug else TableError
  {
    hide Step, EventOf;
  }

  lemma OtherReads(its: seq<L.Item>, line: Line, lines: seq<Line>)
    requires IsLine(line) && !line.Statement? && AreLines(lines) && ReadsAll(its, lines)
    ensures AreLines([line] + lines) && ReadsAll(its, [line] + lines)
  {
    hide Parse, IsLine;
    var all := [line] + lines;
    assert AreLines(all) && all[0] == line && all[1..] == lines;
    forall st
      ensures EndOf(st, all) == EndOf(st, lines)
    {
    }
  }

  lemma {:induction false} LinesLex(l: L.Lx, lines: seq<Line>, t: string) returns (r: L.Lx, n: nat, its: seq<L.Item>)
    requires AreLines(lines) && AtTop(l, TextOf(lines) + t)
    ensures Steps(l, r, n) && AtTop(r, t) && r.input == l.input && r.out == l.out + its && ReadsAll(its, lines)
    decreases |lines|
  {
    hide L.Newlines, L.Step, Ahead, Steps, LineOf, ReadsEvent, ReadsAll, IsLine, AtTop;
    if lines == [] {
      r, n, its := l, 0, [];
      assert TextOf(lines) + t == t;
      NoSteps(l);
      NothingReads();
      assert l.out + [] == l.out;
    } else {
      var line, rest := lines[0], lines[1..];
      assert [line] + rest == lines;
      assert TextOf(lines) + t == LineOf(line) + (TextOf(rest) + t);
      var m, a, first := LineLexes(l, line, TextOf(rest) + t);
      var b, more;
      r, b, more := LinesLex(m, rest, t);
      StepsOn(l, m, r, a, b);
      n := a + b;
      its := first + more;
      LineReads(first, more, line, rest);
      assert l.out + first + more == l.out + its;
    }
  }

  /** The items of one line. */
  ghost predicate LineItems(its: seq<L.Item>, line: Line)
    requires IsLine(line)
  {
    match line
    case Blank(_) => its == []
    case Remark(_, _) => IsNote(its)
    case Statement(stmt, _, note, _) =>
      exists k | 0 <= k <= |its| ::
        ReadsEvent(its[..k], EventOf(stmt)) && if note.Some? then IsNote(its[k..]) else its[k..] == []
  }

  lemma LineReads(its: seq<L.Item>, more: seq<L.Item>, line: Line, lines: seq<Line>)
    requires IsLine(line) && AreLines(lines) && LineItems(its, line) && ReadsAll(more, lines)
    ensures AreLines([line] + lines) && ReadsAll(its + more, [line] + lines)
  {
    hide ReadsEvent, ReadsAll, IsStmt, EventOf, IsNote, AreLines, NoteText, Blanks;
    match line {
      case Blank(_) =>
        assert its + more == more;
        OtherReads(more, line, lines);
      case Remark(_, _) =>
        NoteReads(its, more, lines);
        OtherReads(its + more, line, lines);
      case Statement(stmt, _, note, _) =>
        var k :| 0 <= k <= |its| && ReadsEvent(its[..k], EventOf(stmt)) &&
          if note.Some? then IsNote(its[k..]) else its[k..] == [];
        assert its + more == its[..k] + (its[k..] + more);
        TailReads(its[k..], more, note, lines);
        StmtReads(its[..k], its[k..] + more, line, lines);
    }
  }

  lemma TailReads(its: seq<L.Item>, more: seq<L.Item>, note: Option<string>, lines: seq<Line>)
    requires AreLines(lines) && ReadsAll(more, lines) && if note.Some? then IsNote(its) else its == []
    ensures ReadsAll(its + more, lines)
  {
    hide ReadsAll, IsNote, AreLines;
    if note.Some? {
      NoteReads(its, more, lines);
    } else {
      assert its + more == more;
    }
  }

  lemma LineLexes(l: L.Lx, line: Line, t: string) returns (r: L.Lx, n: nat, its: seq<L.Item>)
    requires IsLine(line) && AtTop(l, LineOf(line) + t)
    ensures Steps(l, r, n) && AtTop(r, t) && r.input == l.input && r.out == l.out + its && LineItems(its, line)
  {
    hide L.Newlines, L.Step, Ahead, Steps, StmtText, ReadsEvent, IsStmt, EventOf, NoteText, Blanks;
    match line {
      case Blank(c) =>
        r := WhiteRuns(l, c, t);
        n, its := 2, [];
        assert l.out + [] == l.out;
      case Remark(text, end) =>
        assert LineOf(line) + t == "#" + text + ([end] + t);
        r, n, its := RemarkLexes(l, text, end, t);
      case Statement(_, _, _, _) =>
        r, n, its := StatementLexes(l, line, t);
    }
  }

  lemma StatementLexes(l: L.Lx, line: Line, t: string) returns (r: L.Lx, n: nat, its: seq<L.Item>)
    requires line.Statement? && IsLine(line) && AtTop(l, LineOf(line) + t)
    ensures Steps(l, r, n) && AtTop(r, t) && r.input == l.input && r.out == l.out + its && LineItems(its, line)
  {
    hide L.Newlines, L.Step, Ahead, Steps, StmtText, ReadsEvent, IsStmt, EventOf, NoteText, Blanks, LineItems, AtTop,
      AtTopEnd, NoteOf, Ends;
    var u := line.pad + (NoteOf(line.note) + ([line.end] + t));
    assert LineOf(line) + t == StmtText(line.stmt) + u;
    TailEnds(line, t);
    var m, a, first := StmtLexes(l, line.stmt, u);
    var b, last;
    r, b, last := TailLexes(m, line.pad, line.note, line.end, t);
    StepsOn(l, m, r, a, b);
    n := a + b;
    its := first + last;
    TwoParts(first, last, line);
    assert l.out + first + last == l.out + its;
  }

  lemma TwoParts(first: seq<L.Item>, last: seq<L.Item>, line: Line)
    requires line.Statement? && IsLine(line) && ReadsEvent(first, EventOf(line.stmt))
    requires if line.note.Some? then IsNote(last) else last == []
    ensures LineItems(first + last, line)
  {
    hide ReadsEvent, EventOf, IsNote;
    var its := first + last;
    assert its[..|first|] == first && its[|first|..] == last;
  }

  // ---------- to the end of the input ----------

  lemma TopEnds(l: L.Lx) returns (r: L.Lx, eof: L.Item)
    requires AtTop(l, "")
    ensures r == L.Step(l) && eof.typ == L.ItemEOF && r.out == l.out + [eof]
  {
    hide L.Newlines;
    eof := L.Item(L.ItemEOF, L.Current(l), l.line);
    r := L.Step(l);
  }

  lemma FinishedStays(items: seq<L.Item>, more: seq<L.Item>)
    requires items <= more && G.ConsumeAll(items) == G.Finished
    ensures G.ConsumeAll(more) == G.Finished
    decreases |more|
  {
    if |items| < |more| {
      assert items <= more[..|more| - 1];
      FinishedStays(items, more[..|more| - 1]);
    } else {
      assert items == more;
    }
  }

  /** Turns lead towards the end of the run as long as it is not over at the last of them. */
  lemma {:induction false} StepsFinal(l: L.Lx, r: L.Lx, n: nat)
    requires G.Agrees(l) && Steps(l, r, n) && G.ConsumeAll(r.out) != G.Finished && !R.Stuck(r)
    ensures G.Agrees(r) && R.Final(l) == R.Final(r) && l.out <= r.out
    decreases n
  {
    hide L.Newlines, L.Step, G.Agrees, G.ConsumeAll, R.Run, R.Measure;
    if n > 0 {
      SendsMore(L.Step(l), r, n - 1);
      StepKeepsOut(l);
      if G.ConsumeAll(l.out) == G.Finished {
        FinishedStays(l.out, r.out);
      } else if R.Stuck(l) {
        StuckStays(l, r, n);
      } else {
        R.FinalStep(l);
        StepsFinal(L.Step(l), r, n - 1);
      }
    }
  }

  lemma StepKeepsOut(l: L.Lx)
    requires l.state != L.Nil
    ensures l.out <= L.Step(l).out
  {
    hide L.Newlines;
  }

  lemma {:induction false} SendsMore(l: L.Lx, r: L.Lx, n: nat)
    requires Steps(l, r, n)
    ensures l.out <= r.out
    decreases n
  {
    hide L.Newlines, L.Step;
    if n > 0 {
      StepKeepsOut(l);
      SendsMore(L.Step(l), r, n - 1);
    }
  }

  lemma {:induction false} StuckStays(l: L.Lx, r: L.Lx, n: nat)
    requires G.Agrees(l) && G.ConsumeAll(l.out) != G.Finished && R.Stuck(l) && Steps(l, r, n)
    ensures R.Stuck(r)
    decreases n
  {
    hide L.Newlines, L.Step, G.ConsumeAll, G.Agrees;
    if n > 0 {
      R.StuckForever(l);
      R.StepKeeps(l);
      StuckStays(L.Step(l), r, n - 1);
    }
  }

  /** The last item of a run, from the top level at the end of the input. */
  lemma EndsThere(l: L.Lx) returns (eof: L.Item)
    requires G.Agrees(l) && AtTop(l, "") && G.ConsumeAll(l.out) == G.Items(0)
    ensures eof.typ == L.ItemEOF && R.Final(l).out == l.out + [eof]
  {
    hide L.Newlines, G.Agrees, L.Step, Ahead;
    var r;
    r, eof := TopEnds(l);
    R.FinalStep(l);
    G.ConsumeOne(l.out, eof);
    R.StopsThere(r, R.Measure(r) + 1);
  }

  lemma TopExpects(l: L.Lx, t: string)
    requires G.Agrees(l) && AtTop(l, t)
    ensures G.ConsumeAll(l.out) in {G.Items(0), G.Finished}
  {
    hide L.Newlines, G.ConsumeAll;
  }

  lemma {:induction false} GoesOn(items: seq<L.Item>, more: seq<L.Item>)
    requires NoStop(more) && G.ConsumeAll(items) != G.Finished
    ensures G.ConsumeAll(items + more) != G.Finished
    decreases |more|
  {
    hide G.Consume, G.ConsumeAll;
    if more == [] {
      assert items + more == items;
    } else {
      var n := |more| - 1;
      assert forall it <- more[..n] :: it in more;
      assert more[n] in more;
      GoesOn(items, more[..n]);
      assert items + more == items + more[..n] + [more[n]];
      G.ConsumeOne(items + more[..n], more[n]);
      ConsumeGoesOn(G.ConsumeAll(items + more[..n]), more[n]);
    }
  }

  lemma ConsumeGoesOn(e: G.Expect, it: L.Item)
    requires e != G.Finished && it.typ != L.ItemError && it.typ != L.ItemEOF
    ensures G.Consume(e, it) != G.Finished
  {
    hide G.IsValue, G.NamePiece, G.KeyName, G.Trimmed, G.CommentText;
  }

  /** Lexer and parser together, on any text that is written by these rules, with or without a line's end at
      the end: they do with each statement what is meant by it, and nothing with the rest. */
  lemma WrittenReads(text: string, lines: seq<Line>)
    requires AreLines(lines) && text + "\n" == TextOf(lines)
    ensures G.Agrees(L.Start(text))
    ensures forall st :: Parse(st, R.Final(L.Start(text)).out) == EndOf(st, lines)
  {
    hide L.Newlines, Steps, ReadsAll, Parse, EndOf, AreLines, TextOf, G.Agrees, G.ConsumeAll, R.Final, R.Stuck;
    var l := L.Start(text);
    R.StartAgrees(text);
    assert Ahead(l) == text + "\n" == TextOf(lines) + "";
    var r, n, its := LinesLex(l, lines, "");
    assert [] + its == its;
    AllPlain(its, lines);
    var eof := DocumentEnds(l, r, n, its);
    forall st
      ensures Parse(st, R.Final(l).out) == EndOf(st, lines)
    {
      AllRead(its, lines, st, eof);
    }
  }

  lemma AllRead(its: seq<L.Item>, lines: seq<Line>, st: State, eof: L.Item)
    requires AreLines(lines) && ReadsAll(its, lines) && eof.typ == L.ItemEOF
    ensures Parse(st, its + [eof]) == EndOf(st, lines)
  {
    hide Parse, EndOf;
  }

  lemma AllPlain(its: seq<L.Item>, lines: seq<Line>)
    requires AreLines(lines) && ReadsAll(its, lines)
    ensures NoStop(its)
  {
  }

  lemma DocumentEnds(l: L.Lx, r: L.Lx, n: nat, its: seq<L.Item>) returns (eof: L.Item)
    requires G.Agrees(l) && l.out == [] && Steps(l, r, n) && AtTop(r, "") && r.out == its && NoStop(its)
    ensures eof.typ == L.ItemEOF && R.Final(l).out == its + [eof]
  {
    hide L.Newlines, Steps, G.Agrees, R.Final;
    GoesOn([], its);
    assert [] + its == its;
    StepsFinal(l, r, n);
    TopExpects(r, "");
    eof := EndsThere(r);
  }
}
