/** Exactly which texts the lexer accepts, and what they are parsed to (lex.go, parse.go). */
module TomlAccepted {
  import opened Options
  import opened TomlTree
  import opened TomlContext
  import opened TomlItems
  import opened TomlText
  import opened TomlForms
  import opened TomlWritten
  import opened TomlRefused
  import L = TomlLex
  import R = TomlLexRuns
  import S = TomlLexStates
  import G = TomlGrammar

  // ---------- headers ----------

  /** How far a piece of a table's name goes. */
  function PieceLength(t: string): (i: nat)
    ensures i <= |t| && (forall k | 0 <= k < i :: t[k] !in "[]." && t[k] != L.EOF)
    ensures i < |t| ==> t[i] in "[]." || t[i] == L.EOF
  {
    if t == "" || t[0] in "[]." || t[0] == L.EOF then 0 else 1 + PieceLength(t[1..])
  }

  lemma PieceIs(t: string)
    requires t != "" && t[0] !in {']', L.EOF, '.'}
    ensures G.NamePiece(t[..1 + PieceLength(t[1..])])
  {
    var i := 1 + PieceLength(t[1..]);
    assert forall k | 1 <= k < i :: t[k] == t[1..][k - 1];
  }

  lemma NameBreaks(m: L.Lx, t: string)
    requires Ahead(m) == t
    requires (m.state == L.TableNameStart && (t == "" || t[0] in {']', L.EOF, '.'})) ||
             (m.state == L.TableName && (t == "" || t[0] in {'[', L.EOF}))
    ensures Breaks(m)
  {
    hide L.Newlines;
    S.PeekSame(m);
    assert L.Step(m) == L.Errorf(if m.state == L.TableName then L.Peek(m) else L.Next(m));
    ErrorBreaks(m);
  }

  /** The first piece of a name, and what is behind it. */
  lemma SplitPiece(t: string) returns (s: string, u: string)
    requires t != "" && t[0] !in {']', L.EOF, '.'} && EndsBreak(t)
    ensures G.NamePiece(s) && t == s + u && |u| < |t| && EndsBreak(u)
    ensures u != "" ==> (u[0] in "[]." || u[0] == L.EOF) && u == [u[0]] + u[1..] && EndsBreak(u[1..])
    ensures u != "" && u[0] == ']' ==> u[1..] != ""
  {
    hide G.NamePiece;
    var i := 1 + PieceLength(t[1..]);
    PieceIs(t);
    s, u := t[..i], t[i..];
    if u != "" {
      assert u[0] == t[1..][i - 1] && u[|u| - 1] == t[|t| - 1];
    }
  }

  /** The pieces of a name up to the bracket behind it. */
  lemma {:induction false} NameTotal(l: L.Lx, t: string) returns (ok: bool, key: Key, r: L.Lx, n: nat)
    requires l.state == L.TableNameStart && l.start == l.pos && l.stack != [] && Ahead(l) == t && EndsBreak(t)
    ensures if ok then TakenName(l, key, r, n) else Fails(l)
    decreases |t|, 0
  {
    hide L.Newlines, L.Step, Steps, Ahead, Breaks, Leads, Fails, G.NamePiece, L.Current, Join, TakenName;
    key, r, n := [], l, 0;
    if t == "" || t[0] in {']', L.EOF, '.'} {
      NameBreaks(l, t);
      FailsAt(l);
      ok := false;
    } else {
      var s, u := SplitPiece(t);
      var m, k := PieceLexes(l, s, u);
      Quiet(l, m, k);
      if u == "" || u[0] in {'[', L.EOF} {
        NameBreaks(m, u);
        FailsThen(l, m, k);
        ok := false;
      } else if u[0] == '.' {
        ok, key, r, n := DotTotal(l, m, s, u[1..], k);
      } else {
        r, n := BracketTaken(l, m, s, u[1..], k);
        ok, key := true, [s];
      }
    }
  }

  /** A name that was read, up to the bracket behind it. */
  ghost predicate TakenName(l: L.Lx, key: Key, r: L.Lx, n: nat) {
    l.stack != [] && key != [] && (forall i | 0 <= i < |key| :: G.NamePiece(key[i])) &&
    Ahead(l) == Join(key) + "]" + Ahead(r) && Leads(l, r, n) && r.state == l.stack[|l.stack| - 1] &&
    r.stack == l.stack[..|l.stack| - 1] && EndsBreak(Ahead(r)) && Ahead(r) != ""
  }

  /** A dot and more pieces. */
  lemma {:induction false} DotTotal(l: L.Lx, m: L.Lx, s: string, v: string, k: nat)
    returns (ok: bool, key: Key, r: L.Lx, n: nat)
    requires G.NamePiece(s) && Ahead(l) == s + (['.'] + v) && EndsBreak(v)
    requires Leads(l, m, k) && m.state == L.TableName && Ahead(m) == ['.'] + v && m.stack == l.stack != []
    ensures if ok then TakenName(l, key, r, n) else Fails(l)
    decreases |v|, 1
  {
    hide L.Newlines, L.Step, Steps, Ahead, Breaks, Leads, Fails, G.NamePiece, L.Current, Join, TakenName;
    var e, it := PieceSeparated(m, v);
    OneTurn(m, e);
    Sent(m, e, 1, [it]);
    LeadsOn(l, m, e, k, 1);
    var more, j;
    ok, more, r, j := NameTotal(e, v);
    key, n := [s] + more, k + 1 + j;
    if ok {
      NameGrows(l, e, s, more, r, k + 1, j);
    } else {
      FailsOn(l, e, k + 1);
    }
  }

  lemma NameGrows(l: L.Lx, e: L.Lx, s: string, more: Key, r: L.Lx, k: nat, j: nat)
    requires G.NamePiece(s) && TakenName(e, more, r, j) && Ahead(l) == s + (['.'] + Ahead(e)) && Leads(l, e, k)
    requires e.stack == l.stack
    ensures TakenName(l, [s] + more, r, k + j)
  {
    hide L.Newlines, L.Step, Steps, Ahead, Leads, G.NamePiece, Join;
    var key := [s] + more;
    LeadsOn(l, e, r, k, j);
    JoinSplits(key);
    assert key[1..] == more && key[0] == s;
    assert forall i | 0 <= i < |key| :: key[i] == if i == 0 then s else more[i - 1];
    assert s + "." + Join(more) + "]" + Ahead(r) == s + (['.'] + (Join(more) + "]" + Ahead(r)));
  }

  lemma BracketTaken(l: L.Lx, m: L.Lx, s: string, v: string, k: nat) returns (r: L.Lx, n: nat)
    requires G.NamePiece(s) && Ahead(l) == s + ([']'] + v) && EndsBreak(v) && v != ""
    requires Leads(l, m, k) && m.state == L.TableName && Ahead(m) == [']'] + v && m.stack == l.stack != []
    ensures TakenName(l, [s], r, n)
  {
    hide L.Newlines, L.Step, Steps, Ahead, Leads, G.NamePiece, L.Current, Join;
    var it;
    r, it := PieceEnded(m, v);
    OneTurn(m, r);
    Sent(m, r, 1, [it]);
    LeadsOn(l, m, r, k, 1);
    n := k + 1;
    JoinSplits([s]);
    assert s + "]" + v == s + ([']'] + v);
  }

  /** A statement that was read, up to what is behind it on its line. */
  ghost predicate TakenStmt(l: L.Lx, s: Stmt, r: L.Lx, n: nat) {
    IsStmt(s) && Ahead(l) == StmtText(s) + Ahead(r) && Leads(l, r, n) && AtTopEnd(r, Ahead(r)) && Ahead(r) != "" &&
    EndsBreak(Ahead(r))
  }

  lemma HeaderTotal(l: L.Lx, t: string) returns (ok: bool, s: Stmt, r: L.Lx, n: nat)
    requires AtTop(l, "[" + t) && t != "" && EndsBreak(t)
    ensures if ok then TakenStmt(l, s, r, n) else Fails(l)
  {
    hide L.Newlines, L.Step, Steps, Ahead, Breaks, Leads, Fails, TakenStmt, TakenName, IsStmt;
    var isArray, u, m, k := HeaderFront(l, t);
    var key, e, j;
    ok, key, e, j := NameTotal(m, u);
    s, r, n := Head(isArray, key), e, k + j;
    if ok {
      HeaderNamed(l, m, e, isArray, key, k, j, u);
      ok, r, n := HeaderClose(l, e, isArray, key, k + j, u);
    } else {
      FailsOn(l, m, k);
    }
  }

  /** Over the opening brackets. */
  lemma HeaderFront(l: L.Lx, t: string) returns (isArray: bool, u: string, m: L.Lx, k: nat)
    requires AtTop(l, "[" + t) && t != "" && EndsBreak(t)
    ensures "[" + t == Opening(isArray) + u && u != "" && EndsBreak(u) && (isArray || u[0] != '[')
    ensures Leads(l, m, k) && m.state == L.TableNameStart && m.start == m.pos && Ahead(m) == u
    ensures m.stack == [if isArray then L.ArrayTableEnd else L.TableEnd]
  {
    hide L.Newlines, L.Step, Steps, Ahead, Leads;
    isArray := t[0] == '[';
    u := if isArray then t[1..] else t;
    OpensWith(t, isArray, u);
    var it;
    m, k, it := HeaderOpens(l, isArray, u[0], u[1..]);
    Sent(l, m, k, [it]);
  }

  lemma HeaderNamed(l: L.Lx, m: L.Lx, e: L.Lx, isArray: bool, key: Key, k: nat, j: nat, u: string)
    requires Leads(l, m, k) && m.stack == [if isArray then L.ArrayTableEnd else L.TableEnd] && Ahead(m) == u
    requires TakenName(m, key, e, j) && u != "" && (isArray || u[0] != '[')
    ensures IsStmt(Head(isArray, key)) && u == Join(key) + "]" + Ahead(e) && Leads(l, e, k + j)
    ensures e.state == (if isArray then L.ArrayTableEnd else L.TableEnd) && e.stack == []
    ensures Ahead(e) != "" && EndsBreak(Ahead(e))
  {
    hide L.Newlines, L.Step, Steps, Ahead, Leads, G.NamePiece, Join, IsStmt;
    LeadsOn(l, m, e, k, j);
    HeaderStmt(isArray, key, u, Ahead(e));
  }

  lemma OpensWith(t: string, isArray: bool, u: string)
    requires t != "" && EndsBreak(t) && isArray == (t[0] == '[') && u == if isArray then t[1..] else t
    ensures "[" + t == Opening(isArray) + u && u != "" && u == [u[0]] + u[1..] && EndsBreak(u)
  {
    assert isArray ==> t == ['['] + t[1..] && "[" + (['['] + t[1..]) == "[[" + t[1..];
  }

  /** The closing bracket, or the second of two. */
  lemma HeaderClose(l: L.Lx, e: L.Lx, isArray: bool, key: Key, k: nat, u: string)
    returns (ok: bool, r: L.Lx, n: nat)
    requires IsStmt(Head(isArray, key)) && Ahead(l) == Opening(isArray) + u && u == Join(key) + "]" + Ahead(e)
    requires Leads(l, e, k) && e.state == (if isArray then L.ArrayTableEnd else L.TableEnd) && e.stack == []
    requires Ahead(e) != "" && EndsBreak(Ahead(e))
    ensures if ok then TakenStmt(l, Head(isArray, key), r, n) else Fails(l)
  {
    hide L.Newlines, L.Step, Steps, Ahead, Breaks, Leads, Fails, G.NamePiece, Join, TakenStmt, AtTopEnd, IsStmt;
    if isArray && Ahead(e)[0] != ']' {
      BracketBreaks(e);
      FailsThen(l, e, k);
      ok, r, n := false, e, k;
    } else {
      var v := if isArray then Ahead(e)[1..] else Ahead(e);
      ClosesWith(Ahead(e), isArray, v);
      var last;
      r, last := HeaderEnds(e, isArray, v);
      OneTurn(e, r);
      Sent(e, r, 1, [last]);
      LeadsOn(l, e, r, k, 1);
      ok, n := true, k + 1;
      EndThere(r, v);
      HeaderTaken(l, isArray, key, r, n, u, v);
    }
  }

  lemma ClosesWith(a: string, isArray: bool, v: string)
    requires a != "" && v == (if isArray then a[1..] else a) && (isArray ==> a[0] == ']')
    ensures a == Closing(isArray) + v
  {
  }

  lemma EndThere(r: L.Lx, v: string)
    requires r.state == L.TopEnd && r.stack == [] && Ahead(r) == v
    ensures AtTopEnd(r, v)
  {
  }

  lemma BracketBreaks(e: L.Lx)
    requires e.state == L.ArrayTableEnd && Ahead(e) != "" && Ahead(e)[0] != ']'
    ensures Breaks(e)
  {
    hide L.Newlines;
    assert L.Step(e) == L.Errorf(L.Next(e));
    ErrorBreaks(e);
  }

  lemma HeaderStmt(isArray: bool, key: Key, u: string, after: string)
    requires key != [] && (forall i | 0 <= i < |key| :: G.NamePiece(key[i])) && u == Join(key) + "]" + after
    requires u != "" && (isArray || u[0] != '[')
    ensures IsStmt(Head(isArray, key))
  {
    hide Join;
    FirstCharacter(key);
    JoinBegins(key);
  }

  lemma HeaderTaken(l: L.Lx, isArray: bool, key: Key, r: L.Lx, n: nat, u: string, v: string)
    requires IsStmt(Head(isArray, key)) && Ahead(l) == Opening(isArray) + u
    requires u == Join(key) + "]" + (Closing(isArray) + v)
    requires Leads(l, r, n) && AtTopEnd(r, v) && EndsBreak(Closing(isArray) + v) && Closing(isArray) + v != ""
    ensures TakenStmt(l, Head(isArray, key), r, n)
  {
    hide L.Newlines, Steps, Ahead, Leads, G.NamePiece, Join;
    assert Opening(isArray) + u == Opening(isArray) + Join(key) + "]" + Closing(isArray) + v;
    if isArray {
      LastOf("]", v);
    }
  }

  // ---------- keys ----------

  /** How far the text of a key goes. */
  function KeyLength(t: string): (i: nat)
    requires t != "" && t[|t| - 1] == '\n'
    ensures i < |t| && G.KeyName(t[..i]) && (t[i] == '=' || t[i] == '#' || L.IsNL(t[i]))
  {
    if t[0] == '=' || t[0] == '#' || L.IsNL(t[0]) then 0 else
    var i := 1 + KeyLength(t[1..]);
    assert t[..i] == [t[0]] + t[1..][..i - 1];
    i
  }

  function BlankLength(t: string): (i: nat)
    ensures i <= |t| && Blanks(t[..i]) && (i < |t| ==> !L.IsWhitespace(t[i]))
  {
    if t == "" || !L.IsWhitespace(t[0]) then 0 else
    var i := 1 + BlankLength(t[1..]);
    assert t[..i] == [t[0]] + t[1..][..i - 1];
    i
  }

  lemma SplitBlanks(t: string) returns (gap: string, v: string)
    requires t != "" && EndsBreak(t)
    ensures Blanks(gap) && t == gap + v && v != "" && !L.IsWhitespace(v[0]) && EndsBreak(v) && v == [v[0]] + v[1..]
  {
    hide Blanks;
    var i := BlankLength(t);
    gap, v := t[..i], t[i..];
    if i == |t| {
      assert gap == t;
      LastBlank(t);
    }
  }

  lemma LastBlank(t: string)
    requires t != "" && Blanks(t)
    ensures L.IsWhitespace(t[|t| - 1])
  {
    assert t[|t| - 1] in t;
  }

  /** What a key may begin with. */
  predicate KeyBegins(t: string) {
    t != "" && !L.IsWhitespace(t[0]) && !L.IsNL(t[0]) && t[0] !in {'#', '['} && t[0] != L.EOF
  }

  lemma KeyTotal(l: L.Lx, t: string) returns (ok: bool, s: Stmt, r: L.Lx, n: nat)
    requires AtTop(l, t) && KeyBegins(t) && EndsBreak(t)
    ensures if ok then TakenStmt(l, s, r, n) else Fails(l)
  {
    hide L.Newlines, L.Step, Steps, Ahead, Breaks, Leads, Fails, TakenStmt, L.TrimSpace, L.IsWhitespace, Blanks;
    hide IsKeyText;
    s, r, n := Head(false, []), l, 0;
    if t[0] == '=' {
      NoKey(l, t);
      ok := false;
    } else {
      var i := 1 + KeyLength(t[1..]);
      var raw, u := t[..i], t[i..];
      KeyTextIs(t, i);
      if u[0] != '=' {
        KeyFails(l, raw, u);
        ok := false;
      } else {
        assert u == ['='] + u[1..] && |u| > 1;
        var gap, v := SplitBlanks(u[1..]);
        assert t == raw + (['='] + (gap + v));
        ok, s, r, n := AssignTotal(l, raw, gap, v);
      }
    }
  }

  lemma KeyTextIs(t: string, i: nat)
    requires KeyBegins(t) && EndsBreak(t) && t[0] != '=' && t[1..] != "" && i == 1 + KeyLength(t[1..])
    ensures i < |t| && IsKeyText(t[..i]) && t == t[..i] + t[i..] && (t[i] == '=' || t[i] == '#' || L.IsNL(t[i]))
  {
    assert t[..i] == [t[0]] + t[1..][..i - 1];
  }

  /** An equals sign with nothing in front. */
  lemma NoKey(l: L.Lx, t: string)
    requires AtTop(l, t) && t != "" && t[0] == '='
    ensures Fails(l)
  {
    hide L.Newlines, Steps, Breaks, Leads, Fails;
    assert t == [t[0]] + t[1..];
    Read(l, '=', t[1..]);
    R.Moves(L.Next(l));
    var m := L.Step(l);
    assert m == L.Go(L.Push(L.Backup(L.Next(l)), L.TopEnd), L.KeyStart);
    QuietOne(l, m);
    NoNameBreaks(m);
    FailsThen(l, m, 1);
  }

  lemma NoNameBreaks(m: L.Lx)
    requires m.state == L.KeyStart && m.pos < |m.input| && L.Rune(m) == '='
    ensures Breaks(m)
  {
    hide L.Newlines;
    S.PeekSame(m);
    assert L.Step(m) == L.Errorf(L.Peek(m));
    ErrorBreaks(m);
  }

  /** A key's text with a number sign in it, or without an equals sign. */
  lemma KeyFails(l: L.Lx, raw: string, u: string)
    requires IsKeyText(raw) && AtTop(l, raw + u) && u != "" && (u[0] == '#' || L.IsNL(u[0]))
    ensures Fails(l)
  {
    hide L.Newlines, L.Step, Steps, Ahead, L.TrimSpace, L.Current, L.IsWhitespace, Breaks, Leads, Fails;
    assert raw[0] in raw && forall c <- raw[1..] :: c in raw;
    assert raw + u == [raw[0]] + (raw[1..] + u);
    var m, a, first := KeyOpens(l, raw[0], raw[1..] + u);
    Sent(l, m, a, [first]);
    var e, b := KeyRuns(m, raw[1..], u);
    SlidesFields(m, e, raw[1..]);
    Quiet(m, e, b);
    LeadsOn(l, m, e, a, b);
    KeyStopBreaks(e, u);
    FailsOn(l, e, a + b);
  }

  lemma KeyStopBreaks(e: L.Lx, u: string)
    requires e.state == L.State.Key && Ahead(e) == u && u != "" && (u[0] == '#' || L.IsNL(u[0]))
    ensures Fails(e)
  {
    hide L.Newlines, Steps, L.TrimSpace, Breaks, Leads, Fails;
    S.PeekSame(e);
    assert u == [u[0]] + u[1..];
    Read(e, u[0], u[1..]);
    var p := L.Peek(e);
    if u[0] == '#' {
      assert L.Step(e) == L.Errorf(p);
      ErrorBreaks(e);
      FailsAt(e);
    } else {
      var m := L.Step(e);
      assert m == L.Go(L.EmitTrim(p, L.ItemText), L.KeyEnd);
      OneTurn(e, m);
      Sent(e, m, 1, [L.Item(L.ItemText, L.TrimSpace(L.Current(p)), p.line)]);
      EqualsBreaks(m);
      FailsThen(e, m, 1);
    }
  }

  lemma EqualsBreaks(m: L.Lx)
    requires m.state == L.KeyEnd && L.Rune(m) != '='
    ensures Breaks(m)
  {
    hide L.Newlines;
    assert L.Step(m) == L.Errorf(L.Next(m));
    ErrorBreaks(m);
  }

  lemma AssignTotal(l: L.Lx, raw: string, gap: string, v: string) returns (ok: bool, s: Stmt, r: L.Lx, n: nat)
    requires IsKeyText(raw) && Blanks(gap) && AtTop(l, raw + (['='] + (gap + v))) && v != "" && EndsBreak(v)
    requires !L.IsWhitespace(v[0])
    ensures if ok then TakenStmt(l, s, r, n) else Fails(l)
  {
    hide L.Newlines, L.Step, Steps, Ahead, Breaks, Leads, Fails, L.TrimSpace, L.IsWhitespace, Blanks, IsKeyText, IsForm,
      FormText;
    var f, a, first, second := KeyTextLexes(l, raw, gap, v);
    assert f.out == l.out + [first, second];
    Sent(l, f, a, [first, second]);
    var form, k, its;
    ok, form, r, k, its := ValueTotal(f, v);
    s, n := Assign(raw, gap, form), a + k;
    if ok {
      TakenEnds(f, form, r, k, its, v);
      Sent(f, r, k, its);
      LeadsOn(l, f, r, a, k);
      assert [L.TopEnd][..0] == [];
      assert raw + (['='] + (gap + (FormText(form) + Ahead(r)))) == raw + "=" + gap + FormText(form) + Ahead(r);
    } else {
      FailsOn(l, f, a);
    }
  }

  // ---------- lines ----------

  /** The rest of a line behind a statement. */
  lemma TailTotal(l: L.Lx, t: string) returns (ok: bool, pad: string, note: Option<string>, end: char, r: L.Lx, n: nat)
    requires AtTopEnd(l, t) && t != "" && EndsBreak(t)
    ensures ok ==> Blanks(pad) && (L.IsNL(end) || (note.None? && end == L.EOF)) && (note.Some? ==> NoteText(note.value))
    ensures ok ==> t == pad + (NoteOf(note) + ([end] + Ahead(r))) && Leads(l, r, n) && AtTop(r, Ahead(r))
    ensures ok ==> EndsBreak(Ahead(r))
    ensures !ok ==> Fails(l)
  {
    hide L.Newlines, L.Step, Steps, Ahead, Breaks, Leads, Fails, L.IsWhitespace, Blanks, NoteText, AtTop, AtTopEnd;
    hide NoteOf;
    var v;
    pad, v := SplitBlanks(t);
    var m, k := PadRuns(l, pad, v);
    Quiet(l, m, k);
    if v[0] == '#' {
      ok, note, end, r, n := NoteTail(l, m, k, v[1..]);
    } else {
      ok, note, end, r, n := PlainTail(l, m, k, v[0], v[1..]);
    }
  }

  /** A line's end, or something else in its place. */
  lemma PlainTail(l: L.Lx, m: L.Lx, k: nat, c: char, u: string)
    returns (ok: bool, note: Option<string>, end: char, r: L.Lx, n: nat)
    requires Leads(l, m, k) && AtTopEnd(m, [c] + u) && EndsBreak([c] + u) && !L.IsWhitespace(c) && c != '#'
    ensures note.None? && (ok ==> (L.IsNL(end) || end == L.EOF) && [c] + u == NoteOf(note) + ([end] + Ahead(r)))
    ensures ok ==> Leads(l, r, n) && AtTop(r, Ahead(r)) && EndsBreak(Ahead(r))
    ensures !ok ==> Fails(l)
  {
    hide L.Newlines, L.Step, Steps, Ahead, Breaks, Leads, Fails, L.IsWhitespace;
    note, end := None, c;
    ok := L.IsNL(c) || c == L.EOF;
    if ok {
      r := LineEnds(m, c, u);
      QuietOne(m, r);
      LeadsOn(l, m, r, k, 1);
      n := k + 1;
      assert NoteOf(None) + ([c] + u) == [c] + u;
    } else {
      Read(m, c, u);
      JunkBreaks(m);
      FailsThen(l, m, k);
      r, n := m, k;
    }
  }

  lemma JunkBreaks(m: L.Lx)
    requires m.state == L.TopEnd && m.pos < |m.input|
    requires var c := L.Rune(m); !L.IsWhitespace(c) && !L.IsNL(c) && c != '#' && c != L.EOF
    ensures Breaks(m)
  {
    hide L.Newlines;
    assert L.Step(m) == L.Errorf(L.Next(m));
    ErrorBreaks(m);
  }

  lemma NoteTail(l: L.Lx, m: L.Lx, k: nat, u: string)
    returns (ok: bool, note: Option<string>, end: char, r: L.Lx, n: nat)
    requires Leads(l, m, k) && AtTopEnd(m, ['#'] + u) && EndsBreak(['#'] + u)
    ensures ok ==> note.Some? && NoteText(note.value) && L.IsNL(end) && ['#'] + u == NoteOf(note) + ([end] + Ahead(r))
    ensures ok ==> Leads(l, r, n) && AtTop(r, Ahead(r)) && EndsBreak(Ahead(r))
    ensures !ok ==> Fails(l)
  {
    hide L.Newlines, L.Step, Steps, Ahead, Breaks, Leads, Fails, NoteText;
    assert ['#'] + u == "#" + u && u != "" && u[|u| - 1] == '\n';
    var text, e, j, its;
    ok, text, end, e, j, its := NoteTotal(m, u);
    note, r, n := Some(text), e, k + j;
    if ok {
      NotePlain(its);
      Sent(m, e, j, its);
      LeadsOn(l, m, e, k, j);
      var v := Ahead(e)[1..];
      assert Ahead(e) == [end] + v;
      r := WhiteRuns(e, end, v);
      Quiet(e, r, 2);
      LeadsOn(l, e, r, k + j, 2);
      n := k + j + 2;
      assert "#" + u == "#" + text + ([end] + v);
    } else {
      FailsOn(l, m, k);
    }
  }

  /** A line that was read. */
  ghost predicate TakenLine(l: L.Lx, line: Line, r: L.Lx, n: nat) {
    IsLine(line) && Ahead(l) == LineOf(line) + Ahead(r) && LineOf(line) != "" && Leads(l, r, n) && AtTop(r, Ahead(r)) &&
    EndsBreak(Ahead(r))
  }

  lemma StatementTotal(l: L.Lx, t: string) returns (ok: bool, line: Line, r: L.Lx, n: nat)
    requires AtTop(l, t) && EndsBreak(t) && t != "" && (t[0] == '[' || KeyBegins(t))
    ensures if ok then TakenLine(l, line, r, n) else Fails(l)
  {
    hide L.Newlines, L.Step, Steps, Ahead, Breaks, Leads, Fails, TakenStmt, NoteText, Blanks, IsStmt, StmtText;
    var s, m, k;
    if t[0] == '[' {
      assert t == "[" + t[1..] && t[1..] != "";
      ok, s, m, k := HeaderTotal(l, t[1..]);
    } else {
      ok, s, m, k := KeyTotal(l, t);
    }
    line, r, n := Blank(' '), m, k;
    if ok {
      TakenBehind(l, s, m, k);
      var pad, note, end, j;
      ok, pad, note, end, r, j := TailTotal(m, Ahead(m));
      if ok {
        LeadsOn(l, m, r, k, j);
        line, n := Statement(s, pad, note, end), k + j;
        StatementTaken(l, s, pad, note, end, r, n);
      } else {
        FailsOn(l, m, k);
      }
    }
  }

  lemma TakenBehind(l: L.Lx, s: Stmt, r: L.Lx, n: nat)
    requires TakenStmt(l, s, r, n)
    ensures IsStmt(s) && Ahead(l) == StmtText(s) + Ahead(r) && Leads(l, r, n) && AtTopEnd(r, Ahead(r))
    ensures Ahead(r) != "" && EndsBreak(Ahead(r))
  {
  }

  lemma StatementTaken(l: L.Lx, s: Stmt, pad: string, note: Option<string>, end: char, r: L.Lx, n: nat)
    requires IsLine(Statement(s, pad, note, end)) && Leads(l, r, n) && AtTop(r, Ahead(r)) && EndsBreak(Ahead(r))
    requires Ahead(l) == StmtText(s) + (pad + (NoteOf(note) + ([end] + Ahead(r))))
    ensures TakenLine(l, Statement(s, pad, note, end), r, n)
  {
    hide L.Newlines, Steps, Ahead, Leads, StmtText, IsLine;
    assert StmtText(s) + (pad + (NoteOf(note) + ([end] + Ahead(r))))
        == StmtText(s) + pad + NoteOf(note) + [end] + Ahead(r);
  }

  lemma LineTotal(l: L.Lx, t: string) returns (ok: bool, line: Line, r: L.Lx, n: nat)
    requires AtTop(l, t) && EndsBreak(t) && t != ""
    ensures if ok then TakenLine(l, line, r, n) else Fails(l)
  {
    hide L.Newlines, L.Step, Steps, Ahead, Breaks, Leads, Fails, NoteText;
    line, r, n := Blank(' '), l, 0;
    assert t == [t[0]] + t[1..];
    if L.IsWhitespace(t[0]) || L.IsNL(t[0]) {
      r := WhiteRuns(l, t[0], t[1..]);
      Quiet(l, r, 2);
      ok, line, n := true, Blank(t[0]), 2;
    } else if t[0] == '#' {
      ok, line, r, n := RemarkTotal(l, t[1..]);
    } else if t[0] == L.EOF {
      Read(l, t[0], t[1..]);
      NulBreaks(l);
      FailsAt(l);
      ok := false;
    } else {
      ok, line, r, n := StatementTotal(l, t);
    }
  }

  lemma RemarkTotal(l: L.Lx, u: string) returns (ok: bool, line: Line, r: L.Lx, n: nat)
    requires AtTop(l, ['#'] + u) && EndsBreak(['#'] + u)
    ensures if ok then TakenLine(l, line, r, n) else Fails(l)
  {
    hide L.Newlines, L.Step, Steps, Ahead, Breaks, Leads, Fails, NoteText;
    assert ['#'] + u == "#" + u && u != "" && u[|u| - 1] == '\n';
    var text, end, e, j, its;
    ok, text, end, e, j, its := NoteTotal(l, u);
    line, r, n := Remark(text, end), e, j;
    if ok {
      NotePlain(its);
      Sent(l, e, j, its);
      var v := Ahead(e)[1..];
      assert Ahead(e) == [end] + v;
      r := WhiteRuns(e, end, v);
      Quiet(e, r, 2);
      LeadsOn(l, e, r, j, 2);
      n := j + 2;
      assert "#" + u == "#" + text + [end] + v;
    }
  }

  /** To the end of the input, or to a failure. */
  lemma {:induction false} LinesTotal(l: L.Lx, t: string) returns (ok: bool, lines: seq<Line>)
    requires AtTop(l, t) && EndsBreak(t)
    ensures if ok then AreLines(lines) && t == TextOf(lines) else Fails(l)
    decreases |t|
  {
    hide L.Newlines, L.Step, Steps, Ahead, Breaks, Leads, Fails, IsLine, LineOf;
    if t == "" {
      ok, lines := true, [];
    } else {
      var line, m, k;
      ok, line, m, k := LineTotal(l, t);
      lines := [];
      if ok {
        var more;
        ok, more := LinesTotal(m, Ahead(m));
        if ok {
          lines := [line] + more;
          assert lines[0] == line && lines[1..] == more;
        } else {
          FailsOn(l, m, k);
        }
      }
    }
  }

  // ---------- whole texts ----------

  /** No error among the items, and the end of the input behind them. */
  predicate Complete(out: seq<L.Item>) {
    out != [] && out[|out| - 1].typ == L.ItemEOF && forall it <- out :: it.typ != L.ItemError
  }

  /** Written by the rules of comments, keys, headers and values. */
  ghost predicate Written(text: string) {
    exists lines :: AreLines(lines) && text + "\n" == TextOf(lines)
  }

  lemma WrittenIsComplete(text: string)
    requires Written(text)
    ensures G.Agrees(L.Start(text)) && Complete(R.Final(L.Start(text)).out)
  {
    hide L.Newlines, Steps, ReadsAll, AreLines, TextOf, G.Agrees, R.Final;
    var lines :| AreLines(lines) && text + "\n" == TextOf(lines);
    R.StartAgrees(text);
    var l := L.Start(text);
    assert Ahead(l) == text + "\n" == TextOf(lines) + "";
    var r, n, its := LinesLex(l, lines, "");
    assert [] + its == its;
    AllPlain(its, lines);
    var eof := DocumentEnds(l, r, n, its);
    assert forall it <- its + [eof] :: it in its || it == eof;
  }

  /** Where the lexer fails, what it sends is no complete text, and holds no end of the input. */
  lemma FailsIncomplete(l: L.Lx)
    requires G.Agrees(l) && l.out == [] && Fails(l)
    ensures forall it <- R.Final(l).out :: it.typ != L.ItemEOF
  {
    hide L.Newlines, L.Step, Steps, G.Agrees, R.Final, G.ConsumeAll, Breaks, Leads, NoStop;
    var m: L.Lx, n: nat :| Leads(l, m, n) && Breaks(m);
    NothingStops(l, m, n);
    if R.Stuck(m) {
      StuckEnds(l, m, n);
    } else {
      ErrorLast(l, m, n);
    }
  }

  lemma NothingStops(l: L.Lx, m: L.Lx, n: nat)
    requires l.out == [] && Leads(l, m, n)
    ensures Steps(l, m, n) && G.ConsumeAll(m.out) != G.Finished && forall it <- m.out :: it.typ != L.ItemEOF
  {
    assert G.ConsumeAll([]) == G.Items(0);
    hide L.Newlines, L.Step, Steps, G.ConsumeAll;
    assert m.out[0..] == m.out && [] + m.out == m.out;
    GoesOn([], m.out);
  }

  lemma ErrorLast(l: L.Lx, m: L.Lx, n: nat)
    requires G.Agrees(l) && Steps(l, m, n) && G.ConsumeAll(m.out) != G.Finished && !R.Stuck(m) && Breaks(m)
    requires forall it <- m.out :: it.typ != L.ItemEOF
    ensures forall it <- R.Final(l).out :: it.typ != L.ItemEOF
  {
    hide L.Newlines, L.Step, Steps, G.Agrees, R.Final, G.ConsumeAll, ErrorSent;
    StepsFinal(l, m, n);
    R.FinalStep(m);
    ErrorEnds(m);
    var out := L.Step(m).out;
    assert out == m.out + out[|m.out|..];
    NoEof(m);
  }

  lemma NoEof(m: L.Lx)
    requires m.state != L.Nil && ErrorSent(L.Step(m).out[|m.out|..])
    ensures forall it <- L.Step(m).out[|m.out|..] :: it.typ != L.ItemEOF
  {
    hide L.Newlines, L.Step;
  }

  /** A lexer that gets stuck sends nothing more. */
  lemma {:induction false} StuckEnds(l: L.Lx, m: L.Lx, n: nat)
    requires G.Agrees(l) && Steps(l, m, n) && G.ConsumeAll(m.out) != G.Finished && R.Stuck(m)
    ensures R.Final(l).out == m.out
    decreases n
  {
    hide L.Newlines, L.Step, G.Agrees, G.ConsumeAll, R.Run, R.Measure;
    if n == 0 {
      R.StopsThere(l, R.Measure(l) + 1);
    } else {
      SendsMore(l, m, n);
      if G.ConsumeAll(l.out) == G.Finished {
        FinishedStays(l.out, m.out);
      } else if R.Stuck(l) {
        R.StuckForever(l);
        R.StepKeeps(l);
        StuckEnds(L.Step(l), m, n - 1);
        R.StopsThere(l, R.Measure(l) + 1);
        R.StopsThere(L.Step(l), R.Measure(L.Step(l)) + 1);
      } else {
        R.FinalStep(l);
        StuckEnds(L.Step(l), m, n - 1);
      }
    }
  }

  lemma {:induction false} ErrorFinishes(a: seq<L.Item>, more: seq<L.Item>)
    requires G.ConsumeAll(a + more) != G.Rejected && exists it <- more :: it.typ == L.ItemError
    ensures G.ConsumeAll(a + more) == G.Finished
    decreases |more|
  {
    hide G.ConsumeAll;
    var n := |more| - 1;
    var e := G.ConsumeAll(a + more[..n]);
    assert a + more == a + more[..n] + [more[n]];
    G.ConsumeOne(a + more[..n], more[n]);
    Consumed(e, more[n]);
    if more[n].typ != L.ItemError {
      var it :| it in more && it.typ == L.ItemError;
      assert it in more[..n] by { assert more == more[..n] + [more[n]]; }
      ErrorFinishes(a, more[..n]);
    }
  }

  lemma Consumed(e: G.Expect, it: L.Item)
    ensures e == G.Rejected ==> G.Consume(e, it) == G.Rejected
    ensures e == G.Finished || (e != G.Rejected && it.typ == L.ItemError) ==> G.Consume(e, it) == G.Finished
  {
    hide G.IsValue, G.NamePiece, G.KeyName, G.Trimmed, G.CommentText;
  }

  /** An error ends the run. */
  lemma ErrorEnds(m: L.Lx)
    requires G.Agrees(m) && G.ConsumeAll(m.out) != G.Finished && !R.Stuck(m) && m.state != L.Nil
    requires ErrorSent(L.Step(m).out[|m.out|..])
    ensures G.Agrees(L.Step(m)) && R.Final(L.Step(m)) == L.Step(m)
  {
    hide L.Newlines, L.Step, G.Agrees, G.ConsumeAll, R.Run, R.Measure;
    R.FinalStep(m);
    var r := L.Step(m);
    R.PlaceHasStack(r);
    assert r.out == m.out + r.out[|m.out|..];
    ErrorFinishes(m.out, r.out[|m.out|..]);
    R.StopsThere(r, R.Measure(r) + 1);
  }

  /** Exactly the texts that are written by these rules are lexed to their end without an error. */
  lemma AcceptedExactly(text: string)
    ensures G.Agrees(L.Start(text))
    ensures Complete(R.Final(L.Start(text)).out) <==> Written(text)
  {
    hide L.Newlines, G.Agrees, R.Final, Fails, AreLines, TextOf;
    var l := L.Start(text);
    R.StartAgrees(text);
    if Written(text) {
      WrittenIsComplete(text);
    } else {
      assert Ahead(l) == text + "\n";
      var ok, lines := LinesTotal(l, text + "\n");
      if !ok {
        FailsIncomplete(l);
      }
    }
  }

  /** A parse gets to the tables only at the end of the input. */
  lemma {:induction false} ParsedEnds(st: State, items: seq<L.Item>)
    requires Parse(st, items).Parsed?
    ensures exists it <- items :: it.typ == L.ItemEOF
    decreases |items|
  {
    hide Step, ParseEvent;
    if items[0].typ == L.ItemEOF {
      assert items[0] in items;
    } else {
      var r := ParseEvent(items[0], items[1..]);
      var rest := r.rest;
      var st' := if r.value.None? then st else Step(st, r.value.value).st;
      ParsedEnds(st', rest);
      var it :| it in rest && it.typ == L.ItemEOF;
      RestInside(rest, items[1..], it);
    }
  }

  lemma RestInside(rest: seq<L.Item>, items: seq<L.Item>, it: L.Item)
    requires IsRest(rest, items) && it in rest
    ensures it in items
  {
  }

  /** Exactly which texts are parsed to which tables: those written by the rules whose statements, one after
      the other, lead there. Every other text ends in a failure. */
  lemma ParsedExactly(text: string, st: State)
    ensures G.Agrees(L.Start(text))
    ensures Parse(START, R.Final(L.Start(text)).out) == Parsed(st) <==>
            exists lines :: AreLines(lines) && text + "\n" == TextOf(lines) && EndOf(START, lines) == Parsed(st)
  {
    hide Parse, EndOf, L.Newlines, G.Agrees, R.Final, Fails, AreLines, TextOf;
    var l := L.Start(text);
    R.StartAgrees(text);
    assert Ahead(l) == text + "\n";
    var ok, lines := LinesTotal(l, text + "\n");
    if ok {
      WrittenReads(text, lines);
    } else {
      FailsIncomplete(l);
      if Parse(START, R.Final(l).out).Parsed? {
        ParsedEnds(START, R.Final(l).out);
      }
    }
    if other: seq<Line> :| AreLines(other) && text + "\n" == TextOf(other) && EndOf(START, other) == Parsed(st) {
      WrittenReads(text, other);
    }
  }
}
