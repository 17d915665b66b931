/** What the lexer refuses in place of a value: whatever stands there, it is a value as it may be written, or
    the lexer sends an error or never gets on (lex.go). */
module TomlRefused {
  import opened TomlTree
  import opened TomlLex
  import opened TomlItems
  import opened TomlText
  import opened TomlForms
  import G = TomlGrammar
  import R = TomlLexRuns
  import S = TomlLexStates

  // ---------- failing ----------

  /** The next turn sends an error, or there is none that gets on. */
  predicate Breaks(m: Lx) {
    m.state != Nil && (R.Stuck(m) || ErrorSent(Step(m).out[|m.out|..]))
  }

  predicate ErrorSent(its: seq<Item>) {
    (exists it <- its :: it.typ == ItemError) && forall it <- its :: it.typ != ItemEOF
  }

  /** Turns that send neither an error nor the end. */
  predicate Leads(l: Lx, m: Lx, n: nat) {
    Steps(l, m, n) && m.input == l.input && l.out <= m.out && NoStop(m.out[|l.out|..])
  }

  ghost predicate Fails(l: Lx) {
    exists m: Lx, n: nat :: Leads(l, m, n) && Breaks(m)
  }

  lemma FailsAt(l: Lx)
    requires Breaks(l)
    ensures Fails(l)
  {
    hide Newlines, Step, Breaks;
    NoSteps(l);
    assert l.out[|l.out|..] == [];
    assert Leads(l, l, 0);
  }

  lemma FailsOn(l: Lx, m: Lx, n: nat)
    requires Leads(l, m, n) && Fails(m)
    ensures Fails(l)
  {
    hide Newlines, Step, Steps, Breaks;
    var r: Lx, k: nat :| Leads(m, r, k) && Breaks(r);
    StepsOn(l, m, r, n, k);
    assert r.out[|l.out|..] == m.out[|l.out|..] + r.out[|m.out|..];
    assert Leads(l, r, n + k);
  }

  lemma FailsThen(l: Lx, m: Lx, n: nat)
    requires Leads(l, m, n) && Breaks(m)
    ensures Fails(l)
  {
    hide Breaks;
    FailsAt(m);
    FailsOn(l, m, n);
  }

  lemma Quiet(l: Lx, m: Lx, n: nat)
    requires Steps(l, m, n) && m.input == l.input && m.out == l.out
    ensures Leads(l, m, n)
  {
    hide Newlines, Step, Steps;
    assert m.out[|l.out|..] == [];
  }

  lemma QuietOne(l: Lx, m: Lx)
    requires l.state != Nil && m == Step(l) && m.out == l.out
    ensures Leads(l, m, 1)
  {
    hide Newlines, Step, Leads;
    OneTurn(l, m);
    Quiet(l, m, 1);
  }

  lemma Sent(l: Lx, m: Lx, n: nat, its: seq<Item>)
    requires Steps(l, m, n) && m.input == l.input && m.out == l.out + its && NoStop(its)
    ensures Leads(l, m, n)
  {
    hide Newlines, Step, Steps;
    assert m.out[|l.out|..] == its;
  }

  lemma LeadsOn(l: Lx, m: Lx, r: Lx, a: nat, b: nat)
    requires Leads(l, m, a) && Leads(m, r, b)
    ensures Leads(l, r, a + b)
  {
    hide Newlines, Step, Steps;
    StepsOn(l, m, r, a, b);
    assert r.out[|l.out|..] == m.out[|l.out|..] + r.out[|m.out|..];
  }

  /** A turn that does nothing but send an error. */
  lemma ErrorBreaks(m: Lx)
    requires m.state != Nil && exists e: Lx :: e.out == m.out && Step(m) == Errorf(e)
    ensures Breaks(m)
  {
    hide Newlines, Step;
    var e: Lx :| e.out == m.out && Step(m) == Errorf(e);
    var more := Step(m).out[|m.out|..];
    assert more == [Item(ItemError, "", e.line)];
    assert more[0] in more;
  }

  /** The input ends a line. */
  lemma AheadEnds(l: Lx)
    requires l.pos < |l.input|
    ensures var a := Ahead(l); a != "" && a[|a| - 1] == '\n' && a == [a[0]] + a[1..] && (a[0] != '\n' ==> |a| > 1)
    ensures Rune(l) == Ahead(l)[0]
  {
    hide Newlines;
  }

  lemma Behind(l: Lx)
    ensures Ahead(l) != "" <==> l.pos < |l.input|
  {
  }

  // ---------- between quotes ----------

  lemma StringBreaks(l: Lx)
    requires l.state in {State.Str, State.RawStr} && l.pos < |l.input| && IsNL(Rune(l))
    ensures Breaks(l)
  {
    hide Newlines;
    assert Step(l) == Errorf(Next(l));
    ErrorBreaks(l);
  }

  lemma EscapeBreaks(m: Lx)
    requires m.state in {StrEscape, MStrEscape} && m.pos < |m.input| && !IsEscape(Rune(m)) && Rune(m) != 'u'
    requires m.state == MStrEscape ==> !IsNL(Rune(m))
    ensures Breaks(m)
  {
    hide Newlines, IsEscape;
    var b := if m.state == StrEscape then m else m.(width := 1);
    assert b == if m.state == StrEscape then m else Backup(Next(m));
    assert Step(m) == Errorf(Next(b));
    ErrorBreaks(m);
  }

  /** A text begins with `n` hexadecimal digits. */
  predicate Hexes(h: string, n: nat)
    decreases n
  {
    n == 0 || (h != "" && IsHexadecimal(h[0]) && Hexes(h[1..], n - 1))
  }

  lemma {:induction false} HexesAre(h: string, n: nat)
    requires Hexes(h, n)
    ensures |h| >= n && forall c <- h[..n] :: IsHexadecimal(c)
    decreases n
  {
    hide IsHexadecimal;
    if n > 0 {
      HexesAre(h[1..], n - 1);
      assert h[..n] == [h[0]] + h[1..][..n - 1];
    }
  }

  /** Digits of a code that are not all there. */
  lemma {:induction false} CodeBreaks(l: Lx, h: string, i: nat, next: State)
    requires i <= 4 && Ahead(l) == h && !Hexes(h, 4 - i)
    ensures exists e: Lx :: e.out == l.out && LexUnicode(l, i, next) == Errorf(e)
    decreases 4 - i
  {
    hide Newlines, Next, Ahead, IsHexadecimal;
    NextQuiet(l);
    if h == "" {
      NothingThere(l);
      NulIsNoDigit();
    } else {
      assert h == [h[0]] + h[1..];
      Read(l, h[0], h[1..]);
      if IsHexadecimal(h[0]) {
        CodeBreaks(Next(l), h[1..], i + 1, next);
      }
    }
  }

  lemma NulIsNoDigit()
    ensures !IsHexadecimal(EOF)
  {
  }

  lemma UnicodeBreaks(m: Lx, h: string)
    requires m.state in {StrUnicode, MStrUnicode} && Ahead(m) == h && !Hexes(h, 4)
    ensures Breaks(m)
  {
    hide Newlines, Next, Ahead, IsHexadecimal, LexUnicode;
    var next := if m.state == StrUnicode then State.Str else State.MStr;
    CodeBreaks(m, h, 0, next);
    assert Step(m) == LexUnicode(m, 0, next);
    ErrorBreaks(m);
  }

  lemma SlidesLead(l: Lx, m: Lx, n: nat, s: string)
    requires Steps(l, m, n) && Slides(l, m, s)
    ensures Leads(l, m, n) && |Ahead(m)| == |Ahead(l)| - |s| && m.state == l.state
  {
    hide Newlines, Step, Steps;
    Quiet(l, m, n);
  }

  /** A basic string is run over to its closing quote, or fails. */
  lemma {:induction false} TextTotal(l: Lx) returns (ok: bool, s: string, r: Lx, n: nat)
    requires l.state == State.Str && l.pos < |l.input|
    ensures ok ==> G.StringText(s) && Steps(l, r, n) && Slides(l, r, s) && Ahead(r) != "" && Ahead(r)[0] == '\"'
    ensures !ok ==> Fails(l)
    decreases |Ahead(l)|
  {
    hide Newlines, Step, Next, Ahead, Steps, Slides, Breaks, Leads, IsHexadecimal, IsEscape, Fails;
    AheadEnds(l);
    var c, t := Ahead(l)[0], Ahead(l)[1..];
    if IsNL(c) {
      StringBreaks(l);
      FailsAt(l);
      ok, s, r, n := false, "", l, 0;
    } else if c == '\"' {
      ok, s, r, n := true, "", l, 0;
      NoSteps(l);
      Stays(l);
    } else {
      var p, k, m;
      ok, p, k, m := TextPieceTotal(l, c, t);
      if ok {
        SlidesLead(l, m, k, p);
        Behind(m);
        var j, q;
        ok, q, r, j := TextTotal(m);
        s, n := p + q, k + j;
        if ok {
          More(l, m, r, k, j, p, q);
          PieceString(p, q);
        } else {
          FailsOn(l, m, k);
        }
      } else {
        s, r, n := "", l, 0;
      }
    }
  }

  /** One character, or one escape. */
  lemma TextPieceTotal(l: Lx, c: char, t: string) returns (ok: bool, p: string, k: nat, m: Lx)
    requires l.state == State.Str && l.pos < |l.input| && Ahead(l) == [c] + t && !IsNL(c) && c != '\"'
    requires t != "" && t[|t| - 1] == '\n'
    ensures ok ==> p != "" && Steps(l, m, k) && Slides(l, m, p) && Ahead(m) != ""
    ensures ok ==> IsPiece('\"', p) && |p| != 3 && p[0] != '\"' && !IsNL(p[0])
    ensures !ok ==> Fails(l)
  {
    hide Newlines, Step, Next, Ahead, Steps, Slides, Breaks, Leads, IsHexadecimal, Fails;
    if c != '\\' {
      ok, p, k := true, [c], 1;
      m := PlainRuns(l, c, t);
      OneTurn(l, m);
    } else {
      ok, p, k, m := EscapeTotal(l, t);
      if ok {
        assert p[0] == '\\';
      }
    }
  }

  /** What one piece of a string is. */
  predicate IsPiece(q: char, p: string) {
    if q == '\"' && p != "" && p[0] == '\\' then
      (|p| == 3 && IsNL(p[1])) || (|p| == 2 && IsEscape(p[1])) ||
      (|p| == 6 && p[1] == 'u' && forall i | 2 <= i < 6 :: IsHexadecimal(p[i]))
    else |p| == 1
  }

  /** A piece in front of a basic string. */
  lemma PieceString(p: string, u: string)
    requires IsPiece('\"', p) && |p| != 3 && p[0] != '\"' && !IsNL(p[0]) && G.StringText(u)
    ensures G.StringText(p + u)
  {
    hide IsHexadecimal, IsEscape;
    var s := p + u;
    if |p| == 1 {
      assert s[1..] == u && s[0] == p[0];
    } else if |p| == 2 {
      assert s[2..] == u && s[1] == p[1];
      EscapeIsNoBreak(p[1]);
    } else {
      assert s[6..] == u && forall i | 0 <= i < 6 :: s[i] == p[i];
    }
  }

  /** An escape of either kind of basic string, unless it hides a line's end. */
  lemma EscapeTotal(l: Lx, t: string) returns (ok: bool, p: string, k: nat, m: Lx)
    requires InBasic(l) && Ahead(l) == ['\\'] + t && t != "" && t[|t| - 1] == '\n'
    requires l.state == State.MStr ==> !IsNL(t[0])
    ensures ok ==> p != "" && p[0] == '\\' && Steps(l, m, k) && Slides(l, m, p) && Ahead(m) != ""
    ensures ok ==> IsPiece('\"', p) && |p| != 3
    ensures !ok ==> Fails(l)
  {
    hide Newlines, Step, Next, Ahead, Steps, Slides, Breaks, Leads, IsHexadecimal, Fails, G.StringText, MultiText;
    var e := BackslashTurn(l, t);
    QuietOne(l, e);
    assert t == [t[0]] + t[1..];
    Read(e, t[0], t[1..]);
    if IsEscape(t[0]) {
      assert ['\\'] + t == ['\\', t[0]] + t[1..];
      m := EscapeRuns(l, t[0], t[1..]);
      ok, p, k := true, ['\\', t[0]], 2;
    } else if t[0] == 'u' {
      var u := EscapedTurn(e, l.state, 'u', t[1..]);
      QuietOne(e, u);
      LeadsOn(l, e, u, 1, 1);
      ok, p, k, m := CodeTotal(l, u, t[1..]);
    } else {
      EscapeBreaks(e);
      FailsThen(l, e, 1);
      ok, p, k, m := false, "", 0, l;
    }
  }

  lemma CodeTotal(l: Lx, u: Lx, h: string) returns (ok: bool, p: string, k: nat, m: Lx)
    requires InBasic(l) && Ahead(l) == "\\u" + h && h != "" && h[|h| - 1] == '\n'
    requires Leads(l, u, 2) && u.state == Counting(l.state) && Ahead(u) == h
    ensures ok ==> p != "" && p[0] == '\\' && Steps(l, m, k) && Slides(l, m, p) && Ahead(m) != ""
    ensures ok ==> IsPiece('\"', p) && |p| != 3
    ensures !ok ==> Fails(l)
  {
    hide Newlines, Step, Next, Ahead, Steps, Slides, Breaks, Leads, IsHexadecimal, Fails, G.StringText, MultiText;
    if Hexes(h, 4) {
      HexesAre(h, 4);
      assert h == h[..4] + h[4..] && h[3] in h[..4];
      assert forall k | 0 <= k < 4 :: h[k] in h[..4];
      m := UnicodeRuns(l, h[..4], h[4..]);
      ok, p, k := true, "\\u" + h[..4], 3;
      NoLineEnd(h);
    } else {
      UnicodeBreaks(u, h);
      FailsThen(l, u, 2);
      ok, p, k, m := false, "", 0, l;
    }
  }

  lemma NoLineEnd(h: string)
    requires |h| >= 4 && IsHexadecimal(h[3]) && h[|h| - 1] == '\n'
    ensures |h| > 4
  {
  }

  lemma {:induction false} RawTotal(l: Lx) returns (ok: bool, s: string, r: Lx, n: nat)
    requires l.state == State.RawStr && l.pos < |l.input|
    ensures ok ==> G.RawText(s) && Steps(l, r, n) && Slides(l, r, s) && Ahead(r) != "" && Ahead(r)[0] == '\''
    ensures !ok ==> Fails(l)
    decreases |Ahead(l)|
  {
    hide Newlines, Step, Next, Ahead, Steps, Slides, Breaks, Leads, Fails;
    AheadEnds(l);
    var c, t := Ahead(l)[0], Ahead(l)[1..];
    if IsNL(c) {
      StringBreaks(l);
      FailsAt(l);
      ok, s, r, n := false, "", l, 0;
    } else if c == '\'' {
      ok, s, r, n := true, "", l, 0;
      NoSteps(l);
      Stays(l);
    } else {
      var m := PlainRuns(l, c, t);
      OneTurn(l, m);
      SlidesLead(l, m, 1, [c]);
      Behind(m);
      var j, q;
      ok, q, r, j := RawTotal(m);
      s, n := [c] + q, 1 + j;
      if ok {
        More(l, m, r, 1, j, [c], q);
      } else {
        FailsOn(l, m, 1);
      }
    }
  }

  /** A multi-line string is run over to its closing quotes, or fails, or gets stuck. */
  lemma {:induction false} MultiTotal(l: Lx, q: char) returns (ok: bool, s: string, r: Lx, n: nat)
    requires q in {'\"', '\''} && l.state == Tripled(q)
    ensures ok ==> MultiText(q, s) && Steps(l, r, n) && Slides(l, r, s)
    ensures ok ==> var a := Ahead(r); |a| >= 3 && a[0] == a[1] == a[2] == q
    ensures !ok ==> Fails(l)
    decreases |Ahead(l)|
  {
    hide Newlines, Step, Next, Ahead, Steps, Slides, Breaks, Leads, IsHexadecimal, IsEscape, Fails, MultiText;
    Behind(l);
    if Ahead(l) == "" {
      AtEndStuck(l);
      FailsAt(l);
      ok, s, r, n := false, "", l, 0;
    } else if |Ahead(l)| >= 3 && Ahead(l)[0] == Ahead(l)[1] == Ahead(l)[2] == q {
      ok, s, r, n := true, "", l, 0;
      NoSteps(l);
      Stays(l);
      EmptyMulti(q);
    } else {
      AheadEnds(l);
      var p, k, m;
      ok, p, k, m := MultiPieceTotal(l, q, Ahead(l)[0], Ahead(l)[1..]);
      if ok {
        SlidesLead(l, m, k, p);
        var j, u;
        ok, u, r, j := MultiTotal(m, q);
        s, n := p + u, k + j;
        if ok {
          More(l, m, r, k, j, p, u);
          PieceBefore(l, m, r, q, p, u);
        } else {
          FailsOn(l, m, k);
        }
      } else {
        s, r, n := "", l, 0;
      }
    }
  }

  lemma EmptyMulti(q: char)
    ensures MultiText(q, "")
  {
  }

  lemma AtEndStuck(l: Lx)
    requires l.state in {State.MStr, State.MRawStr} && l.pos == |l.input|
    ensures Breaks(l)
  {
    hide Step;
  }

  /** A piece in front of a text, unless it makes three quotes. */
  lemma PieceText(q: char, p: string, u: string)
    requires q in {'\"', '\''} && IsPiece(q, p) && MultiText(q, u)
    requires p[0] == q ==> u != "" && !(|u| >= 2 && u[0] == q && u[1] == q)
    ensures MultiText(q, p + u)
  {
    hide IsHexadecimal, IsEscape;
    var s := p + u;
    if |p| == 1 {
      assert s[1..] == u && s[0] == p[0];
    } else if |p| == 2 {
      assert s[2..] == u && s[1] == p[1];
      EscapeIsNoBreak(p[1]);
    } else if |p| == 3 {
      assert s[3..] == u && s[1] == p[1];
    } else {
      assert s[6..] == u && forall i | 0 <= i < 6 :: s[i] == p[i];
    }
  }

  lemma EscapeIsNoBreak(c: char)
    requires IsEscape(c)
    ensures !IsNL(c) && c != 'u'
  {
  }

  lemma PieceBefore(l: Lx, m: Lx, r: Lx, q: char, p: string, u: string)
    requires q in {'\"', '\''} && IsPiece(q, p) && MultiText(q, u) && Slides(l, m, p) && Slides(m, r, u)
    requires var a := Ahead(l); !(|a| >= 3 && a[0] == a[1] == a[2] == q)
    requires var a := Ahead(r); |a| >= 3 && a[0] == a[1] == a[2] == q
    ensures MultiText(q, p + u)
  {
    hide Newlines, Step, Next, Ahead, IsPiece, MultiText;
    assert Ahead(l) == p + (u + Ahead(r));
    PieceOfOne(q, p);
    PieceText(q, p, u);
  }

  lemma PieceOfOne(q: char, p: string)
    requires q in {'\"', '\''} && IsPiece(q, p)
    ensures p != "" && (p[0] == q ==> |p| == 1)
  {
  }

  lemma MultiPieceTotal(l: Lx, q: char, c: char, t: string) returns (ok: bool, p: string, k: nat, m: Lx)
    requires q in {'\"', '\''} && l.state == Tripled(q) && Ahead(l) == [c] + t
    requires if t == "" then c == '\n' else t[|t| - 1] == '\n'
    requires c == q ==> !(|t| >= 2 && t[0] == t[1] == q)
    ensures ok ==> p != "" && IsPiece(q, p) && Steps(l, m, k) && Slides(l, m, p)
    ensures !ok ==> Fails(l)
  {
    hide Newlines, Step, Next, Ahead, Steps, Slides, Breaks, Leads, IsHexadecimal, Fails;
    if c == '\\' && q == '\"' {
      if !IsNL(t[0]) {
        ok, p, k, m := EscapeTotal(l, t);
      } else if |t| >= 2 {
        assert [c] + t == ['\\', t[0], t[1]] + t[2..];
        m := FoldRuns(l, t[0], t[1], t[2..]);
        ok, p, k := true, ['\\', t[0], t[1]], 2;
      } else {
        assert t == [t[0]];
        FoldStuck(l, t[0]);
        ok, p, k, m := false, "", 0, l;
      }
    } else {
      if c == q {
        m := QuoteInside(l, q, t);
      } else {
        m := PlainRuns(l, c, t);
      }
      OneTurn(l, m);
      ok, p, k := true, [c], 1;
    }
  }

  lemma FoldStuck(l: Lx, c: char)
    requires l.state == State.MStr && IsNL(c) && Ahead(l) == ['\\'] + [c]
    ensures Fails(l)
  {
    hide Newlines, Next, Ahead, Steps, Breaks, Leads, Fails;
    var e := BackslashTurn(l, [c]);
    QuietOne(l, e);
    assert [c] == [c] + "";
    Read(e, c, "");
    var m := Step(e);
    assert m == Go(Next(Next(e)), State.MStr);
    NextAtEnd(Next(e));
    QuietOne(e, m);
    LeadsOn(l, e, m, 1, 1);
    AtEndStuck(m);
    FailsThen(l, m, 2);
  }

  lemma NextAtEnd(l: Lx)
    requires Ahead(l) == ""
    ensures Next(l).pos == |l.input| && Next(l).out == l.out
  {
    hide Newlines;
  }

  // ---------- tokens ----------

  /** A value that was read: a form, and the items that were sent for it. */
  ghost predicate Taken(l: Lx, f: Form, r: Lx, n: nat, its: seq<Item>) {
    IsForm(f) && Ahead(l) == FormText(f) + Ahead(r) && Steps(l, r, n) && Back(l, r, its, Ahead(r)) && NoStop(its)
  }

  lemma TakenToken(l: Lx, f: Form, r: Lx, n: nat, it: Item, after: string)
    requires f.Token? && IsForm(f) && Ahead(l) == FormText(f) + after && Steps(l, r, n) && Back(l, r, [it], after)
    requires it.typ != ItemError && it.typ != ItemEOF
    ensures Taken(l, f, r, n, [it])
  {
    hide Newlines, Step, Steps, IsForm, FormText;
  }

  lemma QuotedTotal(l: Lx, q: char, t: string) returns (ok: bool, f: Form, r: Lx, n: nat, its: seq<Item>)
    requires q in {'\"', '\''} && AtValue(l, t) && |t| >= 2 && t[0] == q && t[|t| - 1] == '\n'
    ensures if ok then Taken(l, f, r, n, its) else Fails(l)
  {
    hide Newlines, Step, Next, Ahead, Steps, Slides, Breaks, Leads, Fails, Taken, G.StringText, MultiText;
    if |t| >= 3 && t[1] == q && t[2] == q {
      ok, f, r, n, its := TripledTotal(l, q, t);
    } else {
      ok, f, r, n, its := SingleTotal(l, q, t);
    }
  }

  lemma TripledTotal(l: Lx, q: char, t: string) returns (ok: bool, f: Form, r: Lx, n: nat, its: seq<Item>)
    requires q in {'\"', '\''} && AtValue(l, t) && |t| >= 3 && t[0] == t[1] == t[2] == q
    ensures if ok then Taken(l, f, r, n, its) else Fails(l)
  {
    hide Newlines, Step, Next, Ahead, Steps, Slides, Breaks, Leads, Fails, Taken, MultiText, Back;
    assert t == [q, q, q] + t[3..];
    var m := TripleOpens(l, q, t[3..]);
    QuietOne(l, m);
    var s, e, k;
    ok, s, e, k := MultiTotal(m, q);
    f := Token(TripleQuoted(q), s);
    if ok {
      SlidesAhead(m, e, s);
      var after := Ahead(e)[3..];
      assert Ahead(e) == [q, q, q] + after;
      assert t == [q, q, q] + s + [q, q, q] + after;
      var it;
      r, n, it := TripledLexes(l, q, s, after);
      its := [it];
      TakenToken(l, f, r, n, it, after);
    } else {
      FailsOn(l, m, 1);
      r, n, its := l, 0, [];
    }
  }

  lemma SlidesAhead(l: Lx, r: Lx, s: string)
    requires Slides(l, r, s)
    ensures Ahead(l) == s + Ahead(r)
  {
  }

  lemma SingleTotal(l: Lx, q: char, t: string) returns (ok: bool, f: Form, r: Lx, n: nat, its: seq<Item>)
    requires q in {'\"', '\''} && AtValue(l, t) && |t| >= 2 && t[0] == q && t[|t| - 1] == '\n'
    requires !(|t| >= 3 && t[1] == q && t[2] == q)
    ensures if ok then Taken(l, f, r, n, its) else Fails(l)
  {
    hide Newlines, Step, Next, Ahead, Steps, Slides, Breaks, Leads, Fails, Taken, G.StringText, Back;
    var u := t[1..];
    assert t == [q] + u && u[|u| - 1] == '\n';
    var m := OneOpens(l, q, u);
    QuietOne(l, m);
    Behind(m);
    var s, e, k;
    if q == '\"' {
      ok, s, e, k := TextTotal(m);
    } else {
      ok, s, e, k := RawTotal(m);
    }
    f := Token(Quoted(q), s);
    if ok {
      SlidesAhead(m, e, s);
      f, r, n, its := SingleTaken(l, q, t, s, Ahead(e));
    } else {
      FailsOn(l, m, 1);
      r, n, its := l, 0, [];
    }
  }

  lemma SingleTaken(l: Lx, q: char, t: string, s: string, a: string)
    returns (f: Form, r: Lx, n: nat, its: seq<Item>)
    requires q in {'\"', '\''} && AtValue(l, t) && t == [q] + (s + a) && a != "" && a[0] == q && t[|t| - 1] == '\n'
    requires !(|t| >= 3 && t[1] == q && t[2] == q)
    requires if q == '\"' then G.StringText(s) else G.RawText(s)
    ensures Taken(l, f, r, n, its)
  {
    hide Newlines, Step, Next, Ahead, Steps, Taken, G.StringText, Back;
    var after := a[1..];
    assert a == [q] + after;
    assert t == [q] + s + [q] + after;
    EndAfter(q, s, after, t[1..]);
    var it;
    r, n, it := QuotedLexes(l, q, s, after);
    f, its := Token(Quoted(q), s), [it];
    TakenToken(l, f, r, n, it, after);
  }

  lemma EndAfter(q: char, s: string, after: string, u: string)
    requires q in {'\"', '\''} && u == s + ([q] + after) && u[|u| - 1] == '\n' && !(|u| >= 2 && u[0] == q && u[1] == q)
    ensures after != "" && (s == "" ==> after[0] != q)
  {
    assert u[|s|] == q;
  }

  /** How many digits a text begins with. */
  function Digits(t: string): (n: nat)
    ensures n <= |t| && (forall i | 0 <= i < n :: IsDigit(t[i])) && (n < |t| ==> !IsDigit(t[n]))
  {
    if t == "" || !IsDigit(t[0]) then 0 else 1 + Digits(t[1..])
  }

  lemma SplitDigits(t: string) returns (d: string, v: string)
    requires t != "" && t[|t| - 1] == '\n'
    ensures t == d + v && (forall c <- d :: IsDigit(c)) && v != "" && v[|v| - 1] == '\n' && !IsDigit(v[0])
    ensures IsDigit(t[0]) ==> d != ""
  {
    var n := Digits(t);
    d, v := t[..n], t[n..];
  }

  lemma SignTotal(l: Lx, t: string) returns (ok: bool, f: Form, r: Lx, n: nat, its: seq<Item>)
    requires AtValue(l, t) && t != "" && t[|t| - 1] == '\n' && t[0] == '-'
    ensures if ok then Taken(l, f, r, n, its) else Fails(l)
  {
    hide Newlines, Step, Next, Ahead, Steps, Slides, Breaks, Leads, Fails, Taken, Back, IsDigit, G.IsInteger, AtValue;
    var u := t[1..];
    assert t == ['-'] + u && u != "" && u[|u| - 1] == '\n';
    if IsDigit(u[0]) {
      var d, v := SplitDigits(u);
      SignedInteger(d);
      assert t == "-" + d + v;
      ok, f, r, n, its := WholeTotal(l, "-" + d, v);
    } else {
      SignFails(l, u);
      ok, f, r, n, its := false, Token(ItemInteger, ""), l, 0, [];
    }
  }

  lemma SignedInteger(d: string)
    requires d != "" && forall c <- d :: IsDigit(c)
    ensures G.IsInteger("-" + d)
  {
    assert ("-" + d)[1..] == d;
  }

  lemma SignFails(l: Lx, u: string)
    requires AtValue(l, ['-'] + u) && u != "" && !IsDigit(u[0])
    ensures Fails(l)
  {
    hide Newlines, Next, Ahead, Steps, Breaks, Leads, Fails, IsDigit;
    Read(l, '-', u);
    var m := Step(l);
    assert m == Go(Next(l), NumberStart);
    AheadOf(m, Next(l));
    QuietOne(l, m);
    SignBreaks(m);
    FailsThen(l, m, 1);
  }

  lemma SignBreaks(m: Lx)
    requires m.state == NumberStart && (Ahead(m) == "" || !IsDigit(Ahead(m)[0]))
    ensures Breaks(m)
  {
    hide Newlines;
    assert Step(m) == Errorf(Next(m));
    ErrorBreaks(m);
  }

  /** Behind the whole digits of a number: a point, a dash, or its end. */
  lemma WholeTotal(l: Lx, w: string, t: string) returns (ok: bool, f: Form, r: Lx, n: nat, its: seq<Item>)
    requires w != "" && G.IsInteger(w) && AtValue(l, w + t) && t != "" && t[|t| - 1] == '\n' && !IsDigit(t[0])
    ensures if ok then Taken(l, f, r, n, its) else Fails(l)
  {
    hide Newlines, Step, Next, Ahead, Steps, Slides, Breaks, Leads, Fails, Taken, Back, G.IsInteger, IsDigit;
    if t[0] == '.' {
      ok, f, r, n, its := PointTotal(l, w, t);
    } else if t[0] == '-' && w[0] != '-' {
      ok, f, r, n, its := DashTotal(l, w, t);
    } else {
      var it;
      r, n, it := IntegerLexes(l, w, t);
      ok, f, its := true, Token(ItemInteger, w), [it];
      TakenToken(l, f, r, n, it, t);
    }
  }

  lemma PointTotal(l: Lx, w: string, t: string) returns (ok: bool, f: Form, r: Lx, n: nat, its: seq<Item>)
    requires G.IsInteger(w) && AtValue(l, w + t) && t != "" && t[|t| - 1] == '\n' && t[0] == '.'
    ensures if ok then Taken(l, f, r, n, its) else Fails(l)
  {
    hide Newlines, Step, Next, Ahead, Steps, Slides, Breaks, Leads, Fails, Taken, Back, G.IsInteger, IsDigit, G.IsFloat,
      AtValue;
    var u := t[1..];
    assert t == ['.'] + u && u != "" && u[|u| - 1] == '\n';
    if IsDigit(u[0]) {
      ok, f, r, n, its := FloatTaken(l, w, u);
    } else {
      PointFails(l, w, u);
      ok, f, r, n, its := false, Token(ItemFloat, ""), l, 0, [];
    }
  }

  lemma FloatTaken(l: Lx, w: string, u: string) returns (ok: bool, f: Form, r: Lx, n: nat, its: seq<Item>)
    requires G.IsInteger(w) && AtValue(l, w + (['.'] + u)) && u != "" && u[|u| - 1] == '\n' && IsDigit(u[0])
    ensures ok && Taken(l, f, r, n, its)
  {
    hide Newlines, Step, Next, Ahead, Steps, Slides, Taken, Back, G.IsInteger, IsDigit, G.IsFloat;
    var d, v := SplitDigits(u);
    var x := w + "." + d;
    PointIsFloat(w, d);
    assert w + (['.'] + u) == x + v;
    var it;
    r, n, it := FloatLexes(l, x, v);
    ok, f, its := true, Token(ItemFloat, x), [it];
    TakenToken(l, f, r, n, it, v);
  }

  lemma PointFails(l: Lx, w: string, u: string)
    requires G.IsInteger(w) && AtValue(l, w + (['.'] + u)) && (u == "" || !IsDigit(u[0]))
    ensures Fails(l)
  {
    hide Newlines, Step, Next, Ahead, Steps, Slides, Breaks, Leads, Fails, G.IsInteger, IsDigit;
    var m, k := WholeRuns(l, w, ['.'] + u);
    Quiet(l, m, k);
    Read(m, '.', u);
    var e := PointTurn(m);
    AheadOf(e, Next(m));
    QuietOne(m, e);
    LeadsOn(l, m, e, k, 1);
    PointBreaks(e);
    FailsThen(l, e, k + 1);
  }

  lemma PointIsFloat(w: string, d: string)
    requires G.IsInteger(w) && d != "" && forall c <- d :: IsDigit(c)
    ensures G.IsFloat(w + "." + d)
  {
    hide G.IsInteger, IsDigit;
    var s, i := w + "." + d, |w|;
    assert s[..i] == w && s[i] == '.' && s[i + 1..] == d;
  }

  lemma PointBreaks(m: Lx)
    requires m.state == FloatStart && (Ahead(m) == "" || !IsDigit(Ahead(m)[0]))
    ensures Breaks(m)
  {
    hide Newlines;
    assert Step(m) == Errorf(Next(m));
    ErrorBreaks(m);
  }

  lemma DashTotal(l: Lx, w: string, t: string) returns (ok: bool, f: Form, r: Lx, n: nat, its: seq<Item>)
    requires w != "" && G.IsInteger(w) && w[0] != '-' && AtValue(l, w + t) && t != "" && t[0] == '-'
    ensures if ok then Taken(l, f, r, n, its) else Fails(l)
  {
    hide Newlines, Step, Next, Ahead, Steps, Slides, Breaks, Leads, Fails, Taken, Back, FitsFormat, IsDate, G.IsInteger,
      Dated;
    var u := t[1..];
    assert t == ['-'] + u;
    if |w| == 4 && Dated(u, 0) {
      DashDate(w, u);
      var x, v := w + "-" + u[..15], u[15..];
      assert w + t == x + v;
      var it;
      r, n, it := DateLexes(l, x, v);
      ok, f, its := true, Token(ItemDatetime, x), [it];
      TakenToken(l, f, r, n, it, v);
    } else {
      DashFails(l, w, u);
      ok, f, r, n, its := false, Token(ItemDatetime, ""), l, 0, [];
    }
  }

  lemma DashDate(w: string, u: string)
    requires |w| == 4 && G.IsInteger(w) && w[0] != '-' && Dated(u, 0)
    ensures |u| >= 15 && IsDate(w + "-" + u[..15])
  {
    hide FitsFormat, IsDate, Dated;
    FormatSplits();
    DatedIs(u, 0);
    assert forall k | 0 <= k < 15 :: u[..15][k] == u[k] && FitsFormat(DATE_FORMAT[0 + k], u[k]);
    DateIs(w, u[..15]);
  }

  lemma DashFails(l: Lx, w: string, u: string)
    requires w != "" && G.IsInteger(w) && w[0] != '-' && AtValue(l, w + (['-'] + u)) && !(|w| == 4 && Dated(u, 0))
    ensures Fails(l)
  {
    hide Newlines, Step, Next, Ahead, Steps, Slides, Breaks, Leads, Fails, Dated;
    if |w| == 4 {
      var y, j := YearRuns(l, w, u);
      Quiet(l, y, j);
      DateBreaks(y, u);
      FailsThen(l, y, j);
    } else {
      var m, k := WholeRuns(l, w, ['-'] + u);
      Quiet(l, m, k);
      Read(m, '-', u);
      DashBreaks(m, w);
      FailsThen(l, m, k);
    }
  }

  lemma DashBreaks(m: Lx, w: string)
    requires m.state == NumberOrDate && m.pos < |m.input| && Rune(m) == '-' && Current(m) == w && |w| != 4
    ensures Breaks(m)
  {
    hide Newlines;
    assert Step(m) == Errorf(Next(m));
    ErrorBreaks(m);
  }

  lemma DateIs(w: string, u: string)
    requires |w| == 4 && (forall c <- w :: IsDigit(c)) && |u| == 15
    requires forall k | 0 <= k < 15 :: FitsFormat(DATE_FORMAT[k], u[k])
    ensures IsDate(w + "-" + u)
  {
    hide FitsFormat;
    var d := w + "-" + u;
    FormatSplits();
    FitsYear(w);
    forall i | 0 <= i < |d|
      ensures FitsFormat(G.DATETIME[i], d[i])
    {
      if i >= 5 {
        assert d[i] == u[i - 5] && G.DATETIME[i - 5 + 5] == DATE_FORMAT[i - 5];
      }
    }
  }

  lemma FitsYear(w: string)
    requires |w| == 4 && forall c <- w :: IsDigit(c)
    ensures (forall i | 0 <= i < 4 :: FitsFormat('0', w[i])) && FitsFormat('-', '-')
  {
  }

  /** A text begins as the rest of a date, from the i-th character of its format. */
  predicate Dated(u: string, i: nat)
    decreases |DATE_FORMAT| - i
  {
    i >= |DATE_FORMAT| || (u != "" && FitsFormat(DATE_FORMAT[i], u[0]) && Dated(u[1..], i + 1))
  }

  lemma {:induction false} DatedIs(u: string, i: nat)
    requires i <= |DATE_FORMAT| && Dated(u, i)
    ensures |u| >= |DATE_FORMAT| - i && forall k | 0 <= k < |DATE_FORMAT| - i :: FitsFormat(DATE_FORMAT[i + k], u[k])
    decreases |DATE_FORMAT| - i
  {
    hide FitsFormat;
    if i < |DATE_FORMAT| {
      var v, n := u[1..], |DATE_FORMAT| - i;
      assert FitsFormat(DATE_FORMAT[i], u[0]) && Dated(v, i + 1);
      hide Dated;
      DatedIs(v, i + 1);
      forall k | 0 < k < n
        ensures FitsFormat(DATE_FORMAT[i + k], u[k])
      {
        assert u[k] == v[k - 1] && FitsFormat(DATE_FORMAT[i + 1 + (k - 1)], v[k - 1]);
      }
    }
  }

  lemma DateBreaks(y: Lx, u: string)
    requires y.state == DateAfterYear && Ahead(y) == u && !Dated(u, 0)
    ensures Breaks(y)
  {
    hide Newlines, LexDate, FitsFormat, Dated;
    DateFails(y, u, 0);
    assert Step(y) == LexDate(y, 0);
    ErrorBreaks(y);
  }

  lemma {:induction false} DateFails(l: Lx, u: string, i: nat)
    requires i <= |DATE_FORMAT| && Ahead(l) == u && !Dated(u, i)
    ensures exists e: Lx :: e.out == l.out && LexDate(l, i) == Errorf(e)
    decreases |DATE_FORMAT| - i
  {
    hide Newlines, Next, Ahead, FitsFormat;
    NextQuiet(l);
    if u == "" {
      NothingThere(l);
      NulFitsNot(DATE_FORMAT[i]) by { assert DATE_FORMAT[i] in DATE_FORMAT && EOF !in DATE_FORMAT; }
    } else {
      assert u == [u[0]] + u[1..];
      Read(l, u[0], u[1..]);
      if FitsFormat(DATE_FORMAT[i], u[0]) {
        DateFails(Next(l), u[1..], i + 1);
      }
    }
  }

  lemma NulFitsNot(f: char)
    requires f != EOF
    ensures !FitsFormat(f, EOF)
  {
  }

  lemma NextQuiet(l: Lx)
    ensures Next(l).out == l.out && Next(l).stack == l.stack
  {
    hide Newlines;
  }

  /** A true or a false that is misspelt: an error is sent, although a boolean follows it. */
  lemma WordTotal(l: Lx, b: bool, t: string) returns (ok: bool, f: Form, r: Lx, n: nat, its: seq<Item>)
    requires AtValue(l, t) && t != "" && t[|t| - 1] == '\n' && t[0] == Word(b)[0]
    ensures if ok then Taken(l, f, r, n, its) else Fails(l)
  {
    hide Newlines, Step, Next, Ahead, Steps, Slides, Breaks, Leads, Fails, Taken, Back;
    var w := Word(b);
    if w <= t {
      var after := t[|w|..];
      assert t == w + after;
      var it;
      r, n, it := BoolLexes(l, b, after);
      ok, f, its := true, Token(ItemBool, w), [it];
      TakenToken(l, f, r, n, it, after);
    } else {
      assert t == [t[0]] + t[1..];
      Read(l, t[0], t[1..]);
      var m := Step(l);
      WordTurn(l, m, b);
      QuietOne(l, m);
      WordBreaks(m, b, t[1..]);
      FailsThen(l, m, 1);
      ok, f, r, n, its := false, Token(ItemBool, ""), l, 0, [];
    }
  }

  lemma WordTurn(l: Lx, m: Lx, b: bool)
    requires Ahead(l) != "" && AtValue(l, [Word(b)[0]] + Ahead(l)[1..]) && m == Step(l)
    ensures m.state == (if b then State.True else State.False) && m.out == l.out && Ahead(m) == Ahead(l)[1..]
    ensures m.stack == l.stack
  {
    hide Newlines, Next, Ahead;
    Read(l, Word(b)[0], Ahead(l)[1..]);
    assert m == Go(Next(l), if b then State.True else State.False);
    AheadOf(m, Next(l));
  }

  lemma WordBreaks(m: Lx, b: bool, u: string)
    requires m.state == (if b then State.True else State.False) && m.stack != [] && Ahead(m) == u
    requires !(Word(b) <= [Word(b)[0]] + u)
    ensures Breaks(m)
  {
    hide Newlines, LexConst, Ahead, Pop, Emit;
    PrefixStep(Word(b)[0], Word(b)[1..], u);
    assert Word(b) == [Word(b)[0]] + Word(b)[1..];
    ConstFails(m, Word(b), 1, u);
    BoolStep(m, b);
    var e: Lx :| e.out == m.out && e.stack == m.stack && LexConst(m, Word(b), 1) == Errorf(e);
    PoppedError(m, e);
  }

  lemma PrefixStep(c: char, a: string, b: string)
    ensures [c] + a <= [c] + b <==> a <= b
  {
    assert ([c] + a)[1..] == a && ([c] + b)[1..] == b;
    assert a <= b ==> [c] + b == [c] + a + b[|a|..];
  }

  lemma {:induction false} ConstFails(l: Lx, s: string, i: nat, u: string)
    requires i <= |s| && Ahead(l) == u && !(s[i..] <= u) && EOF !in s
    ensures exists e: Lx :: e.out == l.out && e.stack == l.stack && LexConst(l, s, i) == Errorf(e)
    decreases |s| - i
  {
    hide Newlines, Next, Ahead;
    NextQuiet(l);
    if u == "" {
      NothingThere(l);
      assert i < |s|;
      assert s[i] in s;
    } else {
      assert u == [u[0]] + u[1..];
      Read(l, u[0], u[1..]);
      assert i < |s|;
      if s[i] == u[0] {
        PrefixStep(s[i], s[i + 1..], u[1..]);
        assert s[i..] == [s[i]] + s[i + 1..];
        ConstFails(Next(l), s, i + 1, u[1..]);
      }
    }
  }

  lemma NothingThere(l: Lx)
    requires Ahead(l) == ""
    ensures Rune(l) == EOF
  {
  }

  lemma PoppedError(m: Lx, e: Lx)
    requires e.out == m.out && m.state in {State.True, State.False} && e.stack != []
    requires Step(m) == Pop(Emit(Errorf(e), ItemBool))
    ensures Breaks(m)
  {
    hide Newlines, Step;
    var more := Step(m).out[|m.out|..];
    assert |more| == 2 && more[0].typ == ItemError && more[1].typ == ItemBool;
    assert more[0] in more;
  }

  // ---------- comments and white space ----------

  /** Where a comment ends. */
  function NoteLength(u: string): (i: nat)
    requires u != "" && u[|u| - 1] == '\n'
    ensures i < |u| && NoteText(u[..i]) && (IsNL(u[i]) || u[i] == EOF)
  {
    if IsNL(u[0]) || u[0] == EOF then 0 else
    var i := 1 + NoteLength(u[1..]);
    assert u[..i] == [u[0]] + u[1..][..i - 1];
    i
  }

  lemma SplitNote(u: string) returns (text: string, end: char, v: string)
    requires u != "" && u[|u| - 1] == '\n'
    ensures NoteText(text) && (IsNL(end) || end == EOF) && u == text + ([end] + v)
    ensures "#" + u == "#" + text + ([end] + v)
  {
    hide NoteText, IsNL;
    var i := NoteLength(u);
    text, end, v := u[..i], u[i], u[i + 1..];
    Parted(u, i);
  }

  lemma Parted(u: string, i: nat)
    requires i < |u|
    ensures u == u[..i] + ([u[i]] + u[i + 1..]) && "#" + u == "#" + u[..i] + ([u[i]] + u[i + 1..])
  {
    assert u == u[..i] + ([u[i]] + u[i + 1..]);
    assert "#" + (u[..i] + ([u[i]] + u[i + 1..])) == "#" + u[..i] + ([u[i]] + u[i + 1..]);
  }

  lemma NotePlain(its: seq<Item>)
    requires IsNote(its)
    ensures NoStop(its)
  {
  }

  lemma NulBreaks(m: Lx)
    requires m.state in {Top, ArrayValueEnd} && m.pos < |m.input| && Rune(m) == EOF && m.start == m.pos
    ensures Breaks(m)
  {
    hide Newlines;
    assert Step(m) == Errorf(Next(m));
    ErrorBreaks(m);
  }

  /** No value begins like this. */
  predicate NoValue(t: string) {
    t == "" || (!IsWhitespace(t[0]) && !IsDigit(t[0]) && t[0] !in {'[', '\"', '\'', 't', 'f', '-'})
  }

  lemma ValueBreaks(m: Lx)
    requires m.state == State.Val && NoValue(Ahead(m))
    ensures Breaks(m)
  {
    hide Newlines;
    assert Step(m) == Errorf(Next(m));
    ErrorBreaks(m);
  }

  /** Nothing, or a NUL, in place of an element. */
  lemma NoElement(l: Lx, t: string)
    requires l.state == ArrayValue && Inside(l, t) && (t == "" || t[0] == EOF)
    ensures Fails(l)
  {
    hide Newlines, Next, Backup, Ahead, Steps, Breaks, Leads, Fails;
    R.Moves(l);
    R.Moves(Next(l));
    var b := Backup(Next(l));
    var m := Step(l);
    NoneRead(l, t);
    assert m == Go(Push(b, ArrayValueEnd), State.Val);
    AheadOf(m, l);
    QuietOne(l, m);
    ValueBreaks(m);
    FailsThen(l, m, 1);
  }

  lemma NoneRead(l: Lx, t: string)
    requires Ahead(l) == t && (t == "" || t[0] == EOF)
    ensures Rune(l) == EOF
  {
  }

  /** A comment, wherever one may stand; ended by a NUL it fails. */
  lemma NoteTotal(l: Lx, u: string) returns (ok: bool, text: string, end: char, r: Lx, n: nat, its: seq<Item>)
    requires l.state in {Top, TopEnd, ArrayValue, ArrayValueEnd} && Ahead(l) == "#" + u && u != "" && u[|u| - 1] == '\n'
    requires l.state in {ArrayValue, ArrayValueEnd} ==> l.stack != []
    ensures ok ==> NoteText(text) && IsNL(end) && u == text + Ahead(r) && Ahead(r) != "" && Ahead(r)[0] == end
    ensures ok ==> Steps(l, r, n) && r.state == Resumed(l.state) && r.stack == l.stack && r.start == r.pos
    ensures ok ==> r.input == l.input && r.out == l.out + its && IsNote(its)
    ensures !ok ==> Fails(l)
  {
    hide Newlines, Step, Next, Ahead, Steps, Breaks, Leads, Fails, NoteText, IsNL, IsNote;
    var v;
    text, end, v := SplitNote(u);
    var rest := [end] + v;
    r, n, its := NoteLexes(l, text, end, v);
    ok := IsNL(end);
    if !ok {
      NotePlain(its);
      Sent(l, r, n, its);
      NulFails(r, rest);
      FailsOn(l, r, n);
    }
  }

  /** A NUL behind a comment. */
  lemma NulFails(r: Lx, rest: string)
    requires r.state in {Top, ArrayValue, ArrayValueEnd} && r.start == r.pos && Ahead(r) == rest
    requires rest != "" && rest[0] == EOF && (r.state == ArrayValue ==> r.stack != [])
    ensures Fails(r)
  {
    hide Newlines, Step, Next, Ahead, Steps, Breaks, Leads, Fails;
    if r.state == ArrayValue {
      NoElement(r, rest);
    } else {
      assert rest == [rest[0]] + rest[1..];
      Read(r, rest[0], rest[1..]);
      NulBreaks(r);
      FailsAt(r);
    }
  }

  predicate GapBegins(t: string) {
    t != "" && (IsWhitespace(t[0]) || IsNL(t[0]) || t[0] == '#')
  }

  predicate EndsBreak(t: string) {
    t == "" || t[|t| - 1] == '\n'
  }

  /** All that may stand between the elements of an array, as far as it goes. */
  lemma {:induction false} GapsTotal(l: Lx, t: string) returns (ok: bool, gs: seq<Gap>, r: Lx, n: nat, its: seq<Item>)
    requires Inside(l, t) && EndsBreak(t)
    ensures ok ==> AreGaps(gs) && t == GapsText(gs) + Ahead(r) && Steps(l, r, n) && Inside(r, Ahead(r))
    ensures ok ==> r.state == l.state && r.stack == l.stack && r.input == l.input && r.out == l.out + its && NoStop(its)
    ensures ok ==> !GapBegins(Ahead(r)) && EndsBreak(Ahead(r))
    ensures !ok ==> Fails(l)
    decreases |t|
  {
    hide Newlines, Step, Next, Ahead, Steps, Breaks, Leads, Fails, NoteText, IsGap, GapText, IsNL, IsWhitespace;
    if !GapBegins(t) {
      ok, gs, r, n, its := true, [], l, 0, [];
      NoSteps(l);
      assert GapsText([]) + t == t;
      assert l.out + [] == l.out;
    } else {
      var g, m, k, first;
      ok, g, m, k, first := GapTotal(l, t);
      if ok {
        var more, j, notes;
        ok, more, r, j, notes := GapsTotal(m, Ahead(m));
        gs, n, its := [g] + more, k + j, first + notes;
        if ok {
          StepsOn(l, m, r, k, j);
          assert gs[0] == g && gs[1..] == more;
          assert t == GapText(g) + (GapsText(more) + Ahead(r)) == GapsText(gs) + Ahead(r);
          assert l.out + first + notes == l.out + its;
          assert forall it <- its :: it in first || it in notes;
        } else {
          Sent(l, m, k, first);
          FailsOn(l, m, k);
        }
      } else {
        gs, r, n, its := [], l, 0, [];
      }
    }
  }

  lemma GapTotal(l: Lx, t: string) returns (ok: bool, g: Gap, r: Lx, n: nat, its: seq<Item>)
    requires Inside(l, t) && EndsBreak(t) && GapBegins(t)
    ensures ok ==> IsGap(g) && t == GapText(g) + Ahead(r) && GapText(g) != "" && Steps(l, r, n) && Inside(r, Ahead(r))
    ensures ok ==> r.state == l.state && r.stack == l.stack && r.input == l.input && r.out == l.out + its && NoStop(its)
    ensures ok ==> EndsBreak(Ahead(r))
    ensures !ok ==> Fails(l)
  {
    hide Newlines, Step, Next, Ahead, Steps, Breaks, Leads, Fails, NoteText, IsWhitespace, IsNL;
    var u := t[1..];
    assert t == [t[0]] + u;
    if t[0] == '#' {
      ok, g, r, n, its := RemarkGap(l, u);
    } else {
      r := WhiteRuns(l, t[0], u);
      ok, g, n, its := true, White(t[0]), 2, [];
      assert l.out + [] == l.out;
    }
  }

  lemma RemarkGap(l: Lx, u: string) returns (ok: bool, g: Gap, r: Lx, n: nat, its: seq<Item>)
    requires Inside(l, ['#'] + u) && EndsBreak(['#'] + u)
    ensures ok ==> IsGap(g) && ['#'] + u == GapText(g) + Ahead(r) && GapText(g) != "" && Steps(l, r, n)
    ensures ok ==> Inside(r, Ahead(r)) && r.state == l.state && r.stack == l.stack && r.input == l.input
    ensures ok ==> r.out == l.out + its && NoStop(its) && EndsBreak(Ahead(r))
    ensures !ok ==> Fails(l)
  {
    hide Newlines, Step, Next, Ahead, Steps, Breaks, Leads, Fails, NoteText, IsWhitespace, IsNL;
    assert ['#'] + u == "#" + u && u != "" && u[|u| - 1] == '\n';
    var text, end, m, k;
    ok, text, end, m, k, its := NoteTotal(l, u);
    g, r, n := Note(text, end), l, 0;
    if ok {
      var v := Ahead(m)[1..];
      assert Ahead(m) == [end] + v;
      r := WhiteRuns(m, end, v);
      StepsOn(l, m, r, k, 2);
      n := k + 2;
      assert "#" + u == "#" + text + [end] + v;
      assert GapText(g) == "#" + text + [end];
      NotePlain(its);
    }
  }

  // ---------- values ----------

  lemma FormLast(f: Form)
    requires IsForm(f)
    ensures var s := FormText(f); s != "" && s[|s| - 1] != '\n'
  {
    hide G.StringText, MultiText, G.RawText, FitsFormat, G.IsInteger;
    if f.Token? {
      match f.typ {
        case ItemInteger => IntegerLast(f.text);
        case ItemFloat =>
          var w, c, d := FloatSplits(f.text);
          assert f.text[|f.text| - 1] == ([c] + d)[|d|];
          assert d != "" ==> d[|d| - 1] in d;
        case ItemDatetime => DateLast(f.text);
        case _ =>
      }
    } else {
      ElemsLast(f, 0);
    }
  }

  lemma IntegerLast(s: string)
    requires G.IsInteger(s)
    ensures s != "" && s[|s| - 1] != '\n'
  {
    var d := if s[0] == '-' then s[1..] else s;
    assert d[|d| - 1] in d;
  }

  lemma DateLast(d: string)
    requires IsDate(d)
    ensures d != "" && d[|d| - 1] != '\n'
  {
    hide FitsFormat, IsDate;
    DateSplits(d);
    assert FitsFormat(DATE_FORMAT[14], d[5..][14]);
    LastFits(d[19]);
  }

  lemma LastFits(c: char)
    ensures FitsFormat(DATE_FORMAT[14], c) <==> c == 'Z'
  {
  }

  lemma {:induction false} ElemsLast(f: Form, i: nat)
    requires f.List? && i <= |f.elems|
    ensures var s := ElemsText(f, i); s != "" && s[|s| - 1] == ']'
    decreases |f.elems| - i
  {
    hide ElemText, GapsText;
    if i < |f.elems| {
      ElemsLast(f, i + 1);
    }
  }

  lemma TakenEnds(l: Lx, f: Form, r: Lx, n: nat, its: seq<Item>, t: string)
    requires Taken(l, f, r, n, its) && Ahead(l) == t && EndsBreak(t)
    ensures Ahead(r) != "" && EndsBreak(Ahead(r)) && |Ahead(r)| < |t|
  {
    hide Newlines, Ahead, Steps, IsForm, FormText, Back;
    FormLast(f);
    LastOf(FormText(f), Ahead(r));
  }

  lemma LastOf(s: string, a: string)
    requires s != "" && s[|s| - 1] != '\n' && EndsBreak(s + a)
    ensures a != "" && EndsBreak(a)
  {
    assert (s + a)[|s| - 1] == s[|s| - 1];
  }

  lemma {:induction false} ValueTotal(l: Lx, t: string) returns (ok: bool, f: Form, r: Lx, n: nat, its: seq<Item>)
    requires AtValue(l, t) && t != "" && EndsBreak(t) && !IsWhitespace(t[0])
    ensures if ok then Taken(l, f, r, n, its) else Fails(l)
    decreases |t|, 0, 0
  {
    hide Newlines, Step, Next, Ahead, Steps, Slides, Breaks, Leads, Fails, Taken, Back, IsWhitespace, IsDigit;
    var c := t[0];
    if c == '[' {
      ok, f, r, n, its := ListTotal(l, t[1..]);
    } else if c == '\"' || c == '\'' {
      assert |t| >= 2;
      ok, f, r, n, its := QuotedTotal(l, c, t);
    } else if c == 't' || c == 'f' {
      ok, f, r, n, its := WordTotal(l, c == 't', t);
    } else if c == '-' {
      ok, f, r, n, its := SignTotal(l, t);
    } else if IsDigit(c) {
      ok, f, r, n, its := PlainTotal(l, t);
    } else {
      ValueBreaks(l);
      FailsAt(l);
      ok, f, r, n, its := false, Token(ItemInteger, ""), l, 0, [];
    }
  }

  lemma PlainTotal(l: Lx, t: string) returns (ok: bool, f: Form, r: Lx, n: nat, its: seq<Item>)
    requires AtValue(l, t) && t != "" && EndsBreak(t) && IsDigit(t[0])
    ensures if ok then Taken(l, f, r, n, its) else Fails(l)
  {
    hide Newlines, Step, Next, Ahead, Steps, Slides, Breaks, Leads, Fails, Taken, Back;
    var d, v := SplitDigits(t);
    assert d[0] in d;
    ok, f, r, n, its := WholeTotal(l, d, v);
  }

  lemma {:induction false} ListTotal(l: Lx, t: string) returns (ok: bool, f: Form, r: Lx, n: nat, its: seq<Item>)
    requires AtValue(l, "[" + t) && EndsBreak(t)
    ensures if ok then Taken(l, f, r, n, its) else Fails(l)
    decreases |t|, 2, 0
  {
    hide Newlines, Step, Next, Ahead, Steps, Slides, Breaks, Leads, Fails, Back, IsForm, ElemsText;
    var m, first := ArrayOpens(l, t);
    OneTurn(l, m);
    var k, more;
    ok, f, r, k, more := ElemsTotal(m, t);
    n, its := k + 1, [first] + more;
    if ok {
      StepsOne(l, m, r, k);
      BackMore(l, m, r, first, more, Ahead(r));
      assert "[" + t == FormText(f) + Ahead(r);
      assert forall it <- its :: it == first || it in more;
    } else {
      Sent(l, m, 1, [first]);
      FailsOn(l, m, 1);
    }
  }

  /** The elements of an array, and the bracket that closes it. */
  ghost predicate TakenRest(l: Lx, f: Form, r: Lx, n: nat, its: seq<Item>) {
    f.List? && IsForm(f) && Ahead(l) == ElemsText(f, 0) + Ahead(r) && Steps(l, r, n) && Back(l, r, its, Ahead(r)) &&
    NoStop(its)
  }

  lemma {:induction false} ElemsTotal(l: Lx, t: string) returns (ok: bool, f: Form, r: Lx, n: nat, its: seq<Item>)
    requires l.state == ArrayValue && Inside(l, t) && EndsBreak(t)
    ensures f.List? && if ok then TakenRest(l, f, r, n, its) else Fails(l)
    decreases |t|, 1, 1
  {
    hide Newlines, Step, Next, Ahead, Steps, Slides, Breaks, Leads, Fails, Back, TakenRest, GapsText, AreGaps;
    f := List([], []);
    var gs, a, k, notes;
    ok, gs, a, k, notes := GapsTotal(l, t);
    r, n, its := a, k, notes;
    if ok {
      var u := Ahead(a);
      Sent(l, a, k, notes);
      if u != "" && u[0] == ']' {
        f, r, n, its := ListCloses(l, a, gs, k, notes);
      } else if u == "" || u[0] == ',' || u[0] == EOF {
        ElementFails(a, u);
        FailsOn(l, a, k);
        ok := false;
      } else {
        ok, f, r, n, its := ElementTotal(l, a, gs, k, notes, t);
      }
    }
  }

  lemma ElementFails(a: Lx, u: string)
    requires a.state == ArrayValue && Inside(a, u) && (u == "" || u[0] == ',' || u[0] == EOF)
    ensures Fails(a)
  {
    hide Newlines, Step, Next, Ahead, Steps, Breaks, Leads, Fails;
    if u != "" && u[0] == ',' {
      CommaBreaks(a);
      FailsAt(a);
    } else {
      NoElement(a, u);
    }
  }

  lemma CommaBreaks(a: Lx)
    requires a.state == ArrayValue && Ahead(a) != "" && Ahead(a)[0] == ','
    ensures Breaks(a)
  {
    hide Newlines;
    assert Step(a) == Errorf(Next(a));
    ErrorBreaks(a);
  }

  /** The closing bracket behind what may stand in front of it. */
  lemma ListCloses(l: Lx, a: Lx, gs: seq<Gap>, k: nat, notes: seq<Item>)
    returns (f: Form, r: Lx, n: nat, its: seq<Item>)
    requires AreGaps(gs) && Ahead(l) == GapsText(gs) + Ahead(a) && Steps(l, a, k) && Inside(a, Ahead(a))
    requires a.stack == l.stack && a.input == l.input && a.out == l.out + notes && NoStop(notes)
    requires Ahead(a) != "" && Ahead(a)[0] == ']'
    ensures TakenRest(l, f, r, n, its) && f == List([], gs)
  {
    hide Newlines, Step, Next, Ahead, Steps, Back, AreGaps, GapsText;
    var after := Ahead(a)[1..];
    assert Ahead(a) == "]" + after;
    var j, it;
    r, j, it := ArrayCloses(a, after);
    StepsOn(l, a, r, k, j);
    f, n, its := List([], gs), k + j, notes + [it];
    BackAppend(l, a, r, notes, [it], after);
    BackAhead(a, r, [it], after);
    assert Ahead(l) == ElemsText(f, 0) + after;
    assert forall i <- its :: i in notes || i == it;
  }

  lemma BackAhead(l: Lx, r: Lx, its: seq<Item>, after: string)
    requires Back(l, r, its, after)
    ensures Ahead(r) == after
  {
  }

  /** An element, and the rest of the array behind it. */
  lemma {:induction false} ElementTotal(l: Lx, a: Lx, gs: seq<Gap>, k: nat, notes: seq<Item>, t: string)
    returns (ok: bool, f: Form, r: Lx, n: nat, its: seq<Item>)
    requires AreGaps(gs) && Ahead(l) == t == GapsText(gs) + Ahead(a) && Steps(l, a, k) && Inside(a, Ahead(a))
    requires a.state == ArrayValue && a.stack == l.stack && a.input == l.input && a.out == l.out + notes
    requires NoStop(notes)
    requires !GapBegins(Ahead(a)) && EndsBreak(Ahead(a)) && Ahead(a) != "" && Ahead(a)[0] !in {']', ',', EOF}
    ensures f.List? && if ok then TakenRest(l, f, r, n, its) else Fails(l)
    decreases |t|, 1, 0
  {
    hide Newlines, Step, Next, Ahead, Steps, Breaks, Leads, Fails, Back, TakenRest, GapsText, AreGaps, IsForm, FormText,
      Taken;
    f := List([], []);
    Sent(l, a, k, notes);
    var u := Ahead(a);
    assert u == [u[0]] + u[1..];
    var v := ElementOpens(a, u[0], u[1..]);
    QuietOne(a, v);
    LeadsOn(l, a, v, k, 1);
    var g, b, j, value;
    ok, g, b, j, value := ValueTotal(v, u);
    r, n, its := b, j, value;
    if !ok {
      FailsOn(l, v, k + 1);
    } else {
      TakenEnds(v, g, b, j, value, u);
      InsideAgain(a, v, g, b, j, value);
      Sent(v, b, j, value);
      LeadsOn(l, v, b, k + 1, j);
      assert b.out == l.out + (notes + value);
      assert forall it <- notes + value :: it in notes || it in value;
      ok, f, r, n, its := BehindTotal(l, b, gs, g, k + 1 + j, notes + value, t);
    }
  }

  /** Behind an element: gaps, and the rest. */
  lemma {:induction false} BehindTotal(l: Lx, b: Lx, gs: seq<Gap>, g: Form, k: nat, items: seq<Item>, t: string)
    returns (ok: bool, f: Form, r: Lx, n: nat, its: seq<Item>)
    requires AreGaps(gs) && IsForm(g) && Ahead(l) == t == GapsText(gs) + (FormText(g) + Ahead(b)) && |Ahead(b)| < |t|
    requires Leads(l, b, k) && NoStop(items) && b.out == l.out + items && b.stack == l.stack && b.input == l.input
    requires b.state == ArrayValueEnd && Inside(b, Ahead(b)) && EndsBreak(Ahead(b))
    ensures f.List? && if ok then TakenRest(l, f, r, n, its) else Fails(l)
    decreases |t|, 0, 2
  {
    hide Newlines, Step, Next, Ahead, Steps, Breaks, Leads, Fails, Back, TakenRest, GapsText, AreGaps, IsForm, FormText;
    f := List([], []);
    var x, c, i, more;
    ok, x, c, i, more := GapsTotal(b, Ahead(b));
    r, n, its := c, i, more;
    if !ok {
      FailsOn(l, b, k);
    } else {
      Sent(b, c, i, more);
      LeadsOn(l, b, c, k, i);
      assert c.out == l.out + (items + more);
      assert forall it <- items + more :: it in items || it in more;
      var e := Elem(gs, g, x, false);
      assert t == GapsText(gs) + (FormText(g) + (GapsText(x) + Ahead(c))) == ElemText(e) + Ahead(c);
      ok, f, r, n, its := RestTotal(l, c, e, k + i, items + more, t);
    }
  }

  lemma LeadsSteps(l: Lx, m: Lx, n: nat)
    requires Leads(l, m, n)
    ensures Steps(l, m, n)
  {
  }

  /** Behind an element. */
  lemma InsideAgain(a: Lx, v: Lx, g: Form, b: Lx, j: nat, value: seq<Item>)
    requires a.stack != [] && v.stack == a.stack + [ArrayValueEnd] && v.out == a.out && v.input == a.input
    requires Taken(v, g, b, j, value)
    ensures Inside(b, Ahead(b)) && b.state == ArrayValueEnd && b.stack == a.stack && b.input == a.input
    ensures b.out == a.out + value && NoStop(value) && IsForm(g) && Steps(v, b, j)
    ensures Ahead(v) == FormText(g) + Ahead(b)
  {
    hide Newlines, Ahead, Steps, IsForm, FormText;
    assert (a.stack + [ArrayValueEnd])[..|a.stack|] == a.stack;
  }

  lemma {:induction false} ElemsShift(e: Elem, es: seq<Elem>, last: seq<Gap>, i: nat)
    requires i <= |es|
    ensures ElemsText(List([e] + es, last), i + 1) == ElemsText(List(es, last), i)
    decreases |es| - i
  {
    hide ElemText, GapsText;
    if i < |es| {
      assert ([e] + es)[i + 1] == es[i];
      ElemsShift(e, es, last, i + 1);
    }
  }

  lemma ListGrows(e: Elem, f: Form)
    requires f.List? && IsForm(f) && IsElem(e) && (f.elems != [] ==> e.comma)
    ensures IsForm(List([e] + f.elems, f.last))
    ensures ElemsText(List([e] + f.elems, f.last), 0) == ElemText(e) + ElemsText(f, 0)
  {
    hide IsElem, ElemText, GapsText, AreGaps, IsForm;
    ElemsShift(e, f.elems, f.last, 0);
    assert f == List(f.elems, f.last);
    var g := List([e] + f.elems, f.last);
    assert g.elems[0] == e;
    FormGrows(e, f);
  }

  lemma FormGrows(e: Elem, f: Form)
    requires f.List? && IsForm(f) && IsElem(e) && (f.elems != [] ==> e.comma)
    ensures IsForm(List([e] + f.elems, f.last))
  {
    hide IsElem, AreGaps;
    var es := [e] + f.elems;
    forall i | 0 <= i < |es|
      ensures IsElem(es[i]) && (i < |es| - 1 ==> es[i].comma)
    {
      assert i > 0 ==> es[i] == f.elems[i - 1];
    }
  }

  lemma AfterBreaks(c: Lx)
    requires c.state == ArrayValueEnd && !GapBegins(Ahead(c)) && (Ahead(c) != "" ==> Ahead(c)[0] !in {',', ']'})
    ensures Breaks(c)
  {
    hide Newlines;
    assert Step(c) == Errorf(Next(c));
    ErrorBreaks(c);
  }

  /** Up to what is behind an element and the gaps around it. */
  ghost predicate AtRest(l: Lx, c: Lx, e: Elem, k: nat, items: seq<Item>) {
    IsElem(e) && !e.comma && Ahead(l) == ElemText(e) + Ahead(c) && Leads(l, c, k) && NoStop(items) &&
    c.out == l.out + items && c.state == ArrayValueEnd && Inside(c, Ahead(c)) && c.stack == l.stack &&
    c.input == l.input && EndsBreak(Ahead(c))
  }

  /** A comma and more elements, or the closing bracket. */
  lemma {:induction false} RestTotal(l: Lx, c: Lx, e: Elem, k: nat, items: seq<Item>, t: string)
    returns (ok: bool, f: Form, r: Lx, n: nat, its: seq<Item>)
    requires AtRest(l, c, e, k, items) && Ahead(l) == t && |Ahead(c)| < |t| && !GapBegins(Ahead(c))
    ensures f.List? && if ok then TakenRest(l, f, r, n, its) else Fails(l)
    decreases |t|, 0, 1
  {
    hide Newlines, Step, Next, Ahead, Steps, Breaks, Leads, Fails, TakenRest, IsElem, ElemText, Inside;
    var w := Ahead(c);
    if w != "" && w[0] == ',' {
      ok, f, r, n, its := MoreTotal(l, c, e, k, items, t);
    } else if w != "" && w[0] == ']' {
      f, r, n, its := LastTaken(l, c, e, k, items);
      ok := true;
    } else {
      AfterBreaks(c);
      FailsThen(l, c, k);
      ok, f, r, n, its := false, List([], []), l, 0, [];
    }
  }

  lemma {:induction false} MoreTotal(l: Lx, c: Lx, e: Elem, k: nat, items: seq<Item>, t: string)
    returns (ok: bool, f: Form, r: Lx, n: nat, its: seq<Item>)
    requires AtRest(l, c, e, k, items) && Ahead(l) == t && |Ahead(c)| < |t| && Ahead(c) != "" && Ahead(c)[0] == ','
    ensures f.List? && if ok then TakenRest(l, f, r, n, its) else Fails(l)
    decreases |t|, 0, 0
  {
    hide Newlines, Step, Next, Ahead, Steps, Breaks, Leads, Fails, TakenRest, IsElem, ElemText;
    var w := Ahead(c);
    assert w == "," + w[1..];
    var d := CommaRuns(c, w[1..]);
    QuietOne(c, d);
    LeadsOn(l, c, d, k, 1);
    var h, j, more;
    ok, h, r, j, more := ElemsTotal(d, w[1..]);
    f, n, its := h, k + 1 + j, items + more;
    if ok {
      var e' := e.(comma := true);
      WithComma(e, w[1..]);
      f := List([e'] + h.elems, h.last);
      LeadsSteps(l, d, k + 1);
      RestTaken(l, d, h, r, e', k + 1, j, items, more);
    } else {
      FailsOn(l, d, k + 1);
    }
  }

  lemma WithComma(e: Elem, rest: string)
    requires IsElem(e) && !e.comma
    ensures IsElem(e.(comma := true)) && ElemText(e) + ("," + rest) == ElemText(e.(comma := true)) + rest
  {
    hide AreGaps, IsForm, GapsText, FormText;
    assert ElemText(e) + "" == ElemText(e);
  }

  lemma LastTaken(l: Lx, c: Lx, e: Elem, k: nat, items: seq<Item>) returns (f: Form, r: Lx, n: nat, its: seq<Item>)
    requires AtRest(l, c, e, k, items) && Ahead(c) != "" && Ahead(c)[0] == ']'
    ensures f.List? && TakenRest(l, f, r, n, its)
  {
    hide Newlines, Step, Next, Ahead, Steps, Leads, TakenRest, IsElem, ElemText, GapsText, AreGaps;
    NoGaps(c);
    var h, j, more;
    h, r, j, more := ListCloses(c, c, [], 0, []);
    f, n, its := List([e] + h.elems, h.last), k + j, items + more;
    LeadsSteps(l, c, k);
    RestTaken(l, c, h, r, e, k, j, items, more);
  }

  lemma NoGaps(c: Lx)
    ensures AreGaps([]) && Ahead(c) == GapsText([]) + Ahead(c) && Steps(c, c, 0) && c.out == c.out + [] && NoStop([])
  {
    hide Newlines, Ahead;
  }

  lemma RestTaken(l: Lx, d: Lx, h: Form, r: Lx, e: Elem, k: nat, j: nat, items: seq<Item>, more: seq<Item>)
    requires TakenRest(d, h, r, j, more) && Steps(l, d, k) && IsElem(e) && (h.elems != [] ==> e.comma)
    requires Ahead(l) == ElemText(e) + Ahead(d)
    requires d.stack == l.stack && d.input == l.input && d.out == l.out + items && NoStop(items)
    ensures TakenRest(l, List([e] + h.elems, h.last), r, k + j, items + more)
  {
    hide Newlines, Step, Ahead, Steps, Back, IsForm, ElemText, ElemsText, IsElem;
    StepsOn(l, d, r, k, j);
    ListGrows(e, h);
    BackAppend(l, d, r, items, more, Ahead(r));
    assert ElemText(e) + (ElemsText(h, 0) + Ahead(r)) == ElemText(e) + ElemsText(h, 0) + Ahead(r);
    assert forall it <- items + more :: it in items || it in more;
  }
}
