/** What the notations of a text come to (lex.go, parse.go): multi-line strings are read byte for byte, and
    comments, blanks and line ends change nothing. */
module TomlReadings {
  import opened Options
  import opened TomlTree
  import opened TomlContext
  import opened TomlItems
  import opened TomlText
  import opened TomlForms
  import opened TomlWritten
  import Q = TomlQuote
  import L = TomlLex
  import R = TomlLexRuns
  import G = TomlGrammar

  // ---------- between triple quotes ----------

  predicate ThreeAt(q: char, s: string, i: nat) {
    i + 3 <= |s| && s[i] == q && s[i + 1] == q && s[i + 2] == q
  }

  /** Nowhere three of them in a row. */
  ghost predicate NoThree(q: char, s: string) {
    forall i: nat :: !ThreeAt(q, s, i)
  }

  /** Without escapes, anything may stand there that does not close the string. */
  lemma {:induction false} MultiTextExactly(q: char, s: string)
    requires q in {'\"', '\''} && (q == '\"' ==> '\\' !in s)
    ensures MultiText(q, s) <==> NoThree(q, s) && (s != "" ==> s[|s| - 1] != q)
    decreases |s|
  {
    if s != "" {
      assert s[0] in s && forall c <- s[1..] :: c in s;
      MultiTextExactly(q, s[1..]);
      NoThreeFrom(q, s);
    }
  }

  lemma NoThreeFrom(q: char, s: string)
    requires s != ""
    ensures NoThree(q, s) <==> NoThree(q, s[1..]) && !(|s| >= 3 && s[0] == s[1] == s[2] == q)
  {
    assert ThreeAt(q, s, 0) <==> |s| >= 3 && s[0] == s[1] == s[2] == q;
    if NoThree(q, s) {
      forall i: nat
        ensures !ThreeAt(q, s[1..], i)
      {
        assert !ThreeAt(q, s, i + 1);
      }
    }
    if NoThree(q, s[1..]) {
      forall i: nat
        ensures ThreeAt(q, s, i) ==> i == 0
      {
        assert i > 0 ==> !ThreeAt(q, s[1..], i - 1);
      }
    }
  }

  /** Where there is no backslash nothing is folded or replaced. */
  lemma {:induction false} NothingFolded(s: string)
    requires '\\' !in s
    ensures StripEscapedWhitespace(s, false) == s
    decreases |s|
  {
    if s != "" {
      assert s[0] in s && forall c <- s[1..] :: c in s;
      NothingFolded(s[1..]);
    }
  }

  lemma {:induction false} NothingEscaped(s: string)
    requires '\\' !in s
    ensures Q.Unquote(s) == Q.Read(s)
  {
    NoEscapes(s);
    assert !Q.HasEscape(s);
  }

  lemma {:induction false} NoEscapes(s: string)
    requires '\\' !in s
    ensures Q.ReplaceEscapes(s) == s
    decreases |s|
  {
    hide Q.Escape;
    if s != "" {
      assert s[0] in s && forall c <- s[1..] :: c in s;
      NoEscapes(s[1..]);
    }
  }

  /** What is between three single quotes, or three double ones and has no backslash, is read byte for byte,
      but for a line's end right in front. */
  lemma MultiMeans(q: char, s: string)
    requires q in {'\"', '\''} && (q == '\"' ==> '\\' !in s)
    ensures Meant(Token(TripleQuoted(q), "\n" + s)) == As(Str(s))
    ensures s == "" || s[0] != '\n' ==> Meant(Token(TripleQuoted(q), s)) == As(Str(s))
  {
    hide Q.Unquote, StripEscapedWhitespace;
    var t := "\n" + s;
    assert t[0] == '\n' && t[1..] == s;
    if q == '\"' {
      assert forall c <- t :: c in s || c == '\n';
      NothingFolded(s);
      NothingFolded(t);
      NothingEscaped(s);
    }
  }

  /** A backslash at a line's end adds nothing, nor does the white space behind it; the rest stays. */
  lemma {:induction false} FoldsAway(a: string, w: string, b: string, swallow: bool)
    requires (forall c <- w :: L.IsSpace(c)) && (b == "" || !L.IsSpace(b[0]))
    ensures StripEscapedWhitespace(a + "\\\n" + w + b, swallow)
         == StripEscapedWhitespace(a, swallow) + StripEscapedWhitespace(b, false)
    decreases |a|
  {
    hide L.IsSpace, StripEscapedWhitespace;
    var fold := "\\\n" + w + b;
    assert a + "\\\n" + w + b == a + fold;
    if a == "" {
      NoneStripped(swallow);
      FoldStripped(fold, w + b, swallow);
      SpaceGoes(w, b);
      assert a + fold == fold;
    } else {
      Rejoined(a, w, b, 1);
      OneStripped(a, fold, swallow);
      if |a| >= 2 && a[0] == '\\' && a[1] == '\n' {
        Rejoined(a, w, b, 2);
        FoldsAway(a[2..], w, b, true);
      } else if swallow && L.IsSpace(a[0]) {
        FoldsAway(a[1..], w, b, true);
      } else {
        FoldsAway(a[1..], w, b, false);
      }
    }
  }

  lemma NoneStripped(swallow: bool)
    ensures StripEscapedWhitespace("", swallow) == ""
  {
  }

  lemma FoldStripped(s: string, rest: string, swallow: bool)
    requires s == "\\\n" + rest
    ensures StripEscapedWhitespace(s, swallow) == StripEscapedWhitespace(rest, true)
  {
    assert s[0] == '\\' && s[1] == '\n' && s[2..] == rest;
  }

  lemma Rejoined(a: string, w: string, b: string, i: nat)
    requires i <= |a|
    ensures a[i..] + "\\\n" + w + b == a[i..] + ("\\\n" + w + b)
    ensures (a + ("\\\n" + w + b))[i..] == a[i..] + ("\\\n" + w + b)
  {
  }

  /** The first character of a text in front of a backslash. */
  lemma OneStripped(a: string, t: string, swallow: bool)
    requires a != "" && t != "" && t[0] == '\\'
    ensures var s, fold, gone := a + t, |a| >= 2 && a[0] == '\\' && a[1] == '\n', swallow && L.IsSpace(a[0]);
            (fold ==> StripEscapedWhitespace(s, swallow) == StripEscapedWhitespace(a[2..] + t, true)) &&
            (fold ==> StripEscapedWhitespace(a, swallow) == StripEscapedWhitespace(a[2..], true)) &&
            (!fold && gone ==> StripEscapedWhitespace(s, swallow) == StripEscapedWhitespace(a[1..] + t, true)) &&
            (!fold && gone ==> StripEscapedWhitespace(a, swallow) == StripEscapedWhitespace(a[1..], true)) &&
            (!fold && !gone ==>
            StripEscapedWhitespace(s, swallow) == [a[0]] + StripEscapedWhitespace(a[1..] + t, false)) &&
            (!fold && !gone ==> StripEscapedWhitespace(a, swallow) == [a[0]] + StripEscapedWhitespace(a[1..], false))
  {
    hide L.IsSpace;
    var s := a + t;
    assert s[0] == a[0] && s[1..] == a[1..] + t && (|a| == 1 ==> s[1] == '\\');
    assert |a| >= 2 ==> s[1] == a[1] && s[2..] == a[2..] + t;
  }

  lemma {:induction false} SpaceGoes(w: string, b: string)
    requires (forall c <- w :: L.IsSpace(c)) && (b == "" || !L.IsSpace(b[0]))
    ensures StripEscapedWhitespace(w + b, true) == StripEscapedWhitespace(b, false)
    decreases |w|
  {
    if w == "" {
      assert w + b == b;
    } else {
      assert w[0] in w && forall c <- w[1..] :: c in w;
      assert (w + b)[0] == w[0] && (w + b)[1..] == w[1..] + b && !L.IsSpace('\\');
      SpaceGoes(w[1..], b);
    }
  }

  /** So a string that is folded there means its two parts. */
  lemma FoldMeans(a: string, w: string, b: string)
    requires a != "" && a[0] != '\n' && '\\' !in a + b
    requires (forall c <- w :: L.IsSpace(c)) && (b == "" || !L.IsSpace(b[0]))
    ensures Meant(Token(L.ItemMultilineString, a + "\\\n" + w + b)) == As(Str(a + b))
  {
    hide Q.Unquote, StripEscapedWhitespace, L.IsSpace;
    assert forall c :: c in a || c in b ==> c in a + b;
    FoldsAway(a, w, b, false);
    NothingFolded(a);
    NothingFolded(b);
    NothingEscaped(a + b);
  }

  // ---------- other tokens ----------

  /** Between single quotes everything is read byte for byte, and so is a basic string without a backslash;
      booleans are what they say; floats and dates keep their texts. */
  lemma TokenMeans(f: Form)
    requires f.Token? && IsForm(f)
    ensures f.typ == L.ItemRawString ==> Meant(f) == As(Str(f.text))
    ensures f.typ == L.ItemString && '\\' !in f.text ==> Meant(f) == As(Str(f.text))
    ensures f.typ == L.ItemBool ==> Meant(f) == As(Bool(f.text == "true"))
    ensures f.typ == L.ItemFloat && Meant(f).As? ==> Meant(f).v == Float(f.text)
    ensures f.typ == L.ItemDatetime ==> Meant(f) == if RealDate(f.text) then As(Datetime(f.text)) else Lost(BadDate)
  {
    hide Q.Unquote, ParseInt, StripFirstNewline, StripEscapedWhitespace, Overflows, Decimal;
    if f.typ == L.ItemString && '\\' !in f.text {
      NothingEscaped(f.text);
    }
    SameText(f.text);
  }

  /** What a letter behind a backslash stands for. */
  function Stands(c: char): char
  {
    if c == 'b' then 8 as char else if c == 't' then 9 as char else if c == 'n' then 10 as char
    else if c == 'f' then 12 as char else if c == 'r' then 13 as char else c
  }

  /** Every escape of one letter the lexer lets through, alone or between others. */
  lemma EscapeMeans(a: string, c: char, b: string)
    requires L.IsEscape(c) && '\\' !in a && '\\' !in b && (c == '\\' ==> b == "" || b[0] != 'u')
    ensures Meant(Token(L.ItemString, a + "\\" + [c] + b)) == As(Str(a + [Stands(c)] + b))
  {
    hide Q.ReplaceEscapes, Q.ReplaceUnicode, Q.HasEscape, Q.Escape;
    var r := a + [Stands(c)] + b;
    EscapeStands(c);
    EscapeBetween(a, c, b);
    assert Q.ReplaceEscapes(a + "\\" + [c] + b) == r;
    NoUnicode(a, c, b);
  }

  lemma EscapeStands(c: char)
    requires L.IsEscape(c)
    ensures Q.Escape(c) == [Stands(c)]
  {
  }

  lemma {:induction false} EscapeBetween(a: string, c: char, b: string)
    requires Q.Escape(c) == [Stands(c)] && '\\' !in a && '\\' !in b
    ensures Q.ReplaceEscapes(a + "\\" + [c] + b) == a + [Stands(c)] + b
    decreases |a|
  {
    hide Q.Escape, Stands;
    var t := a + "\\" + [c] + b;
    if a == "" {
      assert t[0] == '\\' && t[1] == c && t[2..] == b;
      NoEscapes(b);
    } else {
      assert a[0] in a && forall x <- a[1..] :: x in a;
      assert t[0] == a[0] && t[1..] == a[1..] + "\\" + [c] + b;
      EscapeBetween(a[1..], c, b);
      assert [a[0]] + (a[1..] + [Stands(c)] + b) == a + [Stands(c)] + b;
    }
  }

  lemma NoUnicode(a: string, c: char, b: string)
    requires L.IsEscape(c) && '\\' !in a && '\\' !in b && (c == '\\' ==> b == "" || b[0] != 'u')
    ensures Q.ReplaceUnicode(a + [Stands(c)] + b) == Q.Read(a + [Stands(c)] + b)
  {
    var r := a + [Stands(c)] + b;
    forall i | 0 <= i < |r| - 1
      ensures !(r[i] == '\\' && r[i + 1] == 'u')
    {
      if i < |a| {
        assert a[i] in a;
      } else if i > |a| {
        assert r[i] == b[i - |a| - 1] && b[i - |a| - 1] in b;
      } else {
        assert r[i + 1] == b[0];
      }
    }
    assert !Q.HasEscape(r);
  }

  /** An array is read exactly when all its elements are, and are of one type. */
  lemma UniformExactly(vs: seq<Value>)
    ensures Uniform(vs) <==>
            (forall v <- vs :: v.Str?) || (forall v <- vs :: v.Int?) || (forall v <- vs :: v.Bool?) ||
            (forall v <- vs :: v.Array?) || (forall v <- vs :: v.Float?) || (forall v <- vs :: v.Datetime?)
  {
    if vs != [] {
      assert vs[0] in vs;
      assert Uniform(vs) <==> forall v <- vs :: SameType(vs[0], v) by {
        assert forall v :: v in vs <==> exists i | 0 <= i < |vs| :: vs[i] == v;
      }
    }
  }

  // ---------- one key in a text ----------

  /** `name = form` is read as that name with what is meant by the form, for every notation. */
  lemma KeyReadsAs(name: string, form: Form, v: Value)
    requires SafeName(name) && IsForm(form) && Meant(form) == As(v)
    ensures G.Agrees(L.Start(name + " = " + FormText(form)))
    ensures Parse(START, R.Final(L.Start(name + " = " + FormText(form))).out)
         == Parsed(State(Hash(map[name := Prim(v)]), [], {}))
  {
    hide Parse, R.Final, G.Agrees, L.Start, SafeName, FormText, IsForm, Meant, L.TrimSpace, EndOf;
    var line := Statement(Assign(name + " ", " ", form), "", None, '\n');
    SafeKeyText(name);
    TrimmedName(name);
    assert [line][1..] == [];
    assert TextOf([line]) == LineOf(line) + TextOf([]);
    assert LineOf(line) == name + " = " + FormText(form) + "\n";
    assert AreLines([line]);
    WrittenReads(name + " = " + FormText(form), [line]);
    EndStep(START, [line]);
    NoLines(State(Hash(map[name := Prim(v)]), [], {}));
    assert Put(EMPTY, name, Prim(v)) == Hash(map[name := Prim(v)]);
  }

  lemma NoLines(st: State)
    ensures EndOf(st, []) == Parsed(st)
  {
  }

  /** A text with a multi-line string: the string is what stands between the quotes. */
  lemma MultiReads(name: string, q: char, s: string)
    requires SafeName(name) && q in {'\"', '\''} && (q == '\"' ==> '\\' !in s)
    requires NoThree(q, s) && (s != "" ==> s[|s| - 1] != q)
    ensures var text := name + " = " + [q, q, q] + "\n" + s + [q, q, q];
            G.Agrees(L.Start(text)) &&
            Parse(START, R.Final(L.Start(text)).out) == Parsed(State(Hash(map[name := Prim(Str(s))]), [], {}))
    ensures s == "" || s[0] != '\n' ==>
              var text := name + " = " + [q, q, q] + s + [q, q, q];
              G.Agrees(L.Start(text)) &&
              Parse(START, R.Final(L.Start(text)).out) == Parsed(State(Hash(map[name := Prim(Str(s))]), [], {}))
  {
    hide Parse, R.Final, G.Agrees, L.Start, SafeName, Meant, MultiText;
    MultiMeans(q, s);
    MultiTextExactly(q, s);
    LineInFront(q, s);
    KeyReadsAs(name, Token(TripleQuoted(q), "\n" + s), Str(s));
    assert name + " = " + ([q, q, q] + ("\n" + s) + [q, q, q]) == name + " = " + [q, q, q] + "\n" + s + [q, q, q];
    if s == "" || s[0] != '\n' {
      KeyReadsAs(name, Token(TripleQuoted(q), s), Str(s));
      assert name + " = " + ([q, q, q] + s + [q, q, q]) == name + " = " + [q, q, q] + s + [q, q, q];
    }
  }

  lemma LineInFront(q: char, s: string)
    requires q in {'\"', '\''} && MultiText(q, s)
    ensures MultiText(q, "\n" + s)
  {
    assert ("\n" + s)[1..] == s;
  }

  /** The text is parsed to one key and that value, under every safe name. */
  ghost predicate ReadsTo(text: string, v: Value) {
    forall name | SafeName(name) ::
      G.Agrees(L.Start(name + " = " + text)) &&
      Parse(START, R.Final(L.Start(name + " = " + text)).out) == Parsed(State(Hash(map[name := Prim(v)]), [], {}))
  }

  lemma FormReadsTo(form: Form, v: Value)
    requires IsForm(form) && Meant(form) == As(v)
    ensures ReadsTo(FormText(form), v)
  {
    hide Parse, R.Final, G.Agrees, L.Start, SafeName, FormText, IsForm, Meant;
    forall name | SafeName(name)
      ensures G.Agrees(L.Start(name + " = " + FormText(form)))
      ensures Parse(START, R.Final(L.Start(name + " = " + FormText(form))).out)
           == Parsed(State(Hash(map[name := Prim(v)]), [], {}))
    {
      KeyReadsAs(name, form, v);
    }
  }

  /** Numbers with a sign, a boolean, a date, a leap day, and arrays with and without blanks. */
  lemma KnownValues()
    ensures ReadsTo("-9075", Int(-9075)) && ReadsTo("-3.25", Float("-3.25")) && ReadsTo("true", Bool(true))
    ensures ReadsTo("1979-05-27T07:32:00Z", Datetime("1979-05-27T07:32:00Z"))
    ensures ReadsTo("2000-02-29T23:59:59Z", Datetime("2000-02-29T23:59:59Z"))
    ensures ReadsTo("[]", Array([])) && ReadsTo("[\t'a',\r\n 'b' , # c\n]", Array([Str("a"), Str("b")]))
  {
    hide ReadsTo;
    KnownNumbers();
    KnownDates();
    KnownArrays();
  }

  lemma KnownNumbers()
    ensures ReadsTo("-9075", Int(-9075)) && ReadsTo("-3.25", Float("-3.25")) && ReadsTo("true", Bool(true))
  {
    hide ReadsTo, ParseInt, ParseFloat, G.IsInteger, G.IsFloat;
    KnownInt();
    KnownFloat();
    FormReadsTo(Token(L.ItemInteger, "-9075"), Int(-9075));
    FormReadsTo(Token(L.ItemFloat, "-3.25"), Float("-3.25"));
    FormReadsTo(Token(L.ItemBool, "true"), Bool(true));
  }

  lemma KnownInt()
    ensures G.IsInteger("-9075") && ParseInt("-9075") == Got(-9075, [])
  {
    var s := "9075";
    assert "-9075"[1..] == s && s[..3] == "907" && "907"[..2] == "90" && "90"[..1] == "9" && "9"[..0] == "";
    assert Decimal("9") == 9;
    assert Decimal("90") == 90;
    assert Decimal("907") == 907;
  }

  lemma KnownFloat()
    ensures G.IsFloat("-3.25") && ParseFloat("-3.25") == Got("-3.25", [])
  {
    hide Overflows;
    var s := "-3.25";
    assert s[1..] == "3.25" && s[..2] == "-3" && "-3"[1..] == "3" && s[3..] == "25" && "3"[..0] == "";
    assert Point("3.25") == 1 by { assert "3.25"[1..] == ".25"; }
    assert Decimal("3") == 3;
    FarFromOverflow(3);
  }

  lemma FarFromOverflow(n: nat)
    requires n < 54
    ensures !Overflows(n)
  {
    hide PowerOfTwo;
    PowersGrow(970, 54);
  }

  lemma {:induction false} PowersGrow(a: nat, k: nat)
    ensures PowerOfTwo(a + k) >= PowerOfTwo(a) + k
  {
    if k > 0 {
      PowersGrow(a, k - 1);
      PowerPositive(a + k - 1);
    }
  }

  lemma {:induction false} PowerPositive(n: nat)
    ensures PowerOfTwo(n) > 0
  {
    if n > 0 {
      PowerPositive(n - 1);
    }
  }

  lemma KnownDates()
    ensures ReadsTo("1979-05-27T07:32:00Z", Datetime("1979-05-27T07:32:00Z"))
    ensures ReadsTo("2000-02-29T23:59:59Z", Datetime("2000-02-29T23:59:59Z"))
  {
    hide ReadsTo, RealDate, IsDate;
    KnownDate();
    KnownLeapDay();
    FormReadsTo(Token(L.ItemDatetime, "1979-05-27T07:32:00Z"), Datetime("1979-05-27T07:32:00Z"));
    FormReadsTo(Token(L.ItemDatetime, "2000-02-29T23:59:59Z"), Datetime("2000-02-29T23:59:59Z"));
  }

  lemma KnownDate()
    ensures IsDate("1979-05-27T07:32:00Z") && RealDate("1979-05-27T07:32:00Z")
  {
  }

  lemma KnownLeapDay()
    ensures IsDate("2000-02-29T23:59:59Z") && RealDate("2000-02-29T23:59:59Z")
  {
  }

  lemma KnownArrays()
    ensures ReadsTo("[]", Array([])) && ReadsTo("[\t'a',\r\n 'b' , # c\n]", Array([Str("a"), Str("b")]))
  {
    hide ReadsTo, IsForm, FormText, Meant;
    EmptyArray();
    FormReadsTo(List([], []), Array([]));
    var f := SpacedArray();
    FormReadsTo(f, Array([Str("a"), Str("b")]));
  }

  lemma EmptyArray()
    ensures IsForm(List([], [])) && FormText(List([], [])) == "[]" && Meant(List([], [])) == As(Array([]))
  {
    assert ElemsText(List([], []), 0) == GapsText([]) + "]" == "]";
  }

  lemma SpacedArray() returns (f: Form)
    ensures IsForm(f) && FormText(f) == "[\t'a',\r\n 'b' , # c\n]" && Meant(f) == As(Array([Str("a"), Str("b")]))
  {
    hide FormText, Meant, GapsText, ElemsText, MeantFrom, IsForm;
    var a, b := Token(L.ItemRawString, "a"), Token(L.ItemRawString, "b");
    GapTexts();
    RawToken("a");
    RawToken("b");
    var e, g := Elem([White('\t')], a, [], true), Elem([White('\r'), White('\n'), White(' ')], b, [White(' ')], true);
    f := List([e, g], [White(' '), Note(" c", '\n')]);
    assert ElemText(e) == "\t'a'," && ElemText(g) == "\r\n 'b' ,";
    TwoElements(f, "\t'a',", "\r\n 'b' ,");
    TwoMeant(f, Str("a"), Str("b"));
    assert IsForm(f) by { TwoForms(f); }
  }

  lemma RawToken(s: string)
    requires G.RawText(s)
    ensures var f := Token(L.ItemRawString, s); IsForm(f) && FormText(f) == "'" + s + "'" && Meant(f) == As(Str(s))
  {
  }

  lemma TwoForms(f: Form)
    requires f.List? && |f.elems| == 2 && IsElem(f.elems[0]) && IsElem(f.elems[1])
    requires AreGaps(f.last) && f.elems[0].comma
    ensures IsForm(f)
  {
  }

  lemma GapTexts()
    ensures GapsText([]) == "" && GapsText([White('\t')]) == "\t" && GapsText([White(' ')]) == " "
    ensures GapsText([White('\r'), White('\n'), White(' ')]) == "\r\n "
    ensures GapsText([White(' '), Note(" c", '\n')]) == " # c\n"
  {
    assert [White('\n'), White(' ')][1..] == [White(' ')] && [White(' ')][1..] == [];
    assert [White('\r'), White('\n'), White(' ')][1..] == [White('\n'), White(' ')];
    assert [White(' '), Note(" c", '\n')][1..] == [Note(" c", '\n')];
  }

  lemma TwoElements(f: Form, s: string, t: string)
    requires f.List? && |f.elems| == 2 && ElemText(f.elems[0]) == s && ElemText(f.elems[1]) == t
    ensures FormText(f) == "[" + s + t + GapsText(f.last) + "]"
  {
    hide ElemText, GapsText;
    assert ElemsText(f, 2) == GapsText(f.last) + "]";
    assert ElemsText(f, 1) == t + ElemsText(f, 2);
  }

  lemma TwoMeant(f: Form, v: Value, w: Value)
    requires f.List? && |f.elems| == 2 && Meant(f.elems[0].form) == As(v) && Meant(f.elems[1].form) == As(w)
    ensures Meant(f) == if Uniform([v, w]) then As(Array([v, w])) else Lost(SyntaxError)
  {
    hide Uniform, ParseValue;
    assert [] + [v] == [v] && [v] + [w] == [v, w];
    assert MeantFrom(f, 1, [v]) == MeantFrom(f, 2, [v, w]);
  }

  // ---------- comments and layout ----------

  /** A value without the blanks, line ends and comments in it, and without a comma behind the last element. */
  function Bare(f: Form): Form
  {
    match f
    case Token(_, _) => f
    case List(elems, _) =>
      List(seq(|elems|, i requires 0 <= i < |elems| => Elem([], Bare(elems[i].form), [], i < |elems| - 1)), [])
  }

  lemma {:induction false} BareMeans(f: Form)
    ensures Meant(Bare(f)) == Meant(f)
    decreases f, 1
  {
    hide ParseValue;
    if f.List? {
      BareMeansFrom(f, 0, []);
    }
  }

  lemma {:induction false} BareMeansFrom(f: Form, i: nat, acc: seq<Value>)
    requires f.List? && i <= |f.elems|
    ensures MeantFrom(Bare(f), i, acc) == MeantFrom(f, i, acc)
    decreases f, 0, |f.elems| - i
  {
    hide Meant, Uniform;
    if i < |f.elems| {
      assert Bare(f).elems[i].form == Bare(f.elems[i].form);
      BareMeans(f.elems[i].form);
      if Meant(f.elems[i].form).As? {
        BareMeansFrom(f, i + 1, acc + [Meant(f.elems[i].form).v]);
      }
    }
  }

  /** A statement without the blanks in it. */
  function BareStmt(s: Stmt): Stmt
  {
    match s
    case Head(_, _) => s
    case Assign(raw, _, form) => Assign(L.TrimSpace(raw), "", Bare(form))
  }

  /** The statements of a text, without what is around them. */
  function Stmts(lines: seq<Line>): seq<Stmt>
  {
    if lines == [] then []
    else if lines[0].Statement? then [BareStmt(lines[0].stmt)] + Stmts(lines[1..])
    else Stmts(lines[1..])
  }

  lemma BareEvent(s: Stmt, t: Stmt)
    requires IsStmt(s) && IsStmt(t) && BareStmt(s) == BareStmt(t)
    ensures EventOf(s) == EventOf(t)
  {
    hide Meant, L.TrimSpace, Bare, IsForm;
    if s.Assign? {
      BareMeans(s.form);
      BareMeans(t.form);
    }
  }

  lemma {:induction false} SameEnd(st: State, a: seq<Line>, b: seq<Line>)
    requires AreLines(a) && AreLines(b) && Stmts(a) == Stmts(b)
    ensures EndOf(st, a) == EndOf(st, b)
    decreases |a| + |b|
  {
    hide Step, EventOf, BareStmt, IsStmt;
    if a != [] && !a[0].Statement? {
      SameEnd(st, a[1..], b);
    } else if b != [] && !b[0].Statement? {
      SameEnd(st, a, b[1..]);
    } else if a != [] && b != [] {
      assert Stmts(a)[0] == Stmts(b)[0] && Stmts(a)[1..] == Stmts(a[1..]) && Stmts(b)[1..] == Stmts(b[1..]);
      EndStep(st, a);
      EndStep(st, b);
      BareEvent(a[0].stmt, b[0].stmt) by { LineIs(a[0]); LineIs(b[0]); }
      var r := EventOf(a[0].stmt);
      if r.Got? && Step(st, r.value).Done? {
        SameEnd(Step(st, r.value).st, a[1..], b[1..]);
      }
    }
  }

  lemma LineIs(line: Line)
    requires IsLine(line) && line.Statement?
    ensures IsStmt(line.stmt)
  {
  }

  /** Comments, blanks, empty lines and line ends change nothing: texts with the same statements in the same
      order, wherever such things stand around or inside them, are parsed to the same tables or end in the
      same failure. */
  lemma LayoutChangesNothing(textA: string, a: seq<Line>, textB: string, b: seq<Line>)
    requires AreLines(a) && textA + "\n" == TextOf(a) && AreLines(b) && textB + "\n" == TextOf(b)
    requires Stmts(a) == Stmts(b)
    ensures G.Agrees(L.Start(textA)) && G.Agrees(L.Start(textB))
    ensures Parse(START, R.Final(L.Start(textA)).out) == Parse(START, R.Final(L.Start(textB)).out)
  {
    hide Parse, R.Final, G.Agrees, L.Start, EndOf, Stmts, AreLines, TextOf;
    WrittenReads(textA, a);
    WrittenReads(textB, b);
    SameEnd(START, a, b);
  }

  /** For one: a comment in front of a text. */
  lemma CommentInFront(note: string, text: string, lines: seq<Line>)
    requires NoteText(note) && AreLines(lines) && text + "\n" == TextOf(lines)
    ensures G.Agrees(L.Start("#" + note + "\n" + text)) && G.Agrees(L.Start(text))
    ensures Parse(START, R.Final(L.Start("#" + note + "\n" + text)).out) == Parse(START, R.Final(L.Start(text)).out)
  {
    hide Parse, R.Final, G.Agrees, L.Start, NoteText;
    var more := [Remark(note, '\n')] + lines;
    assert more[0] == Remark(note, '\n') && more[1..] == lines && AreLines(more);
    assert "#" + note + "\n" + text + "\n" == "#" + note + ['\n'] + TextOf(lines);
    LayoutChangesNothing("#" + note + "\n" + text, more, text, lines);
  }

  /** A line indented by a tab, with white space behind it and a line's end of two characters. */
  function Dressed(line: Line): seq<Line>
  {
    match line
    case Blank(c) => [Blank('\t'), Blank(' '), Blank(c)]
    case Remark(text, _) => [Blank('\t'), Remark(text, '\r'), Blank('\n')]
    case Statement(stmt, pad, note, _) => [Blank('\t'), Statement(stmt, pad + "\t ", note, '\r'), Blank('\n')]
  }

  function AllDressed(lines: seq<Line>): seq<Line>
  {
    if lines == [] then [] else Dressed(lines[0]) + AllDressed(lines[1..])
  }

  lemma {:induction false} DressedSame(lines: seq<Line>)
    requires AreLines(lines)
    ensures AreLines(AllDressed(lines)) && Stmts(AllDressed(lines)) == Stmts(lines)
    decreases |lines|
  {
    hide IsStmt, NoteText, BareStmt, Stmts, Dressed, AreLines;
    if lines != [] {
      OneLine(lines[0], lines[1..]);
      assert [lines[0]] + lines[1..] == lines;
      DressedSame(lines[1..]);
      DressedOne(lines[0], AllDressed(lines[1..]));
    } else {
      assert AreLines([]);
    }
  }

  lemma OneLine(line: Line, rest: seq<Line>)
    ensures Stmts([line] + rest) == (if line.Statement? then [BareStmt(line.stmt)] else []) + Stmts(rest)
    ensures AreLines([line] + rest) <==> IsLine(line) && AreLines(rest)
  {
    hide IsLine, BareStmt;
    var all := [line] + rest;
    assert all[0] == line && all[1..] == rest;
    assert AreLines(all) ==> AreLines(rest) by {
      if AreLines(all) {
        assert forall i | 0 <= i < |rest| :: rest[i] == all[i + 1];
      }
    }
  }

  lemma DressedOne(line: Line, rest: seq<Line>)
    requires IsLine(line) && AreLines(rest)
    ensures AreLines(Dressed(line) + rest)
    ensures Stmts(Dressed(line) + rest) == (if line.Statement? then [BareStmt(line.stmt)] else []) + Stmts(rest)
  {
    hide IsStmt, NoteText, BareStmt, Stmts, AreLines;
    var d := Dressed(line);
    OneLine(d[2], rest);
    OneLine(d[1], [d[2]] + rest);
    OneLine(d[0], [d[1]] + ([d[2]] + rest));
    assert d + rest == [d[0]] + ([d[1]] + ([d[2]] + rest));
  }

  /** Tabs and line ends of both kinds: so dressed, a text is parsed to the same. */
  lemma DressChangesNothing(text: string, lines: seq<Line>, dressed: string)
    requires AreLines(lines) && text + "\n" == TextOf(lines) && dressed + "\n" == TextOf(AllDressed(lines))
    ensures G.Agrees(L.Start(text)) && G.Agrees(L.Start(dressed))
    ensures Parse(START, R.Final(L.Start(dressed)).out) == Parse(START, R.Final(L.Start(text)).out)
  {
    hide Parse, R.Final, G.Agrees, L.Start, AreLines, TextOf, Stmts;
    DressedSame(lines);
    LayoutChangesNothing(dressed, AllDressed(lines), text, lines);
  }

  // ---------- what lexer and parser take for the same ----------

  /** The lexer lets through exactly the digits that have a value and the escapes that are replaced. */
  lemma LexerMeetsParser(c: char)
    ensures L.IsHexadecimal(c) <==> Q.HexDigit(c) >= 0
    ensures L.IsDigit(c) <==> 0 <= Q.HexDigit(c) < 10
    ensures L.IsEscape(c) <==> Q.Escape(c) != ""
    ensures L.IsWhitespace(c) || L.IsNL(c) ==> L.IsSpace(c)
  {
  }
}
