/** Which names and values can come back from text at all (lex.go, parse.go), and exactly when one
    printed key does (encode.go). */
module TomlNames {
  import opened Options
  import opened TomlTree
  import opened TomlContext
  import opened TomlFatal
  import opened TomlItems
  import opened TomlNoBug
  import T = TomlText
  import D = TomlDocument
  import F = TomlForms
  import V = TomlWritten
  import P = TomlSteps
  import W = TomlGrowth
  import L = TomlLex
  import S = TomlLexStates
  import R = TomlLexRuns
  import G = TomlGrammar

  // ---------- values ----------

  /** 64-bit integers, floats in range, dates the calendar has, arrays of one type; strings are free. */
  predicate Storable(v: Value)
  {
    match v
    case Str(_) => true
    case Int(i) => -0x8000_0000_0000_0000 <= i < 0x8000_0000_0000_0000
    case Bool(_) => true
    case Array(elems) => Uniform(elems) && forall e <- elems :: Storable(e)
    case Float(text) => ParseFloat(text).Got?
    case Datetime(text) => IsDate(text) && RealDate(text)
  }

  lemma {:induction false} ValueStorable(it: L.Item, items: seq<L.Item>)
    ensures var r := ParseValue(it, items); r.Got? ==> Storable(r.value)
    decreases |items|, 1
  {
    hide ParseInt, ParseFloat, ParseDate, IsDate, RealDate, Q.Unquote, StripFirstNewline, StripEscapedWhitespace,
      Uniform, ParseArray, IsRest;
    if it.typ == L.ItemArray {
      ArrayStorable(items, []);
    } else {
      ScalarStorable(it.val);
    }
  }

  lemma ScalarStorable(s: string)
    ensures ParseInt(s).Got? ==> Storable(Int(ParseInt(s).value))
    ensures ParseFloat(s).Got? ==> Storable(Float(ParseFloat(s).value))
    ensures ParseDate(s).Got? ==> Storable(Datetime(ParseDate(s).value))
  {
    hide ParseFloat, IsDate, RealDate, Decimal;
    T.SameText(s);
  }

  lemma {:induction false} ArrayStorable(items: seq<L.Item>, elems: seq<Value>)
    requires forall e <- elems :: Storable(e)
    ensures var r := ParseArray(items, elems); r.Got? ==> Storable(r.value)
    decreases |items|, 0
  {
    hide Storable, ParseValue, Uniform;
    var r := NextItem(items);
    if r.Got? {
      if r.value.typ == L.ItemArrayEnd {
        if Uniform(elems) {
          ArrayIs(elems);
        }
      } else if r.value.typ == L.ItemCommentStart {
        var c := TomlItems.Expect(L.ItemText, r.rest);
        if c.Got? {
          ArrayStorable(c.rest, elems);
        }
      } else {
        ValueStorable(r.value, r.rest);
        var v := ParseValue(r.value, r.rest);
        if v.Got? {
          ArrayStorable(v.rest, elems + [v.value]);
        }
      }
    }
  }

  lemma ArrayIs(elems: seq<Value>)
    requires Uniform(elems) && forall e <- elems :: Storable(e)
    ensures Storable(Array(elems))
  {
  }

  // ---------- tables ----------

  /** Keys are names as the lexer sends them. */
  ghost predicate Natural(h: Hash)
    decreases h
  {
    forall k | k in h.entries :: NaturalEntry(k, h.entries[k])
  }

  ghost predicate NaturalEntry(k: string, t: Tree)
    decreases t
  {
    match t
    case Prim(v) => G.KeyName(k) && G.Trimmed(k) && Storable(v)
    case Table(h) => G.NamePiece(k) && Natural(h)
    case Tables(earlier, last) => G.NamePiece(k) && Natural(last) && forall h <- earlier :: Natural(h)
  }

  lemma {:induction false} NaturalFind(h: Hash, path: Key)
    requires Natural(h) && Find(h, path).Some?
    ensures Natural(Find(h, path).value)
  {
    if path != [] {
      assert NaturalEntry(path[0], h.entries[path[0]]);
      NaturalFind(Into(h.entries[path[0]]).value, path[1..]);
    }
  }

  lemma NaturalPut(h: Hash, k: string, t: Tree)
    requires Natural(h) && NaturalEntry(k, t)
    ensures Natural(Put(h, k, t))
  {
    hide NaturalEntry;
  }

  lemma {:induction false} NaturalUpdate(h: Hash, path: Key, new_: Hash)
    requires Natural(h) && Find(h, path).Some? && Natural(new_)
    ensures Natural(Update(h, path, new_))
  {
    if path != [] {
      var t := h.entries[path[0]];
      assert NaturalEntry(path[0], t);
      NaturalUpdate(Into(t).value, path[1..], new_);
      var t' := WithInto(t, Update(Into(t).value, path[1..], new_));
      assert NaturalEntry(path[0], t');
      NaturalPut(h, path[0], t');
    }
  }

  lemma NaturalPutAt(h: Hash, path: Key, k: string, t: Tree)
    requires Natural(h) && Find(h, path).Some? && NaturalEntry(k, t)
    ensures Natural(Update(h, path, Put(Find(h, path).value, k, t)))
  {
    hide NaturalEntry, Natural;
    NaturalFind(h, path);
    NaturalPut(Find(h, path).value, k, t);
    NaturalUpdate(h, path, Put(Find(h, path).value, k, t));
  }

  lemma EmptyNatural(k: string)
    requires G.NamePiece(k)
    ensures Natural(EMPTY) && NaturalEntry(k, Table(EMPTY)) && NaturalEntry(k, Tables([], EMPTY))
  {
    assert Natural(EMPTY);
  }

  predicate NamePieces(path: Key) {
    forall i | 0 <= i < |path| :: G.NamePiece(path[i])
  }

  lemma {:induction false} DescendNatural(st: State, path: Key, i: nat)
    requires i <= |path| && Find(st.mapping, path[..i]).Some? && Natural(st.mapping) && NamePieces(path)
    ensures Descend(st, path, i).Done? ==> Natural(Descend(st, path, i).st.mapping)
    decreases |path| - i
  {
    hide Natural, NaturalEntry, G.NamePiece;
    if i < |path| {
      var st' := Vivify(st, path[..i], path[i]);
      EmptyNatural(path[i]);
      if path[i] !in Find(st.mapping, path[..i]).value.entries {
        NaturalPutAt(st.mapping, path[..i], path[i], Table(EMPTY));
      }
      FindStep(st'.mapping, path[..i], path[i]);
      assert path[..i] + [path[i]] == path[..i + 1];
      if Find(st'.mapping, path[..i + 1]).Some? {
        DescendNatural(st', path, i + 1);
      }
    }
  }

  lemma OneMoreTable(h: Hash, k: string)
    requires Natural(h) && G.NamePiece(k) && k in h.entries && h.entries[k].Tables?
    ensures NaturalEntry(k, Tables(h.entries[k].earlier + [h.entries[k].last], EMPTY))
  {
    EmptyNatural(k);
    assert NaturalEntry(k, h.entries[k]);
    var t := h.entries[k];
    forall e <- t.earlier + [t.last]
      ensures Natural(e)
    {
      assert e in t.earlier || e == t.last;
    }
  }

  lemma StepNatural(st: State, ev: Event)
    requires Named(ev) && Natural(st.mapping)
    requires if ev.KeyVal? then NaturalEntry(ev.name, Prim(ev.value)) else NamePieces(ev.key)
    ensures Step(st, ev).Done? ==> Natural(Step(st, ev).st.mapping)
  {
    hide Natural, NaturalEntry, Descend, G.NamePiece;
    if ev.KeyVal? {
      if Find(st.mapping, st.context).Some? {
        NaturalPutAt(st.mapping, st.context, ev.name, Prim(ev.value));
      }
    } else {
      var parent, k := ev.key[..|ev.key| - 1], ev.key[|ev.key| - 1];
      assert Find(st.mapping, parent[..0]).Some?;
      DescendNatural(st, parent, 0);
      EmptyNatural(k);
      if Descend(st, parent, 0).Done? {
        var st' := Descend(st, parent, 0).st;
        NaturalPutAt(st'.mapping, parent, k, Table(EMPTY));
        NaturalPutAt(st'.mapping, parent, k, Tables([], EMPTY));
        NaturalFind(st'.mapping, parent);
        var at := Find(st'.mapping, parent).value;
        if k in at.entries && at.entries[k].Tables? {
          OneMoreTable(at, k);
          NaturalPutAt(st'.mapping, parent, k, Tables(at.entries[k].earlier + [at.entries[k].last], EMPTY));
        }
      }
    }
  }

  lemma EventStorable(it: L.Item, items: seq<L.Item>)
    ensures var r := ParseEvent(it, items);
            r.Got? && r.value.Some? && r.value.value.KeyVal? ==> Storable(r.value.value.value)
  {
    hide ParseValue, Storable, ParseName;
    if it.typ == L.ItemKeyStart {
      var n := TomlItems.Expect(L.ItemText, items);
      if n.Got? && NextItem(n.rest).Got? {
        ValueStorable(NextItem(n.rest).value, NextItem(n.rest).rest);
      }
    }
  }

  lemma EventNatural(ev: Event)
    requires WellNamed(ev) && (ev.KeyVal? ==> Storable(ev.value))
    ensures if ev.KeyVal? then NaturalEntry(ev.name, Prim(ev.value)) else NamePieces(ev.key)
  {
  }

  lemma {:induction false} ParseNatural(st: State, items: seq<L.Item>)
    requires From(G.Items(0), items) != G.Rejected && Natural(st.mapping)
    ensures Parse(st, items).Parsed? ==> Natural(Parse(st, items).st.mapping)
    decreases |items|
  {
    hide From, Step, G.Consume, ParseEvent, WellNamed, Natural, NaturalEntry, Storable;
    NextFine(G.Items(0), items);
    if NextItem(items).Got? && items[0].typ != L.ItemEOF {
      EventNoBug(items[0], items[1..]);
      EventStorable(items[0], items[1..]);
      var r := ParseEvent(items[0], items[1..]);
      if r.Got? {
        if r.value.None? {
          ParseNatural(st, r.rest);
        } else {
          var ev := r.value.value;
          EventNatural(ev);
          StepNatural(st, ev);
          if Step(st, ev).Done? {
            ParseNatural(Step(st, ev).st, r.rest);
          }
        }
      }
    }
  }

  /** Whatever the text, what it is parsed to holds values only under names without separators, number
      signs or line ends and without white space at their ends, tables only under pieces without dots, NULs
      or brackets behind their first characters, and only numbers in range, dates of the calendar and arrays
      of one type. */
  lemma TextIsNatural(text: string)
    ensures G.Agrees(L.Start(text))
    ensures var r := Parse(START, R.Final(L.Start(text)).out); r.Parsed? ==> Natural(r.st.mapping)
  {
    hide R.Run, Parse, R.Measure, G.Agrees, L.Start;
    R.StartAgrees(text);
    var l := L.Start(text);
    R.Reached(l, R.Measure(l) + 1);
    ConsumeFrom(R.Final(l).out);
    assert Natural(START.mapping);
    ParseNatural(START, R.Final(l).out);
  }

  // ---------- a line that begins with a bracket or a NUL ----------

  lemma {:induction false} ParseGrows(st: State, items: seq<L.Item>)
    ensures Parse(st, items).Parsed? ==> W.HashGrows(st.mapping, Parse(st, items).st.mapping)
    decreases |items|
  {
    hide Step, ParseEvent, W.HashGrows;
    W.HashGrowsReflexive(st.mapping);
    if NextItem(items).Got? && items[0].typ != L.ItemEOF {
      var r := ParseEvent(items[0], items[1..]);
      if r.Got? {
        if r.value.None? {
          ParseGrows(st, r.rest);
        } else if Step(st, r.value.value).Done? {
          var st' := Step(st, r.value.value).st;
          W.StepGrows(st, r.value.value);
          ParseGrows(st', r.rest);
          if Parse(st', r.rest).Parsed? {
            W.HashGrowsTransitive(st.mapping, st'.mapping, Parse(st', r.rest).st.mapping);
          }
        }
      }
    }
  }

  /** A first header leaves a table at the top. */
  lemma HeaderLeavesTable(ev: Event)
    requires Named(ev) && !ev.KeyVal?
    ensures Step(START, ev).Done?
    ensures var h := Step(START, ev).st.mapping; ev.key[0] in h.entries && !h.entries[ev.key[0]].Prim?
  {
    hide Descend;
    var parent := ev.key[..|ev.key| - 1];
    assert parent + [ev.key[|ev.key| - 1]] == ev.key;
    assert Find(START.mapping, parent[..0]) == Some(EMPTY);
    P.FreshDescends(START, parent, 0);
    if ev.Header? {
      HeaderDangles(START, ev.key);
    } else {
      HeadersNotFatal(START, ev);
    }
    assert Find(Step(START, ev).st.mapping, ev.key).Some?;
  }

  /** A text that begins with a bracket sends the beginning of a header. */
  lemma BracketSends(l: L.Lx)
    requires G.Agrees(l) && l.state == L.Top && l.out == [] && l.pos < |l.input| && L.Rune(l) == '['
    ensures R.Final(l).out != [] && R.Final(l).out[0].typ in {L.ItemTableStart, L.ItemArrayTableStart}
  {
    hide L.Newlines, G.Agrees, R.Final;
    var m := L.Step(l);
    R.FinalStep(l);
    assert m == L.Go(L.Next(l), L.TableStart);
    HeaderSends(m);
    R.FinalStep(m);
    SentStays(L.Step(m));
  }

  lemma HeaderSends(m: L.Lx)
    requires m.state == L.TableStart && m.out == []
    ensures |L.Step(m).out| == 1 && L.Step(m).out[0].typ in {L.ItemTableStart, L.ItemArrayTableStart}
  {
    hide L.Newlines;
  }

  lemma SentStays(l: L.Lx)
    requires G.Agrees(l)
    ensures l.out <= R.Final(l).out
  {
    hide L.Newlines, G.Agrees, R.Run, R.Measure;
    R.FinalGrows(l, R.Measure(l) + 1);
  }

  /** A text that begins with a NUL sends an error. */
  lemma NulSends(l: L.Lx)
    requires G.Agrees(l) && l.state == L.Top && l.out == [] && l.start == l.pos < |l.input| && L.Rune(l) == L.EOF
    ensures R.Final(l).out != [] && R.Final(l).out[0].typ == L.ItemError
  {
    hide L.Newlines, G.Agrees, R.Final;
    R.FinalStep(l);
    SentStays(L.Step(l));
  }

  /** What begins with a header does not parse to a single value. */
  lemma HeaderNotKey(items: seq<L.Item>, name: string, v: Value)
    requires items != [] && items[0].typ in {L.ItemTableStart, L.ItemArrayTableStart}
    ensures var r := Parse(START, items); r.Parsed? ==> r.st.mapping != Hash(map[name := Prim(v)])
  {
    hide Step, ParseHeader, Parse;
    var r := ParseHeader(items[0].typ == L.ItemArrayTableStart, items[1..]);
    HeaderStep(items);
    if r.Got? {
      var ev := r.value.value;
      HeaderLeavesTable(ev);
      var st := Step(START, ev).st;
      ParseGrows(st, r.rest);
      if Parse(st, r.rest).Parsed? {
        assert W.TreeGrows(st.mapping.entries[ev.key[0]], Parse(st, r.rest).st.mapping.entries[ev.key[0]]);
      }
    }
  }

  lemma HeaderStep(items: seq<L.Item>)
    requires items != [] && items[0].typ in {L.ItemTableStart, L.ItemArrayTableStart}
    ensures var r := ParseHeader(items[0].typ == L.ItemArrayTableStart, items[1..]);
            if r.Failed? then Parse(START, items) == Stopped(r.why)
            else !r.value.value.KeyVal? &&
                 (Step(START, r.value.value).Done? ==>
                    Parse(START, items) == Parse(Step(START, r.value.value).st, r.rest))
  {
    hide Step, ParseEvent, ParseHeader;
    HeaderEvent(items[0], items[1..]);
  }

  lemma HeaderEvent(it: L.Item, rest: seq<L.Item>)
    requires it.typ in {L.ItemTableStart, L.ItemArrayTableStart}
    ensures ParseEvent(it, rest) == ParseHeader(it.typ == L.ItemArrayTableStart, rest)
    ensures var r := ParseHeader(it.typ == L.ItemArrayTableStart, rest); r.Got? ==> !r.value.value.KeyVal?
  {
    hide ParseName, ParseValue;
  }

  // ---------- one printed key ----------

  function KeyLine(name: string, v: Value): string
  {
    T.LineText(KeyVal(name, v)) + "\n"
  }

  /** A printed key comes back as that key and value, and nothing else, exactly when its name and its
      value are safe. */
  lemma KeyComesBackExactly(name: string, v: Value)
    requires name != "" && T.Lexable(v)
    ensures G.Agrees(L.Start(KeyLine(name, v)))
    ensures var r := Parse(START, R.Final(L.Start(KeyLine(name, v))).out);
            r.Parsed? && r.st.mapping == Hash(map[name := Prim(v)]) <==> T.SafeName(name) && T.SafeValue(v)
  {
    hide Parse, R.Final, G.Agrees, L.Start, T.SafeName, T.SafeValue, T.Lexable, T.Regain, Natural,
      KeyLine;
    var l := L.Start(KeyLine(name, v));
    R.StartAgrees(KeyLine(name, v));
    var r := Parse(START, R.Final(l).out);
    if T.SafeName(name) {
      SafeNameReads(name, v);
      if r.Parsed? && r.st.mapping == Hash(map[name := Prim(v)]) {
        SameEntry(name, T.Regain(v).v, v);
      }
    } else if r.Parsed? && r.st.mapping == Hash(map[name := Prim(v)]) {
      TextIsNatural(KeyLine(name, v));
      NaturalName(name, v);
      BadBeginning(name, v);
    }
  }

  lemma NaturalName(name: string, v: Value)
    requires Natural(Hash(map[name := Prim(v)]))
    ensures G.KeyName(name) && G.Trimmed(name)
  {
    var h := Hash(map[name := Prim(v)]);
    assert name in h.entries && h.entries[name] == Prim(v);
    assert NaturalEntry(name, Prim(v));
  }

  lemma SameEntry(name: string, v: Value, w: Value)
    requires Hash(map[name := Prim(v)]) == Hash(map[name := Prim(w)])
    ensures v == w
  {
    assert Prim(v) == map[name := Prim(v)][name] == map[name := Prim(w)][name] == Prim(w);
  }

  /** Names that only their beginning spoils. */
  lemma BadBeginning(name: string, v: Value)
    requires name != "" && !T.SafeName(name) && G.KeyName(name) && G.Trimmed(name)
    ensures G.Agrees(L.Start(KeyLine(name, v)))
    ensures var r := Parse(START, R.Final(L.Start(KeyLine(name, v))).out);
            r.Parsed? ==> r.st.mapping != Hash(map[name := Prim(v)])
  {
    hide Parse, R.Final, G.Agrees, T.ValueText, G.KeyName;
    var l := L.Start(KeyLine(name, v));
    R.StartAgrees(KeyLine(name, v));
    assert KeyLine(name, v)[0] == name[0];
    if name[0] == '[' {
      BracketSends(l);
      HeaderNotKey(R.Final(l).out, name, v);
    } else {
      NulSends(l);
      ErrorStops(R.Final(l).out);
    }
  }

  lemma ErrorStops(items: seq<L.Item>)
    requires items != [] && items[0].typ == L.ItemError
    ensures Parse(START, items) == Stopped(SyntaxError)
  {
  }

  /** Under a safe name, what comes back is what is regained of the value. */
  lemma SafeNameReads(name: string, v: Value)
    requires T.SafeName(name) && T.Lexable(v)
    ensures G.Agrees(L.Start(KeyLine(name, v)))
    ensures var r := Parse(START, R.Final(L.Start(KeyLine(name, v))).out);
            r == if T.Regain(v).As? then Parsed(State(Hash(map[name := Prim(T.Regain(v).v)]), [], {}))
                 else Stopped(T.Regain(v).why)
    ensures T.Regain(v) == T.As(v) <==> T.SafeValue(v)
  {
    hide Parse, R.Final, G.Agrees, L.Start, T.SafeName, T.Lexable, T.Regain, T.ValueText, T.SafeValue;
    var ev := KeyVal(name, v);
    var lines := [D.Line("", ev)];
    assert lines[1..] == [] && D.Text([]) == "";
    assert D.Text(lines) == "" + T.LineText(ev) + "\n" + D.Text(lines[1..]) == KeyLine(name, v);
    assert D.Events(lines) == [ev] && [ev][1..] == [];
    assert T.LexableEvent(ev);
    D.DocumentReads(lines);
    T.RegainedExactly(v);
    assert Put(EMPTY, name, Prim(v)) == Hash(map[name := Prim(v)]);
    OneKey(name, v);
  }

  lemma OneKey(name: string, v: Value)
    ensures D.ReadLines(START, [KeyVal(name, v)]) ==
            if T.Regain(v).As? then Parsed(State(Hash(map[name := Prim(T.Regain(v).v)]), [], {}))
            else Stopped(T.Regain(v).why)
  {
    hide T.Regain;
    var evs := [KeyVal(name, v)];
    assert evs[1..] == [];
    if T.Regain(v).As? {
      assert Put(EMPTY, name, Prim(T.Regain(v).v)) == Hash(map[name := Prim(T.Regain(v).v)]);
    }
  }

  /** One that does not: a number sign in the name begins a comment. */
  lemma NumberSignCutsKey()
    ensures G.Agrees(L.Start(KeyLine("a#", Int(1))))
    ensures var r := Parse(START, R.Final(L.Start(KeyLine("a#", Int(1)))).out);
            !(r.Parsed? && r.st.mapping == Hash(map["a#" := Prim(Int(1))]))
  {
    hide Parse, R.Final, G.Agrees, L.Start;
    KeyComesBackExactly("a#", Int(1));
    assert "a#"[1] == '#' && '#' in "a#";
  }

  // ---------- dates that end the process, strings that never end ----------

  /** Under any safe name, a printed date of the full form ends the process exactly when the calendar or
      the clock does not have it. */
  lemma ImpossibleDateStops(name: string, date: string)
    requires T.SafeName(name) && IsDate(date)
    ensures G.Agrees(L.Start(KeyLine(name, Datetime(date))))
    ensures Parse(START, R.Final(L.Start(KeyLine(name, Datetime(date)))).out) == Stopped(BadDate) <==> !RealDate(date)
  {
    hide Parse, R.Final, G.Agrees, L.Start, T.SafeName;
    SafeNameReads(name, Datetime(date));
  }

  lemma NoTripleAhead(m: L.Lx, s: string)
    requires T.Ahead(m) == s + "\n" && R.NoTripleFrom(s, 0, '\'')
    ensures R.NoTripleFrom(m.input, m.pos, '\'')
  {
    hide L.Newlines;
    forall i | m.pos <= i <= |m.input| - 3
      ensures !G.TripleAt(m.input, i, '\'')
    {
      var j := i - m.pos;
      assert m.input[i] == (s + "\n")[j] && m.input[i + 1] == (s + "\n")[j + 1] && m.input[i + 2] == (s + "\n")[j + 2];
      if j <= |s| - 3 {
        assert !G.TripleAt(s, j, '\'');
      }
    }
  }

  /** From the start of the text to the state inside the multi-line string. */
  lemma UnclosedLexes(name: string, q: char, s: string) returns (m: L.Lx, n: nat, first: L.Item, second: L.Item)
    requires T.SafeName(name) && q in {'\"', '\''}
    ensures T.Steps(L.Start(name + " = " + [q, q, q] + s), m, n) && m.state == F.Tripled(q) && T.Ahead(m) == s + "\n"
    ensures m.out == [first, second] && first.typ == L.ItemKeyStart && second.typ == L.ItemText
  {
    hide L.Newlines, T.Steps, L.Step, T.SafeName;
    var text := name + " = " + [q, q, q] + s;
    var l := L.Start(text);
    assert T.Ahead(l) == text + "\n" == name + " = " + ([q, q, q] + (s + "\n"));
    var f, a;
    f, a, first, second := V.KeyFront(l, name, [q, q, q] + (s + "\n"));
    m := F.TripleOpens(f, q, s + "\n");
    T.StepsThen(l, f, m, a);
    n := a + 1;
    assert [] + [first] + [second] == [first, second];
  }

  /** A text whose last raw string is not closed: the lexer turns in place for ever and the parser waits
      for an item that never comes. */
  lemma UnclosedNeverEnds(name: string, s: string)
    requires T.SafeName(name) && R.NoTripleFrom(s, 0, '\'')
    ensures var l := L.Start(name + " = '''" + s);
            G.Agrees(l) && R.Stuck(R.Final(l)) && Parse(START, R.Final(l).out) == Stopped(Endless)
  {
    hide L.Newlines, T.Steps, G.Agrees, R.Final, G.ConsumeAll, Parse, R.NoTripleFrom, T.SafeName, L.Start;
    var l := L.Start(name + " = '''" + s);
    R.StartAgrees(name + " = '''" + s);
    assert name + " = '''" + s == name + " = " + ['\'', '\'', '\''] + s;
    var m, n, first, second := UnclosedLexes(name, '\'', s);
    NoTripleAhead(m, s);
    NameGoesOn(first, second);
    assert T.Ahead(m) != "";
    V.StepsFinal(l, m, n);
    R.RawStuckExactly(m);
    WaitsForValue(first, second);
  }

  lemma NameGoesOn(first: L.Item, second: L.Item)
    requires first.typ == L.ItemKeyStart && second.typ == L.ItemText
    ensures G.ConsumeAll([first, second]) != G.Finished
  {
    hide G.Consume;
    var its := [first, second];
    assert [] + its == its;
    V.GoesOn([], its);
  }

  lemma WaitsForValue(first: L.Item, second: L.Item)
    requires first.typ == L.ItemKeyStart && second.typ == L.ItemText
    ensures Parse(START, [first, second]) == Stopped(Endless)
  {
    assert [first, second][1..] == [second] && [second][1..] == [];
  }

  // ---------- a fold in front of the closing quotes ----------

  /** A backslash at a line's end hides the character behind the line's end, so closing quotes that follow at
      once are one too few: whatever the string before that, the text never ends. */
  lemma FoldHidesQuote(name: string, a: string)
    requires T.SafeName(name) && F.MultiText('\"', a)
    ensures var l := L.Start(name + " = \"\"\"" + (a + "\\\n\"\"\""));
            G.Agrees(l) && R.Stuck(R.Final(l)) && Parse(START, R.Final(l).out) == Stopped(Endless)
  {
    hide L.Newlines, L.Step, T.Steps, G.Agrees, R.Final, G.ConsumeAll, Parse, T.SafeName, L.Start, F.MultiText, T.Ahead;
    var q := '\"';
    var s, text := a + "\\\n\"\"\"", name + " = \"\"\"" + (a + "\\\n\"\"\"");
    assert text == name + " = " + [q, q, q] + s;
    var l := L.Start(text);
    R.StartAgrees(text);
    var m, n, first, second := UnclosedLexes(name, q, s);
    assert s + "\n" == a + "\\\n\"" + "\"\"\n";
    FoldedText(a);
    var r, k := F.MultiRuns(m, q, a + "\\\n\"", "\"\"\n");
    T.SlidesFields(m, r, a + "\\\n\"");
    T.StepsOn(l, m, r, n, k);
    var e, z := TwoQuotesLeft(l, r, n + k);
    NameGoesOn(first, second);
    V.StepsFinal(l, e, n + k + 2);
    R.FinalStep(e);
    StuckIsFinal(z);
    WaitsForValue(first, second);
  }

  lemma StuckIsFinal(l: L.Lx)
    requires G.Agrees(l) && R.Stuck(l)
    ensures R.Final(l) == l
  {
    hide L.Newlines, G.Agrees, R.Measure;
    R.StopsThere(l, R.Measure(l) + 1);
  }

  lemma {:induction false} FoldedText(a: string)
    requires F.MultiText('\"', a)
    ensures F.MultiText('\"', a + "\\\n\"")
    decreases |a|
  {
    hide L.IsHexadecimal, L.IsEscape;
    var b := "\\\n\"";
    if a == "" {
      assert a + b == b;
    } else {
      var i := if a[0] != '\\' then 1 else if L.IsNL(a[1]) then 3 else if a[1] == 'u' then 6 else 2;
      assert (a + b)[i..] == a[i..] + b;
      assert !F.MultiText('\"', ['\"']);
      assert |a| == 2 ==> a[1..] == [a[1]];
      FoldedText(a[i..]);
    }
  }

  /** Two quotes do not close the string, and behind the last line's end the lexer is stuck. */
  lemma TwoQuotesLeft(l: L.Lx, r: L.Lx, n: nat) returns (e: L.Lx, z: L.Lx)
    requires T.Steps(l, r, n) && r.state == L.MStr && T.Ahead(r) == "\"\"\n"
    ensures T.Steps(l, e, n + 2) && e.out == r.out && e.state == L.MStr && !R.Stuck(e)
    ensures z == L.Step(e) && z.out == r.out && R.Stuck(z)
  {
    hide L.Newlines, L.Step, T.Steps;
    var q := '\"';
    assert T.Ahead(r) == [q] + "\"\n" && "\"\n" == [q] + "\n" && "\n" == ['\n'] + "";
    var v := F.QuoteInside(r, q, "\"\n");
    T.StepsThen(l, r, v, n);
    e := F.QuoteInside(v, q, "\n");
    T.StepsThen(l, v, e, n + 1);
    z := F.PlainRuns(e, '\n', "");
  }

  // ---------- what is no value ----------

  /** Nothing the lexer takes for a value begins like this: `NaN.0`, `+Inf.0`, `-Inf.0`. */
  predicate Stray(u: string) {
    u != "" && !L.IsWhitespace(u[0]) && !L.IsDigit(u[0]) &&
    if u[0] == '-' then |u| > 1 && !L.IsDigit(u[1]) else u[0] !in {'[', '\"', '\'', 't', 'f'}
  }

  lemma StrayStops(f: L.Lx, u: string) returns (m: L.Lx, n: nat)
    requires T.AtValue(f, u) && Stray(u)
    ensures T.Steps(f, m, n) && m.state != L.Nil && m.input == f.input && m.out == f.out && m.pos < |m.input|
    ensures !R.Stuck(m) && exists line :: L.Step(m).out == f.out + [L.Item(L.ItemError, "", line)]
  {
    hide L.Newlines, T.Steps, T.Ahead;
    assert u == [u[0]] + u[1..];
    T.Read(f, u[0], u[1..]);
    T.NoSteps(f);
    if u[0] == '-' {
      m := L.Step(f);
      T.AheadOf(m, L.Next(f));
      assert u[1..] == [u[1]] + u[2..];
      T.Read(m, u[1], u[2..]);
      T.NoSteps(m);
      T.StepsOne(f, m, m, 0);
      n := 1;
    } else {
      m, n := f, 0;
    }
  }

  /** A key with such a value is a parse error. */
  lemma StrayValueFails(name: string, u: string)
    requires T.SafeName(name) && Stray(u)
    ensures var l := L.Start(name + " = " + u);
            G.Agrees(l) && Parse(START, R.Final(l).out) == Stopped(SyntaxError)
  {
    hide L.Newlines, T.Steps, G.Agrees, R.Run, R.Measure, G.ConsumeAll, Parse, T.SafeName, L.Step, L.Start, Stray;
    var l := L.Start(name + " = " + u);
    R.StartAgrees(name + " = " + u);
    var m, n, its := StrayLexes(name, u);
    V.StepsFinal(l, m, n);
    R.FinalStep(m);
    R.PlaceHasStack(m);
    G.ConsumeOne(m.out, its[2]);
    var r := L.Step(m);
    R.StopsThere(r, R.Measure(r) + 1);
    StrayParses(its);
  }

  lemma StrayLexes(name: string, u: string) returns (m: L.Lx, n: nat, its: seq<L.Item>)
    requires T.SafeName(name) && Stray(u)
    ensures T.Steps(L.Start(name + " = " + u), m, n) && m.state != L.Nil && !R.Stuck(m)
    ensures |its| == 3 && its[0].typ == L.ItemKeyStart && its[1].typ == L.ItemText && its[2].typ == L.ItemError
    ensures G.ConsumeAll(m.out) != G.Finished && L.Step(m).out == its && m.out + [its[2]] == its
  {
    hide L.Newlines, T.Steps, L.Step, T.SafeName, G.ConsumeAll;
    var text := name + " = " + u;
    var l := L.Start(text);
    assert T.Ahead(l) == text + "\n" == name + " = " + (u + "\n");
    var f, a, first, second := V.KeyFront(l, name, u + "\n");
    StrayAhead(u);
    var b;
    m, b := StrayStops(f, u + "\n");
    T.StepsOn(l, f, m, a, b);
    n := a + b;
    its := L.Step(m).out;
    assert m.out == [first, second];
    NameGoesOn(first, second);
  }

  lemma StrayAhead(u: string)
    requires Stray(u)
    ensures Stray(u + "\n")
  {
  }

  lemma StrayParses(its: seq<L.Item>)
    requires |its| == 3 && its[0].typ == L.ItemKeyStart && its[1].typ == L.ItemText && its[2].typ == L.ItemError
    ensures Parse(START, its) == Stopped(SyntaxError)
  {
    assert its[1..][1..] == [its[2]];
  }
}
