/** Exactly which Go maps come back from the text they are printed as (encode.go, lex.go, parse.go). */
module TomlExact {
  import opened Options
  import opened TomlTree
  import opened TomlContext
  import opened TomlItems
  import opened TomlDocument
  import opened TomlNames
  import T = TomlText
  import P = TomlSteps
  import W = TomlGrowth
  import B = TomlRebuild
  import E = TomlEncode
  import L = TomlLex
  import R = TomlLexRuns
  import G = TomlGrammar

  // ---------- where a hash is later ----------

  /** What has become, in `c`, of the hash at the end of a path in `m`. */
  ghost function Along(m: Hash, path: Key, c: Hash): Hash
    requires Find(m, path).Some? && W.HashGrows(m, c)
  {
    if path == [] then c else
    assert W.TreeGrows(m.entries[path[0]], c.entries[path[0]]);
    match m.entries[path[0]]
    case Table(h) => Along(h, path[1..], c.entries[path[0]].hash)
    case Tables(earlier, last) => Along(last, path[1..], W.Elements(c.entries[path[0]])[|earlier|])
  }

  lemma {:induction false} AlongGrows(m: Hash, path: Key, new_: Hash, c: Hash)
    requires Find(m, path).Some? && W.HashGrows(m, c) && W.HashGrows(Update(m, path, new_), c)
    ensures W.HashGrows(new_, Along(m, path, c))
  {
    if path != [] {
      var t, u := m.entries[path[0]], c.entries[path[0]];
      var r := Update(m, path, new_);
      assert W.TreeGrows(t, u) && W.TreeGrows(r.entries[path[0]], u);
      var next := if t.Table? then u.hash else W.Elements(u)[|t.earlier|];
      AlongGrows(Into(t).value, path[1..], new_, next);
    }
  }

  lemma {:induction false} AlongNatural(m: Hash, path: Key, c: Hash)
    requires Find(m, path).Some? && W.HashGrows(m, c) && Natural(c)
    ensures Natural(Along(m, path, c)) && NamePieces(path)
  {
    hide G.NamePiece;
    if path != [] {
      var t, u := m.entries[path[0]], c.entries[path[0]];
      assert W.TreeGrows(t, u) && NaturalEntry(path[0], u);
      var next := if t.Table? then u.hash else W.Elements(u)[|t.earlier|];
      assert next in (if t.Table? then [u.hash] else W.Elements(u));
      AlongNatural(Into(t).value, path[1..], next);
    }
  }

  // ---------- events met without marks ----------

  /** Without marks a key puts its value, and there it stays. */
  lemma KeyStays(st: State, name: string, v: Value, c: Hash)
    requires st.implicits == {} && Step(st, KeyVal(name, v)).Done?
    requires W.HashGrows(Step(st, KeyVal(name, v)).st.mapping, c)
    ensures Find(st.mapping, st.context).Some? && W.HashGrows(st.mapping, c)
    ensures var at := Along(st.mapping, st.context, c); name in at.entries && at.entries[name] == Prim(v)
  {
    hide Find, Update, W.HashGrows, Along;
    var at := Find(st.mapping, st.context).value;
    var st' := Step(st, KeyVal(name, v)).st;
    W.StepGrows(st, KeyVal(name, v));
    W.HashGrowsTransitive(st.mapping, st'.mapping, c);
    AlongGrows(st.mapping, st.context, Put(at, name, Prim(v)), c);
    PutStays(at, name, v, Along(st.mapping, st.context, c));
  }

  lemma PutStays(at: Hash, name: string, v: Value, c: Hash)
    requires W.HashGrows(Put(at, name, Prim(v)), c)
    ensures name in c.entries && c.entries[name] == Prim(v)
  {
    var h := Put(at, name, Prim(v));
    assert name in h.entries && W.TreeGrows(h.entries[name], c.entries[name]);
  }

  /** Without marks a header leads to a table. */
  lemma HeaderReaches(st: State, ev: Event)
    requires st.implicits == {} && Named(ev) && !ev.KeyVal? && Step(st, ev).Done?
    ensures Find(Step(st, ev).st.mapping, ev.key).Some?
  {
    hide Descend;
    var parent, k := ev.key[..|ev.key| - 1], ev.key[|ev.key| - 1];
    assert parent + [k] == ev.key;
    assert Find(st.mapping, parent[..0]).Some?;
    P.DescendExactly(st, parent, 0);
    var st' := Descend(st, parent, 0).st;
    var at := Find(st'.mapping, parent).value;
    var t := if ev.Header? then Table(EMPTY)
             else if k in at.entries then Tables(at.entries[k].earlier + [at.entries[k].last], EMPTY)
             else Tables([], EMPTY);
    assert Step(st, ev).st.mapping == Update(st'.mapping, parent, Put(at, k, t));
    FindUpdate(st'.mapping, parent, Put(at, k, t));
    FindStep(Step(st, ev).st.mapping, parent, k);
  }

  predicate NaturalEvent(ev: Event) {
    if ev.KeyVal? then G.KeyName(ev.name) && G.Trimmed(ev.name) && Storable(ev.value) else NamePieces(ev.key)
  }

  /** What leads to natural tables is natural itself. */
  lemma StepFromNatural(st: State, ev: Event, c: Hash)
    requires st.implicits == {} && Named(ev) && Step(st, ev).Done?
    requires W.HashGrows(Step(st, ev).st.mapping, c) && Natural(c)
    ensures NaturalEvent(ev)
  {
    hide Step, W.HashGrows, Natural, NaturalEntry, Along;
    if ev.KeyVal? {
      KeyStays(st, ev.name, ev.value, c);
      AlongNatural(st.mapping, st.context, c);
      EntryOf(Along(st.mapping, st.context, c), ev.name, ev.value);
    } else {
      HeaderReaches(st, ev);
      AlongNatural(Step(st, ev).st.mapping, ev.key, c);
    }
  }

  lemma EntryOf(h: Hash, name: string, v: Value)
    requires Natural(h) && name in h.entries && h.entries[name] == Prim(v)
    ensures G.KeyName(name) && G.Trimmed(name) && Storable(v)
  {
    assert NaturalEntry(name, h.entries[name]);
  }

  lemma {:induction false} RunFromNatural(st: State, evs: seq<Event>)
    requires AllNamed(evs) && B.Unmarked(st, evs) && Run(st, evs).Done? && Natural(Run(st, evs).st.mapping)
    ensures forall i | 0 <= i < |evs| :: NaturalEvent(evs[i])
    decreases |evs|
  {
    hide Step, Natural, NaturalEvent, W.HashGrows;
    if evs != [] {
      var st' := Step(st, evs[0]).st;
      W.RunGrows(st', evs[1..]);
      StepFromNatural(st, evs[0], Run(st, evs).st.mapping);
      RunFromNatural(st', evs[1..]);
      forall i | 0 <= i < |evs|
        ensures NaturalEvent(evs[i])
      {
        assert i > 0 ==> evs[i] == evs[1..][i - 1];
      }
    }
  }

  // ---------- values that change ----------

  lemma {:induction false} ReadLinesGrows(st: State, evs: seq<Event>)
    requires AllNamed(evs) && ReadLines(st, evs).Parsed?
    ensures W.HashGrows(st.mapping, ReadLines(st, evs).st.mapping)
    decreases |evs|
  {
    hide Step, W.HashGrows, T.Regain;
    W.HashGrowsReflexive(st.mapping);
    if evs != [] {
      var ev := EventBack(evs[0]).value;
      W.StepGrows(st, ev);
      ReadLinesGrows(Step(st, ev).st, evs[1..]);
      W.HashGrowsTransitive(st.mapping, Step(st, ev).st.mapping, ReadLines(st, evs).st.mapping);
    }
  }

  /** Two keys that differ in their values never lead to the same tables. */
  lemma SameValue(st: State, name: string, v: Value, w: Value, c: Hash)
    requires st.implicits == {} && Step(st, KeyVal(name, v)).Done? && Step(st, KeyVal(name, w)).Done?
    requires W.HashGrows(Step(st, KeyVal(name, v)).st.mapping, c)
    requires W.HashGrows(Step(st, KeyVal(name, w)).st.mapping, c)
    ensures v == w
  {
    hide Step, W.HashGrows, Along;
    KeyStays(st, name, v, c);
    KeyStays(st, name, w, c);
  }

  /** If the lines of a document are read to the same tables as they were printed from, every value was
      regained. */
  lemma {:induction false} AllRegained(st: State, evs: seq<Event>)
    requires AllNamed(evs) && B.Unmarked(st, evs) && Run(st, evs).Done?
    requires ReadLines(st, evs).Parsed? && ReadLines(st, evs).st.mapping == Run(st, evs).st.mapping
    ensures forall i | 0 <= i < |evs| :: EventBack(evs[i]) == Got(evs[i], [])
    decreases |evs|
  {
    hide Step, W.HashGrows, T.Regain;
    if evs != [] {
      var c := Run(st, evs).st.mapping;
      var ev := EventBack(evs[0]).value;
      W.RunGrows(Step(st, evs[0]).st, evs[1..]);
      ReadLinesGrows(Step(st, ev).st, evs[1..]);
      if ev.KeyVal? {
        SameValue(st, ev.name, evs[0].value, ev.value, c);
      }
      assert ev == evs[0];
      AllRegained(Step(st, ev).st, evs[1..]);
      forall i | 0 <= i < |evs|
        ensures EventBack(evs[i]) == Got(evs[i], [])
      {
        assert i > 0 ==> evs[i] == evs[1..][i - 1];
      }
    }
  }

  // ---------- whole documents ----------

  /** No key begins with a bracket or a NUL. */
  predicate Fronted(evs: seq<Event>) {
    forall i | 0 <= i < |evs| :: FrontedEvent(evs[i])
  }

  predicate FrontedEvent(ev: Event) {
    ev.KeyVal? && ev.name != "" ==> ev.name[0] != '[' && ev.name[0] != L.EOF
  }

  lemma {:induction false} StorableLexable(v: Value)
    requires Storable(v)
    ensures T.Lexable(v)
  {
    match v
    case Array(elems) =>
      forall e <- elems
        ensures T.Lexable(e)
      {
        StorableLexable(e);
      }
    case Float(text) => FloatForm(text);
    case _ =>
  }

  lemma FloatForm(text: string)
    requires ParseFloat(text).Got?
    ensures G.IsFloat(text)
  {
    hide Overflows, Decimal;
    var i := Point(text);
    assert G.IsInteger(text[..i]) && text[i] == '.' && G.AllDigits(text[i + 1..]);
  }

  lemma EventLexable(ev: Event)
    requires NaturalEvent(ev) && FrontedEvent(ev) && Named(ev) && E.ValidEvents([ev])
    ensures T.LexableEvent(ev)
  {
    hide Storable, T.Lexable;
    assert [ev][0] == ev;
    if ev.KeyVal? {
      StorableLexable(ev.value);
    } else {
      forall i | 0 <= i < |ev.key|
        ensures T.SafePiece(ev.key[i])
      {
        PieceSafe(ev.key[i]);
      }
    }
  }

  lemma PieceSafe(s: string)
    requires G.NamePiece(s) && E.ValidTableName(s)
    ensures T.SafePiece(s)
  {
    forall c <- s
      ensures c !in "[]." && c != L.EOF
    {
      var i :| 0 <= i < |s| && s[i] == c;
    }
  }

  /** Printed events that lead to natural tables are lines the lexer takes as they are meant. */
  lemma EventsLexable(evs: seq<Event>)
    requires AllNamed(evs) && E.ValidEvents(evs) && Fronted(evs) && B.Unmarked(START, evs)
    requires Run(START, evs).Done? && Natural(Run(START, evs).st.mapping)
    ensures forall i | 0 <= i < |evs| :: T.LexableEvent(evs[i])
  {
    hide Run, B.Unmarked, Natural, NaturalEvent, FrontedEvent, T.LexableEvent;
    RunFromNatural(START, evs);
    forall i | 0 <= i < |evs|
      ensures T.LexableEvent(evs[i])
    {
      EventLexable(evs[i]);
    }
  }

  lemma RegainedSafe(evs: seq<Event>)
    requires AllNamed(evs) && forall i | 0 <= i < |evs| :: T.LexableEvent(evs[i])
    requires forall i | 0 <= i < |evs| :: EventBack(evs[i]) == Got(evs[i], [])
    ensures SafeEvents(evs)
  {
    hide T.Regain, T.Lexable, T.SafeName, T.SafePiece, T.SafeValue;
    forall i | 0 <= i < |evs| && evs[i].KeyVal?
      ensures T.SafeValue(evs[i].value)
    {
      T.RegainedExactly(evs[i].value);
    }
  }

  /** What comes back was printed as safe lines. */
  lemma BackIsSafe(lines: seq<Line>)
    requires NamedLines(lines) && forall i | 0 <= i < |lines| :: BlankText(lines[i].lead)
    requires var evs := Events(lines);
             E.ValidEvents(evs) && Fronted(evs) && B.Unmarked(START, evs) && Run(START, evs).Done?
    requires G.Agrees(L.Start(Text(lines)))
    requires var r := Parse(START, R.Final(L.Start(Text(lines))).out);
             r.Parsed? && r.st.mapping == Run(START, Events(lines)).st.mapping
    ensures SafeEvents(Events(lines))
  {
    hide Parse, Run, Text, G.Agrees, R.Final, SafeEvents, Events, ReadLines, L.Start, B.Unmarked, Natural, Fronted,
      E.ValidEvents, T.LexableEvent, EventBack, BlankText;
    TextIsNatural(Text(lines));
    EventsLexable(Events(lines));
    EventsOf(lines);
    DocumentReads(lines);
    AllRegained(START, Events(lines));
    RegainedSafe(Events(lines));
  }

  lemma SafeIsFronted(evs: seq<Event>)
    requires SafeEvents(evs)
    ensures Fronted(evs)
  {
    hide T.Lexable, T.SafeValue, T.SafePiece;
    forall i | 0 <= i < |evs|
      ensures FrontedEvent(evs[i])
    {
      assert T.LexableEvent(evs[i]);
    }
  }

  /** Exactly which printed maps come back. However the text is indented and spaced, lexer and parser end
      in the tables it was printed from if and only if the text can carry every name and value in them.
      Names that begin with a bracket or a NUL cannot be carried. */
  lemma TextComesBackExactly(v: E.GoValue, lines: seq<Line>)
    requires v.Map? && NamedLines(lines) && E.Encode([], v) == E.Printed(Events(lines))
    requires forall i | 0 <= i < |lines| :: BlankText(lines[i].lead)
    ensures G.Agrees(L.Start(Text(lines)))
    ensures var r := Parse(START, R.Final(L.Start(Text(lines))).out);
            Fronted(Events(lines)) ==> (r.Parsed? && r.st.mapping == E.ToHash(v) <==> Carried(v))
    ensures !Fronted(Events(lines)) ==> !Carried(v)
  {
    hide Parse, Run, Text, G.Agrees, R.Final, E.Encode, Carried, SafeEvents, Events, NamedLines, L.Start,
      B.Tidy, B.Crashing, B.Unmarked, Fronted, E.ValidEvents, E.ToHash;
    R.StartAgrees(Text(lines));
    MapAtTop(v);
    B.Rebuild(v);
    MapSafe([], v);
    var r := Parse(START, R.Final(L.Start(Text(lines))).out);
    if Carried(v) {
      SafeIsFronted(Events(lines));
      TextRoundTrip(v, lines);
    } else if Fronted(Events(lines)) && r.Parsed? && r.st.mapping == E.ToHash(v) {
      BackIsSafe(lines);
    }
  }
}
