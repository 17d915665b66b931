/** Whole documents: the text the encoder prints, read back through lexer and parser, rebuilds the
    tables it was printed from (encode.go, lex.go, parse.go). */
module TomlDocument {
  import opened Options
  import opened TomlTree
  import opened TomlContext
  import opened TomlItems
  import opened TomlText
  import F = TomlForms
  import W = TomlWritten
  import Q = TomlQuote
  import L = TomlLex
  import R = TomlLexRuns
  import G = TomlGrammar
  import E = TomlEncode
  import B = TomlRebuild
  import SO = StringOrder

  // ---------- printed values ----------

  /** A printed value as it is written. */
  function Printed(v: Value): F.Form
  {
    match v
    case Str(s) => F.Token(L.ItemString, Q.Quote(s))
    case Int(i) => F.Token(L.ItemInteger, IntText(i))
    case Bool(b) => F.Token(L.ItemBool, Word(b))
    case Float(text) => F.Token(L.ItemFloat, text)
    case Datetime(text) => F.Token(L.ItemDatetime, text)
    case Array(elems) =>
      F.List(seq(|elems|, i requires 0 <= i < |elems| => Element(i, |elems|, Printed(elems[i]))), [])
  }

  /** The i-th of `n` elements: a blank behind each comma. */
  function Element(i: nat, n: nat, f: F.Form): F.Elem
  {
    F.Elem(if i == 0 then [] else [F.White(' ')], f, [], i + 1 < n)
  }

  lemma {:induction false} QuoteIsText(s: string)
    ensures G.StringText(Q.Quote(s))
  {
    hide L.IsHexadecimal;
    if s != "" {
      var c, q := Q.QuoteChar(s[0]), Q.Quote(s[1..]);
      QuoteIsText(s[1..]);
      QuotedShape(s[0]);
      assert Q.Quote(s) == c + q;
      if |c| == 2 {
        assert (c + q)[2..] == q && (c + q)[0] == c[0] && (c + q)[1] == c[1];
      } else {
        assert (c + q)[1..] == q;
      }
    }
  }

  lemma {:induction false} PrintedText(v: Value)
    requires Lexable(v)
    ensures F.IsForm(Printed(v)) && F.FormText(Printed(v)) == ValueText(v)
    decreases v, 1
  {
    if v.Array? {
      hide F.FormText, ValueText;
      forall i | 0 <= i < |v.elems|
        ensures F.IsElem(Printed(v).elems[i])
      {
        assert v.elems[i] in v.elems;
        PrintedText(v.elems[i]);
      }
      ElementsPrinted(v, 0);
      ListPrinted(v);
    } else {
      TokenPrinted(v);
    }
  }

  lemma TokenPrinted(v: Value)
    requires Lexable(v) && !v.Array?
    ensures F.IsForm(Printed(v)) && F.FormText(Printed(v)) == ValueText(v)
  {
    hide G.IsFloat, IsDate, G.IsInteger, G.StringText, Q.Quote, IntText, Word;
    match v
    case Str(s) => QuoteIsText(s);
    case Int(i) => IntIsInteger(i);
    case Bool(b) => WordIs(b);
    case Float(_) =>
    case Datetime(_) =>
  }

  lemma ListPrinted(v: Value)
    requires v.Array? && F.ElemsText(Printed(v), 0) == ElementsText(v, 0)
    ensures F.FormText(Printed(v)) == ValueText(v)
  {
    hide F.ElemsText, ElementsText;
  }

  lemma WordIs(b: bool)
    ensures Word(b) in {"true", "false"}
  {
  }

  lemma {:induction false} ElementsPrinted(v: Value, i: nat)
    requires v.Array? && Lexable(v) && i <= |v.elems|
    ensures F.ElemsText(Printed(v), i) == (if i == 0 || i == |v.elems| then "" else " ") + ElementsText(v, i)
    decreases v, 0, |v.elems| - i
  {
    hide F.FormText, ValueText, F.GapsText, Lexable, F.IsForm, F.ElemText, Printed, F.ElemsText, ElementsText;
    ArrayPrinted(v);
    if i < |v.elems| {
      assert v.elems[i] in v.elems;
      ElementLexable(v, i);
      PrintedText(v.elems[i]);
      ElementPrinted(i, |v.elems|, Printed(v.elems[i]));
      ElementsPrinted(v, i + 1);
    }
    ElementsStep(v, i);
    FormStep(Printed(v), i);
  }

  lemma ElementsStep(v: Value, i: nat)
    requires v.Array? && i <= |v.elems|
    ensures ElementsText(v, i) ==
            if i == |v.elems| then "]"
            else ValueText(v.elems[i]) + if i == |v.elems| - 1 then "]" else ", " + ElementsText(v, i + 1)
    ensures i == |v.elems| - 1 ==> ElementsText(v, i + 1) == "]"
  {
    hide ValueText;
  }

  lemma FormStep(f: F.Form, i: nat)
    requires f.List? && i <= |f.elems| && f.last == []
    ensures F.ElemsText(f, i) == if i == |f.elems| then "]" else F.ElemText(f.elems[i]) + F.ElemsText(f, i + 1)
  {
    hide F.ElemText;
  }

  lemma ArrayPrinted(v: Value)
    requires v.Array?
    ensures var f, n := Printed(v), |v.elems|;
            f.List? && |f.elems| == n && f.last == [] &&
            forall i | 0 <= i < n :: v.elems[i] in v.elems && f.elems[i] == Element(i, n, Printed(v.elems[i]))
  {
  }

  lemma ElementPrinted(i: nat, n: nat, f: F.Form)
    ensures F.ElemText(Element(i, n, f)) == (if i == 0 then "" else " ") + F.FormText(f) + if i + 1 < n then "," else ""
  {
    hide F.FormText, F.GapsText;
    GapTexts();
  }

  lemma ElementLexable(v: Value, i: nat)
    requires v.Array? && Lexable(v) && i < |v.elems|
    ensures Lexable(v.elems[i])
  {
  }

  lemma GapTexts()
    ensures F.GapsText([]) == "" && F.GapsText([F.White(' ')]) == " "
  {
    assert [F.White(' ')][1..] == [];
  }

  /** It means what is regained of the value. */
  lemma {:induction false} PrintedMeans(v: Value)
    ensures F.Meant(Printed(v)) == Regain(v)
    decreases v, 1
  {
    hide Q.Unquote, Q.Quote, ParseInt, ParseFloat, ParseDate, IntText, Uniform;
    match v
    case Str(_) =>
    case Int(i) => IntParses(i);
    case Bool(_) =>
    case Float(text) => SameText(text);
    case Datetime(text) => SameText(text);
    case Array(_) => ElementsMean(v, 0, []);
  }

  lemma {:induction false} ElementsMean(v: Value, i: nat, acc: seq<Value>)
    requires v.Array? && i <= |v.elems|
    ensures F.MeantFrom(Printed(v), i, acc) == RegainFrom(v, i, acc)
    decreases v, 0, |v.elems| - i
  {
    hide F.Meant, Regain, Uniform;
    if i < |v.elems| {
      assert v.elems[i] in v.elems;
      PrintedMeans(v.elems[i]);
      if Regain(v.elems[i]).As? {
        ElementsMean(v, i + 1, acc + [Regain(v.elems[i]).v]);
      }
    }
  }

  // ---------- documents ----------

  /** One printed line and the blank text, indentation or empty lines, in front of it. */
  datatype Line = Line(lead: string, ev: Event)

  predicate BlankText(s: string) {
    forall c <- s :: c == ' ' || c == '\t' || c == '\n'
  }

  predicate NamedLines(lines: seq<Line>) {
    forall i | 0 <= i < |lines| :: Named(lines[i].ev)
  }

  predicate LexableLines(lines: seq<Line>) {
    forall i | 0 <= i < |lines| :: BlankText(lines[i].lead) && LexableEvent(lines[i].ev)
  }

  function Text(lines: seq<Line>): string
    requires NamedLines(lines)
  {
    if lines == [] then "" else lines[0].lead + LineText(lines[0].ev) + "\n" + Text(lines[1..])
  }

  function Events(lines: seq<Line>): (evs: seq<Event>)
    requires NamedLines(lines)
    ensures AllNamed(evs)
  {
    if lines == [] then [] else [lines[0].ev] + Events(lines[1..])
  }

  /** What the parser makes of a printed line. */
  function EventBack(ev: Event): (r: Result<Event>)
    requires Named(ev)
    ensures r.Got? ==> Named(r.value)
  {
    if !ev.KeyVal? then Got(ev, [])
    else if Regain(ev.value).As? then Got(KeyVal(ev.name, Regain(ev.value).v), [])
    else Failed(Regain(ev.value).why)
  }

  /** How a parse of printed lines ends: what is regained of each goes to the tables. */
  function ReadLines(st: State, evs: seq<Event>): Ending
    requires AllNamed(evs)
    decreases |evs|
  {
    if evs == [] then Parsed(st) else
    var r := EventBack(evs[0]);
    if r.Failed? then Stopped(r.why) else
    match Step(st, r.value)
    case Done(st') => ReadLines(st', evs[1..])
    case ParseError => TableError
    case Fatal => TableBug
  }

  /** A printed line as it is written. */
  function StmtOf(ev: Event): W.Stmt
  {
    match ev
    case Header(key) => W.Head(false, key)
    case ArrayHeader(key) => W.Head(true, key)
    case KeyVal(name, v) => W.Assign(name + " ", " ", Printed(v))
  }

  function LeadOf(lead: string): (lines: seq<W.Line>)
    ensures |lines| == |lead|
  {
    seq(|lead|, i requires 0 <= i < |lead| => W.Blank(lead[i]))
  }

  function Written(lines: seq<Line>): seq<W.Line>
  {
    if lines == [] then []
    else LeadOf(lines[0].lead) + [W.Statement(StmtOf(lines[0].ev), "", None, '\n')] + Written(lines[1..])
  }

  lemma StmtPrinted(ev: Event)
    requires LexableEvent(ev)
    ensures W.IsStmt(StmtOf(ev)) && W.StmtText(StmtOf(ev)) == LineText(ev) && W.EventOf(StmtOf(ev)) == EventBack(ev)
  {
    hide Lexable, ValueText, F.FormText, F.IsForm, F.Meant, Regain, Join, L.TrimSpace, SafeName;
    match ev {
      case KeyVal(name, v) =>
        PrintedText(v);
        PrintedMeans(v);
        W.SafeKeyText(name);
        W.TrimmedName(name);
        assert name + " = " + ValueText(v) == name + " " + "=" + " " + ValueText(v);
      case Header(key) => PiecesSafe(key);
      case ArrayHeader(key) => PiecesSafe(key);
    }
  }

  lemma PiecesSafe(key: Key)
    requires forall i | 0 <= i < |key| :: SafePiece(key[i])
    ensures forall i | 0 <= i < |key| :: G.NamePiece(key[i]) && key[i][0] != '['
  {
    forall i | 0 <= i < |key|
      ensures G.NamePiece(key[i]) && key[i][0] != '['
    {
      assert forall j | 0 <= j < |key[i]| :: key[i][j] in key[i];
    }
  }

  lemma {:induction false} LeadWritten(lead: string, rest: seq<W.Line>)
    requires BlankText(lead) && W.AreLines(rest)
    ensures W.AreLines(LeadOf(lead) + rest) && W.TextOf(LeadOf(lead) + rest) == lead + W.TextOf(rest)
    ensures forall st :: W.EndOf(st, LeadOf(lead) + rest) == W.EndOf(st, rest)
    decreases |lead|
  {
    hide W.AreLines, W.TextOf, W.EndOf;
    var all := LeadOf(lead) + rest;
    if lead == "" {
      assert all == rest;
    } else {
      assert lead[0] in lead && forall c <- lead[1..] :: c in lead;
      LeadWritten(lead[1..], rest);
      var more := LeadOf(lead[1..]) + rest;
      assert all == [W.Blank(lead[0])] + more;
      BlankWritten(lead[0], more);
      assert [lead[0]] + (lead[1..] + W.TextOf(rest)) == lead + W.TextOf(rest);
    }
  }

  lemma BlankWritten(c: char, rest: seq<W.Line>)
    requires (c == ' ' || c == '\t' || c == '\n') && W.AreLines(rest)
    ensures W.AreLines([W.Blank(c)] + rest) && W.TextOf([W.Blank(c)] + rest) == [c] + W.TextOf(rest)
    ensures forall st :: W.EndOf(st, [W.Blank(c)] + rest) == W.EndOf(st, rest)
  {
    hide W.IsStmt, W.EventOf, Step;
    var all := [W.Blank(c)] + rest;
    assert all[0] == W.Blank(c) && all[1..] == rest && W.IsLine(all[0]);
  }

  lemma {:induction false} LinesWritten(lines: seq<Line>)
    requires NamedLines(lines) && LexableLines(lines)
    ensures W.AreLines(Written(lines) + [W.Blank('\n')])
    ensures W.TextOf(Written(lines) + [W.Blank('\n')]) == Text(lines) + "\n"
    ensures forall st :: W.EndOf(st, Written(lines) + [W.Blank('\n')]) == ReadLines(st, Events(lines))
    decreases |lines|
  {
    hide LexableEvent, StmtOf, LineText, W.IsStmt, W.EventOf, W.StmtText, EventBack, Step, LeadOf, BlankText, W.TextOf,
      W.EndOf;
    var last := [W.Blank('\n')];
    if lines == [] {
      assert Written(lines) + last == last;
      EmptyWritten();
    } else {
      LinesWritten(lines[1..]);
      var rest := Written(lines[1..]) + last;
      StmtPrinted(lines[0].ev);
      var line := W.Statement(StmtOf(lines[0].ev), "", None, '\n');
      OneWritten(line, rest, lines[0].ev, Events(lines[1..]));
      LeadWritten(lines[0].lead, [line] + rest);
      assert Written(lines) + last == LeadOf(lines[0].lead) + ([line] + rest);
      assert lines[0].lead + (LineText(lines[0].ev) + "\n" + (Text(lines[1..]) + "\n"))
          == lines[0].lead + LineText(lines[0].ev) + "\n" + Text(lines[1..]) + "\n";
    }
  }

  lemma EmptyWritten()
    ensures var last := [W.Blank('\n')];
            W.AreLines(last) && W.TextOf(last) == "\n" && forall st :: W.EndOf(st, last) == Parsed(st)
  {
    assert [W.Blank('\n')][1..] == [];
  }

  lemma OneWritten(line: W.Line, rest: seq<W.Line>, ev: Event, evs: seq<Event>)
    requires line == W.Statement(StmtOf(ev), "", None, '\n') && Named(ev) && AllNamed(evs) && W.IsStmt(StmtOf(ev))
    requires W.StmtText(StmtOf(ev)) == LineText(ev) && W.EventOf(StmtOf(ev)) == EventBack(ev) && W.AreLines(rest)
    requires forall st :: W.EndOf(st, rest) == ReadLines(st, evs)
    ensures AllNamed([ev] + evs) && W.AreLines([line] + rest)
    ensures W.TextOf([line] + rest) == LineText(ev) + "\n" + W.TextOf(rest)
    ensures forall st :: W.EndOf(st, [line] + rest) == ReadLines(st, [ev] + evs)
  {
    hide StmtOf, LineText, W.IsStmt, W.EventOf, W.StmtText, EventBack, Step;
    var all := [line] + rest;
    assert all[0] == line && all[1..] == rest && ([ev] + evs)[1..] == evs;
    assert W.IsLine(line) && W.AreLines(all);
    assert W.LineOf(line) == LineText(ev) + "" + "" + ['\n'] == LineText(ev) + "\n";
  }

  /** Lexer and parser together, on a printed document: they do with each line what is regained of it. */
  lemma DocumentReads(lines: seq<Line>)
    requires NamedLines(lines) && LexableLines(lines)
    ensures G.Agrees(L.Start(Text(lines)))
    ensures forall st :: Parse(st, R.Final(L.Start(Text(lines))).out) == ReadLines(st, Events(lines))
  {
    hide Parse, ReadLines, NamedLines, LexableLines, Text, Events, G.Agrees, R.Final, L.Start,
      W.EndOf, W.TextOf, W.AreLines;
    LinesWritten(lines);
    W.WrittenReads(Text(lines), Written(lines) + [W.Blank('\n')]);
  }

  // ---------- what text can carry ----------

  /** How a parse ends, given how the tables' side of it ends. */
  function EndingOf(o: Outcome): Ending
  {
    match o
    case Done(st) => Parsed(st)
    case ParseError => TableError
    case Fatal => TableBug
  }

  predicate SafeEvents(evs: seq<Event>) {
    forall i | 0 <= i < |evs| :: LexableEvent(evs[i]) && (evs[i].KeyVal? ==> SafeValue(evs[i].value))
  }

  /** Events with safe values are read as they are. */
  lemma {:induction false} SafeReads(st: State, evs: seq<Event>)
    requires AllNamed(evs) && SafeEvents(evs)
    ensures ReadLines(st, evs) == EndingOf(Run(st, evs))
    decreases |evs|
  {
    hide Step, Regain, SafeValue, SafeName, Lexable, SafePiece;
    if evs != [] {
      if evs[0].KeyVal? {
        RegainedExactly(evs[0].value);
      }
      if Step(st, evs[0]).Done? {
        SafeReads(Step(st, evs[0]).st, evs[1..]);
      }
    }
  }

  /** A Go value whose names the text can carry, and whose values as they are printed. */
  predicate Carried(x: E.GoValue)
    decreases x, 0
  {
    var s := E.Settled(x);
    if s.Map? then forall k | k in s.entries :: CarriedEntry(k, s.entries[k])
    else s.Slice? ==> forall e <- s.elems :: Carried(e)
  }

  predicate CarriedEntry(k: string, x: E.GoValue)
    decreases x, 1
  {
    E.Omitted(x) || if E.IsSub(x) then SafePiece(k) && Carried(x) else SafeName(k) && CarriedValue(E.Settled(x))
  }

  predicate CarriedValue(s: E.GoValue) {
    E.Element(s).Some? ==> SafeValue(E.Element(s).value)
  }

  predicate SafeKey(key: Key) {
    forall i | 0 <= i < |key| :: SafePiece(key[i])
  }

  lemma {:induction false} SafeIsLexable(v: Value)
    requires SafeValue(v)
    ensures Lexable(v)
  {
    match v
    case Array(elems) =>
      forall e <- elems
        ensures Lexable(e)
      {
        SafeIsLexable(e);
      }
    case _ =>
  }

  lemma ConcatSafe(a: E.Printing<seq<Event>>, b: E.Printing<seq<Event>>)
    requires a.Printed? && b.Printed? && AllNamed(a.value) && AllNamed(b.value)
    ensures E.Concat(a, b).Printed? && AllNamed(E.Concat(a, b).value)
    ensures SafeEvents(E.Concat(a, b).value) <==> SafeEvents(a.value) && SafeEvents(b.value)
  {
    hide LexableEvent, SafeValue;
    BothSafe(a.value, b.value);
  }

  lemma BothSafe(a: seq<Event>, b: seq<Event>)
    ensures SafeEvents(a + b) <==> SafeEvents(a) && SafeEvents(b)
  {
    hide LexableEvent, SafeValue;
    var c := a + b;
    assert forall i | 0 <= i < |a| :: c[i] == a[i];
    assert forall i | 0 <= i < |b| :: c[|a| + i] == b[i];
  }

  lemma HeaderSafe(isArray: bool, key: Key, k: string)
    requires SafeKey(key)
    ensures SafeKey(key + [k]) <==> SafePiece(k)
    ensures SafeEvents([W.HeaderOf(isArray, key + [k])]) <==> SafePiece(k)
  {
    hide SafePiece;
    var path := key + [k];
    assert forall i | 0 <= i < |key| :: path[i] == key[i];
    assert path[|key|] == k;
    var evs := [W.HeaderOf(isArray, path)];
    assert SafeEvents(evs) <==> LexableEvent(evs[0]);
  }

  lemma KeySafe(k: string, v: Value)
    ensures SafeEvents([KeyVal(k, v)]) <==> SafeName(k) && SafeValue(v)
  {
    hide SafeName, SafeValue, Lexable;
    if SafeValue(v) {
      SafeIsLexable(v);
    }
    var evs := [KeyVal(k, v)];
    assert SafeEvents(evs) <==> LexableEvent(evs[0]) && SafeValue(v);
  }

  /** Exactly what is carried is printed as safe lines. */
  lemma {:induction false} EntrySafe(key: Key, k: string, x: E.GoValue)
    requires SafeKey(key) && E.TypeOf(x).Some? && E.EncodeEntry(key, k, x).Printed?
    ensures SafeEvents(E.EncodeEntry(key, k, x).value) <==> CarriedEntry(k, x)
    decreases x, 4, 0
  {
    hide E.TypeOf, E.Element, E.EncodeMap, E.EncodeTables, E.KeyEqElement, SafeEvents, SafePiece, SafeName, SafeKey,
      CarriedValue, Carried;
    var path, s := key + [k], E.Settled(x);
    E.EncodeSettles(path, x);
    E.SettledTwice(x);
    NoneSafe();
    if s.Map? {
      SameCarried(x);
      HeaderSafe(false, key, k);
      if SafePiece(k) {
        MapSafe(path, s);
      }
      ConcatSafe(E.Printed([Header(path)]), E.EncodeMap(path, s));
    } else if E.IsSub(x) {
      SameCarried(x);
      TablesEntrySafe(key, k, s);
    } else if !E.Omitted(x) {
      E.DirectPrints(path, s);
      DirectSafe(key, k, s);
    }
  }

  lemma NoneSafe()
    ensures SafeEvents([])
  {
  }

  lemma SameCarried(x: E.GoValue)
    ensures Carried(x) == Carried(E.Settled(x))
  {
    hide CarriedEntry;
    E.SettledTwice(x);
  }

  lemma DirectSafe(key: Key, k: string, s: E.GoValue)
    requires E.KeyEqElement(key + [k], s).Printed?
    ensures SafeEvents(E.KeyEqElement(key + [k], s).value) <==> SafeName(k) && CarriedValue(s)
  {
    hide SafeEvents, SafeName, SafeValue, E.Element;
    KeySafe(k, E.Element(s).value);
  }

  predicate CarriedFrom(s: E.GoValue, i: nat)
    requires s.Slice?
  {
    forall j | i <= j < |s.elems| :: Carried(s.elems[j])
  }

  /** An array of tables under `k`. */
  lemma {:induction false} TablesEntrySafe(key: Key, k: string, s: E.GoValue)
    requires SafeKey(key) && s.Slice? && E.TypeOf(s) == Some(E.TypeArrayHash)
    requires E.EncodeTables(key + [k], s, 0).Printed?
    ensures SafeEvents(E.EncodeTables(key + [k], s, 0).value) <==> SafePiece(k) && Carried(s)
    decreases s, 3, 0
  {
    hide E.TypeOf, E.EncodeMap, SafeEvents, SafePiece, SafeKey, CarriedEntry, CarriedFrom;
    assert E.Settled(s) == s && s.elems != [];
    AllCarried(s);
    HeaderSafe(true, key, k);
    if SafePiece(k) {
      TablesSafe(key + [k], s, 0);
    } else {
      var one := E.Concat(E.Printed([ArrayHeader(key + [k])]), E.EncodeMap(key + [k], E.Settled(s.elems[0])));
      ConcatSafe(E.Printed([ArrayHeader(key + [k])]), E.EncodeMap(key + [k], E.Settled(s.elems[0])));
      ConcatSafe(one, E.EncodeTables(key + [k], s, 1));
    }
  }

  lemma AllCarried(s: E.GoValue)
    requires s.Slice?
    ensures Carried(s) <==> CarriedFrom(s, 0)
  {
    hide CarriedEntry;
    assert forall e :: e in s.elems <==> exists j | 0 <= j < |s.elems| :: s.elems[j] == e;
  }

  lemma {:induction false} TablesSafe(path: Key, x: E.GoValue, i: nat)
    requires path != [] && SafeKey(path) && x.Slice? && E.TypeOf(x) == Some(E.TypeArrayHash) && i <= |x.elems|
    requires E.EncodeTables(path, x, i).Printed?
    ensures SafeEvents(E.EncodeTables(path, x, i).value) <==> CarriedFrom(x, i)
    decreases x, 2, |x.elems| - i
  {
    hide E.TypeOf, E.EncodeMap, SafeEvents, SafeKey, Carried;
    NoneSafe();
    if i < |x.elems| {
      var e := x.elems[i];
      assert e in x.elems && e in E.Settled(x).elems;
      MapSafe(path, E.Settled(e));
      SameCarried(e);
      TablesSafe(path, x, i + 1);
      OneHeaderSafe(path);
      var one := E.Concat(E.Printed([ArrayHeader(path)]), E.EncodeMap(path, E.Settled(e)));
      ConcatSafe(E.Printed([ArrayHeader(path)]), E.EncodeMap(path, E.Settled(e)));
      ConcatSafe(one, E.EncodeTables(path, x, i + 1));
      assert CarriedFrom(x, i) <==> Carried(e) && CarriedFrom(x, i + 1);
    }
  }

  lemma OneHeaderSafe(path: Key)
    requires path != [] && SafeKey(path)
    ensures SafeEvents([ArrayHeader(path)])
  {
    hide SafePiece;
  }

  lemma MapSplits(key: Key, v: E.GoValue)
    requires v.Map? && E.EncodeMap(key, v).Printed?
    ensures forall k | k in v.entries :: E.TypeOf(v.entries[k]).Some?
    ensures var direct, sub := SO.SortedKeys(E.DirectKeys(v)), SO.SortedKeys(E.SubKeys(v));
            SO.Elements(direct) <= v.entries.Keys && SO.Elements(sub) <= v.entries.Keys &&
            E.EncodeKeys(key, v, direct).Printed? && E.EncodeKeys(key, v, sub).Printed? &&
            E.EncodeMap(key, v) == E.Concat(E.EncodeKeys(key, v, direct), E.EncodeKeys(key, v, sub)) &&
            forall k :: k in v.entries <==> k in direct || k in sub
  {
    hide E.TypeOf, E.IsSub, E.EncodeKeys;
    B.KeysCovered(v, SO.SortedKeys(E.DirectKeys(v)), SO.SortedKeys(E.SubKeys(v)));
  }

  predicate CarriedKeys(v: E.GoValue, ks: seq<string>)
    requires v.Map?
  {
    forall k | k in ks && k in v.entries :: CarriedEntry(k, v.entries[k])
  }

  lemma {:induction false} MapSafe(key: Key, v: E.GoValue)
    requires v.Map? && SafeKey(key) && E.EncodeMap(key, v).Printed?
    ensures SafeEvents(E.EncodeMap(key, v).value) <==> Carried(v)
    decreases v, 1, 0
  {
    hide E.TypeOf, E.EncodeKeys, E.IsSub, CarriedEntry, E.DirectKeys, E.SubKeys, SO.SortedKeys, SO.Elements, SafeEvents,
      SafeKey;
    MapSplits(key, v);
    var direct, sub := SO.SortedKeys(E.DirectKeys(v)), SO.SortedKeys(E.SubKeys(v));
    KeysSafe(key, v, direct);
    KeysSafe(key, v, sub);
    ConcatSafe(E.EncodeKeys(key, v, direct), E.EncodeKeys(key, v, sub));
    assert CarriedKeys(v, direct) && CarriedKeys(v, sub) <==> Carried(v);
  }

  lemma {:induction false} KeysSafe(key: Key, v: E.GoValue, ks: seq<string>)
    requires v.Map? && SafeKey(key) && SO.Elements(ks) <= v.entries.Keys && E.EncodeKeys(key, v, ks).Printed?
    requires forall k | k in v.entries :: E.TypeOf(v.entries[k]).Some?
    ensures SafeEvents(E.EncodeKeys(key, v, ks).value) <==> CarriedKeys(v, ks)
    decreases v, 0, |ks|
  {
    hide E.TypeOf, E.IsSub, E.EncodeEntry, SafeKey, CarriedEntry, SafeEvents;
    NoneSafe();
    if ks != [] {
      assert ks[0] in SO.Elements(ks) && forall k <- ks[1..] :: k in ks;
      assert forall j :: j in ks <==> j == ks[0] || j in ks[1..];
      EntrySafe(key, ks[0], v.entries[ks[0]]);
      KeysSafe(key, v, ks[1..]);
      ConcatSafe(E.EncodeEntry(key, ks[0], v.entries[ks[0]]), E.EncodeKeys(key, v, ks[1..]));
    }
  }

  /** The whole way round. A Go map that can be printed, with names and values the text can carry,
      comes back as the same tables: encoder, text, lexer and parser together, however the text is
      indented and spaced. */
  lemma TextRoundTrip(v: E.GoValue, lines: seq<Line>)
    requires v.Map? && B.Tidy(v) && !B.Crashing(v) && Carried(v)
    requires NamedLines(lines) && E.Encode([], v) == E.Printed(Events(lines))
    requires forall i | 0 <= i < |lines| :: BlankText(lines[i].lead)
    ensures G.Agrees(L.Start(Text(lines)))
    ensures var r := Parse(START, R.Final(L.Start(Text(lines))).out);
            r.Parsed? && r.st.mapping == E.ToHash(v)
  {
    hide Parse, Run, Text, G.Agrees, R.Final, E.Encode, Carried, SafeEvents, LexableLines, Events,
      NamedLines, ReadLines, L.Start, B.Tidy, B.Crashing;
    MapAtTop(v);
    B.Rebuild(v);
    MapSafe([], v);
    LinesSafe(lines);
    DocumentReads(lines);
    SafeReads(START, Events(lines));
  }

  lemma MapAtTop(v: E.GoValue)
    requires v.Map?
    ensures E.Encode([], v) == E.EncodeMap([], v)
  {
    hide E.EncodeMap;
  }

  lemma LinesSafe(lines: seq<Line>)
    requires NamedLines(lines) && SafeEvents(Events(lines)) && forall i | 0 <= i < |lines| :: BlankText(lines[i].lead)
    ensures LexableLines(lines)
  {
    hide LexableEvent, BlankText;
    EventsOf(lines);
    forall i | 0 <= i < |lines|
      ensures LexableEvent(lines[i].ev)
    {
      assert LexableEvent(Events(lines)[i]);
    }
  }

  lemma {:induction false} EventsOf(lines: seq<Line>)
    requires NamedLines(lines)
    ensures |Events(lines)| == |lines| && forall i | 0 <= i < |lines| :: Events(lines)[i] == lines[i].ev
  {
    if lines != [] {
      EventsOf(lines[1..]);
    }
  }
}
