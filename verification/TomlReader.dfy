/** The parser as the source runs it: topLevel and value pull items from the lexer one at a time and
    act on the tables (parse.go). */
module TomlReader {
  import opened Options
  import opened TomlTree
  import opened TomlContext
  import opened TomlItems
  import Q = TomlQuote
  import L = TomlLex
  import G = TomlGrammar
  import R = TomlLexRuns
  import Lexer = TomlLexer
  import Tables = TomlParser

  class Reader {
    const lx: Lexer.Lexer
    const tables: Tables.Parser

    constructor (text: string)
      ensures fresh(lx) && fresh(tables)
      ensures Valid() && CanRead() && tables.St() == START
      ensures lx.St() == L.Start(text) && Rest() == lx.Tokens()
    {
      lx := new Lexer.Lexer(text);
      tables := new Tables.Parser();
      new;
      R.StartAgrees(text);
      R.FinalGrows(lx.St(), R.Measure(lx.St()) + 1);
    }

    ghost predicate Valid()
      reads this, lx
    {
      lx.Valid() && G.Agrees(lx.St()) && lx.received <= lx.Tokens()
    }

    /** The items still to be read. */
    ghost function Rest(): seq<L.Item>
      requires Valid()
      reads this, lx
    {
      lx.Tokens()[|lx.received|..]
    }

    /** Neither the end nor an error was read. */
    ghost predicate CanRead()
      requires Valid()
      reads this, lx
    {
      G.ConsumeAll(lx.received) != G.Finished
    }

    method Next() returns (it: L.Item, err: Option<Failure>)
      requires Valid() && CanRead()
      modifies lx
      ensures Valid()
      ensures err == None ==> NextItem(old(Rest())) == Got(it, Rest()) && (it.typ != L.ItemEOF ==> CanRead())
      ensures err.Some? ==> NextItem(old(Rest())) == Failed(err.value)
    {
      hide L.Newlines, L.Step, G.Agrees, G.ConsumeAll, R.Run, R.Measure;
      var ok;
      it, ok := lx.NextItem();
      R.FinalGrows(lx.St(), R.Measure(lx.St()) + 1);
      assert lx.received <= lx.Tokens();
      if !ok {
        return it, Some(Endless);
      }
      if it.typ == L.ItemError {
        return it, Some(SyntaxError);
      }
      StillReading(old(lx.received), it);
      return it, None;
    }

    lemma StillReading(items: seq<L.Item>, it: L.Item)
      requires G.ConsumeAll(items) != G.Finished && it.typ != L.ItemError
      ensures it.typ != L.ItemEOF ==> G.ConsumeAll(items + [it]) != G.Finished
    {
      assert (items + [it])[..|items|] == items;
    }

    method Expect(typ: L.ItemType) returns (it: L.Item, err: Option<Failure>)
      requires Valid() && CanRead() && typ != L.ItemEOF
      modifies lx
      ensures Valid()
      ensures err == None ==> TomlItems.Expect(typ, old(Rest())) == Got(it, Rest()) && CanRead()
      ensures err.Some? ==> TomlItems.Expect(typ, old(Rest())) == Failed(err.value)
    {
      hide Valid, Rest, CanRead;
      it, err := Next();
      if err == None && it.typ != typ {
        return it, Some(Bug);
      }
    }

    /** replaceUnicode(s) as a string value. */
    method Text(s: string) returns (v: Value, err: Option<Failure>)
      ensures err == None ==> forall rest :: StringValue(Q.ReplaceUnicode(s), rest) == Got(v, rest)
      ensures err.Some? ==> forall rest :: StringValue(Q.ReplaceUnicode(s), rest) == Failed(err.value)
    {
      v, err := Bool(false), None;
      var r := Q.ReplaceUnicodeLoop(s);
      match r
      case Read(t) => v := Str(t);
      case Bad => err := Some(BadEscape);
      case Crash => err := Some(OutOfRange);
    }

    /** The array loop reads an item, or fails as `next` does. */
    lemma ArrayStart(items: seq<L.Item>, elems: seq<Value>)
      ensures var r := NextItem(items);
              if r.Got? then
                |r.rest| < |items| && r.value.typ != L.ItemError &&
                ParseArray(items, elems) == ParseArray([r.value] + r.rest, elems)
              else ParseArray(items, elems) == Failed(r.why)
    {
      if items != [] {
        assert items == [items[0]] + items[1..];
      }
    }

    /** What it does with the item. */
    lemma ArrayItem(it: L.Item, rest: seq<L.Item>, elems: seq<Value>)
      requires it.typ != L.ItemError
      ensures ParseArray([it] + rest, elems) ==
              if it.typ == L.ItemArrayEnd then
                if Uniform(elems) then Got(Array(elems), rest) else Failed(SyntaxError)
              else if it.typ == L.ItemCommentStart then
                var r := TomlItems.Expect(L.ItemText, rest);
                if r.Got? then ParseArray(r.rest, elems) else Failed(r.why)
              else
                var r := ParseValue(it, rest);
                if r.Got? then ParseArray(r.rest, elems + [r.value]) else Failed(r.why)
    {
      hide ParseValue, TomlItems.Expect, Uniform;
      assert ([it] + rest)[1..] == rest;
    }

    /** value. */
    method ReadValue(it: L.Item) returns (v: Value, err: Option<Failure>)
      requires Valid() && (it.typ != L.ItemEOF ==> CanRead())
      modifies lx
      ensures Valid()
      ensures err == None ==> ParseValue(it, old(Rest())) == Got(v, Rest()) && CanRead()
      ensures err.Some? ==> ParseValue(it, old(Rest())) == Failed(err.value)
      decreases |Rest()|, 1
    {
      hide Valid, Rest, CanRead, StringValue, Q.ReplaceUnicode, Q.ReplaceEscapes, ParseArray, ParseInt,
        ParseFloat, ParseDate, StripFirstNewline, StripEscapedWhitespace;
      v, err := Bool(false), None;
      match it.typ
      case ItemString =>
        v, err := Text(Q.ReplaceEscapes(it.val));
      case ItemMultilineString =>
        v, err := Text(Q.ReplaceEscapes(StripFirstNewline(StripEscapedWhitespace(it.val, false))));
      case ItemRawString =>
        v := Str(it.val);
      case ItemRawMultilineString =>
        v := Str(StripFirstNewline(it.val));
      case ItemBool =>
        if it.val == "true" {
          v := Bool(true);
        } else if it.val == "false" {
          v := Bool(false);
        } else {
          err := Some(Bug);
        }
      case ItemInteger =>
        var num := ParseInt(it.val);
        match num {
          case Got(n, _) => v := Int(n);
          case Failed(why) => err := Some(why);
        }
      case ItemFloat =>
        var num := ParseFloat(it.val);
        match num {
          case Got(text, _) => v := Float(text);
          case Failed(why) => err := Some(why);
        }
      case ItemDatetime =>
        var t := ParseDate(it.val);
        match t {
          case Got(text, _) => v := Datetime(text);
          case Failed(why) => err := Some(why);
        }
      case ItemArray =>
        v, err := ReadArray();
      case _ =>
        err := Some(Bug);
    }

    method ReadArray() returns (v: Value, err: Option<Failure>)
      requires Valid() && CanRead()
      modifies lx
      ensures Valid()
      ensures err == None ==> ParseArray(old(Rest()), []) == Got(v, Rest()) && CanRead()
      ensures err.Some? ==> ParseArray(old(Rest()), []) == Failed(err.value)
      decreases |Rest()|, 0
    {
      hide Valid, Rest, CanRead, ParseValue, Uniform, ParseArray, TomlItems.Expect, NextItem;
      v := Bool(false);
      var elems: seq<Value> := [];
      var it;
      ArrayStart(Rest(), elems);
      it, err := Next();
      if err.Some? {
        return;
      }
      while it.typ != L.ItemArrayEnd
        invariant Valid() && (it.typ != L.ItemEOF ==> CanRead())
        invariant |Rest()| < |old(Rest())|
        invariant err == None && it.typ != L.ItemError
        invariant ParseArray(old(Rest()), []) == ParseArray([it] + Rest(), elems)
        decreases |Rest()|
      {
        ArrayItem(it, Rest(), elems);
        if it.typ == L.ItemCommentStart {
          it, err := Expect(L.ItemText);
        } else {
          var elem;
          elem, err := ReadValue(it);
          elems := elems + [elem];
        }
        if err.Some? {
          return;
        }
        ArrayStart(Rest(), elems);
        it, err := Next();
        if err.Some? {
          return;
        }
      }
      ArrayItem(it, Rest(), elems);
      if !Uniform(elems) {
        return v, Some(SyntaxError);
      }
      return Array(elems), None;
    }

    /** What the loop over name pieces does with an item. */
    lemma NameItem(key: Key, end: L.ItemType, it: L.Item, rest: seq<L.Item>)
      requires end != L.ItemText && it.typ != L.ItemError
      ensures ParseName(key, end, [it] + rest) ==
              if it.typ == L.ItemText then ParseName(key + [it.val], end, rest)
              else if it.typ == end then Got(key, rest)
              else Failed(Bug)
    {
      assert ([it] + rest)[1..] == rest;
    }

    lemma NameStart(key: Key, end: L.ItemType, items: seq<L.Item>)
      requires end != L.ItemText
      ensures var r := NextItem(items);
              if r.Got? then
                |r.rest| < |items| && r.value.typ != L.ItemError &&
                ParseName(key, end, items) == ParseName(key, end, [r.value] + r.rest)
              else ParseName(key, end, items) == Failed(r.why)
    {
      if items != [] {
        assert items == [items[0]] + items[1..];
      }
    }

    /** The name of a table, from its first piece to the closing item. */
    method ReadName(isArray: bool) returns (key: Key, err: Option<Failure>)
      requires Valid() && CanRead()
      modifies lx
      ensures Valid()
      ensures err == None ==> key != [] && CanRead()
      ensures err == None ==>
                var ev := if isArray then ArrayHeader(key) else Header(key);
                ParseHeader(isArray, old(Rest())) == Got(Some(ev), Rest())
      ensures err.Some? ==> ParseHeader(isArray, old(Rest())) == Failed(err.value)
    {
      hide Valid, Rest, CanRead, ParseName, TomlItems.Expect, NextItem;
      key := [];
      var end := if isArray then L.ItemArrayTableEnd else L.ItemTableEnd;
      var kg;
      kg, err := Expect(L.ItemText);
      if err.Some? {
        return;
      }
      ghost var first, rest := kg, Rest();
      NameItem([], end, kg, Rest());
      assert [] + [kg.val] == [first.val];
      while kg.typ == L.ItemText
        invariant Valid() && (kg.typ != L.ItemEOF ==> CanRead())
        invariant err == None && kg.typ != L.ItemError && (key == [] ==> kg.typ == L.ItemText)
        invariant ParseName([first.val], end, rest) == ParseName(key, end, [kg] + Rest())
        decreases |Rest()|
      {
        NameItem(key, end, kg, Rest());
        key := key + [kg.val];
        NameStart(key, end, Rest());
        kg, err := Next();
        if err.Some? {
          return;
        }
      }
      NameItem(key, end, kg, Rest());
      if kg.typ != end {
        return key, Some(Bug);
      }
    }

    /** A key and its value. */
    method ReadKey(it: L.Item) returns (name: string, val: Value, err: Option<Failure>)
      requires Valid() && CanRead() && it.typ == L.ItemKeyStart
      modifies lx
      ensures Valid()
      ensures err == None ==> CanRead() && ParseEvent(it, old(Rest())) == Got(Some(KeyVal(name, val)), Rest())
      ensures err.Some? ==> ParseEvent(it, old(Rest())) == Failed(err.value)
    {
      hide Valid, Rest, CanRead, ParseValue, TomlItems.Expect, NextItem;
      name, val := "", Bool(false);
      var kname, first;
      kname, err := Expect(L.ItemText);
      if err.Some? {
        return;
      }
      name := kname.val;
      first, err := Next();
      if err.Some? {
        return;
      }
      val, err := ReadValue(first);
    }

    /** topLevel. `stop` is how the whole parse ends, if it ends here. */
    method TopLevel(it: L.Item) returns (stop: Option<Ending>)
      requires Valid() && CanRead()
      modifies lx, tables
      ensures Valid()
      ensures stop == None ==> CanRead()
      ensures stop == None ==>
                AfterEvent(ParseEvent(it, old(Rest())), old(tables.St())) == Parse(tables.St(), Rest())
      ensures stop == None ==> |Rest()| < |old(Rest())|
      ensures stop.Some? ==>
                AfterEvent(ParseEvent(it, old(Rest())), old(tables.St())) == stop.value && !stop.value.Parsed?
    {
      hide Valid, Rest, CanRead, Parse, ParseValue, TomlItems.Expect, NextItem, ParseHeader, Step, Establish,
        SetValue;
      var err, r := None, Tables.Ok;
      if it.typ == L.ItemCommentStart {
        var text;
        text, err := Expect(L.ItemText);
      } else if it.typ == L.ItemTableStart || it.typ == L.ItemArrayTableStart {
        var isArray := it.typ == L.ItemArrayTableStart;
        var key;
        key, err := ReadName(isArray);
        if err == None {
          StepIs(tables.St(), key, isArray);
          r := tables.EstablishContext(key, isArray);
        }
      } else if it.typ == L.ItemKeyStart {
        var kname, val;
        kname, val, err := ReadKey(it);
        if err == None {
          SetIs(tables.St(), kname, val);
          r := tables.SetValue(kname, Prim(val));
        }
      } else {
        err := Some(Bug);
      }
      if err.Some? {
        return Some(Stopped(err.value));
      }
      if r == Tables.Ok {
        return None;
      }
      return Some(if r == Tables.Error then TableError else TableBug);
    }

    lemma SetIs(st: State, name: string, v: Value)
      ensures Step(st, KeyVal(name, v)) == SetValue(st, name, Prim(v))
    {
      hide SetValue;
    }

    lemma StepIs(st: State, key: Key, isArray: bool)
      requires key != []
      ensures Step(st, if isArray then ArrayHeader(key) else Header(key)) == Establish(st, key, isArray)
    {
      hide Establish;
    }
  }

  /** How the parse goes on behind one top-level item. */
  function AfterEvent(r: Result<Option<Event>>, st: State): Ending
    requires r.Got? && r.value.Some? ==> Named(r.value.value)
  {
    match r
    case Failed(why) => Stopped(why)
    case Got(None, rest) => Parse(st, rest)
    case Got(Some(ev), rest) =>
      match Step(st, ev)
      case Done(st') => Parse(st', rest)
      case ParseError => TableError
      case Fatal => TableBug
  }

  /** parse: what it comes to is said by the items of the text. */
  method ParseText(text: string) returns (reader: Reader, ending: Ending)
    ensures G.Agrees(L.Start(text))
    ensures fresh(reader) && fresh(reader.tables)
    ensures ending == Parse(START, R.Final(L.Start(text)).out)
    ensures ending.Parsed? ==> reader.tables.St() == ending.st
  {
    hide Parse, Reader.Valid, Reader.Rest, Reader.CanRead, ParseEvent, AfterEvent, L.Start, NextItem;
    R.StartAgrees(text);
    reader := new Reader(text);
    while true
      invariant fresh(reader) && fresh(reader.tables) && fresh(reader.lx)
      invariant reader.Valid() && reader.CanRead()
      invariant Parse(reader.tables.St(), reader.Rest()) == Parse(START, R.Final(L.Start(text)).out)
      decreases |reader.Rest()|
    {
      ParseStep(reader.tables.St(), reader.Rest());
      var it, err := reader.Next();
      if err.Some? {
        return reader, Stopped(err.value);
      }
      if it.typ == L.ItemEOF {
        return reader, Parsed(reader.tables.St());
      }
      var stop := reader.TopLevel(it);
      if stop.Some? {
        return reader, stop.value;
      }
    }
  }

  lemma ParseStep(st: State, items: seq<L.Item>)
    ensures var r := NextItem(items);
            if r.Failed? then
              Parse(st, items) == Stopped(r.why)
            else
              |r.rest| < |items| &&
              Parse(st, items) ==
              if r.value.typ == L.ItemEOF then Parsed(st) else AfterEvent(ParseEvent(r.value, r.rest), st)
  {
    hide ParseEvent, Step;
  }
}
