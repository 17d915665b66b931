/** On items that follow the lexer's grammar, the parser's complaints about impossible items are
    never made: no `bug` about the kind of an item, or about the text of a boolean, a number or a date,
    whatever the input. What remains of value's `bug` are \u escapes and dates the calendar does not
    have, which are outcomes of their own (parse.go). */
module TomlNoBug {
  import opened Options
  import opened TomlTree
  import opened TomlContext
  import opened TomlFatal
  import opened TomlItems
  import opened TomlGrammar
  import R = TomlLexRuns
  import L = TomlLex
  import Q = TomlQuote

  /** What is expected after some items, read from the first. */
  function From(e: Expect, items: seq<L.Item>): Expect
    decreases |items|
  {
    if items == [] then e else From(Consume(e, items[0]), items[1..])
  }

  lemma {:induction false} FromLast(e: Expect, items: seq<L.Item>, it: L.Item)
    ensures From(e, items + [it]) == Consume(From(e, items), it)
    decreases |items|
  {
    hide Consume;
    if items == [] {
      assert ([] + [it])[1..] == [];
    } else {
      assert (items + [it])[1..] == items[1..] + [it];
      FromLast(Consume(e, items[0]), items[1..], it);
    }
  }

  lemma {:induction false} ConsumeFrom(items: seq<L.Item>)
    ensures ConsumeAll(items) == From(Items(0), items)
  {
    hide Consume;
    if items != [] {
      var n := |items| - 1;
      ConsumeFrom(items[..n]);
      FromLast(Items(0), items[..n], items[n]);
      assert items[..n] + [items[n]] == items;
    }
  }

  lemma {:induction false} RejectedForGood(items: seq<L.Item>)
    ensures From(Rejected, items) == Rejected
    decreases |items|
  {
    if items != [] {
      RejectedForGood(items[1..]);
    }
  }

  /** The next item fits, and so does what follows it. */
  lemma OneFits(e: Expect, items: seq<L.Item>)
    requires items != [] && From(e, items) != Rejected
    ensures Consume(e, items[0]) != Rejected && From(Consume(e, items[0]), items[1..]) == From(e, items)
  {
    hide Consume;
    if Consume(e, items[0]) == Rejected {
      RejectedForGood(items[1..]);
    }
  }

  /** What reading on may come to when the items end in `goal`: never a `bug`; nothing to read only
      if the items do not come to an end; and afterwards the rest still ends in `goal`. */
  predicate Fine<T>(r: Result<T>, after: Expect, goal: Expect) {
    r != Failed(Bug) &&
    (r == Failed(Endless) ==> goal != Finished) &&
    (r.Got? ==> From(after, r.rest) == goal)
  }

  lemma NextFine(e: Expect, items: seq<L.Item>)
    requires e != Finished && From(e, items) != Rejected
    ensures NextItem(items) == Failed(Endless) ==> From(e, items) != Finished
    ensures NextItem(items).Got? ==>
              items != [] && Consume(e, items[0]) != Rejected &&
              From(Consume(e, items[0]), items[1..]) == From(e, items)
  {
    hide Consume;
    if items != [] {
      OneFits(e, items);
    }
  }

  function AfterValue(e: Expect): Expect
  {
    if e.KeyValue? then Items(0) else e
  }

  predicate ExpectsValue(e: Expect) {
    e.KeyValue? || (e.Items? && e.depth > 0)
  }

  lemma IntegerParses(s: string)
    requires IsInteger(s)
    ensures ParseInt(s) !in {Failed(Bug), Failed(Endless)}
  {
    if s[0] != '-' {
      assert s[0] in s;
    }
  }

  lemma FloatParses(s: string)
    requires IsFloat(s)
    ensures ParseFloat(s) == if Overflows(Decimal(if s[0] == '-' then s[..Point(s)][1..] else s[..Point(s)]))
                             then Failed(SyntaxError) else Got(s, [])
  {
    hide Overflows, Decimal;
    var i :| 0 <= i < |s| && IsInteger(s[..i]) && s[i] == '.' && AllDigits(s[i + 1..]);
    IntegerHasNoPoint(s[..i]);
    PointIs(s, i);
  }

  lemma IntegerHasNoPoint(s: string)
    requires IsInteger(s)
    ensures '.' !in s
  {
    var digits := if s[0] == '-' then s[1..] else s;
    assert forall c <- s :: c == '-' || c in digits;
  }

  lemma PointIs(s: string, i: nat)
    requires i < |s| && s[i] == '.' && '.' !in s[..i]
    ensures Point(s) == i
  {
    hide Point;
  }

  lemma DateParses(s: string)
    requires |s| == |DATETIME| && FitsDate(s)
    ensures ParseDate(s) == if RealDate(s) then Got(s, []) else Failed(BadDate)
  {
  }

  lemma {:induction false} ValueNoBug(e: Expect, it: L.Item, items: seq<L.Item>)
    requires ExpectsValue(e) && it.typ !in {L.ItemError, L.ItemCommentStart, L.ItemArrayEnd}
    requires Consume(e, it) != Rejected && From(Consume(e, it), items) != Rejected
    ensures Fine(ParseValue(it, items), AfterValue(e), From(Consume(e, it), items))
    decreases |items|, 1
  {
    hide From, ParseInt, ParseFloat, ParseDate, IsFloat, IsInteger, FitsDate, RawText, StringText, ParseArray, IsRest,
      Q.Unquote, StripFirstNewline, StripEscapedWhitespace;
    if it.typ == L.ItemArray {
      ArrayNoBug(if e.KeyValue? then 1 else e.depth + 1, items, []);
    } else if it.typ == L.ItemInteger {
      IntegerParses(it.val);
    } else if it.typ == L.ItemFloat {
      FloatParses(it.val);
    } else if it.typ == L.ItemDatetime {
      DateParses(it.val);
    }
  }

  lemma {:induction false} ArrayNoBug(depth: nat, items: seq<L.Item>, elems: seq<Value>)
    requires depth > 0 && From(Items(depth), items) != Rejected
    ensures Fine(ParseArray(items, elems), Items(depth - 1), From(Items(depth), items))
    decreases |items|, 0
  {
    hide From, IsValue, ParseValue, Uniform;
    NextFine(Items(depth), items);
    if NextItem(items).Got? {
      var it, rest := items[0], items[1..];
      if it.typ == L.ItemCommentStart {
        NextFine(Expect.Comment(depth), rest);
        if NextItem(rest).Got? {
          ArrayNoBug(depth, rest[1..], elems);
        }
      } else if it.typ != L.ItemArrayEnd {
        ValueNoBug(Items(depth), it, rest);
        var r := ParseValue(it, rest);
        if r.Got? {
          ArrayNoBug(depth, r.rest, elems + [r.value]);
        }
      }
    }
  }

  lemma {:induction false} NameNoBug(a: bool, key: Key, items: seq<L.Item>)
    requires From(MoreName(a), items) != Rejected
    requires forall i | 0 <= i < |key| :: NamePiece(key[i])
    ensures var r := ParseName(key, if a then L.ItemArrayTableEnd else L.ItemTableEnd, items);
            Fine(r, Items(0), From(MoreName(a), items)) &&
            (r.Got? ==> forall i | 0 <= i < |r.value| :: NamePiece(r.value[i]))
    decreases |items|
  {
    hide From, NamePiece;
    NextFine(MoreName(a), items);
    if NextItem(items).Got? && items[0].typ == L.ItemText {
      NameNoBug(a, key + [items[0].val], items[1..]);
    }
  }

  /** The pieces of a header's name and the name of a key, as the lexer lets them through. */
  predicate WellNamed(ev: Event) {
    match ev
    case Header(key) => forall i | 0 <= i < |key| :: NamePiece(key[i])
    case ArrayHeader(key) => forall i | 0 <= i < |key| :: NamePiece(key[i])
    case KeyVal(name, _) => KeyName(name) && Trimmed(name)
  }

  lemma HeaderNoBug(a: bool, items: seq<L.Item>)
    requires From(FirstName(a), items) != Rejected
    ensures var r := ParseHeader(a, items);
            Fine(r, Items(0), From(FirstName(a), items)) && (r.Got? ==> WellNamed(r.value.value))
  {
    hide From, NamePiece, ParseName;
    NextFine(FirstName(a), items);
    if NextItem(items).Got? {
      NameNoBug(a, [items[0].val], items[1..]);
    }
  }

  lemma KeyNoBug(it: L.Item, items: seq<L.Item>)
    requires it.typ == L.ItemKeyStart && From(KeyText, items) != Rejected
    ensures var r := ParseEvent(it, items);
            Fine(r, Items(0), From(KeyText, items)) && (r.Got? ==> r.value.Some? && WellNamed(r.value.value))
  {
    hide From, KeyName, Trimmed, ParseValue;
    NextFine(KeyText, items);
    if NextItem(items).Got? {
      var rest := items[1..];
      NextFine(KeyValue, rest);
      if NextItem(rest).Got? {
        ValueNoBug(KeyValue, rest[0], rest[1..]);
      }
    }
  }

  lemma EventNoBug(it: L.Item, items: seq<L.Item>)
    requires it.typ != L.ItemError && it.typ != L.ItemEOF
    requires Consume(Items(0), it) != Rejected && From(Consume(Items(0), it), items) != Rejected
    ensures var r := ParseEvent(it, items);
            Fine(r, Items(0), From(Consume(Items(0), it), items)) &&
            (r.Got? && r.value.Some? ==> WellNamed(r.value.value))
  {
    hide From, WellNamed, ParseHeader;
    if it.typ == L.ItemCommentStart {
      NextFine(Expect.Comment(0), items);
    } else if it.typ == L.ItemTableStart {
      HeaderNoBug(false, items);
    } else if it.typ == L.ItemArrayTableStart {
      HeaderNoBug(true, items);
    } else {
      KeyNoBug(it, items);
    }
  }

  lemma {:induction false} ParseNoBug(st: State, items: seq<L.Item>)
    requires From(Items(0), items) != Rejected
    ensures Parse(st, items) != Stopped(Bug)
    ensures Parse(st, items) == Stopped(Endless) ==> From(Items(0), items) != Finished
    decreases |items|
  {
    hide From, Step, Consume, ParseEvent, WellNamed;
    NextFine(Items(0), items);
    if NextItem(items).Got? && items[0].typ != L.ItemEOF {
      EventNoBug(items[0], items[1..]);
      var r := ParseEvent(items[0], items[1..]);
      if r.Got? {
        if r.value.None? {
          ParseNoBug(st, r.rest);
        } else if Step(st, r.value.value).Done? {
          ParseNoBug(Step(st, r.value.value).st, r.rest);
        }
      }
    }
  }

  // ---------- dates ----------

  /** The calendar has all the dates among the items. */
  predicate RealDates(items: seq<L.Item>) {
    forall it <- items :: it.typ == L.ItemDatetime && IsDate(it.val) ==> RealDate(it.val)
  }

  lemma RestDates(rest: seq<L.Item>, items: seq<L.Item>)
    requires IsRest(rest, items) && RealDates(items)
    ensures RealDates(rest)
  {
    assert forall it <- rest :: it in items;
  }

  lemma {:induction false} ValueDates(it: L.Item, items: seq<L.Item>)
    requires RealDates([it] + items)
    ensures ParseValue(it, items) != Failed(BadDate)
    decreases |items|, 1
  {
    hide ParseInt, ParseFloat, IsDate, RealDate, Q.Unquote, StripFirstNewline, StripEscapedWhitespace, ParseArray,
      Overflows, Decimal;
    assert [it] + items == [it] + items && it in [it] + items;
    if it.typ == L.ItemArray {
      assert forall x <- items :: x in [it] + items;
      ArrayDates(items, []);
    } else {
      NumbersNoDate(it.val);
    }
  }

  lemma NumbersNoDate(s: string)
    ensures ParseInt(s) != Failed(BadDate) && ParseFloat(s) != Failed(BadDate)
  {
    hide Overflows, Decimal;
  }

  lemma {:induction false} ArrayDates(items: seq<L.Item>, elems: seq<Value>)
    requires RealDates(items)
    ensures ParseArray(items, elems) != Failed(BadDate)
    decreases |items|, 0
  {
    hide ParseValue, Uniform, RealDates;
    var r := NextItem(items);
    if r.Got? {
      RestDates(r.rest, items);
      if r.value.typ == L.ItemCommentStart {
        var c := TomlItems.Expect(L.ItemText, r.rest);
        if c.Got? {
          RestDates(c.rest, r.rest);
          ArrayDates(c.rest, elems);
        }
      } else if r.value.typ != L.ItemArrayEnd {
        assert [r.value] + r.rest == items;
        ValueDates(r.value, r.rest);
        var v := ParseValue(r.value, r.rest);
        if v.Got? {
          RestDates(v.rest, r.rest);
          ArrayDates(v.rest, elems + [v.value]);
        }
      }
    }
  }

  lemma EventDates(it: L.Item, items: seq<L.Item>)
    requires RealDates(items)
    ensures ParseEvent(it, items) != Failed(BadDate)
  {
    hide ParseValue, ParseHeader, RealDates;
    if it.typ in {L.ItemTableStart, L.ItemArrayTableStart} {
      HeaderNoDate(it.typ == L.ItemArrayTableStart, items);
    } else if it.typ == L.ItemKeyStart {
      var n := TomlItems.Expect(L.ItemText, items);
      if n.Got? && NextItem(n.rest).Got? {
        RestDates(n.rest, items);
        var r := NextItem(n.rest);
        assert [r.value] + r.rest == n.rest;
        ValueDates(r.value, r.rest);
      }
    }
  }

  lemma HeaderNoDate(isArray: bool, items: seq<L.Item>)
    ensures ParseHeader(isArray, items) != Failed(BadDate)
  {
    hide ParseName;
    var first := TomlItems.Expect(L.ItemText, items);
    if first.Got? {
      NameNoDate([first.value.val], if isArray then L.ItemArrayTableEnd else L.ItemTableEnd, first.rest);
    }
  }

  lemma {:induction false} NameNoDate(key: Key, end: L.ItemType, items: seq<L.Item>)
    requires end != L.ItemText
    ensures ParseName(key, end, items) != Failed(BadDate)
    decreases |items|
  {
    if NextItem(items).Got? && items[0].typ == L.ItemText {
      NameNoDate(key + [items[0].val], end, items[1..]);
    }
  }

  /** A date ends the process only if the calendar does not have it. */
  lemma {:induction false} ParseDates(st: State, items: seq<L.Item>)
    requires RealDates(items)
    ensures Parse(st, items) != Stopped(BadDate)
    decreases |items|
  {
    hide Step, ParseEvent, RealDates;
    var n := NextItem(items);
    if n.Got? && n.value.typ != L.ItemEOF {
      RestDates(n.rest, items);
      EventDates(n.value, n.rest);
      var r := ParseEvent(n.value, n.rest);
      if r.Got? {
        RestDates(r.rest, n.rest);
        if r.value.None? {
          ParseDates(st, r.rest);
        } else if Step(st, r.value.value).Done? {
          ParseDates(Step(st, r.value.value).st, r.rest);
        }
      }
    }
  }

  // ---------- setValue ----------

  predicate NoArrayTables(items: seq<L.Item>) {
    forall it <- items :: it.typ != L.ItemArrayTableStart
  }

  lemma EventIsSimple(it: L.Item, items: seq<L.Item>)
    requires it.typ != L.ItemArrayTableStart
    ensures var r := ParseEvent(it, items);
            r.Got? && r.value.Some? && WellNamed(r.value.value) ==> Simple(r.value.value)
  {
    hide ParseValue, ParseName;
  }

  /** Without headers of arrays of tables, setValue always finds its context. */
  lemma {:induction false} ParseNeverFatal(st: State, items: seq<L.Item>)
    requires From(Items(0), items) != Rejected && Sound(st) && NoArrayTables(items)
    ensures Parse(st, items) != TableBug
    decreases |items|
  {
    hide From, Step, Consume, ParseEvent, WellNamed, Sound, Simple;
    NextFine(Items(0), items);
    if NextItem(items).Got? && items[0].typ != L.ItemEOF {
      EventNoBug(items[0], items[1..]);
      EventIsSimple(items[0], items[1..]);
      var r := ParseEvent(items[0], items[1..]);
      if r.Got? {
        assert NoArrayTables(r.rest) by { assert forall it | it in r.rest :: it in items[1..]; }
        if r.value.None? {
          ParseNeverFatal(st, r.rest);
        } else {
          var ev := r.value.value;
          StepSound(st, ev);
          if Step(st, ev).Done? {
            ParseNeverFatal(Step(st, ev).st, r.rest);
          }
        }
      }
    }
  }

  // ---------- whole texts ----------

  /** Whatever the text: no `bug` for an item or a literal the parser did not expect; for a date only if
      the lexer sent one that the calendar does not have; and the parser hangs only on a text whose last
      multi-line string is not closed. */
  lemma ParseTextNeverBugs(text: string)
    ensures Agrees(L.Start(text))
    ensures Parse(START, R.Final(L.Start(text)).out) != Stopped(Bug)
    ensures Parse(START, R.Final(L.Start(text)).out) == Stopped(BadDate) ==> !RealDates(R.Final(L.Start(text)).out)
    ensures Parse(START, R.Final(L.Start(text)).out) == Stopped(Endless) ==> R.Stuck(R.Final(L.Start(text)))
  {
    hide R.Run, Parse, R.Measure, Agrees, L.Start, RealDates;
    R.StartAgrees(text);
    var l := L.Start(text);
    R.Reached(l, R.Measure(l) + 1);
    R.RunEnds(l, R.Measure(l) + 1);
    ConsumeFrom(R.Final(l).out);
    ParseNoBug(START, R.Final(l).out);
    if RealDates(R.Final(l).out) {
      ParseDates(START, R.Final(l).out);
    }
  }

  /** A text that opens no array of tables never meets a `bug` in setValue. */
  lemma ParseTextNeverFatal(text: string)
    ensures Agrees(L.Start(text))
    ensures NoArrayTables(R.Final(L.Start(text)).out) ==> Parse(START, R.Final(L.Start(text)).out) != TableBug
  {
    hide R.Run, Parse, R.Measure, Agrees, L.Start, Sound, NoArrayTables;
    R.StartAgrees(text);
    var l := L.Start(text);
    R.Reached(l, R.Measure(l) + 1);
    ConsumeFrom(R.Final(l).out);
    StartIsSound();
    if NoArrayTables(R.Final(l).out) {
      ParseNeverFatal(START, R.Final(l).out);
    }
  }
}
