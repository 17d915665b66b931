/** What printed tables mean as Go values (encode.go): read back, they are the value that was printed. */
module TomlMeaning {
  import opened Options
  import opened TomlTree
  import opened TomlContext
  import opened TomlEncode
  import opened TomlRebuild
  import D = TomlDocument
  import I = TomlItems
  import L = TomlLex
  import R = TomlLexRuns
  import G = TomlGrammar

  // ---------- from tables to Go values ----------

  function FromValue(v: Value): GoValue
  {
    match v
    case Str(s) => Text(s)
    case Int(i) => Integer(i)
    case Bool(b) => Boolean(b)
    case Float(text) => Real(text)
    case Datetime(text) => Time(text, "")
    case Array(elems) => Slice(seq(|elems|, i requires 0 <= i < |elems| => FromValue(elems[i])))
  }

  function FromTree(t: Tree): GoValue
  {
    match t
    case Prim(v) => FromValue(v)
    case Table(h) => FromHash(h)
    case Tables(earlier, last) =>
      Slice(seq(|earlier|, i requires 0 <= i < |earlier| => FromHash(earlier[i])) + [FromHash(last)])
  }

  function FromHash(h: Hash): GoValue
  {
    Map(map k | k in h.entries :: FromTree(h.entries[k]))
  }

  // ---------- what a Go value comes to ----------

  /** Pointers and interfaces followed, a pointer to a time as its text, entries that are not written left
      out, a nil slice as an empty one, whole floats with a decimal. */
  function Plain(v: GoValue): GoValue
  {
    match v
    case Interface(e) => Plain(e)
    case Pointer(e) => if e.Time? then Text(e.text) else Plain(e)
    case Real(digits) => Real(if '.' in digits then digits else digits + ".0")
    case Time(stamp, _) => Time(stamp, "")
    case NilSlice => Slice([])
    case Slice(elems) => Slice(seq(|elems|, i requires 0 <= i < |elems| => Plain(elems[i])))
    case Map(entries) => Map(map k | k in entries && !Omitted(entries[k]) :: Plain(entries[k]))
    case _ => v
  }

  /** Most values are that already. */
  predicate IsPlain(v: GoValue)
  {
    match v
    case Boolean(_) => true
    case Integer(_) => true
    case Text(_) => true
    case Real(digits) => '.' in digits
    case Time(_, text) => text == ""
    case Slice(elems) => forall e <- elems :: IsPlain(e)
    case Map(entries) => forall k | k in entries :: IsPlain(entries[k])
    case _ => false
  }

  lemma {:induction false} PlainIsSame(v: GoValue)
    requires IsPlain(v)
    ensures Plain(v) == v
  {
    match v
    case Slice(elems) =>
      forall i | 0 <= i < |elems|
        ensures Plain(elems[i]) == elems[i]
      {
        assert elems[i] in elems;
        PlainIsSame(elems[i]);
      }
    case Map(entries) =>
      forall k | k in entries
        ensures Plain(entries[k]) == entries[k] && !Omitted(entries[k])
      {
        PlainIsSame(entries[k]);
      }
      assert Plain(v).entries == entries;
    case _ =>
  }

  lemma {:induction false} PlainSettles(v: GoValue)
    ensures Plain(v) == Plain(Settled(v))
  {
    match v
    case Interface(e) => PlainSettles(e);
    case Pointer(e) => if !e.Time? { PlainSettles(e); }
    case _ =>
  }

  // ---------- printed values ----------

  /** What is printed behind a key means the value. */
  lemma {:induction false} ElementMeans(v: GoValue)
    requires Element(v).Some?
    ensures FromValue(Element(v).value) == Plain(v)
    decreases v, 1
  {
    match v
    case Interface(e) => ElementMeans(e);
    case Slice(elems) => ElementsMean(v, 0);
    case _ =>
  }

  /** The j-th printed element means the j-th element. */
  lemma {:induction false} ElementsMean(v: GoValue, i: nat)
    requires v.Slice? && i <= |v.elems| && ElementsFrom(v, i).Some?
    ensures var vs := ElementsFrom(v, i).value;
            |vs| == |v.elems| - i && forall j | i <= j < |v.elems| :: FromValue(vs[j - i]) == Plain(v.elems[j])
    decreases v, 0, |v.elems| - i
  {
    hide FromValue, Plain, Element;
    if i < |v.elems| {
      assert v.elems[i] in v.elems;
      ElementMeans(v.elems[i]);
      ElementsMean(v, i + 1);
    }
  }

  // ---------- printed maps ----------

  lemma {:induction false} HashMeans(v: GoValue)
    requires v.Map? && Tidy(v) && !Crashing(v)
    ensures FromHash(ToHash(v)) == Plain(v)
    decreases v, 0
  {
    hide TidyEntry, CrashingEntry, ToTree, FromTree, Omitted, TypeOf;
    MapParts(v);
    forall k | k in v.entries && !Omitted(v.entries[k])
      ensures FromTree(ToTree(v.entries[k])) == Plain(v.entries[k])
    {
      EntryMeans(k, v.entries[k]);
    }
    assert FromHash(ToHash(v)).entries == Plain(v).entries;
  }

  lemma {:induction false} EntryMeans(k: string, x: GoValue)
    requires TidyEntry(k, x) && !CrashingEntry(x) && !Omitted(x)
    ensures FromTree(ToTree(x)) == Plain(x)
    decreases x, 2
  {
    hide TypeOf, Element, Plain, ToHash, ToHashes, FromHash, FromValue, Tidy, Crashing, HoldsPointer;
    var s := Settled(x);
    PlainSettles(x);
    SettledTwice(x);
    EncodeSettles([], x);
    if s.Map? {
      SubEntry(k, x);
      SameTidiness(x);
      HashMeans(s);
    } else if IsSub(x) {
      SubEntry(k, x);
      TablesParts(x);
      TablesMean(s);
    } else {
      DirectHasElement(x);
      ElementMeans(s);
    }
  }

  lemma DirectHasElement(x: GoValue)
    requires TypeOf(x).Some? && !IsSub(x) && !Settled(x).Map? && !CrashingEntry(x) && !Omitted(x)
    ensures Element(Settled(x)).Some? && TypeOf(x) != Some(TypeArrayHash)
  {
    hide TypeOf, Element, HoldsPointer;
    var s := Settled(x);
    EncodeSettles([], x);
    SettledTwice(x);
    if IsNil(s) {
      NilHoldsNothing(s);
    } else {
      ElementExactly(s);
      SettledIsNoPointer(x);
    }
  }

  lemma {:induction false} TablesMean(s: GoValue)
    requires s.Slice? && TypeOf(s) == Some(TypeArrayHash) && TidyFrom(s, 0) && !CrashingFrom(s, 0)
    ensures s.elems != [] && forall e <- s.elems :: Settled(e).Map?
    ensures var n := |s.elems| - 1;
            FromTree(Tables(ToHashes(s, n), ToHash(Settled(s.elems[n])))) == Plain(s)
    decreases s, 1
  {
    hide TypeOf, ToHash, FromHash, Tidy, Crashing;
    assert Settled(s) == s;
    var n := |s.elems| - 1;
    forall i | 0 <= i <= n
      ensures Settled(s.elems[i]).Map? && FromHash(ToHash(Settled(s.elems[i]))) == Plain(s.elems[i])
    {
      assert s.elems[i] in s.elems;
      SameTidiness(s.elems[i]);
      PlainSettles(s.elems[i]);
      HashMeans(Settled(s.elems[i]));
    }
    HashesAt(s, n);
    var t := FromTree(Tables(ToHashes(s, n), ToHash(Settled(s.elems[n]))));
    assert t.elems == Plain(s).elems;
  }

  lemma {:induction false} HashesAt(v: GoValue, n: nat)
    requires v.Slice? && n <= |v.elems| && forall e <- v.elems :: Settled(e).Map?
    ensures forall i | 0 <= i < n :: v.elems[i] in v.elems && ToHashes(v, n)[i] == ToHash(Settled(v.elems[i]))
  {
    hide ToHash;
    if n > 0 {
      HashesAt(v, n - 1);
    }
  }

  /** What is printed means the map: parsed, and read back as a Go value, it is what was printed. */
  lemma PrintMeans(v: GoValue)
    requires v.Map? && Encode([], v).Printed?
    ensures var r := Run(START, Encode([], v).value); r.Done? && FromHash(r.st.mapping) == Plain(v)
  {
    hide Encode, Tidy, Crashing, Run, Unmarked, ToHash, FromHash, Plain;
    Rebuild(v);
    HashMeans(v);
  }

  /** The same through the text, by lexer and parser. */
  lemma TextMeans(v: GoValue, lines: seq<D.Line>)
    requires v.Map? && D.Carried(v) && D.NamedLines(lines) && Encode([], v) == Printed(D.Events(lines))
    requires forall i | 0 <= i < |lines| :: D.BlankText(lines[i].lead)
    ensures G.Agrees(L.Start(D.Text(lines)))
    ensures var r := I.Parse(START, R.Final(L.Start(D.Text(lines))).out);
            r.Parsed? && FromHash(r.st.mapping) == Plain(v)
  {
    hide I.Parse, Run, D.Text, G.Agrees, R.Final, Encode, D.Carried, D.Events, D.NamedLines, L.Start, Tidy, Crashing,
      FromHash, Plain, ToHash, Unmarked;
    Rebuild(v);
    D.TextRoundTrip(v, lines);
    HashMeans(v);
  }
}
