/** The encoder as the source runs it: appending to a writer, and visiting a map's keys in whatever
    order Go hands them out. What is written does not depend on that order (encode.go). */
module TomlEncoder {
  import opened Options
  import opened TomlTree
  import opened TomlContext
  import opened StringOrder
  import opened TomlEncode

  /** How a call ends: it returns, it panics with an encoder error, which Encode returns to its caller, or
      it panics with something else. */
  datatype Status = Written | Error | Panic

  class Encoder {
    /** What has been written. */
    var w: seq<Event>

    constructor ()
      ensures w == []
    {
      w := [];
    }

    /** A call that should append `evs` did so, or failed in the way it should. */
    twostate predicate Wrote(st: Status, new r: Printing<seq<Event>>)
      reads this
    {
      (st == Written <==> r.Printed?) && (st == Panic <==> r.Crashed?) && (st == Written ==> w == old(w) + r.value)
    }

    /** encode. */
    method Encode(key: Key, v: GoValue) returns (st: Status)
      modifies this
      ensures Wrote(st, TomlEncode.Encode(key, v))
      decreases v, 3, 0
    {
      hide TypeOf, EncodeMap, EncodeTables, KeyEqElement;
      match v
      case NilInterface => st := Written;
      case NilMap => st := Written;
      case NilPointer(toTime) =>
        if toTime {
          st := WriteKey(key, v);
        } else {
          st := Written;
        }
      case Interface(e) => st := Encode(key, e);
      case Pointer(e) =>
        if e.Time? {
          st := WriteKey(key, v);
        } else {
          st := Encode(key, e);
        }
      case Map(_) => st := ETable(key, v);
      case Slice(_) =>
        // a panic inside tomlTypeOfGo
        if TypeOf(v).None? {
          return Error;
        }
        if TypeOf(v) == Some(TypeArrayHash) {
          st := EArrayOfTables(key, v);
        } else {
          st := WriteKey(key, v);
        }
      case NilSlice => st := WriteKey(key, v);
      case Boolean(_) => st := WriteKey(key, v);
      case Integer(_) => st := WriteKey(key, v);
      case Real(_) => st := WriteKey(key, v);
      case Text(_) => st := WriteKey(key, v);
      case Time(_, _) => st := WriteKey(key, v);
    }

    /** keyEqElement. */
    method WriteKey(key: Key, v: GoValue) returns (st: Status)
      modifies this
      ensures Wrote(st, KeyEqElement(key, v))
    {
      if key == [] || key[|key| - 1] == "" {
        return Error;
      }
      match Element(v)
      case None => st := Panic;
      case Some(x) =>
        w := w + [KeyVal(key[|key| - 1], x)];
        st := Written;
    }

    method EArrayOfTables(key: Key, v: GoValue) returns (st: Status)
      requires v.Slice? && TypeOf(v) == Some(TypeArrayHash)
      modifies this
      ensures Wrote(st, if key == [] || !ValidTableKey(key) then Refused else EncodeTables(key, v, 0))
      decreases v, 2, |v.elems|
    {
      hide TypeOf, EncodeMap, ValidTableKey;
      if key == [] || !ValidTableKey(key) {
        return Error;
      }
      ghost var written: seq<Event> := [];
      ConcatPrinted([], [], EncodeTables(key, v, 0));
      for i := 0 to |v.elems|
        invariant w == old(w) + written && AllNamed(written)
        invariant EncodeTables(key, v, 0) == Concat(Printed(written), EncodeTables(key, v, i))
      {
        assert v.elems[i] in v.elems && v.elems[i] in Settled(v).elems;
        w := w + [ArrayHeader(key)];
        st := EMap(key, Settled(v.elems[i]));
        if st != Written {
          return;
        }
        ghost var evs := [ArrayHeader(key)] + EncodeMap(key, Settled(v.elems[i])).value;
        ConcatPrinted(written, evs, EncodeTables(key, v, i + 1));
        written := written + evs;
      }
      return Written;
    }

    method ETable(key: Key, v: GoValue) returns (st: Status)
      requires v.Map?
      modifies this
      ensures Wrote(st, TomlEncode.Encode(key, v))
      decreases v, 2, 0
    {
      hide TypeOf, EncodeMap, ValidTableKey;
      if |key| > 0 {
        if !ValidTableKey(key) {
          return Error;
        }
        w := w + [Header(key)];
      }
      st := EMap(key, v);
    }

    /** The first loop of eMap: map keys in Go's unspecified order, split by what they hold. */
    method SplitKeys(v: GoValue) returns (direct: seq<string>, sub: seq<string>, ok: bool)
      requires v.Map?
      ensures ok <==> forall k | k in v.entries :: TypeOf(v.entries[k]).Some?
      ensures ok ==> Elements(direct) == DirectKeys(v) && Elements(sub) == SubKeys(v)
      ensures Distinct(direct) && Distinct(sub)
    {
      hide TypeOf, Distinct, Elements, IsHash, DirectKeys, SubKeys;
      direct, sub := [], [];
      SplitInside(v);
      NoKeys();
      var rest := v.entries.Keys;
      while rest != {}
        invariant rest <= v.entries.Keys
        invariant forall k | k in v.entries && k !in rest :: TypeOf(v.entries[k]).Some?
        invariant Elements(direct) == DirectKeys(v) - rest && Elements(sub) == SubKeys(v) - rest
        invariant Distinct(direct) && Distinct(sub)
        decreases |rest|
      {
        var k :| k in rest;
        if TypeOf(v.entries[k]).None? {
          return direct, sub, false;
        }
        KeyKind(v, k);
        Moved(DirectKeys(v), rest, k);
        Moved(SubKeys(v), rest, k);
        rest := rest - {k};
        if IsHash(TypeOf(v.entries[k]).value) {
          DistinctAppend(sub, k);
          sub := sub + [k];
        } else {
          DistinctAppend(direct, k);
          direct := direct + [k];
        }
      }
      return direct, sub, true;
    }

    method EMap(key: Key, v: GoValue) returns (st: Status)
      requires v.Map?
      modifies this
      ensures Wrote(st, EncodeMap(key, v))
      decreases v, 1, 0
    {
      hide TypeOf, IsSub, EncodeKeys, DirectKeys, SubKeys, SortedKeys, Elements;
      var direct, sub, split := SplitKeys(v);
      if !split {
        return Error;
      }
      direct := SortStrings(direct);
      sub := SortStrings(sub);
      SplitInside(v);
      st := WriteMapKeys(key, v, direct);
      if st == Written {
        st := WriteMapKeys(key, v, sub);
      }
    }

    method WriteMapKeys(key: Key, v: GoValue, mapKeys: seq<string>) returns (st: Status)
      requires v.Map? && Elements(mapKeys) <= v.entries.Keys
      modifies this
      ensures Wrote(st, EncodeKeys(key, v, mapKeys))
      decreases v, 0, |mapKeys|
    {
      hide TomlEncode.Encode;
      ghost var written: seq<Event> := [];
      TailsInside(mapKeys, 0);
      ConcatPrinted([], [], EncodeKeys(key, v, mapKeys));
      for i := 0 to |mapKeys|
        invariant w == old(w) + written && AllNamed(written)
        invariant Elements(mapKeys[i..]) <= v.entries.Keys
        invariant EncodeKeys(key, v, mapKeys) == Concat(Printed(written), EncodeKeys(key, v, mapKeys[i..]))
      {
        var k := mapKeys[i];
        TailsInside(mapKeys, i);
        TailsInside(mapKeys, i + 1);
        assert mapKeys[i..][1..] == mapKeys[i + 1..];
        if IsNil(v.entries[k]) {
          assert written + [] == written;
          ConcatPrinted(written, [], EncodeKeys(key, v, mapKeys[i + 1..]));
          continue;
        }
        st := Encode(key + [k], v.entries[k]);
        if st != Written {
          return;
        }
        ghost var evs := TomlEncode.Encode(key + [k], v.entries[k]).value;
        ConcatPrinted(written, evs, EncodeKeys(key, v, mapKeys[i + 1..]));
        written := written + evs;
      }
      return Written;
    }
  }

  ghost predicate Distinct(s: seq<string>) {
    forall i, j | 0 <= i < j < |s| :: s[i] != s[j]
  }

  lemma NoKeys()
    ensures Distinct([]) && Elements([]) == {}
  {
  }

  lemma DistinctAppend(s: seq<string>, k: string)
    requires Distinct(s) && k !in Elements(s)
    ensures Distinct(s + [k]) && Elements(s + [k]) == Elements(s) + {k}
  {
    ElementsAppend(s, [k]);
    assert forall i | 0 <= i < |s| :: s[i] in Elements(s);
  }

  lemma TailsInside(s: seq<string>, i: nat)
    requires i <= |s|
    ensures Elements(s[i..]) <= Elements(s) && s[0..] == s
    ensures i < |s| ==> s[i] in Elements(s)
  {
    assert forall x | x in s[i..] :: x in s;
  }

  lemma SplitInside(v: GoValue)
    requires v.Map?
    ensures DirectKeys(v) <= v.entries.Keys && SubKeys(v) <= v.entries.Keys
  {
    hide IsSub;
  }

  lemma Moved(all: set<string>, rest: set<string>, k: string)
    requires k in rest
    ensures k !in all - rest && all - (rest - {k}) == if k in all then all - rest + {k} else all - rest
  {
  }

  lemma KeyKind(v: GoValue, k: string)
    requires v.Map? && k in v.entries && TypeOf(v.entries[k]).Some?
    ensures if IsHash(TypeOf(v.entries[k]).value) then k in SubKeys(v) && k !in DirectKeys(v)
            else k in DirectKeys(v) && k !in SubKeys(v)
  {
    hide TypeOf, IsHash;
  }

  lemma ConcatPrinted(a: seq<Event>, b: seq<Event>, rest: Printing<seq<Event>>)
    requires AllNamed(a) && AllNamed(b) && (rest.Printed? ==> AllNamed(rest.value))
    ensures Concat(Printed(a), Concat(Printed(b), rest)) == Concat(Printed(a + b), rest)
    ensures a == [] && b == [] ==> Concat(Printed(a), rest) == rest
  {
    if rest.Printed? {
      assert a + (b + rest.value) == a + b + rest.value;
      assert a == [] ==> a + rest.value == rest.value;
    }
  }
}
