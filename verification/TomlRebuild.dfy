/** Parsing what the encoder printed rebuilds the tables that were printed. It rests on every map's
    direct keys being written before its sub-tables. */
module TomlRebuild {
  import opened Options
  import opened TomlTree
  import opened TomlContext
  import opened TomlEncode
  import opened StringOrder
  import P = TomlSteps

  /** Parsing succeeded with these tables and no implicit marks left. */
  predicate Built(r: Outcome, h: Hash) {
    r.Done? && r.st.mapping == h && r.st.implicits == {}
  }

  /** No event on the way is met with an implicit mark. */
  ghost predicate Unmarked(st: State, evs: seq<Event>)
    requires AllNamed(evs)
    decreases |evs|
  {
    st.implicits == {} && (evs == [] || !Step(st, evs[0]).Done? || Unmarked(Step(st, evs[0]).st, evs[1..]))
  }

  ghost predicate Builds(st: State, evs: seq<Event>, h: Hash)
    requires AllNamed(evs)
  {
    Unmarked(st, evs) && Built(Run(st, evs), h)
  }

  lemma {:induction false} UnmarkedAppend(st: State, a: seq<Event>, b: seq<Event>)
    requires AllNamed(a) && AllNamed(b) && Unmarked(st, a) && Run(st, a).Done? && Unmarked(Run(st, a).st, b)
    ensures Unmarked(st, a + b)
    decreases |a|
  {
    hide Step;
    if a == [] {
      assert a + b == b;
    } else {
      assert (a + b)[1..] == a[1..] + b;
      UnmarkedAppend(Step(st, a[0]).st, a[1..], b);
    }
  }

  lemma BuildsAppend(st: State, a: seq<Event>, h: Hash, b: seq<Event>, h': Hash)
    requires AllNamed(a) && AllNamed(b) && Builds(st, a, h) && Builds(Run(st, a).st, b, h')
    ensures Builds(st, a + b, h') && Run(st, a + b) == Run(Run(st, a).st, b)
  {
    hide Run, Unmarked;
    RunAppend(st, a, b);
    UnmarkedAppend(st, a, b);
  }

  lemma BuildsOne(st: State, ev: Event, h: Hash)
    requires Named(ev) && st.implicits == {} && Built(Step(st, ev), h)
    ensures AllNamed([ev]) && Builds(st, [ev], h) && Run(st, [ev]) == Step(st, ev)
  {
    hide Step;
    var evs := [ev];
    assert evs[0] == ev && evs[1..] == [];
    assert Unmarked(Step(st, ev).st, []) && Run(Step(st, ev).st, []) == Step(st, ev);
    assert Unmarked(st, evs) && Run(st, evs) == Step(st, ev);
  }

  lemma BuildsNothing(st: State)
    requires st.implicits == {}
    ensures Builds(st, [], st.mapping) && Run(st, []) == Done(st)
  {
  }

  /** The entries of `v` under the keys `ks`, added to a hash. */
  function Add(at: Hash, v: GoValue, ks: seq<string>): Hash
    requires v.Map?
  {
    Hash(at.entries + map k | k in v.entries && k in ks && !Omitted(v.entries[k]) :: ToTree(v.entries[k]))
  }

  /** Filling a table that was just put under `k`. */
  lemma {:induction false} FillNew(m: Hash, key: Key, k: string, t: Tree, h: Hash)
    requires Find(m, key).Some? && Into(t).Some?
    ensures var at := Find(m, key).value;
            var m' := Update(m, key, Put(at, k, t));
            Find(m', key + [k]) == Into(t) &&
            Update(m', key + [k], h) == Update(m, key, Put(at, k, WithInto(t, h)))
  {
    hide Find, Update;
    var at := Find(m, key).value;
    var m' := Update(m, key, Put(at, k, t));
    FindUpdate(m, key, Put(at, k, t));
    FindStep(m', key, k);
    UpdateStep(m', key, k, h);
    UpdateUpdate(m, key, Put(at, k, t), Put(Put(at, k, t), k, WithInto(t, h)));
    assert Put(Put(at, k, t), k, WithInto(t, h)) == Put(at, k, WithInto(t, h));
  }

  lemma {:induction false} HeaderStep(st: State, key: Key, k: string)
    requires Find(st.mapping, key).Some? && st.implicits == {}
    requires k !in Find(st.mapping, key).value.entries
    ensures Step(st, Header(key + [k]))
         == Done(State(Update(st.mapping, key, Put(Find(st.mapping, key).value, k, Table(EMPTY))), key + [k], {}))
  {
    hide Find, Update, Descend;
    assert (key + [k])[..|key|] == key;
    FindPrefix(st.mapping, key, 0);
    P.DescendExactly(st, key, 0);
  }

  lemma {:induction false} ArrayHeaderStep(st: State, key: Key, k: string)
    requires Find(st.mapping, key).Some? && st.implicits == {}
    requires k in Find(st.mapping, key).value.entries ==> Find(st.mapping, key).value.entries[k].Tables?
    ensures var at := Find(st.mapping, key).value;
            var t := if k !in at.entries then Tables([], EMPTY)
                     else Tables(at.entries[k].earlier + [at.entries[k].last], EMPTY);
            Step(st, ArrayHeader(key + [k])) == Done(State(Update(st.mapping, key, Put(at, k, t)), key + [k], {}))
  {
    hide Find, Update, Descend;
    assert (key + [k])[..|key|] == key;
    FindPrefix(st.mapping, key, 0);
    P.DescendExactly(st, key, 0);
  }

  /** One key of a map: its entry appears under it and nothing else changes. */
  lemma {:induction false} ValueRebuilds(st: State, key: Key, k: string, x: GoValue)
    requires Find(st.mapping, key).Some? && st.implicits == {}
    requires k !in Find(st.mapping, key).value.entries
    requires TypeOf(x).Some? && (!IsSub(x) ==> st.context == key)
    requires EncodeEntry(key, k, x).Printed?
    ensures Builds(st, EncodeEntry(key, k, x).value,
                   if Omitted(x) then st.mapping
                   else Update(st.mapping, key, Put(Find(st.mapping, key).value, k, ToTree(x))))
    ensures !IsSub(x) ==> Run(st, EncodeEntry(key, k, x).value).st.context == key
    decreases x, 3, 0
  {
    hide Find, Update, Descend, Establish, ToHash, ToHashes, TypeOf, Element, EncodeMap, EncodeTables, KeyEqElement,
      Run, Unmarked;
    var path, s := key + [k], Settled(x);
    EncodeSettles(path, x);
    SettledTwice(x);
    BuildsNothing(st);
    if s.Map? {
      HeaderStep(st, key, k);
      FillNew(st.mapping, key, k, Table(EMPTY), ToHash(s));
      var st' := Step(st, Header(path)).st;
      BuildsOne(st, Header(path), st'.mapping);
      MapRebuilds(st', path, s);
      BuildsAppend(st, [Header(path)], st'.mapping, EncodeMap(path, s).value, Update(st'.mapping, path, ToHash(s)));
    } else if IsSub(x) {
      TablesRebuild(st, st.mapping, key, k, s, 0);
    } else if !Omitted(x) {
      DirectPrints(path, s);
      DirectRebuilds(st, key, k, s);
    }
  }

  /** A value behind a key. */
  lemma DirectRebuilds(st: State, key: Key, k: string, s: GoValue)
    requires Find(st.mapping, key).Some? && st.context == key && k !in Find(st.mapping, key).value.entries
    requires KeyEqElement(key + [k], s).Printed? && st.implicits == {}
    ensures Element(s).Some?
    ensures Builds(st, KeyEqElement(key + [k], s).value,
                   Update(st.mapping, key, Put(Find(st.mapping, key).value, k, Prim(Element(s).value))))
    ensures Run(st, KeyEqElement(key + [k], s).value).st.context == key
  {
    hide Find, Update, Element, Run, Unmarked;
    var ev := KeyVal(k, Element(s).value);
    assert KeyEqElement(key + [k], s) == Printed([ev]);
    BuildsOne(st, ev, Update(st.mapping, key, Put(Find(st.mapping, key).value, k, Prim(ev.value))));
  }

  /** The tables under `k` while an array of tables is being read. */
  function Partial(m: Hash, key: Key, k: string, v: GoValue, i: nat): Hash
    requires Find(m, key).Some? && v.Slice? && TypeOf(v) == Some(TypeArrayHash) && i <= |v.elems|
  {
    if i == 0 then m else
    assert v.elems[i - 1] in v.elems && Settled(v) == v;
    Update(m, key, Put(Find(m, key).value, k, Tables(ToHashes(v, i - 1), ToHash(Settled(v.elems[i - 1])))))
  }

  lemma {:induction false} TablesRebuild(st: State, m: Hash, key: Key, k: string, v: GoValue, i: nat)
    requires Find(m, key).Some? && k !in Find(m, key).value.entries
    requires v.Slice? && TypeOf(v) == Some(TypeArrayHash) && i <= |v.elems|
    requires st.mapping == Partial(m, key, k, v, i) && st.implicits == {}
    requires EncodeTables(key + [k], v, i).Printed?
    ensures Builds(st, EncodeTables(key + [k], v, i).value, Update(m, key, Put(Find(m, key).value, k, ToTree(v))))
    decreases v, 2, |v.elems| - i
  {
    hide Find, Update, Descend, Establish, ToHash, TypeOf, Run, Step, EncodeMap, ToHashes, Unmarked;
    var path := key + [k];
    if i < |v.elems| {
      assert v.elems[i] in v.elems && Settled(v) == v;
      OneTable(st, m, key, k, v, i);
      var evs := [ArrayHeader(path)] + EncodeMap(path, Settled(v.elems[i])).value;
      TablesRebuild(Run(st, evs).st, m, key, k, v, i + 1);
      BuildsAppend(st, evs, Partial(m, key, k, v, i + 1), EncodeTables(path, v, i + 1).value,
                   Update(m, key, Put(Find(m, key).value, k, ToTree(v))));
    } else {
      BuildsNothing(st);
    }
  }

  /** One element of an array of tables: its header and its map. */
  lemma {:induction false} OneTable(st: State, m: Hash, key: Key, k: string, v: GoValue, i: nat)
    requires Find(m, key).Some? && k !in Find(m, key).value.entries
    requires v.Slice? && TypeOf(v) == Some(TypeArrayHash) && i < |v.elems|
    requires st.mapping == Partial(m, key, k, v, i) && st.implicits == {}
    requires Settled(v.elems[i]).Map? && EncodeMap(key + [k], Settled(v.elems[i])).Printed?
    ensures Builds(st, Concat(Printed([ArrayHeader(key + [k])]), EncodeMap(key + [k], Settled(v.elems[i]))).value,
                   Partial(m, key, k, v, i + 1))
    decreases v, 1, 0
  {
    hide Find, Update, Descend, Establish, ToHash, TypeOf, Run, Step, EncodeMap, ToHashes, Unmarked;
    var path := key + [k];
    var header := ArrayHeader(path);
    ElementHeader(st, m, key, k, v, i);
    BuildsOne(st, header, Step(st, header).st.mapping);
    var e := Settled(v.elems[i]);
    FillNew(m, key, k, Tables(ToHashes(v, i), EMPTY), ToHash(e));
    var st' := Step(st, header).st;
    MapRebuilds(st', path, e);
    BuildsAppend(st, [header], st'.mapping, EncodeMap(path, e).value, Update(st'.mapping, path, ToHash(e)));
  }

  lemma {:induction false} ElementHeader(st: State, m: Hash, key: Key, k: string, v: GoValue, i: nat)
    requires Find(m, key).Some? && k !in Find(m, key).value.entries
    requires v.Slice? && TypeOf(v) == Some(TypeArrayHash) && i < |v.elems|
    requires st.mapping == Partial(m, key, k, v, i) && st.implicits == {}
    ensures Settled(v) == v && (forall e <- v.elems :: Settled(e).Map?)
    ensures Step(st, ArrayHeader(key + [k]))
         == Done(State(Update(m, key, Put(Find(m, key).value, k, Tables(ToHashes(v, i), EMPTY))), key + [k], {}))
  {
    hide Find, Update, Descend, Establish, ToHash, TypeOf;
    var at := Find(m, key).value;
    if i > 0 {
      assert v.elems[i - 1] in v.elems;
      var t := Tables(ToHashes(v, i - 1), ToHash(Settled(v.elems[i - 1])));
      var t' := Tables(ToHashes(v, i), EMPTY);
      FindUpdate(m, key, Put(at, k, t));
      UpdateUpdate(m, key, Put(at, k, t), Put(Put(at, k, t), k, t'));
      assert Put(Put(at, k, t), k, t') == Put(at, k, t');
    }
    ArrayHeaderStep(st, key, k);
  }

  /** What the keys of one run must be like, with `at` the table they go into. */
  ghost predicate Fresh(at: Hash, v: GoValue, ks: seq<string>, sub: bool)
    requires v.Map?
  {
    Sorted(ks) &&
    forall k | k in ks ::
      k in v.entries && k !in at.entries && TypeOf(v.entries[k]).Some? && IsSub(v.entries[k]) == sub
  }

  function AddOne(at: Hash, v: GoValue, k: string): Hash
    requires v.Map? && k in v.entries
  {
    if Omitted(v.entries[k]) then at else Put(at, k, ToTree(v.entries[k]))
  }

  lemma FreshStep(at: Hash, v: GoValue, ks: seq<string>, sub: bool)
    requires v.Map? && Fresh(at, v, ks, sub) && ks != []
    ensures ks[0] in ks
    ensures Fresh(AddOne(at, v, ks[0]), v, ks[1..], sub)
    ensures Add(AddOne(at, v, ks[0]), v, ks[1..]) == Add(at, v, ks)
  {
    hide TypeOf, IsSub, ToTree, Sorted, Omitted;
    HeadOnce(ks);
    AddStep(at, v, ks);
  }

  lemma AddStep(at: Hash, v: GoValue, ks: seq<string>)
    requires v.Map? && ks != [] && ks[0] in v.entries
    requires forall k {:trigger k in ks[1..]} {:trigger k in ks} :: k in ks[1..] <==> k in ks && k != ks[0]
    ensures Add(AddOne(at, v, ks[0]), v, ks[1..]) == Add(at, v, ks)
  {
    hide ToTree, Omitted;
    var l, r := Add(AddOne(at, v, ks[0]), v, ks[1..]).entries, Add(at, v, ks).entries;
    forall k
      ensures k in l <==> k in r
      ensures k in l ==> l[k] == r[k]
    {
    }
    assert l == r;
  }

  lemma HeadOnce(ks: seq<string>)
    requires Sorted(ks) && ks != []
    ensures Sorted(ks[1..]) && ks[0] in ks
    ensures forall k {:trigger k in ks[1..]} {:trigger k in ks} :: k in ks[1..] <==> k in ks && k != ks[0]
  {
    TailElements(ks);
    forall k
      ensures k in ks[1..] <==> k in ks && k != ks[0]
    {
      assert k in Elements(ks[1..]) <==> k in ks[1..];
      assert k in Elements(ks) <==> k in ks;
    }
  }

  /** A run of keys of one kind. */
  lemma {:induction false} KeysRebuild(st: State, key: Key, v: GoValue, ks: seq<string>, sub: bool)
    requires v.Map? && Elements(ks) <= v.entries.Keys
    requires Find(st.mapping, key).Some? && st.implicits == {}
    requires Fresh(Find(st.mapping, key).value, v, ks, sub)
    requires !sub ==> st.context == key
    requires EncodeKeys(key, v, ks).Printed?
    ensures Builds(st, EncodeKeys(key, v, ks).value, Update(st.mapping, key, Add(Find(st.mapping, key).value, v, ks)))
    decreases v, 0, |ks|
  {
    hide Find, Update, EncodeEntry, TypeOf, IsSub, ToTree, Add, Run, Sorted, Omitted, Unmarked;
    var at := Find(st.mapping, key).value;
    if ks == [] {
      BuildsNothing(st);
      AddNothing(at, v);
      UpdateSame(st.mapping, key);
    } else {
      var k := ks[0];
      FreshStep(at, v, ks, sub);
      ValueRebuilds(st, key, k, v.entries[k]);
      UpdateSame(st.mapping, key);
      var evs := EncodeEntry(key, k, v.entries[k]).value;
      var st' := Run(st, evs).st;
      var at' := AddOne(at, v, k);
      assert st'.mapping == Update(st.mapping, key, at');
      FindUpdate(st.mapping, key, at');
      assert forall j | j in ks[1..] :: j in ks;
      KeysRebuild(st', key, v, ks[1..], sub);
      UpdateUpdate(st.mapping, key, at', Add(at, v, ks));
      BuildsAppend(st, evs, st'.mapping, EncodeKeys(key, v, ks[1..]).value, Update(st.mapping, key, Add(at, v, ks)));
    }
  }

  lemma AddNothing(at: Hash, v: GoValue)
    requires v.Map?
    ensures Add(at, v, []) == at
  {
    hide ToTree;
  }

  /** The direct keys and the sub-tables are all the keys, and no key is both. */
  lemma BothRuns(v: GoValue)
    requires v.Map? && forall k | k in v.entries :: TypeOf(v.entries[k]).Some?
    ensures var direct, sub := SortedKeys(DirectKeys(v)), SortedKeys(SubKeys(v));
            Elements(direct) <= v.entries.Keys && Elements(sub) <= v.entries.Keys &&
            Fresh(EMPTY, v, direct, false) && Fresh(Add(EMPTY, v, direct), v, sub, true) &&
            Add(Add(EMPTY, v, direct), v, sub) == ToHash(v)
  {
    hide TypeOf, IsSub, ToTree, Sorted, ToHash, Add;
    var direct, sub := SortedKeys(DirectKeys(v)), SortedKeys(SubKeys(v));
    assert forall k :: k in direct <==> k in Elements(direct);
    assert forall k :: k in sub <==> k in Elements(sub);
    AddBoth(v, direct, sub);
    forall k | k in direct ensures k in v.entries && !IsSub(v.entries[k]) { assert k in DirectKeys(v); }
    forall k | k in sub ensures k in v.entries && IsSub(v.entries[k]) { assert k in SubKeys(v); }
  }

  lemma AddBoth(v: GoValue, direct: seq<string>, sub: seq<string>)
    requires v.Map?
    requires forall k :: k in direct <==> k in DirectKeys(v)
    requires forall k :: k in sub <==> k in SubKeys(v)
    ensures Add(EMPTY, v, direct).entries.Keys <= DirectKeys(v)
    ensures forall k | k in sub :: k !in Add(EMPTY, v, direct).entries
    ensures Add(Add(EMPTY, v, direct), v, sub) == ToHash(v)
  {
    hide TypeOf, IsSub, ToTree, Omitted;
  }

  /** A map printed into a fresh table fills it with exactly its entries. */
  lemma {:induction false} MapRebuilds(st: State, key: Key, v: GoValue)
    requires v.Map? && EncodeMap(key, v).Printed?
    requires st.context == key && st.implicits == {} && Find(st.mapping, key) == Some(EMPTY)
    ensures Builds(st, EncodeMap(key, v).value, Update(st.mapping, key, ToHash(v)))
    decreases v, 1, 0
  {
    hide Find, Update, EncodeKeys, TypeOf, IsSub, ToHash, Add, Run, Fresh, Elements, Unmarked;
    BothRuns(v);
    var direct, sub := SortedKeys(DirectKeys(v)), SortedKeys(SubKeys(v));
    KeysRebuild(st, key, v, direct, false);
    var evs := EncodeKeys(key, v, direct).value;
    var at' := Add(EMPTY, v, direct);
    FindUpdate(st.mapping, key, at');
    KeysRebuild(Run(st, evs).st, key, v, sub, true);
    UpdateUpdate(st.mapping, key, at', ToHash(v));
    BuildsAppend(st, evs, Run(st, evs).st.mapping, EncodeKeys(key, v, sub).value, Update(st.mapping, key, ToHash(v)));
  }

  // ---------- what can be printed ----------

  /** A map, or a slice of maps, in which every entry has a TOML type, keys are not empty, and keys
      that name tables hold no brackets or dots. Entries that are not written may have any key. */
  predicate Tidy(x: GoValue)
    decreases x, 0
  {
    var s := Settled(x);
    if s.Slice? then forall e <- s.elems :: Tidy(e)
    else s.Map? && forall k | k in s.entries :: TidyEntry(k, s.entries[k])
  }

  predicate TidyEntry(k: string, x: GoValue)
    decreases x, 1
  {
    TypeOf(x).Some? && (Omitted(x) || (k != "" && (IsSub(x) ==> ValidTableName(k) && Tidy(x))))
  }

  /** Somewhere in a value a slice that is no array of tables has a pointer for an element, at some depth, or
      an interface holds a nil pointer to a time. */
  predicate Crashing(x: GoValue)
    decreases x, 0
  {
    var s := Settled(x);
    if s.Map? then exists k | k in s.entries :: CrashingEntry(s.entries[k])
    else if IsSub(x) then exists e <- s.elems :: Crashing(e)
    else s == NilPointer(true) || HoldsPointer(s)
  }

  predicate CrashingEntry(x: GoValue)
    decreases x, 1
  {
    !IsNil(x) && Crashing(x)
  }

  /** How printing ends, given whether all is in order and whether something crashes. */
  predicate Ends(r: Printing<seq<Event>>, tidy: bool, crashing: bool) {
    (r.Printed? <==> tidy && !crashing) && (r.Crashed? ==> crashing) && (r.Refused? ==> !tidy)
  }

  lemma ConcatEnds(a: Printing<seq<Event>>, b: Printing<seq<Event>>, tidy: bool, crashing: bool,
        tidy': bool, crashing': bool)
    requires (a.Printed? ==> AllNamed(a.value)) && (b.Printed? ==> AllNamed(b.value))
    requires Ends(a, tidy, crashing) && Ends(b, tidy', crashing')
    ensures Ends(Concat(a, b), tidy && tidy', crashing || crashing')
  {
  }

  /** Exactly the tidy maps in which nothing crashes are printed. What is not tidy is reported as an error, if
      nothing crashes before; and tidy maps in which something crashes crash. */
  lemma {:induction false} MapPrints(key: Key, v: GoValue)
    requires v.Map? && ValidTableKey(key)
    ensures Ends(EncodeMap(key, v), Tidy(v), Crashing(v))
    decreases v, 1, 0
  {
    hide TypeOf, IsSub, EncodeEntry, TidyEntry, CrashingEntry, Elements, Ends;
    MapParts(v);
    if forall k | k in v.entries :: TypeOf(v.entries[k]).Some? {
      var direct, sub := SortedKeys(DirectKeys(v)), SortedKeys(SubKeys(v));
      AllPrints(key, v, direct);
      AllPrints(key, v, sub);
      KeysCovered(v, direct, sub);
      ConcatEnds(EncodeKeys(key, v, direct), EncodeKeys(key, v, sub),
                 AllTidy(v, direct), SomeCrash(v, direct), AllTidy(v, sub), SomeCrash(v, sub));
      assert AllTidy(v, direct) && AllTidy(v, sub) <==> Tidy(v);
      assert SomeCrash(v, direct) || SomeCrash(v, sub) <==> Crashing(v);
    } else {
      UntypedEnds(v);
    }
  }

  predicate AllTidy(v: GoValue, ks: seq<string>)
    requires v.Map?
  {
    forall k | k in ks && k in v.entries :: TidyEntry(k, v.entries[k])
  }

  predicate SomeCrash(v: GoValue, ks: seq<string>)
    requires v.Map?
  {
    exists k | k in ks && k in v.entries :: CrashingEntry(v.entries[k])
  }

  lemma MapParts(v: GoValue)
    requires v.Map?
    ensures Tidy(v) <==> forall k | k in v.entries :: TidyEntry(k, v.entries[k])
    ensures Crashing(v) <==> exists k | k in v.entries :: CrashingEntry(v.entries[k])
  {
    hide TidyEntry, CrashingEntry;
  }

  lemma UntypedEnds(v: GoValue)
    requires v.Map? && exists k | k in v.entries :: TypeOf(v.entries[k]).None?
    ensures Ends(Refused, Tidy(v), Crashing(v))
  {
    hide TypeOf, Crashing;
    var k :| k in v.entries && TypeOf(v.entries[k]).None?;
    assert !TidyEntry(k, v.entries[k]);
  }

  lemma KeysCovered(v: GoValue, direct: seq<string>, sub: seq<string>)
    requires v.Map? && Elements(direct) == DirectKeys(v) && Elements(sub) == SubKeys(v)
    ensures forall k :: k in v.entries <==> k in direct || k in sub
  {
    hide IsSub;
    assert forall k :: k in direct <==> k in Elements(direct);
    assert forall k :: k in sub <==> k in Elements(sub);
  }

  lemma {:induction false} AllPrints(key: Key, v: GoValue, ks: seq<string>)
    requires v.Map? && ValidTableKey(key) && Elements(ks) <= v.entries.Keys
    requires forall k | k in v.entries :: TypeOf(v.entries[k]).Some?
    ensures forall k | k in ks :: k in v.entries
    ensures Ends(EncodeKeys(key, v, ks), AllTidy(v, ks), SomeCrash(v, ks))
    decreases v, 0, |ks|
  {
    hide TypeOf, IsSub, EncodeEntry, TidyEntry, CrashingEntry, ValidTableKey;
    assert forall k | k in ks :: k in Elements(ks);
    if ks != [] {
      var k := ks[0];
      assert forall j :: j in ks <==> j == k || j in ks[1..];
      EntryPrints(key, k, v.entries[k]);
      AllPrints(key, v, ks[1..]);
      ConcatEnds(EncodeEntry(key, k, v.entries[k]), EncodeKeys(key, v, ks[1..]),
                 TidyEntry(k, v.entries[k]), CrashingEntry(v.entries[k]), AllTidy(v, ks[1..]), SomeCrash(v, ks[1..]));
    }
  }

  lemma {:induction false} EntryPrints(key: Key, k: string, x: GoValue)
    requires ValidTableKey(key) && TypeOf(x).Some?
    ensures Ends(EncodeEntry(key, k, x), TidyEntry(k, x), CrashingEntry(x))
    decreases x, 4, 0
  {
    hide TypeOf, Element, EncodeMap, EncodeTables, KeyEqElement, HoldsPointer, Encode, Ends;
    var path, s := key + [k], Settled(x);
    assert path[|path| - 1] == k;
    assert ValidTableKey(path) <==> ValidTableName(k) by {
      assert forall i | 0 <= i < |key| :: path[i] == key[i];
    }
    EncodeSettles(path, x);
    SettledTwice(x);
    if IsNil(x) {
      NothingEnds();
    } else if s.Map? {
      MapEntryPrints(path, k, x);
    } else if IsSub(x) {
      TablesEntryPrints(path, k, x);
    } else {
      DirectEntryPrints(path, k, x);
    }
  }

  /** An entry under `k` that opens a table. */
  lemma {:induction false} MapEntryPrints(path: Key, k: string, x: GoValue)
    requires path != [] && (ValidTableKey(path) <==> ValidTableName(k)) && !IsNil(x) && Settled(x).Map?
    ensures Ends(Encode(path, Settled(x)), TidyEntry(k, x), CrashingEntry(x))
    decreases x, 3, 0
  {
    hide EncodeMap, TypeOf, Ends, Tidy, Crashing, ValidTableKey;
    var s := Settled(x);
    SettledTwice(x);
    SameTidiness(x);
    SubEntry(k, x);
    if ValidTableName(k) {
      MapPrints(path, s);
      HeaderEnds(path, EncodeMap(path, s), Tidy(x), Crashing(x));
    } else {
      RefusedEnds(Crashing(x));
    }
  }

  lemma SameTidiness(x: GoValue)
    ensures Tidy(x) == Tidy(Settled(x)) && Crashing(x) == Crashing(Settled(x))
  {
    hide TidyEntry, CrashingEntry, HoldsPointer, TypeOf;
    SettledTwice(x);
    EncodeSettles([], x);
  }

  lemma SubEntry(k: string, x: GoValue)
    requires !IsNil(x) && (Settled(x).Map? || IsSub(x))
    ensures TypeOf(x).Some? && IsSub(x) && CrashingEntry(x) == Crashing(x)
    ensures TidyEntry(k, x) <==> ValidTableName(k) && Tidy(x)
  {
    hide Tidy, Crashing;
  }

  lemma HeaderEnds(path: Key, r: Printing<seq<Event>>, tidy: bool, crashing: bool)
    requires path != [] && (r.Printed? ==> AllNamed(r.value)) && Ends(r, tidy, crashing)
    ensures Ends(Concat(Printed([Header(path)]), r), tidy, crashing)
  {
  }

  lemma RefusedEnds(crashing: bool)
    ensures Ends(Refused, false, crashing)
  {
  }

  lemma {:induction false} TablesEntryPrints(path: Key, k: string, x: GoValue)
    requires path != [] && (ValidTableKey(path) <==> ValidTableName(k)) && !IsNil(x) && !Settled(x).Map? && IsSub(x)
    ensures Ends(Encode(path, Settled(x)), TidyEntry(k, x), CrashingEntry(x))
    decreases x, 3, 0
  {
    hide EncodeMap, EncodeTables, TypeOf, Ends, Tidy, Crashing, ValidTableKey;
    var s := Settled(x);
    SettledTwice(x);
    EncodeSettles([], x);
    SubEntry(k, x);
    if ValidTableName(k) {
      TablesPrint(path, s, 0);
      TablesParts(x);
    } else {
      RefusedEnds(Crashing(x));
    }
  }

  predicate TidyFrom(s: GoValue, i: nat)
    requires s.Slice?
  {
    forall j | i <= j < |s.elems| :: Tidy(s.elems[j])
  }

  predicate CrashingFrom(s: GoValue, i: nat)
    requires s.Slice?
  {
    exists j | i <= j < |s.elems| :: Crashing(s.elems[j])
  }

  lemma TablesParts(x: GoValue)
    requires IsSub(x) && Settled(x).Slice?
    ensures Tidy(x) <==> TidyFrom(Settled(x), 0)
    ensures Crashing(x) <==> CrashingFrom(Settled(x), 0)
  {
    hide TypeOf, TidyEntry, CrashingEntry, HoldsPointer;
    var s := Settled(x);
    assert forall e :: e in s.elems <==> exists j | 0 <= j < |s.elems| :: s.elems[j] == e;
  }

  lemma {:induction false} TablesPrint(path: Key, x: GoValue, i: nat)
    requires path != [] && ValidTableKey(path) && x.Slice? && TypeOf(x) == Some(TypeArrayHash) && i <= |x.elems|
    ensures Ends(EncodeTables(path, x, i), TidyFrom(x, i), CrashingFrom(x, i))
    decreases x, 2, |x.elems| - i
  {
    hide TypeOf, EncodeMap, Ends, Tidy, Crashing;
    if i == |x.elems| {
      NothingEnds();
    } else {
      var e := x.elems[i];
      assert e in x.elems && e in Settled(x).elems;
      MapPrints(path, Settled(e));
      SameTidiness(e);
      var one := Concat(Printed([ArrayHeader(path)]), EncodeMap(path, Settled(e)));
      ArrayHeaderEnds(path, EncodeMap(path, Settled(e)), Tidy(e), Crashing(e));
      TablesPrint(path, x, i + 1);
      ConcatEnds(one, EncodeTables(path, x, i + 1), Tidy(e), Crashing(e), TidyFrom(x, i + 1), CrashingFrom(x, i + 1));
      assert TidyFrom(x, i) <==> Tidy(e) && TidyFrom(x, i + 1);
      assert CrashingFrom(x, i) <==> Crashing(e) || CrashingFrom(x, i + 1);
    }
  }

  lemma NothingEnds()
    ensures Ends(Printed([]), true, false)
  {
  }

  lemma ArrayHeaderEnds(path: Key, r: Printing<seq<Event>>, tidy: bool, crashing: bool)
    requires path != [] && (r.Printed? ==> AllNamed(r.value)) && Ends(r, tidy, crashing)
    ensures Ends(Concat(Printed([ArrayHeader(path)]), r), tidy, crashing)
  {
  }

  /** An entry behind a key. */
  lemma DirectEntryPrints(path: Key, k: string, x: GoValue)
    requires path != [] && path[|path| - 1] == k && !IsNil(x) && TypeOf(x).Some? && !Settled(x).Map? && !IsSub(x)
    ensures Ends(Encode(path, Settled(x)), TidyEntry(k, x), CrashingEntry(x))
  {
    hide TypeOf, Element, HoldsPointer, EncodeMap, EncodeTables, Tidy;
    var s := Settled(x);
    SettledTwice(x);
    EncodeSettles([], x);
    if Omitted(x) {
      NilHoldsNothing(s);
    } else {
      DirectPrints(path, s);
      if IsNil(s) {
        NilHoldsNothing(s);
      } else {
        ElementExactly(s);
        SettledIsNoPointer(x);
      }
    }
  }

  lemma NilHoldsNothing(s: GoValue)
    requires IsNil(s)
    ensures !HoldsPointer(s) && (Element(s).Some? <==> s.NilSlice?)
  {
  }

  /** Exactly the tidy maps in which nothing crashes are printed, and the parser reads the print back as the
      same tables: same nesting, same keys, same values, entries that are not written left out. Of the other
      maps, the tidy ones crash and those in which nothing crashes are encoder errors. */
  lemma Rebuild(v: GoValue)
    requires v.Map?
    ensures Ends(Encode([], v), Tidy(v), Crashing(v))
    ensures Encode([], v).Printed? ==> Builds(START, Encode([], v).value, ToHash(v))
  {
    hide EncodeMap, Tidy, Crashing, Run, Unmarked;
    MapPrints([], v);
    if EncodeMap([], v).Printed? {
      MapRebuilds(START, [], v);
    }
  }
}
