/** Nothing parsed is lost: over a whole parse tables only gain keys, arrays of tables only grow at
    the end, and every other value stays what it is. */
module TomlGrowth {
  import opened Options
  import opened TomlTree
  import opened TomlContext

  ghost predicate HashGrows(a: Hash, b: Hash)
  {
    forall k | k in a.entries :: k in b.entries && TreeGrows(a.entries[k], b.entries[k])
  }

  function Elements(t: Tree): (e: seq<Hash>)
    requires t.Tables?
    ensures |e| == |t.earlier| + 1
  {
    t.earlier + [t.last]
  }

  ghost predicate TreeGrows(s: Tree, t: Tree)
  {
    match s
    case Prim(_) => t == s
    case Table(h) => t.Table? && HashGrows(h, t.hash)
    case Tables(earlier, last) =>
      && t.Tables?
      && |earlier| <= |t.earlier|
      && t.earlier[..|earlier|] == earlier
      && HashGrows(last, Elements(t)[|earlier|])
  }

  lemma {:induction false} HashGrowsReflexive(h: Hash)
    ensures HashGrows(h, h)
    decreases h
  {
    forall k | k in h.entries
      ensures TreeGrows(h.entries[k], h.entries[k])
    {
      match h.entries[k]
      case Prim(_) =>
      case Table(inner) => HashGrowsReflexive(inner);
      case Tables(_, last) => HashGrowsReflexive(last);
    }
  }

  lemma {:induction false} HashGrowsTransitive(a: Hash, b: Hash, c: Hash)
    requires HashGrows(a, b) && HashGrows(b, c)
    ensures HashGrows(a, c)
    decreases a
  {
    forall k | k in a.entries
      ensures k in c.entries && TreeGrows(a.entries[k], c.entries[k])
    {
      TreeGrowsTransitive(a.entries[k], b.entries[k], c.entries[k]);
    }
  }

  lemma {:induction false} TreeGrowsTransitive(r: Tree, s: Tree, t: Tree)
    requires TreeGrows(r, s) && TreeGrows(s, t)
    ensures TreeGrows(r, t)
    decreases r
  {
    match r
    case Prim(_) =>
    case Table(h) => HashGrowsTransitive(h, s.hash, t.hash);
    case Tables(earlier, last) =>
      var n := |earlier|;
      assert t.earlier[..n] == t.earlier[..|s.earlier|][..n];
      if n == |s.earlier| {
        HashGrowsTransitive(last, s.last, Elements(t)[n]);
      } else {
        assert Elements(t)[n] == t.earlier[..|s.earlier|][n] == s.earlier[n];
      }
  }

  /** Growth at the end of a path is growth of the whole. */
  lemma {:induction false} UpdateGrows(h: Hash, path: Key, new_: Hash)
    requires Find(h, path).Some? && HashGrows(Find(h, path).value, new_)
    ensures HashGrows(h, Update(h, path, new_))
  {
    if path != [] {
      var t := h.entries[path[0]];
      var r := Update(h, path, new_);
      UpdateGrows(Into(t).value, path[1..], new_);
      HashGrowsReflexive(h);
      forall k | k in h.entries
        ensures k in r.entries && TreeGrows(h.entries[k], r.entries[k])
      {
      }
    }
  }

  lemma PutGrows(at: Hash, k: string, t: Tree)
    requires k in at.entries ==> TreeGrows(at.entries[k], t)
    ensures HashGrows(at, Put(at, k, t))
  {
    HashGrowsReflexive(at);
  }

  lemma SetValueGrows(st: State, name: string, t: Tree)
    requires SetValue(st, name, t).Done?
    ensures HashGrows(st.mapping, SetValue(st, name, t).st.mapping)
  {
    var at := Find(st.mapping, st.context).value;
    if name in at.entries {
      HashGrowsReflexive(st.mapping);
    } else {
      PutGrows(at, name, t);
      UpdateGrows(st.mapping, st.context, Put(at, name, t));
    }
  }

  lemma VivifyGrows(st: State, path: Key, k: string)
    requires Find(st.mapping, path).Some?
    ensures HashGrows(st.mapping, Vivify(st, path, k).mapping)
  {
    var at := Find(st.mapping, path).value;
    if k in at.entries {
      HashGrowsReflexive(st.mapping);
    } else {
      PutGrows(at, k, Table(EMPTY));
      UpdateGrows(st.mapping, path, Put(at, k, Table(EMPTY)));
    }
  }

  lemma {:induction false} DescendGrows(st: State, path: Key, i: nat)
    requires i <= |path| && Find(st.mapping, path[..i]).Some? && Descend(st, path, i).Done?
    ensures HashGrows(st.mapping, Descend(st, path, i).st.mapping)
    decreases |path| - i
  {
    if i == |path| {
      HashGrowsReflexive(st.mapping);
    } else {
      var st' := Vivify(st, path[..i], path[i]);
      VivifyGrows(st, path[..i], path[i]);
      DescendGrows(st', path, i + 1);
      HashGrowsTransitive(st.mapping, st'.mapping, Descend(st, path, i).st.mapping);
    }
  }

  /** Every accepted event grows the tree. */
  lemma StepGrows(st: State, ev: Event)
    requires Named(ev) && Step(st, ev).Done?
    ensures HashGrows(st.mapping, Step(st, ev).st.mapping)
  {
    match ev
    case KeyVal(name, value) => SetValueGrows(st, name, Prim(value));
    case Header(key) => EstablishGrows(st, key, false);
    case ArrayHeader(key) => EstablishGrows(st, key, true);
  }

  lemma EstablishGrows(st: State, key: Key, isArray: bool)
    requires key != [] && Establish(st, key, isArray).Done?
    ensures HashGrows(st.mapping, Establish(st, key, isArray).st.mapping)
  {
    hide HashGrows, Update, Descend;
    var parent, k := key[..|key| - 1], key[|key| - 1];
    var st' := Descend(st, parent, 0).st;
    DescendGrows(st, parent, 0);
    if !isArray {
      SetValueGrows(st'.(context := parent), k, Table(EMPTY));
    } else {
      var at := Find(st'.mapping, parent).value;
      var t := if k in at.entries then Tables(Elements(at.entries[k]), EMPTY) else Tables([], EMPTY);
      if k in at.entries {
        AppendGrows(at.entries[k]);
      }
      PutGrows(at, k, t);
      UpdateGrows(st'.mapping, parent, Put(at, k, t));
    }
    HashGrowsTransitive(st.mapping, st'.mapping, Establish(st, key, isArray).st.mapping);
  }

  lemma AppendGrows(t: Tree)
    requires t.Tables?
    ensures TreeGrows(t, Tables(Elements(t), EMPTY))
  {
    HashGrowsReflexive(t.last);
  }

  /** Main result: the tree only grows over a run, whatever the events. */
  lemma {:induction false} RunGrows(st: State, evs: seq<Event>)
    requires AllNamed(evs) && Run(st, evs).Done?
    ensures HashGrows(st.mapping, Run(st, evs).st.mapping)
    decreases |evs|
  {
    hide Step;
    if evs == [] {
      HashGrowsReflexive(st.mapping);
    } else {
      var st' := Step(st, evs[0]).st;
      StepGrows(st, evs[0]);
      RunGrows(st', evs[1..]);
      HashGrowsTransitive(st.mapping, st'.mapping, Run(st, evs).st.mapping);
    }
  }

  // ---------- what that means for one value ----------

  /** A path that names array elements by position. */
  datatype Place = Place(key: string, index: Option<nat>)

  /** The entry at the end of such a path. */
  function At(h: Hash, places: seq<Place>, key: string): Option<Tree>
    decreases |places|
  {
    if places == [] then if key in h.entries then Some(h.entries[key]) else None
    else if places[0].key !in h.entries then None
    else match Inside(h.entries[places[0].key], places[0].index)
      case None => None
      case Some(next) => At(next, places[1..], key)
  }

  function Inside(t: Tree, index: Option<nat>): Option<Hash>
  {
    match (t, index)
    case (Table(h), None) => Some(h)
    case (Tables(_, _), Some(i)) => if i < |Elements(t)| then Some(Elements(t)[i]) else None
    case _ => None
  }

  /** A primitive or array reached through fixed array elements keeps its value. */
  lemma {:induction false} ValuesStay(a: Hash, b: Hash, places: seq<Place>, key: string, v: Value)
    requires HashGrows(a, b) && At(a, places, key) == Some(Prim(v))
    ensures At(b, places, key) == Some(Prim(v))
    decreases |places|
  {
    if places != [] {
      var p := places[0];
      var s, t := a.entries[p.key], b.entries[p.key];
      var next := Inside(s, p.index).value;
      if s.Tables? && p.index.value < |s.earlier| {
        assert Elements(t)[p.index.value] == t.earlier[..|s.earlier|][p.index.value];
        HashGrowsReflexive(next);
      }
      ValuesStay(next, Inside(t, p.index).value, places[1..], key, v);
    }
  }

  /** Main result for one value: once set it is never lost or changed. */
  lemma ParsedValuesStay(st: State, evs: seq<Event>, places: seq<Place>, key: string, v: Value)
    requires AllNamed(evs) && Run(st, evs).Done? && At(st.mapping, places, key) == Some(Prim(v))
    ensures At(Run(st, evs).st.mapping, places, key) == Some(Prim(v))
  {
    RunGrows(st, evs);
    ValuesStay(st.mapping, Run(st, evs).st.mapping, places, key, v);
  }
}
