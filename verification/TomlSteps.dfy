/** Exactly which headers and keys the table builder refuses (parse.go). */
module TomlSteps {
  import opened Options
  import opened TomlTree
  import opened TomlContext

  /** A value stands where a table is wanted on the way. */
  predicate Blocked(h: Hash, path: Key) {
    path != [] && path[0] in h.entries &&
    if h.entries[path[0]].Prim? then true else Blocked(Into(h.entries[path[0]]).value, path[1..])
  }

  /** The entry a key names already. */
  function Named(h: Hash, path: Key, k: string): Option<Tree>
  {
    match Find(h, path)
    case None => None
    case Some(at) => if k in at.entries then Some(at.entries[k]) else None
  }

  lemma {:induction false} BlockedIsMissing(h: Hash, path: Key)
    requires Blocked(h, path)
    ensures Find(h, path).None?
  {
    if !h.entries[path[0]].Prim? {
      BlockedIsMissing(Into(h.entries[path[0]]).value, path[1..]);
    }
  }

  lemma {:induction false} BlockedSplits(h: Hash, path: Key, i: nat)
    requires i <= |path| && Find(h, path[..i]).Some?
    ensures Blocked(h, path) <==> Blocked(Find(h, path[..i]).value, path[i..])
  {
    if i == 0 {
      assert path[..0] == [] && path[0..] == path;
    } else {
      assert path[..i][1..] == path[1..][..i - 1] && path[1..][i - 1..] == path[i..];
      BlockedSplits(Into(h.entries[path[0]]).value, path[1..], i - 1);
    }
  }

  /** The way to a header's parents fails exactly when it is blocked; where they all exist it marks nothing,
      and otherwise it ends in a fresh table. */
  lemma {:induction false} DescendExactly(st: State, path: Key, i: nat)
    requires i <= |path| && Find(st.mapping, path[..i]).Some?
    ensures Descend(st, path, i).ParseError? <==> Blocked(st.mapping, path)
    ensures Find(st.mapping, path).Some? ==> Descend(st, path, i) == Done(st)
    ensures Descend(st, path, i).Done? && Find(st.mapping, path).None? ==>
              Find(Descend(st, path, i).st.mapping, path) == Some(EMPTY)
    decreases |path| - i
  {
    hide Update;
    BlockedSplits(st.mapping, path, i);
    if i == |path| {
      assert path[..i] == path && path[i..] == [];
    } else {
      var at := Find(st.mapping, path[..i]).value;
      var st' := Vivify(st, path[..i], path[i]);
      assert path[i..][0] == path[i] && path[i..][1..] == path[i + 1..];
      FindStep(st'.mapping, path[..i], path[i]);
      assert path[..i] + [path[i]] == path[..i + 1];
      if path[i] in at.entries {
        if Find(st.mapping, path[..i + 1]).Some? {
          DescendExactly(st, path, i + 1);
        } else {
          MissingBelow(st.mapping, path, i + 1);
        }
      } else {
        FindUpdate(st.mapping, path[..i], Put(at, path[i], Table(EMPTY)));
        FindStep(st.mapping, path[..i], path[i]);
        MissingBelow(st.mapping, path, i + 1);
        FreshDescends(st', path, i + 1);
      }
    }
  }

  lemma MissingBelow(h: Hash, path: Key, i: nat)
    requires i <= |path| && Find(h, path[..i]).None?
    ensures Find(h, path).None?
  {
    if Find(h, path).Some? {
      FindPrefix(h, path, i);
    }
  }

  lemma {:induction false} FreshDescends(st: State, path: Key, i: nat)
    requires i <= |path| && Find(st.mapping, path[..i]) == Some(EMPTY)
    ensures Descend(st, path, i).Done? && Find(Descend(st, path, i).st.mapping, path) == Some(EMPTY)
    decreases |path| - i
  {
    hide Update;
    if i == |path| {
      assert path[..i] == path;
    } else {
      var st' := Vivify(st, path[..i], path[i]);
      FindUpdate(st.mapping, path[..i], Put(EMPTY, path[i], Table(EMPTY)));
      FindStep(st'.mapping, path[..i], path[i]);
      assert path[..i] + [path[i]] == path[..i + 1];
      FreshDescends(st', path, i + 1);
    }
  }

  /** Exactly when a parse error is reported: a key whose name is taken and not marked; a header whose way is
      blocked by a value, or whose name is taken and not marked; a header of an array of tables whose way is
      blocked, or whose name is taken by anything else than an array of tables. */
  lemma RefusedExactly(st: State, ev: Event)
    requires TomlContext.Named(ev)
    ensures Step(st, ev).ParseError? <==>
            if ev.KeyVal? then
              Named(st.mapping, st.context, ev.name).Some? && Join(st.context + [ev.name]) !in st.implicits
            else
              var n := |ev.key| - 1;
              var taken := Named(st.mapping, ev.key[..n], ev.key[n]);
              Blocked(st.mapping, ev.key[..n]) ||
              (taken.Some? && if ev.Header? then Join(ev.key) !in st.implicits else !taken.value.Tables?)
  {
    hide Update, Descend, Join;
    if !ev.KeyVal? {
      var parent, k := ev.key[..|ev.key| - 1], ev.key[|ev.key| - 1];
      assert parent + [k] == ev.key && parent[..0] == [];
      DescendExactly(st, parent, 0);
      if Blocked(st.mapping, parent) {
        BlockedIsMissing(st.mapping, parent);
      }
    }
  }

  /** What an accepted event does besides: a header becomes the context and a table stands there to be filled,
      a new one at the end of its array for a header of an array of tables. */
  lemma HeaderOpens(st: State, ev: Event)
    requires TomlContext.Named(ev) && !ev.KeyVal? && Step(st, ev).Done?
    ensures Step(st, ev).st.context == ev.key
    ensures ev.ArrayHeader? ==> Find(Step(st, ev).st.mapping, ev.key) == Some(EMPTY)
    ensures ev.Header? && Named(st.mapping, ev.key[..|ev.key| - 1], ev.key[|ev.key| - 1]).None? ==>
              Find(Step(st, ev).st.mapping, ev.key) == Some(EMPTY)
  {
    hide Descend, Join;
    var parent, k := ev.key[..|ev.key| - 1], ev.key[|ev.key| - 1];
    assert parent + [k] == ev.key && parent[..0] == [];
    DescendExactly(st, parent, 0);
    var st' := Descend(st, parent, 0).st;
    var at := Find(st'.mapping, parent).value;
    if ev.ArrayHeader? || k !in at.entries {
      var t := if ev.Header? then Table(EMPTY)
               else if k in at.entries then Tables(at.entries[k].earlier + [at.entries[k].last], EMPTY)
               else Tables([], EMPTY);
      assert Step(st, ev).st.mapping == Update(st'.mapping, parent, Put(at, k, t));
      FindUpdate(st'.mapping, parent, Put(at, k, t));
      FindStep(Step(st, ev).st.mapping, parent, k);
    }
  }
}
