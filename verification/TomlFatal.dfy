/** When the parser's own consistency checks in setValue can fail, which ends the process. */
module TomlFatal {
  import opened Options
  import opened TomlTree
  import opened TomlContext

  // ---------- dotted names ----------

  /** Pieces of a table name, as the lexer yields them: not empty, no dot. */
  predicate Plain(key: Key) {
    forall i | 0 <= i < |key| :: key[i] != "" && '.' !in key[i]
  }

  /** What stands before the first dot. */
  function Head(s: string): string
  {
    if s == "" || s[0] == '.' then "" else [s[0]] + Head(s[1..])
  }

  lemma {:induction false} HeadOf(p: string, rest: string)
    requires '.' !in p
    ensures Head(p) == p && Head(p + "." + rest) == p
  {
    if p != "" {
      assert (p + "." + rest)[1..] == p[1..] + "." + rest;
      HeadOf(p[1..], rest);
    }
  }

  /** Two plain names with the same dotted form are the same. */
  lemma {:induction false} JoinInjective(a: Key, b: Key)
    requires a != [] && b != [] && Plain(a) && Plain(b) && Join(a) == Join(b)
    ensures a == b
  {
    HeadOf(a[0], Join(a[1..]));
    HeadOf(b[0], Join(b[1..]));
    assert a[0] == b[0];
    assert |a| == 1 <==> |Join(a)| == |a[0]|;
    assert |b| == 1 <==> |Join(b)| == |b[0]|;
    if |a| > 1 {
      assert Join(a[1..]) == Join(a)[|a[0]| + 1..] == Join(b[1..]);
      JoinInjective(a[1..], b[1..]);
    }
    assert a == [a[0]] + a[1..] && b == [b[0]] + b[1..];
  }

  // ---------- one step ----------

  /** The context names no chain of tables: the next key runs into `bug`. */
  predicate Dangling(st: State) {
    Find(st.mapping, st.context).None?
  }

  /** A key ends the process exactly when the context dangles. */
  lemma KeyFatal(st: State, name: string, value: Value)
    ensures Step(st, KeyVal(name, value)).Fatal? <==> Dangling(st)
  {
  }

  /** A header never does, and an array header always leaves a sound context. */
  lemma HeadersNotFatal(st: State, ev: Event)
    requires Named(ev) && !ev.KeyVal?
    ensures !Step(st, ev).Fatal?
    ensures ev.ArrayHeader? && Step(st, ev).Done? ==> !Dangling(Step(st, ev).st)
  {
    hide Descend;
    var parent, k := ev.key[..|ev.key| - 1], ev.key[|ev.key| - 1];
    assert parent + [k] == ev.key;
    if ev.ArrayHeader? && Step(st, ev).Done? {
      var st' := Descend(st, parent, 0).st;
      var at := Find(st'.mapping, parent).value;
      var element :=
        if k in at.entries then Tables(at.entries[k].earlier + [at.entries[k].last], EMPTY) else Tables([], EMPTY);
      FindUpdate(st'.mapping, parent, Put(at, k, element));
      FindStep(Step(st, ev).st.mapping, parent, k);
    }
  }

  /** The key a table header names is already set, and not to a table. Such a header is a parse
      error unless the dotted name still carries an implicit mark. */
  predicate LandsOnValue(st: State, key: Key)
    requires key != []
  {
    var parent, k := key[..|key| - 1], key[|key| - 1];
    var d := Descend(st, parent, 0);
    d.Done? &&
    var at := Find(d.st.mapping, parent).value;
    k in at.entries && at.entries[k].Prim?
  }

  /** Exactly when an accepted table header leaves a context that dangles. */
  lemma HeaderDangles(st: State, key: Key)
    requires key != [] && Step(st, Header(key)).Done?
    ensures Dangling(Step(st, Header(key)).st) <==> LandsOnValue(st, key)
  {
    hide Descend;
    var parent, k := key[..|key| - 1], key[|key| - 1];
    assert parent + [k] == key;
    var st' := Descend(st, parent, 0).st;
    var at := Find(st'.mapping, parent).value;
    var r := Step(st, Header(key)).st;
    if k !in at.entries {
      FindUpdate(st'.mapping, parent, Put(at, k, Table(EMPTY)));
    }
    FindStep(r.mapping, parent, k);
  }

  /** A run ends the process exactly when it meets a key in a dangling context. */
  lemma {:induction false} RunFatalAtKey(st: State, evs: seq<Event>)
    requires AllNamed(evs)
    ensures Run(st, evs).Fatal? <==>
            exists i | 0 <= i < |evs| :: evs[i].KeyVal? && Run(st, evs[..i]).Done? && Dangling(Run(st, evs[..i]).st)
    decreases |evs|
  {
    hide Step, Dangling;
    if evs != [] {
      var step := Step(st, evs[0]);
      StepFatalExactly(st, evs[0]);
      assert evs[..0] == [];
      if step.Done? {
        RunFatalAtKey(step.st, evs[1..]);
        forall i | 0 < i < |evs|
          ensures Run(st, evs[..i]) == Run(step.st, evs[1..][..i - 1]) && evs[i] == evs[1..][i - 1]
        {
          assert evs[..i][1..] == evs[1..][..i - 1];
        }
        if Run(step.st, evs[1..]).Fatal? {
          var j :| 0 <= j < |evs[1..]| && evs[1..][j].KeyVal? && Run(step.st, evs[1..][..j]).Done?
                   && Dangling(Run(step.st, evs[1..][..j]).st);
          assert evs[j + 1].KeyVal? && Run(st, evs[..j + 1]).Done? && Dangling(Run(st, evs[..j + 1]).st);
        }
      } else {
        forall i | 0 < i < |evs|
          ensures !Run(st, evs[..i]).Done?
        {
          assert evs[..i][0] == evs[0];
        }
      }
    }
  }

  lemma StepFatalExactly(st: State, ev: Event)
    requires Named(ev)
    ensures Step(st, ev).Fatal? <==> ev.KeyVal? && Dangling(st)
  {
    if !ev.KeyVal? {
      HeadersNotFatal(st, ev);
    }
  }

  /** A table header lands on a value, and its dotted name still carries an implicit mark. */
  predicate StaleMark(st: State, key: Key)
    requires key != []
  {
    LandsOnValue(st, key) && Join(key) in Descend(st, key[..|key| - 1], 0).st.implicits
  }

  /** Such a header is accepted, and leaves a context that dangles; no other event does that to a sound one. */
  lemma StepDangles(st: State, ev: Event)
    requires Named(ev) && (ev.KeyVal? ==> !Dangling(st))
    ensures Step(st, ev).Done? && Dangling(Step(st, ev).st) <==> ev.Header? && StaleMark(st, ev.key)
  {
    hide Descend;
    match ev
    case KeyVal(name, value) =>
      if name !in Find(st.mapping, st.context).value.entries {
        PutKeepsMarks(st, st.context, name, Prim(value), Step(st, ev).st);
      }
    case ArrayHeader(_) =>
      HeadersNotFatal(st, ev);
    case Header(key) =>
      assert key[..|key| - 1] + [key[|key| - 1]] == key;
      if Step(st, ev).Done? {
        HeaderDangles(st, key);
      }
  }

  /** The i-th event is a table header on a value under a stale mark, and a key follows. */
  predicate Trap(st: State, evs: seq<Event>, i: nat)
    requires AllNamed(evs)
  {
    i + 1 < |evs| && evs[i].Header? && evs[i + 1].KeyVal? &&
    Run(st, evs[..i]).Done? && StaleMark(Run(st, evs[..i]).st, evs[i].key)
  }

  lemma RunOneMore(st: State, evs: seq<Event>, i: nat)
    requires AllNamed(evs) && i < |evs| && Run(st, evs[..i]).Done?
    ensures Run(st, evs[..i + 1]) == Step(Run(st, evs[..i]).st, evs[i])
  {
    hide Step;
    assert evs[..i + 1] == evs[..i] + [evs[i]] && [evs[i]][1..] == [];
    RunAppend(st, evs[..i], [evs[i]]);
    assert Run(st, evs[..i] + [evs[i]]) == Run(Run(st, evs[..i]).st, [evs[i]]);
  }

  /** A key in a dangling context is the end of a trap. */
  lemma {:induction false} DanglingIsTrap(st: State, evs: seq<Event>, i: nat)
    requires AllNamed(evs) && !Dangling(st) && i < |evs| && evs[i].KeyVal? && Run(st, evs[..i]).Done?
    ensures Dangling(Run(st, evs[..i]).st) <==> i > 0 && Trap(st, evs, i - 1)
  {
    hide Step, Dangling, StaleMark;
    if i == 0 {
      assert evs[..0] == [];
    } else {
      DoneBefore(st, evs, i - 1);
      var before := Run(st, evs[..i - 1]).st;
      RunOneMore(st, evs, i - 1);
      if evs[i - 1].KeyVal? {
        StepFatalExactly(before, evs[i - 1]);
      }
      StepDangles(before, evs[i - 1]);
    }
  }

  lemma DoneBefore(st: State, evs: seq<Event>, i: nat)
    requires AllNamed(evs) && i < |evs| && Run(st, evs[..i + 1]).Done?
    ensures Run(st, evs[..i]).Done?
  {
    hide Step;
    assert evs[..i + 1] == evs[..i] + [evs[i]];
    RunAppend(st, evs[..i], [evs[i]]);
  }

  /** Main result: a run from a sound context ends the process exactly when some table header lands on a
      value under a mark that was never taken away, and the next event is a key. */
  lemma RunFatalExactly(st: State, evs: seq<Event>)
    requires AllNamed(evs) && !Dangling(st)
    ensures Run(st, evs).Fatal? <==> exists i :: 0 <= i < |evs| && Trap(st, evs, i)
  {
    hide Run, Dangling, StaleMark;
    RunFatalAtKey(st, evs);
    if i :| 0 <= i < |evs| && evs[i].KeyVal? && Run(st, evs[..i]).Done? && Dangling(Run(st, evs[..i]).st) {
      DanglingIsTrap(st, evs, i);
    }
    if i :| 0 <= i < |evs| && Trap(st, evs, i) {
      RunOneMore(st, evs, i);
      StepDangles(Run(st, evs[..i]).st, evs[i]);
      DanglingIsTrap(st, evs, i + 1);
    }
  }

  // ---------- without arrays of tables it cannot fail ----------

  /** What the lexer says about a table header's pieces; keys may hold any text. */
  predicate Simple(ev: Event) {
    !ev.ArrayHeader? && (ev.Header? ==> ev.key != [] && Plain(ev.key))
  }

  /** Every mark names a table that exists. */
  ghost predicate Sound(st: State) {
    && !Dangling(st)
    && forall m | m in st.implicits :: Marks(st, m)
  }

  ghost predicate Marks(st: State, m: string) {
    exists p: Key :: p != [] && Plain(p) && Join(p) == m && Find(st.mapping, p).Some?
  }

  /** A new key leaves every table where it was. */
  lemma {:induction false} FindStays(h: Hash, path: Key, k: string, t: Tree, p: Key)
    requires Find(h, path).Some? && k !in Find(h, path).value.entries
    ensures Find(h, p).Some? ==> Find(Update(h, path, Put(Find(h, path).value, k, t)), p).Some?
  {
    if path != [] && p != [] && p[0] == path[0] && Find(h, p).Some? {
      FindStays(Into(h.entries[p[0]]).value, path[1..], k, t, p[1..]);
    }
  }

  /** Marks and the context survive a new key. */
  lemma PutKeepsMarks(st: State, path: Key, k: string, t: Tree, r: State)
    requires Find(st.mapping, path).Some? && k !in Find(st.mapping, path).value.entries
    requires r.mapping == Update(st.mapping, path, Put(Find(st.mapping, path).value, k, t))
    ensures forall m | Marks(st, m) :: Marks(r, m)
    ensures r.context == st.context && !Dangling(st) ==> !Dangling(r)
  {
    forall m | Marks(st, m)
      ensures Marks(r, m)
    {
      var p: Key :| p != [] && Plain(p) && Join(p) == m && Find(st.mapping, p).Some?;
      FindStays(st.mapping, path, k, t, p);
    }
    FindStays(st.mapping, path, k, t, st.context);
  }

  lemma {:induction false} DescendSound(st: State, path: Key, i: nat)
    requires i <= |path| && Find(st.mapping, path[..i]).Some? && Sound(st) && Plain(path)
    ensures Descend(st, path, i).Done? ==> Sound(Descend(st, path, i).st)
    decreases |path| - i
  {
    hide Marks;
    if i < |path| {
      var st' := Vivify(st, path[..i], path[i]);
      FindStep(st'.mapping, path[..i], path[i]);
      assert path[..i] + [path[i]] == path[..i + 1];
      if Find(st'.mapping, path[..i + 1]).Some? {
        if path[i] !in Find(st.mapping, path[..i]).value.entries {
          PutKeepsMarks(st, path[..i], path[i], Table(EMPTY), st');
        }
        NewMark(st', path[..i + 1]);
        DescendSound(st', path, i + 1);
      }
    }
  }

  lemma NewMark(st: State, p: Key)
    requires p != [] && Plain(p) && Find(st.mapping, p).Some?
    ensures Marks(st, Join(p))
  {
  }

  lemma MarkedIsTable(st: State, key: Key)
    requires key != [] && Plain(key) && Marks(st, Join(key))
    ensures Find(st.mapping, key).Some?
  {
    var p: Key :| p != [] && Plain(p) && Join(p) == Join(key) && Find(st.mapping, p).Some?;
    JoinInjective(p, key);
  }

  lemma StepSound(st: State, ev: Event)
    requires Sound(st) && Simple(ev)
    ensures !Step(st, ev).Fatal?
    ensures Step(st, ev).Done? ==> Sound(Step(st, ev).st)
  {
    hide Marks, Descend;
    match ev
    case KeyVal(name, value) =>
      if name !in Find(st.mapping, st.context).value.entries {
        PutKeepsMarks(st, st.context, name, Prim(value), Step(st, ev).st);
      } else if Step(st, ev).Done? {
        FewerMarks(st, Step(st, ev).st);
      }
    case Header(key) => HeaderSound(st, key);
  }

  lemma FewerMarks(st: State, r: State)
    requires Sound(st) && r.mapping == st.mapping && r.implicits <= st.implicits && !Dangling(r)
    ensures Sound(r)
  {
    forall m | m in r.implicits
      ensures Marks(r, m)
    {
      assert Marks(st, m);
    }
  }

  lemma HeaderSound(st: State, key: Key)
    requires Sound(st) && key != [] && Plain(key)
    ensures !Step(st, Header(key)).Fatal?
    ensures Step(st, Header(key)).Done? ==> Sound(Step(st, Header(key)).st)
  {
    hide Marks, Descend;
    HeadersNotFatal(st, Header(key));
    var parent, k := key[..|key| - 1], key[|key| - 1];
    assert parent + [k] == key;
    if Step(st, Header(key)).Done? {
      assert Find(st.mapping, parent[..0]).Some?;
      DescendSound(st, parent, 0);
      var st' := Descend(st, parent, 0).st;
      var at := Find(st'.mapping, parent).value;
      var r := Step(st, Header(key)).st;
      if k in at.entries {
        assert Join(key) in st'.implicits;
        MarkedIsTable(st', key);
        FewerMarks(st', r);
      } else {
        PutKeepsMarks(st', parent, k, Table(EMPTY), r);
        FindUpdate(st'.mapping, parent, Put(at, k, Table(EMPTY)));
        FindStep(r.mapping, parent, k);
      }
    }
  }

  /** Main result: with table headers and keys only, the context always names an existing chain of
      tables and neither `bug` branch of setValue is reached. */
  lemma {:induction false} NeverFatal(st: State, evs: seq<Event>)
    requires Sound(st) && forall i | 0 <= i < |evs| :: Simple(evs[i])
    ensures AllNamed(evs) && !Run(st, evs).Fatal?
    ensures Run(st, evs).Done? ==> Sound(Run(st, evs).st)
    decreases |evs|
  {
    hide Step, Sound;
    if evs != [] {
      StepSound(st, evs[0]);
      if Step(st, evs[0]).Done? {
        NeverFatal(Step(st, evs[0]).st, evs[1..]);
      }
    }
  }

  lemma StartIsSound()
    ensures Sound(START)
  {
  }

  // ---------- the check fails ----------

  /** An implicit mark outlives the array element it was made in: the second [[a]] starts a fresh
      element, b becomes a number there, and [a.b] is taken for a table all the same. */
  const STALE_MARK: seq<Event> := [
    ArrayHeader(["a"]),
    Header(["a", "b", "c"]),
    ArrayHeader(["a"]),
    KeyVal("b", Int(1)),
    Header(["a", "b"]),
    KeyVal("x", Int(1))
  ]

  function One(k: string, t: Tree): Hash
  {
    Hash(map[k := t])
  }

  lemma PutOne(k: string, s: Tree, t: Tree)
    ensures Put(One(k, s), k, t) == One(k, t) && Put(EMPTY, k, t) == One(k, t)
  {
    assert map[k := s][k := t] == map[k := t];
  }

  lemma OnePiece(h: Hash, k: string, n: Hash)
    requires k in h.entries && Into(h.entries[k]).Some?
    ensures Find(h, [k]) == Into(h.entries[k]) && Update(h, [k], n) == Put(h, k, WithInto(h.entries[k], n))
  {
    assert [k][1..] == [];
  }

  /** {a = [{b = {c = {}}}]}: the tree after the first two headers, which mark a.b. */
  const MARKED: State := State(One("a", Tables([], One("b", Table(One("c", Table(EMPTY)))))), ["a", "b", "c"], {"a.b"})

  /** A second element with b = 1. */
  const SET: State :=
    State(One("a", Tables([One("b", Table(One("c", Table(EMPTY))))], One("b", Prim(Int(1))))), ["a"], {"a.b"})

  lemma MakeImplicit()
    ensures Descend(State(One("a", Tables([], EMPTY)), ["a"], {}), ["a", "b"], 0)
         == Done(State(One("a", Tables([], One("b", Table(EMPTY)))), ["a"], {"a.b"}))
  {
    var p: Key := ["a", "b"];
    var d1, b0 := One("a", Tables([], EMPTY)), One("b", Table(EMPTY));
    var d2 := One("a", Tables([], b0));
    var s1, m := State(d1, ["a"], {}), State(d2, ["a"], {"a.b"});
    assert p[..0] == [] && p[..1] == ["a"] && p[..2] == p && ["a"] + ["b"] == p;
    OnePiece(d1, "a", b0);
    PutOne("b", Prim(Int(0)), Table(EMPTY));
    PutOne("a", Tables([], EMPTY), Tables([], b0));
    assert Join(p) == "a.b" by { assert p[1..] == ["b"]; }
    assert Vivify(s1, p[..1], "b") == m;
    FindStep(d2, ["a"], "b");
    OnePiece(d2, "a", b0);
    assert Descend(s1, p, 1) == Done(m);
  }

  lemma FirstTwo()
    ensures Run(START, STALE_MARK[..2]) == Done(MARKED)
  {
    hide Descend;
    var d1, b0, b1 := One("a", Tables([], EMPTY)), One("b", Table(EMPTY)), One("b", Table(One("c", Table(EMPTY))));
    var s1, d2 := State(d1, ["a"], {}), One("a", Tables([], b0));
    assert Step(START, STALE_MARK[0]) == Done(s1) by {
      assert Descend(START, [], 0) == Done(START) by { DescendNowhere(START); }
      PutOne("a", Prim(Int(0)), Tables([], EMPTY));
    }
    assert Step(s1, STALE_MARK[1]) == Done(MARKED) by {
      MakeImplicit();
      assert ["a", "b", "c"][..2] == ["a", "b"] && ["a"] + ["b"] == ["a", "b"];
      OnePiece(d2, "a", b1);
      FindStep(d2, ["a"], "b");
      UpdateStep(d2, ["a"], "b", One("c", Table(EMPTY)));
      PutOne("c", Prim(Int(0)), Table(EMPTY));
      PutOne("b", Table(EMPTY), Table(One("c", Table(EMPTY))));
      PutOne("a", Tables([], b0), Tables([], b1));
    }
    assert STALE_MARK[..2] == [STALE_MARK[0], STALE_MARK[1]];
    assert [STALE_MARK[0], STALE_MARK[1]][1..] == [STALE_MARK[1]];
    assert Run(s1, [STALE_MARK[1]]) == Done(MARKED);
  }

  lemma DescendNowhere(st: State)
    ensures Descend(st, [], 0) == Done(st)
  {
  }

  lemma NextTwo()
    ensures Run(MARKED, STALE_MARK[2..4]) == Done(SET)
  {
    hide Descend;
    var full, one := One("b", Table(One("c", Table(EMPTY)))), One("b", Prim(Int(1)));
    var d3 := One("a", Tables([full], EMPTY));
    var s3 := State(d3, ["a"], {"a.b"});
    assert Step(MARKED, STALE_MARK[2]) == Done(s3) by {
      DescendNowhere(MARKED);
      assert [] + [full] == [full];
      PutOne("a", Tables([], full), Tables([full], EMPTY));
    }
    assert Step(s3, STALE_MARK[3]) == Done(SET) by {
      OnePiece(d3, "a", one);
      PutOne("b", Prim(Int(1)), Prim(Int(1)));
      PutOne("a", Tables([full], EMPTY), Tables([full], one));
    }
    assert STALE_MARK[2..4] == [STALE_MARK[2], STALE_MARK[3]];
    assert [STALE_MARK[2], STALE_MARK[3]][1..] == [STALE_MARK[3]];
    assert Run(s3, [STALE_MARK[3]]) == Done(SET);
  }

  lemma LastTwo()
    ensures Run(SET, STALE_MARK[4..]) == Fatal
  {
    var s5 := SET.(context := ["a", "b"], implicits := {});
    assert Step(SET, STALE_MARK[4]) == Done(s5) by {
      assert ["a", "b"][..1] == ["a"] && ["a"] + ["b"] == ["a", "b"];
      OnePiece(SET.mapping, "a", EMPTY);
      assert ["a"][..0] == [] && ["a"][..1] == ["a"];
      assert Join(["a", "b"]) == "a.b" by { assert ["a", "b"][1..] == ["b"]; }
    }
    assert Dangling(s5) by {
      assert ["a", "b"][1..] == ["b"];
    }
    assert STALE_MARK[4..] == [STALE_MARK[4], STALE_MARK[5]];
    assert [STALE_MARK[4], STALE_MARK[5]][1..] == [STALE_MARK[5]];
    assert Run(s5, [STALE_MARK[5]]) == Fatal;
  }

  /** The six lines end the process. */
  lemma StaleMarkIsFatal()
    ensures Run(START, STALE_MARK) == Fatal
  {
    hide Step;
    FirstTwo();
    NextTwo();
    LastTwo();
    assert STALE_MARK == STALE_MARK[..2] + (STALE_MARK[2..4] + STALE_MARK[4..]);
    RunAppend(START, STALE_MARK[..2], STALE_MARK[2..4] + STALE_MARK[4..]);
    RunAppend(MARKED, STALE_MARK[2..4], STALE_MARK[4..]);
  }
}
