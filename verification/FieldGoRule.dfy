/** The search for fields against Go's rule for promoted fields, on every type graph. */
module FieldGoRule {
  import opened FieldSearch
  import opened FieldDominance

  // ---------- Go's rule, on paths ----------

  /** Of all the paths to fields of its name, the one to `f` is the single shortest, or the single
      tagged one among the shortest. */
  ghost predicate Picked(g: Graph, root: nat, f: Field) {
    Leads(g, root, f.index, f.name, f.tag, f.typ) &&
    forall p: seq<nat>, tag, typ | Leads(g, root, p, f.name, tag, typ) && p != f.index ::
      |f.index| < |p| || (|f.index| == |p| && f.tag && !tag)
  }

  /** Another path of the same length leads to a field of that name, which is tagged if `f` is. */
  ghost predicate Ambiguous(g: Graph, root: nat, f: Field) {
    exists p: seq<nat>, tag, typ :: Leads(g, root, p, f.name, tag, typ) && Rival(f, p, tag)
  }

  predicate Rival(f: Field, p: seq<nat>, tag: bool) {
    p != f.index && |p| == |f.index| && (f.tag ==> tag)
  }

  /** A path of this length leads to struct `t`. */
  ghost predicate At(g: Graph, root: nat, t: nat, d: nat) {
    exists path: seq<nat> :: |path| == d && Reaches(g, root, path, t)
  }

  /** Struct `t` is at level `d`: no shorter path leads to it. */
  ghost predicate Shortest(g: Graph, root: nat, t: nat, d: nat) {
    At(g, root, t, d) && forall k: nat | k < d :: !At(g, root, t, k)
  }

  predicate Embeds(g: Graph, u: nat, i: nat, t: nat) {
    u < |g| && i < |g[u]| && RoleOf(g[u][i]) == Embedded(t)
  }

  /** The structs of the level above `d` embed struct `t` more than once. */
  ghost predicate EmbeddedTwice(g: Graph, root: nat, t: nat, d: nat) {
    exists u: nat, i: nat, v: nat, j: nat :: Embeds(g, u, i, t) && Embeds(g, v, j, t) && (u != v || i != j) &&
      d > 0 && Shortest(g, root, u, d - 1) && Shortest(g, root, v, d - 1)
  }

  /** The struct after the first `n` steps of a path is embedded more than once one level above. */
  ghost predicate TwiceOnTheWay(g: Graph, root: nat, path: seq<nat>, n: nat)
    requires n <= |path|
  {
    exists t: nat :: Reaches(g, root, path[..n], t) && EmbeddedTwice(g, root, t, n)
  }

  // ---------- paths ----------

  lemma {:induction false} SameEnd(g: Graph, root: nat, p: seq<nat>, t: nat, t': nat)
    requires Reaches(g, root, p, t) && Reaches(g, root, p, t')
    ensures t == t'
    decreases |p|
  {
    if p != [] {
      SameEnd(g, RoleOf(g[root][p[0]]).id, p[1..], t, t');
    }
  }

  lemma {:induction false} Joined(g: Graph, root: nat, p: seq<nat>, u: nat, q: seq<nat>, t: nat)
    requires Reaches(g, root, p, u) && Reaches(g, u, q, t)
    ensures Reaches(g, root, p + q, t)
    decreases |p|
  {
    if p == [] {
      assert p + q == q;
    } else {
      assert (p + q)[1..] == p[1..] + q;
      Joined(g, RoleOf(g[root][p[0]]).id, p[1..], u, q, t);
    }
  }

  /** A path cut in two. */
  lemma {:induction false} Parted(g: Graph, root: nat, p: seq<nat>, n: nat, t: nat) returns (u: nat)
    requires Reaches(g, root, p, t) && n <= |p|
    ensures Reaches(g, root, p[..n], u) && Reaches(g, u, p[n..], t)
    decreases n
  {
    if n == 0 {
      assert p[0..] == p;
      u := root;
    } else {
      u := Parted(g, RoleOf(g[root][p[0]]).id, p[1..], n - 1, t);
      assert p[..n][1..] == p[1..][..n - 1] && p[1..][n - 1..] == p[n..];
    }
  }

  lemma AtFurther(g: Graph, root: nat, u: nat, k: nat, q: seq<nat>, t: nat)
    requires At(g, root, u, k) && Reaches(g, u, q, t)
    ensures At(g, root, t, k + |q|)
  {
    var p: seq<nat> :| |p| == k && Reaches(g, root, p, u);
    Joined(g, root, p, u, q, t);
    assert |p + q| == k + |q|;
  }

  /** The beginning of a shortest path is a shortest path. */
  lemma ShortestPrefix(g: Graph, root: nat, p: seq<nat>, t: nat, n: nat, u: nat)
    requires Reaches(g, root, p, t) && Shortest(g, root, t, |p|)
    requires n <= |p| && Reaches(g, root, p[..n], u)
    ensures Shortest(g, root, u, n)
  {
    hide Reaches;
    var u' := Parted(g, root, p, n, t);
    SameEnd(g, root, p[..n], u, u');
    forall k: nat | k < n
      ensures !At(g, root, u, k)
    {
      if At(g, root, u, k) {
        AtFurther(g, root, u, k, p[n..], t);
      }
    }
  }

  /** Two shortest paths to a struct part somewhere, and where they meet again a struct is embedded twice. */
  lemma {:induction false} TwoPathsMeet(g: Graph, root: nat, p: seq<nat>, q: seq<nat>, t: nat) returns (n: nat)
    requires Reaches(g, root, p, t) && Reaches(g, root, q, t) && p != q && |p| == |q|
    requires Shortest(g, root, t, |p|)
    ensures 0 < n <= |q| && TwiceOnTheWay(g, root, q, n)
    decreases |p|
  {
    hide Reaches, Shortest, EmbeddedTwice;
    n := |p|;
    if p != [] {
      var u, v := p[..n - 1], q[..n - 1];
      ReachesLast(g, root, p, t);
      var a: nat :| Reaches(g, root, u, a) && a < |g| && p[n - 1] < |g[a]| && RoleOf(g[a][p[n - 1]]) == Embedded(t);
      ReachesLast(g, root, q, t);
      var b: nat :| Reaches(g, root, v, b) && b < |g| && q[n - 1] < |g[b]| && RoleOf(g[b][q[n - 1]]) == Embedded(t);
      ShortestPrefix(g, root, p, t, n - 1, a);
      ShortestPrefix(g, root, q, t, n - 1, b);
      if a != b || p[n - 1] != q[n - 1] {
        MeetHere(g, root, a, p[n - 1], b, q[n - 1], t, n);
        assert q[..n] == q;
      } else {
        assert p == u + [p[n - 1]] && q == v + [q[n - 1]];
        n := TwoPathsMeet(g, root, u, v, a);
        assert v[..n] == q[..n];
      }
    }
  }

  lemma MeetHere(g: Graph, root: nat, u: nat, i: nat, v: nat, j: nat, t: nat, d: nat)
    requires Embeds(g, u, i, t) && Embeds(g, v, j, t) && (u != v || i != j) && d > 0
    requires Shortest(g, root, u, d - 1) && Shortest(g, root, v, d - 1)
    ensures EmbeddedTwice(g, root, t, d)
  {
  }

  lemma OtherStep(g: Graph, root: nat, a: seq<nat>, u: nat, i: nat, b: seq<nat>, v: nat, j: nat)
    requires Reaches(g, root, a, u) && Reaches(g, root, b, v) && (u != v || i != j)
    ensures a + [i] != b + [j]
  {
    hide Reaches;
    if a == b {
      SameEnd(g, root, a, u, v);
    }
    assert (a + [i])[..|a + [i]| - 1] == a && (b + [j])[..|b + [j]| - 1] == b;
    assert (a + [i])[|a|] == i && (b + [j])[|b|] == j;
  }

  /** A struct embedded twice on the way gives a second path. */
  lemma AnotherWay(g: Graph, root: nat, q: seq<nat>, t: nat, n: nat) returns (p: seq<nat>)
    requires Reaches(g, root, q, t) && n <= |q| && TwiceOnTheWay(g, root, q, n)
    ensures Reaches(g, root, p, t) && p != q && |p| == |q|
  {
    hide Reaches;
    var m := Parted(g, root, q, n, t);
    var m': nat :| Reaches(g, root, q[..n], m') && EmbeddedTwice(g, root, m', n);
    SameEnd(g, root, q[..n], m, m');
    var u: nat, i: nat, v: nat, j: nat :| Embeds(g, u, i, m) && Embeds(g, v, j, m) && (u != v || i != j) &&
      n > 0 && Shortest(g, root, u, n - 1) && Shortest(g, root, v, n - 1);
    var a: seq<nat> :| |a| == n - 1 && Reaches(g, root, a, u);
    var b: seq<nat> :| |b| == n - 1 && Reaches(g, root, b, v);
    ReachesFurther(g, root, a, u, i);
    ReachesFurther(g, root, b, v, j);
    OtherStep(g, root, a, u, i, b, v, j);
    var first := if a + [i] != q[..n] then a + [i] else b + [j];
    p := first + q[n..];
    Joined(g, root, first, m, q[n..], t);
    assert p[..n] == first;
  }

  // ---------- every struct is shown at its level ----------

  /** A found field in the list, twice over if it was found in a struct queued more than once. */
  predicate Holds(fs: seq<Field>, f: Field, twice: bool) {
    exists a, b | 0 <= a <= b < |fs| :: fs[a] == f && fs[b] == f && (twice ==> a < b)
  }

  lemma HoldsMore(fs: seq<Field>, more: seq<Field>, f: Field, twice: bool)
    requires Holds(fs, f, twice) && fs <= more
    ensures Holds(more, f, twice)
  {
    var a, b :| 0 <= a <= b < |fs| && fs[a] == f && fs[b] == f && (twice ==> a < b);
    assert more[a] == f && more[b] == f;
  }

  /** The field found at `e` for the i-th struct field. */
  function FieldAt(g: Graph, e: Entry, i: nat): Field
    requires e.id < |g| && i < |g[e.id]| && RoleOf(g[e.id][i]).Found?
  {
    var role := RoleOf(g[e.id][i]);
    Field(role.name, role.tagged, e.index + [i], Followed(g[e.id][i].typ))
  }

  /** The list holds all the fields of the struct at `e` from the i-th. */
  ghost predicate Given(g: Graph, fs: seq<Field>, e: Entry, i: nat, twice: bool) {
    e.id < |g| && forall j | i <= j < |g[e.id]| && RoleOf(g[e.id][j]).Found? :: Holds(fs, FieldAt(g, e, j), twice)
  }

  lemma GivenMore(g: Graph, fs: seq<Field>, more: seq<Field>, e: Entry, i: nat, twice: bool)
    requires Given(g, fs, e, i, twice) && fs <= more
    ensures Given(g, more, e, i, twice)
  {
    hide Holds, FieldAt, RoleOf;
    forall j | i <= j < |g[e.id]| && RoleOf(g[e.id][j]).Found?
      ensures Holds(more, FieldAt(g, e, j), twice)
    {
      HoldsMore(fs, more, FieldAt(g, e, j), twice);
    }
  }

  lemma StepGives(g: Graph, e: Entry, i: nat, twice: bool, s: Progress)
    requires e.id < |g| && i < |g[e.id]|
    ensures var r := ScanField(g[e.id][i], e, i, twice, s);
            s.fields <= r.fields && (RoleOf(g[e.id][i]).Found? ==> Holds(r.fields, FieldAt(g, e, i), twice))
  {
    var r := ScanField(g[e.id][i], e, i, twice, s);
    if RoleOf(g[e.id][i]).Found? {
      var n := |s.fields|;
      assert r.fields[n] == FieldAt(g, e, i);
      if twice {
        assert r.fields[n + 1] == FieldAt(g, e, i);
      }
    }
  }

  lemma {:induction false} StructGives(g: Graph, e: Entry, i: nat, twice: bool, s: Progress)
    requires e.id < |g| && i <= |g[e.id]|
    ensures var r := ScanStruct(g, e, i, twice, s); s.fields <= r.fields && Given(g, r.fields, e, i, twice)
    decreases |g[e.id]| - i
  {
    hide RoleOf, ScanField, Holds, FieldAt;
    if i < |g[e.id]| {
      var s' := ScanField(g[e.id][i], e, i, twice, s);
      StepGives(g, e, i, twice, s);
      StructGives(g, e, i + 1, twice, s');
      if RoleOf(g[e.id][i]).Found? {
        HoldsMore(s'.fields, ScanStruct(g, e, i, twice, s).fields, FieldAt(g, e, i), twice);
      }
    }
  }

  /** Struct `t` was queued, and its fields are in the list, copied if its count is more than one. */
  ghost predicate Shown(g: Graph, fs: seq<Field>, current: seq<Entry>, counts: map<nat, nat>, t: nat) {
    exists m | 0 <= m < |current| :: current[m].id == t && Given(g, fs, current[m], 0, Count(counts, t) > 1)
  }

  lemma {:induction false} LevelShows(g: Graph, current: seq<Entry>, k: nat, counts: map<nat, nat>, l: Level)
    requires Inside(g, current) && k <= |current|
    ensures var r := ScanLevel(g, current, k, counts, l);
            l.s.fields <= r.s.fields && r.visited == l.visited + Ids(current[k..]) &&
            (forall t | t in r.visited && t !in l.visited :: Shown(g, r.s.fields, current, counts, t))
    decreases |current| - k
  {
    hide ScanStruct, Given;
    if k < |current| {
      var e := current[k];
      IdsFrom(current, k);
      if e.id in l.visited {
        LevelShows(g, current, k + 1, counts, l);
      } else {
        var twice := Count(counts, e.id) > 1;
        StructGives(g, e, 0, twice, l.s);
        var l' := Level(ScanStruct(g, e, 0, twice, l.s), l.visited + {e.id});
        LevelShows(g, current, k + 1, counts, l');
        GivenMore(g, l'.s.fields, ScanLevel(g, current, k, counts, l).s.fields, e, 0, twice);
      }
    }
  }

  lemma IdsFrom(es: seq<Entry>, k: nat)
    requires k < |es|
    ensures Ids(es[k..]) == {es[k].id} + Ids(es[k + 1..])
  {
    assert es[k..] == [es[k]] + es[k + 1..];
    forall x | x in Ids(es[k + 1..])
      ensures x in Ids(es[k..])
    {
      var i :| 0 <= i < |es[k + 1..]| && es[k + 1..][i].id == x;
      assert es[k..][i + 1].id == x;
    }
    assert es[k..][0].id == es[k].id;
  }

  // ---------- what is counted ----------

  /** Struct fields scanned so far: all those of the structs in `done`, and the first `n` of `t`. */
  predicate Slot(done: set<nat>, t: nat, n: nat, u: nat, i: nat) {
    u in done || (u == t && i < n)
  }

  /** Whatever is embedded was counted, and what is embedded twice was counted twice. */
  ghost predicate Counted(g: Graph, done: set<nat>, t: nat, n: nat, counts: map<nat, nat>) {
    forall u, i, id | Slot(done, t, n, u, i) && Embeds(g, u, i, id) ::
      Count(counts, id) >= 1 &&
      forall v, j | Slot(done, t, n, v, j) && Embeds(g, v, j, id) && (u != v || i != j) :: Count(counts, id) >= 2
  }

  lemma StepCounts(g: Graph, done: set<nat>, e: Entry, i: nat, twice: bool, s: Progress)
    requires e.id < |g| && i < |g[e.id]| && Counted(g, done, e.id, i, s.counts)
    ensures Counted(g, done, e.id, i + 1, ScanField(g[e.id][i], e, i, twice, s).counts)
  {
    hide RoleOf;
    var counts := ScanField(g[e.id][i], e, i, twice, s).counts;
    forall u, k, id | Slot(done, e.id, i + 1, u, k) && Embeds(g, u, k, id)
      ensures Count(counts, id) >= 1
      ensures forall v, j | Slot(done, e.id, i + 1, v, j) && Embeds(g, v, j, id) && (u != v || k != j) ::
                Count(counts, id) >= 2
    {
      assert Slot(done, e.id, i, u, k) || (u == e.id && k == i);
    }
  }

  lemma {:induction false} StructCounts(g: Graph, done: set<nat>, e: Entry, i: nat, twice: bool, s: Progress)
    requires e.id < |g| && i <= |g[e.id]| && Counted(g, done, e.id, i, s.counts)
    ensures Counted(g, done, e.id, |g[e.id]|, ScanStruct(g, e, i, twice, s).counts)
    decreases |g[e.id]| - i
  {
    hide RoleOf, ScanField, Counted;
    if i < |g[e.id]| {
      StepCounts(g, done, e, i, twice, s);
      StructCounts(g, done, e, i + 1, twice, ScanField(g[e.id][i], e, i, twice, s));
    }
  }

  /** A struct scanned to its end is done. */
  lemma StructDone(g: Graph, done: set<nat>, t: nat, t': nat, counts: map<nat, nat>)
    requires t < |g| && Counted(g, done, t, |g[t]|, counts)
    ensures Counted(g, done + {t}, t', 0, counts)
  {
    hide RoleOf;
    forall u, i, id | Slot(done + {t}, t', 0, u, i) && Embeds(g, u, i, id)
      ensures Slot(done, t, |g[t]|, u, i)
    {
    }
  }

  /** `base` are the structs visited before this level. */
  lemma {:induction false} LevelCounts(g: Graph, base: set<nat>, current: seq<Entry>, k: nat, counts: map<nat, nat>,
        l: Level)
    requires Inside(g, current) && k <= |current| && base <= l.visited
    requires Counted(g, l.visited - base, 0, 0, l.s.counts)
    ensures var r := ScanLevel(g, current, k, counts, l); Counted(g, r.visited - base, 0, 0, r.s.counts)
    decreases |current| - k
  {
    hide ScanStruct, Counted;
    if k < |current| {
      var e := current[k];
      if e.id in l.visited {
        LevelCounts(g, base, current, k + 1, counts, l);
      } else {
        var twice := Count(counts, e.id) > 1;
        var s := ScanStruct(g, e, 0, twice, l.s);
        NoneYet(g, l.visited - base, e.id, l.s.counts);
        StructCounts(g, l.visited - base, e, 0, twice, l.s);
        StructDone(g, l.visited - base, e.id, 0, s.counts);
        assert l.visited + {e.id} - base == l.visited - base + {e.id};
        LevelCounts(g, base, current, k + 1, counts, Level(s, l.visited + {e.id}));
      }
    }
  }

  lemma NoneYet(g: Graph, done: set<nat>, t: nat, counts: map<nat, nat>)
    requires Counted(g, done, 0, 0, counts)
    ensures Counted(g, done, t, 0, counts)
  {
    hide RoleOf;
    forall u, i, id | Slot(done, t, 0, u, i) && Embeds(g, u, i, id)
      ensures Slot(done, 0, 0, u, i)
    {
    }
  }

  // ---------- nothing is copied without a reason ----------

  ghost predicate TwoPaths(g: Graph, root: nat, t: nat, d: nat) {
    exists p: seq<nat>, q: seq<nat> ::
      p != q && |p| == d && |q| == d && Reaches(g, root, p, t) && Reaches(g, root, q, t)
  }

  /** The index is one of a field of struct `u`. */
  predicate Inhabits(g: Graph, root: nat, index: seq<nat>, u: nat) {
    index != [] && Reaches(g, root, index[..|index| - 1], u)
  }

  /** An index whose last step was scanned already. */
  ghost predicate Behind(g: Graph, root: nat, done: set<nat>, t: nat, n: nat, index: seq<nat>) {
    exists u: nat :: Inhabits(g, root, index, u) && Slot(done, t, n, u, index[|index| - 1])
  }

  /** The struct that holds the field at this index has a second path. */
  ghost predicate Repeated(g: Graph, root: nat, index: seq<nat>) {
    exists u: nat :: Inhabits(g, root, index, u) && TwoPaths(g, root, u, |index| - 1)
  }

  ghost predicate NoIdleCopies(g: Graph, root: nat, fs: seq<Field>) {
    forall a, b | 0 <= a < b < |fs| && fs[a].index == fs[b].index :: Repeated(g, root, fs[a].index)
  }

  /** Entries queued and fields found lie behind, fields are copied and structs counted twice for a reason. */
  ghost predicate Neat(g: Graph, root: nat, d: nat, done: set<nat>, t: nat, n: nat, s: Progress) {
    (forall i | 0 <= i < |s.next| :: Behind(g, root, done, t, n, s.next[i].index)) &&
    (forall i | 0 <= i < |s.fields| :: Behind(g, root, done, t, n, s.fields[i].index)) &&
    Placed(g, root, s.next, d) && Queued(s) && NoIdleCopies(g, root, s.fields) &&
    forall id | Count(s.counts, id) > 1 :: TwoPaths(g, root, id, d)
  }

  lemma BehindMore(g: Graph, root: nat, done: set<nat>, t: nat, n: nat, done': set<nat>, t': nat, n': nat,
        index: seq<nat>)
    requires Behind(g, root, done, t, n, index) && done <= done' && (t in done' || (t == t' && n <= n') || n == 0)
    ensures Behind(g, root, done', t', n', index)
  {
  }

  /** What is about to be scanned does not lie behind. */
  lemma NotBehind(g: Graph, root: nat, done: set<nat>, e: Entry, i: nat)
    requires Reaches(g, root, e.index, e.id) && e.id !in done
    ensures !Behind(g, root, done, e.id, i, e.index + [i])
    ensures Behind(g, root, done, e.id, i + 1, e.index + [i])
  {
    hide Reaches;
    var index := e.index + [i];
    assert index[..|index| - 1] == e.index && index[|index| - 1] == i;
    forall u: nat | Inhabits(g, root, index, u)
      ensures u == e.id
    {
      SameEnd(g, root, e.index, u, e.id);
    }
    assert Inhabits(g, root, index, e.id);
    assert Slot(done, e.id, i + 1, e.id, i);
  }

  lemma NeatMore(g: Graph, root: nat, d: nat, done: set<nat>, t: nat, n: nat, done': set<nat>, t': nat, n': nat,
        s: Progress)
    requires Neat(g, root, d, done, t, n, s) && done <= done' && (t in done' || (t == t' && n <= n') || n == 0)
    ensures Neat(g, root, d, done', t', n', s)
  {
    hide Behind, Placed, Queued, NoIdleCopies, TwoPaths;
    forall i | 0 <= i < |s.next|
      ensures Behind(g, root, done', t', n', s.next[i].index)
    {
      BehindMore(g, root, done, t, n, done', t', n', s.next[i].index);
    }
    forall i | 0 <= i < |s.fields|
      ensures Behind(g, root, done', t', n', s.fields[i].index)
    {
      BehindMore(g, root, done, t, n, done', t', n', s.fields[i].index);
    }
  }

  lemma FoundNeat(g: Graph, root: nat, done: set<nat>, e: Entry, i: nat, twice: bool, s: Progress)
    requires e.id < |g| && i < |g[e.id]| && RoleOf(g[e.id][i]).Found?
    requires Reaches(g, root, e.index, e.id) && e.id !in done && (twice ==> TwoPaths(g, root, e.id, |e.index|))
    requires Neat(g, root, |e.index| + 1, done, e.id, i, s)
    ensures Neat(g, root, |e.index| + 1, done, e.id, i + 1, ScanField(g[e.id][i], e, i, twice, s))
  {
    hide Reaches, Behind, Placed, Queued, TwoPaths;
    NotBehind(g, root, done, e, i);
    NeatMore(g, root, |e.index| + 1, done, e.id, i, done, e.id, i + 1, s);
    var r := ScanField(g[e.id][i], e, i, twice, s);
    var index := e.index + [i];
    assert r.next == s.next && r.counts == s.counts;
    StepCovers(g[e.id][i], e, i, twice, s);
    assert forall b | |s.fields| <= b < |r.fields| :: r.fields[b].index == index;
    assert index[..|index| - 1] == e.index;
    assert Inhabits(g, root, index, e.id);
    assert twice ==> Repeated(g, root, index);
    assert forall a | 0 <= a < |s.fields| :: s.fields[a].index != index by {
      assert forall a | 0 <= a < |s.fields| :: Behind(g, root, done, e.id, i, s.fields[a].index);
    }
    forall a, b | 0 <= a < b < |r.fields| && r.fields[a].index == r.fields[b].index
      ensures Repeated(g, root, r.fields[a].index)
    {
    }
  }

  lemma EmbeddedNeat(g: Graph, root: nat, done: set<nat>, e: Entry, i: nat, twice: bool, s: Progress)
    requires WellFormed(g) && e.id < |g| && i < |g[e.id]| && RoleOf(g[e.id][i]).Embedded?
    requires Reaches(g, root, e.index, e.id) && e.id !in done
    requires Neat(g, root, |e.index| + 1, done, e.id, i, s)
    ensures Neat(g, root, |e.index| + 1, done, e.id, i + 1, ScanField(g[e.id][i], e, i, twice, s))
  {
    hide Reaches, Behind, NoIdleCopies;
    NotBehind(g, root, done, e, i);
    NeatMore(g, root, |e.index| + 1, done, e.id, i, done, e.id, i + 1, s);
    ReachesFurther(g, root, e.index, e.id, i);
    StepCovers(g[e.id][i], e, i, twice, s);
    var id := RoleOf(g[e.id][i]).id;
    assert var ft := Followed(g[e.id][i].typ); ft.Struct? ==> ft.id < |g|;
    if Count(s.counts, id) >= 1 {
      assert id in Ids(s.next);
      var k :| 0 <= k < |s.next| && s.next[k].id == id;
      assert Behind(g, root, done, e.id, i, s.next[k].index);
      assert s.next[k].index != e.index + [i];
      assert TwoPaths(g, root, id, |e.index| + 1);
    }
  }

  lemma {:induction false} StructNeat(g: Graph, root: nat, done: set<nat>, e: Entry, i: nat, twice: bool, s: Progress)
    requires WellFormed(g) && e.id < |g| && i <= |g[e.id]|
    requires Reaches(g, root, e.index, e.id) && e.id !in done && (twice ==> TwoPaths(g, root, e.id, |e.index|))
    requires Neat(g, root, |e.index| + 1, done, e.id, i, s)
    ensures Neat(g, root, |e.index| + 1, done, e.id, |g[e.id]|, ScanStruct(g, e, i, twice, s))
    decreases |g[e.id]| - i
  {
    hide Reaches, Neat, TwoPaths, RoleOf, WellFormed;
    if i < |g[e.id]| {
      var s' := ScanField(g[e.id][i], e, i, twice, s);
      if RoleOf(g[e.id][i]).Found? {
        FoundNeat(g, root, done, e, i, twice, s);
      } else if RoleOf(g[e.id][i]).Embedded? {
        EmbeddedNeat(g, root, done, e, i, twice, s);
      } else {
        NeatMore(g, root, |e.index| + 1, done, e.id, i, done, e.id, i + 1, s);
      }
      StructNeat(g, root, done, e, i + 1, twice, s');
    }
  }

  lemma {:induction false} LevelNeat(g: Graph, root: nat, d: nat, current: seq<Entry>, k: nat, counts: map<nat, nat>,
        l: Level)
    requires WellFormed(g) && Placed(g, root, current, d) && k <= |current|
    requires forall id | Count(counts, id) > 1 :: TwoPaths(g, root, id, d)
    requires Neat(g, root, d + 1, l.visited, 0, 0, l.s)
    ensures Inside(g, current)
    ensures var r := ScanLevel(g, current, k, counts, l); Neat(g, root, d + 1, r.visited, 0, 0, r.s)
    decreases |current| - k
  {
    hide Reaches, Neat, TwoPaths, ScanStruct, WellFormed;
    if k < |current| {
      var e := current[k];
      if e.id in l.visited {
        LevelNeat(g, root, d, current, k + 1, counts, l);
      } else {
        var twice := Count(counts, e.id) > 1;
        var s := ScanStruct(g, e, 0, twice, l.s);
        NeatMore(g, root, d + 1, l.visited, 0, 0, l.visited, e.id, 0, l.s);
        StructNeat(g, root, l.visited, e, 0, twice, l.s);
        NeatMore(g, root, d + 1, l.visited, e.id, |g[e.id]|, l.visited + {e.id}, 0, 0, s);
        LevelNeat(g, root, d, current, k + 1, counts, Level(s, l.visited + {e.id}));
      }
    }
  }

  // ---------- the whole search ----------

  /** Before level `d`, exactly the structs of the levels above are visited; all of them are shown. */
  ghost predicate Above(g: Graph, root: nat, visited: set<nat>, d: nat) {
    forall t: nat :: t in visited <==> exists k: nat | k < d :: At(g, root, t, k)
  }

  /** All the fields of struct `t` are in the list, copied if it is embedded twice. */
  ghost predicate Present(g: Graph, root: nat, fs: seq<Field>, t: nat, d: nat) {
    exists e: Entry :: e.id == t && |e.index| == d && Reaches(g, root, e.index, t) && Given(g, fs, e, 0, false) &&
      (EmbeddedTwice(g, root, t, d) ==> Given(g, fs, e, 0, true))
  }

  ghost predicate AllPresent(g: Graph, root: nat, fs: seq<Field>, d: nat) {
    forall t: nat, k: nat | k < d && Shortest(g, root, t, k) :: Present(g, root, fs, t, k)
  }

  /** What holds before level `d`. */
  ghost predicate Ready(g: Graph, root: nat, d: nat, next: seq<Entry>, counts: map<nat, nat>, visited: set<nat>,
        fs: seq<Field>)
  {
    Placed(g, root, next, d) && Above(g, root, visited, d) && AllPresent(g, root, fs, d) &&
    (forall t: nat | At(g, root, t, d) && t !in visited :: t in Ids(next)) &&
    (forall t: nat | EmbeddedTwice(g, root, t, d) :: Count(counts, t) > 1) &&
    (forall t: nat | Count(counts, t) > 1 :: TwoPaths(g, root, t, d)) &&
    Covered(g, visited, fs, Ids(next), d) && Neat(g, root, d + 1, visited, 0, 0, Progress(fs, [], map[]))
  }

  /** The levels are what the paths say. */
  lemma LevelAbove(g: Graph, root: nat, d: nat, next: seq<Entry>, visited: set<nat>)
    requires Placed(g, root, next, d) && Above(g, root, visited, d)
    requires forall t: nat | At(g, root, t, d) && t !in visited :: t in Ids(next)
    ensures Above(g, root, visited + Ids(next), d + 1)
    ensures forall t: nat :: Shortest(g, root, t, d) <==> t in visited + Ids(next) - visited
  {
    hide Reaches;
    forall t: nat
      ensures t in visited + Ids(next) <==> exists k: nat | k < d + 1 :: At(g, root, t, k)
      ensures t in Ids(next) ==> At(g, root, t, d)
    {
      if t in Ids(next) {
        var i :| 0 <= i < |next| && next[i].id == t;
        assert At(g, root, t, d);
      }
      if k: nat :| k < d + 1 && At(g, root, t, k) {
        assert k < d || k == d;
      }
    }
  }

  lemma {:induction false} GivenOnce(g: Graph, fs: seq<Field>, e: Entry)
    requires Given(g, fs, e, 0, true)
    ensures Given(g, fs, e, 0, false)
  {
    hide FieldAt, RoleOf;
    forall j | 0 <= j < |g[e.id]| && RoleOf(g[e.id][j]).Found?
      ensures Holds(fs, FieldAt(g, e, j), false)
    {
      assert Holds(fs, FieldAt(g, e, j), true);
    }
  }

  lemma PresentMore(g: Graph, root: nat, fs: seq<Field>, more: seq<Field>, t: nat, d: nat)
    requires Present(g, root, fs, t, d) && fs <= more
    ensures Present(g, root, more, t, d)
  {
    hide Reaches, Given, EmbeddedTwice;
    var e: Entry :| e.id == t && |e.index| == d && Reaches(g, root, e.index, t) && Given(g, fs, e, 0, false) &&
      (EmbeddedTwice(g, root, t, d) ==> Given(g, fs, e, 0, true));
    GivenMore(g, fs, more, e, 0, false);
    if EmbeddedTwice(g, root, t, d) {
      GivenMore(g, fs, more, e, 0, true);
    }
  }

  lemma ShownIsPresent(g: Graph, root: nat, d: nat, fs: seq<Field>, current: seq<Entry>, counts: map<nat, nat>, t: nat)
    requires Placed(g, root, current, d) && Shown(g, fs, current, counts, t)
    requires EmbeddedTwice(g, root, t, d) ==> Count(counts, t) > 1
    ensures Present(g, root, fs, t, d)
  {
    hide Reaches, Given, EmbeddedTwice;
    var m :| 0 <= m < |current| && current[m].id == t && Given(g, fs, current[m], 0, Count(counts, t) > 1);
    if Count(counts, t) > 1 {
      GivenOnce(g, fs, current[m]);
    }
  }

  lemma LevelPresent(g: Graph, root: nat, d: nat, next: seq<Entry>, counts: map<nat, nat>, visited: set<nat>,
        fs: seq<Field>)
    requires Ready(g, root, d, next, counts, visited, fs)
    ensures Inside(g, next)
    ensures var r := NextLevel(g, next, counts, visited, fs);
            r.visited == visited + Ids(next) && AllPresent(g, root, r.s.fields, d + 1)
  {
    hide Reaches, Given, EmbeddedTwice, Present, Shown, Neat, Shortest;
    var r := NextLevel(g, next, counts, visited, fs);
    LevelShows(g, next, 0, counts, Level(Progress(fs, [], map[]), visited));
    assert next[0..] == next;
    LevelAbove(g, root, d, next, visited);
    forall t: nat, k: nat | k < d + 1 && Shortest(g, root, t, k)
      ensures Present(g, root, r.s.fields, t, k)
    {
      if k < d {
        PresentMore(g, root, fs, r.s.fields, t, k);
      } else {
        ShownIsPresent(g, root, d, r.s.fields, next, counts, t);
      }
    }
  }

  /** What the structs of a level embed is counted for the next. */
  lemma CountsSuffice(g: Graph, root: nat, d: nat, level: set<nat>, counts: map<nat, nat>)
    requires Counted(g, level, 0, 0, counts) && forall t: nat :: Shortest(g, root, t, d) <==> t in level
    ensures forall t: nat | EmbeddedTwice(g, root, t, d + 1) :: Count(counts, t) > 1
  {
    hide Shortest, RoleOf;
    forall t: nat | EmbeddedTwice(g, root, t, d + 1)
      ensures Count(counts, t) > 1
    {
      var u: nat, i: nat, v: nat, j: nat :| Embeds(g, u, i, t) && Embeds(g, v, j, t) && (u != v || i != j) &&
        Shortest(g, root, u, d) && Shortest(g, root, v, d);
      assert Slot(level, 0, 0, u, i) && Slot(level, 0, 0, v, j);
    }
  }

  /** Structs a further step away are queued, unless they are visited. */
  lemma LevelQueues(g: Graph, root: nat, d: nat, visited: set<nat>, queued: set<nat>)
    requires Above(g, root, visited, d + 1)
    requires forall t | t in visited :: t < |g| && Closed(g, t, visited + queued)
    ensures forall t: nat | At(g, root, t, d + 1) && t !in visited :: t in queued
  {
    hide Reaches, RoleOf;
    forall t: nat | At(g, root, t, d + 1) && t !in visited
      ensures t in queued
    {
      var p: seq<nat> :| |p| == d + 1 && Reaches(g, root, p, t);
      ReachesLast(g, root, p, t);
      var via: nat :| Reaches(g, root, p[..d], via) && via < |g| && p[d] < |g[via]| &&
        RoleOf(g[via][p[d]]) == Embedded(t);
      assert At(g, root, via, d);
      assert Closed(g, via, visited + queued);
    }
  }

  lemma LevelReady(g: Graph, root: nat, d: nat, next: seq<Entry>, counts: map<nat, nat>, visited: set<nat>,
        fs: seq<Field>)
    requires WellFormed(g) && Ready(g, root, d, next, counts, visited, fs)
    ensures Inside(g, next)
    ensures var r := NextLevel(g, next, counts, visited, fs);
            Ready(g, root, d + 1, r.s.next, r.s.counts, r.visited, r.s.fields)
  {
    hide Reaches, WellFormed, ScanLevel, Behind, Listed, Closed, At, Shortest, EmbeddedTwice, Present, Counted,
      TwoPaths;
    var l := Level(Progress(fs, [], map[]), visited);
    var r := NextLevel(g, next, counts, visited, fs);
    LevelPresent(g, root, d, next, counts, visited, fs);
    LevelAbove(g, root, d, next, visited);
    LevelCovers(g, next, counts, visited, fs, d);
    LevelNeat(g, root, d, next, 0, counts, l);
    NothingCounted(g);
    assert visited - visited == {};
    LevelCounts(g, visited, next, 0, counts, l);
    CountsSuffice(g, root, d, r.visited - visited, r.s.counts);
    LevelQueues(g, root, d, r.visited, Ids(r.s.next));
  }

  lemma NothingCounted(g: Graph)
    ensures Counted(g, {}, 0, 0, map[])
  {
  }

  /** What the search ends with. */
  ghost predicate Faithful(g: Graph, root: nat, fs: seq<Field>) {
    NoIdleCopies(g, root, fs) && forall t: nat, k: nat | Shortest(g, root, t, k) :: Present(g, root, fs, t, k)
  }

  /** With nothing queued, there is no deeper level. */
  lemma SearchFaithful(g: Graph, root: nat, d: nat, counts: map<nat, nat>, visited: set<nat>, fs: seq<Field>)
    requires Ready(g, root, d, [], counts, visited, fs)
    ensures Faithful(g, root, fs)
  {
    hide Reaches, Present, EmbeddedTwice, Behind, Covered;
    forall t: nat, k: nat | Shortest(g, root, t, k)
      ensures k < d
    {
      if k >= d {
        var p: seq<nat> :| |p| == k && Reaches(g, root, p, t);
        var u := Parted(g, root, p, d, t);
        ShortestPrefix(g, root, p, t, d, u);
      }
    }
  }

  lemma {:induction false} SearchReady(g: Graph, root: nat, d: nat, next: seq<Entry>, counts: map<nat, nat>,
        visited: set<nat>, fs: seq<Field>)
    requires WellFormed(g) && Ready(g, root, d, next, counts, visited, fs) && forall v | v in visited :: v < |g|
    ensures Inside(g, next) && Faithful(g, root, Search(g, next, counts, visited, fs))
    decreases |g| - |visited|, |next|
  {
    hide Ready, WellFormed, ScanLevel, Faithful;
    if next == [] {
      SearchFaithful(g, root, d, counts, visited, fs);
    } else {
      LevelReady(g, root, d, next, counts, visited, fs);
      var r := NextLevel(g, next, counts, visited, fs);
      ScanLevelMoves(g, next, 0, counts, Level(Progress(fs, [], map[]), visited));
      Pigeonhole(r.visited, |g|);
      SmallerSet(visited, r.visited);
      SearchReady(g, root, d + 1, r.s.next, r.s.counts, r.visited, r.s.fields);
    }
  }

  lemma StartReady(g: Graph, root: nat)
    requires root < |g|
    ensures Ready(g, root, 0, [Entry([], root)], map[], {}, [])
  {
    hide RoleOf;
    var next := [Entry([], root)];
    assert next[0].id == root && root in Ids(next);
    forall t: nat | At(g, root, t, 0)
      ensures t == root
    {
      var p: seq<nat> :| |p| == 0 && Reaches(g, root, p, t);
    }
  }

  /** The candidates show every struct at its level, copied exactly for a reason. */
  lemma CandidatesFaithful(g: Graph, root: nat)
    requires WellFormed(g) && root < |g|
    ensures Faithful(g, root, Candidates(g, root))
  {
    hide Faithful, WellFormed;
    assert Ready(g, root, 0, [Entry([], root)], map[], {}, []) by {
      StartReady(g, root);
    }
    SearchReady(g, root, 0, [Entry([], root)], map[], {}, []);
  }

  // ---------- the result ----------

  /** The field at the end of an index is determined by it. */
  lemma SameField(g: Graph, root: nat, f: Field, h: Field)
    requires Leads(g, root, f.index, f.name, f.tag, f.typ) && Leads(g, root, h.index, h.name, h.tag, h.typ)
    requires f.index == h.index
    ensures f == h
  {
    hide Reaches;
    var t: nat :| LeadsVia(g, root, f.index, t, f.name, f.tag, f.typ);
    var u: nat :| LeadsVia(g, root, h.index, u, h.name, h.tag, h.typ);
    SameEnd(g, root, f.index[..|f.index| - 1], t, u);
  }

  /** The same field by another path to its struct. */
  lemma OtherIndex(g: Graph, root: nat, f: Field, t: nat, p: seq<nat>)
    requires LeadsVia(g, root, f.index, t, f.name, f.tag, f.typ) && Reaches(g, root, p, t)
    ensures Leads(g, root, p + [f.index[|f.index| - 1]], f.name, f.tag, f.typ)
    ensures p != f.index[..|f.index| - 1] ==> p + [f.index[|f.index| - 1]] != f.index
  {
    hide Reaches;
    var q := p + [f.index[|f.index| - 1]];
    assert q[..|q| - 1] == p;
    assert LeadsVia(g, root, q, t, f.name, f.tag, f.typ);
  }

  /** Where no shorter path leads to a name, the struct of a shortest one is at its level. */
  lemma HolderIsShortest(g: Graph, root: nat, f: Field, t: nat)
    requires LeadsVia(g, root, f.index, t, f.name, f.tag, f.typ)
    requires forall p: seq<nat>, tag, typ | Leads(g, root, p, f.name, tag, typ) :: |f.index| <= |p|
    ensures Shortest(g, root, t, |f.index| - 1)
  {
    hide Reaches, Leads, LeadsVia;
    assert t < |g| && f.index != [] && Reaches(g, root, f.index[..|f.index| - 1], t) by {
      Holder(g, root, f, t);
    }
    forall k: nat | k < |f.index| - 1
      ensures !At(g, root, t, k)
    {
      if At(g, root, t, k) {
        var p: seq<nat> :| |p| == k && Reaches(g, root, p, t);
        OtherIndex(g, root, f, t, p);
      }
    }
  }

  lemma Holder(g: Graph, root: nat, f: Field, t: nat)
    requires LeadsVia(g, root, f.index, t, f.name, f.tag, f.typ)
    ensures t < |g| && f.index != [] && Reaches(g, root, f.index[..|f.index| - 1], t)
  {
  }

  /** What is present can be found in the list. */
  lemma PresentHas(g: Graph, root: nat, fs: seq<Field>, t: nat, d: nat, i: nat) returns (e: Entry)
    requires Present(g, root, fs, t, d) && t < |g| && i < |g[t]| && RoleOf(g[t][i]).Found?
    ensures e.id == t && |e.index| == d && Reaches(g, root, e.index, t) && FieldAt(g, e, i) in fs
    ensures EmbeddedTwice(g, root, t, d) ==> multiset(fs)[FieldAt(g, e, i)] > 1
  {
    hide Reaches, EmbeddedTwice, RoleOf, FieldAt;
    e :| e.id == t && |e.index| == d && Reaches(g, root, e.index, t) && Given(g, fs, e, 0, false) &&
      (EmbeddedTwice(g, root, t, d) ==> Given(g, fs, e, 0, true));
    var c := FieldAt(g, e, i);
    assert Holds(fs, c, false);
    if EmbeddedTwice(g, root, t, d) {
      assert Holds(fs, c, true);
      var a, b :| 0 <= a < b < |fs| && fs[a] == c && fs[b] == c;
      TwiceIn(fs, a, b);
    }
  }

  /** A candidate for the field of a struct at its level. */
  lemma HasCandidate(g: Graph, root: nat, f: Field, t: nat) returns (c: Field)
    requires WellFormed(g) && root < |g| && LeadsVia(g, root, f.index, t, f.name, f.tag, f.typ)
    requires Shortest(g, root, t, |f.index| - 1)
    ensures c in Candidates(g, root) && LeadsVia(g, root, c.index, t, f.name, f.tag, f.typ)
    ensures c == Field(f.name, f.tag, c.index, f.typ) && |c.index| == |f.index|
    ensures c.index[|c.index| - 1] == f.index[|f.index| - 1]
    ensures EmbeddedTwice(g, root, t, |f.index| - 1) ==> multiset(Candidates(g, root))[c] > 1
  {
    hide Reaches, Candidates, WellFormed, Shortest, EmbeddedTwice, Present, RoleOf, NoIdleCopies;
    var i := f.index[|f.index| - 1];
    CandidatesFaithful(g, root);
    var e := PresentHas(g, root, Candidates(g, root), t, |f.index| - 1, i);
    c := FieldAt(g, e, i);
    assert c.index[..|c.index| - 1] == e.index;
  }

  /** The search keeps every field that Go's rule picks. */
  lemma PickedSurvives(g: Graph, root: nat, f: Field)
    requires WellFormed(g) && root < |g| && Picked(g, root, f)
    ensures Survives(multiset(Candidates(g, root)), f)
  {
    hide Reaches, Candidates, WellFormed, LeadsVia, Leads;
    var fs := Candidates(g, root);
    assert exists t: nat :: LeadsVia(g, root, f.index, t, f.name, f.tag, f.typ) by {
      LeadsSome(g, root, f);
    }
    var t: nat :| LeadsVia(g, root, f.index, t, f.name, f.tag, f.typ);
    HolderIsShortest(g, root, f, t);
    var c := HasCandidate(g, root, f, t);
    LeadsThere(g, root, c, t);
    assert c.index == f.index;
    var all := multiset(fs);
    forall h | h in all - multiset{f} && h.name == f.name
      ensures Beats(f, h)
    {
      assert h in fs;
      CandidatesLead(g, root);
      var k :| 0 <= k < |fs| && fs[k] == h;
      assert Leads(g, root, h.index, h.name, h.tag, h.typ);
      if h.index == f.index {
        SameField(g, root, f, h);
        CopiedCandidate(g, root, f, t);
      }
    }
  }

  lemma LeadsSome(g: Graph, root: nat, f: Field)
    requires Leads(g, root, f.index, f.name, f.tag, f.typ)
    ensures exists t: nat :: LeadsVia(g, root, f.index, t, f.name, f.tag, f.typ)
  {
  }

  lemma LeadsThere(g: Graph, root: nat, f: Field, t: nat)
    requires LeadsVia(g, root, f.index, t, f.name, f.tag, f.typ)
    ensures Leads(g, root, f.index, f.name, f.tag, f.typ)
  {
  }

  /** A candidate that is there twice is ambiguous. */
  lemma CopiedCandidate(g: Graph, root: nat, f: Field, t: nat)
    requires WellFormed(g) && root < |g| && LeadsVia(g, root, f.index, t, f.name, f.tag, f.typ)
    requires multiset(Candidates(g, root))[f] > 1
    ensures Ambiguous(g, root, f)
  {
    hide Reaches, Candidates, WellFormed;
    var fs := Candidates(g, root);
    CandidatesFaithful(g, root);
    var a, b := TwoPlaces(fs, f);
    assert Repeated(g, root, fs[a].index);
    var u: nat :| Inhabits(g, root, f.index, u) && TwoPaths(g, root, u, |f.index| - 1);
    var q := f.index[..|f.index| - 1];
    SameEnd(g, root, q, u, t);
    var p0: seq<nat>, p1: seq<nat> :| p0 != p1 && |p0| == |q| && |p1| == |q| && Reaches(g, root, p0, t) &&
      Reaches(g, root, p1, t);
    OtherIndex(g, root, f, t, if p0 != q then p0 else p1);
  }

  lemma {:induction false} TwoPlaces<T>(s: seq<T>, x: T) returns (a: nat, b: nat)
    requires multiset(s)[x] > 1
    ensures a < b < |s| && s[a] == x && s[b] == x
  {
    a :| 0 <= a < |s| && s[a] == x;
    assert s == s[..a] + [x] + s[a + 1..];
    if x in s[a + 1..] {
      b :| a < b < |s| && s[b] == x;
    } else {
      b := a;
      a :| 0 <= a < b && s[a] == x;
    }
  }

  /** A struct embedded twice on the way to a field makes it ambiguous. */
  lemma TwiceIsAmbiguous(g: Graph, root: nat, f: Field, n: nat)
    requires Leads(g, root, f.index, f.name, f.tag, f.typ) && n < |f.index| && TwiceOnTheWay(g, root, f.index, n)
    ensures Ambiguous(g, root, f)
  {
    hide Reaches, EmbeddedTwice;
    var t: nat :| LeadsVia(g, root, f.index, t, f.name, f.tag, f.typ);
    var q := f.index[..|f.index| - 1];
    assert f.index[..n] == q[..n];
    var p := AnotherWay(g, root, q, t, n);
    OtherIndex(g, root, f, t, p);
  }

  /** No path to its name is shorter than a survivor's. */
  lemma SurvivorShortest(g: Graph, root: nat, f: Field)
    requires WellFormed(g) && root < |g| && Survives(multiset(Candidates(g, root)), f)
    ensures forall p: seq<nat>, tag, typ | Leads(g, root, p, f.name, tag, typ) :: |f.index| <= |p|
  {
    hide Reaches, Candidates, WellFormed, Survives;
    forall p: seq<nat>, tag, typ | Leads(g, root, p, f.name, tag, typ)
      ensures |f.index| <= |p|
    {
      var t: nat :| LeadsVia(g, root, p, t, f.name, tag, typ);
      SurvivorIsShallowest(g, root, f, p[..|p| - 1], t, p[|p| - 1]);
    }
  }

  lemma OnlyItself(fs: multiset<Field>, f: Field, c: Field)
    requires Survives(fs, f) && c in fs && c.name == f.name && !Beats(f, c)
    ensures c == f && fs[f] == 1
  {
    assert c !in fs - multiset{f};
  }

  /** A survivor's rival goes through the same struct, and two paths to it meet above it. */
  lemma RivalMeets(g: Graph, root: nat, f: Field, h: Field) returns (n: nat)
    requires WellFormed(g) && root < |g| && Survives(multiset(Candidates(g, root)), f)
    requires Leads(g, root, h.index, f.name, h.tag, h.typ) && h.name == f.name && Rival(f, h.index, h.tag)
    ensures 0 < n < |f.index| - 1 && TwiceOnTheWay(g, root, f.index, n)
  {
    hide Reaches, Candidates, WellFormed, Shortest, EmbeddedTwice;
    SurvivorShortest(g, root, f);
    var t: nat :| LeadsVia(g, root, h.index, t, h.name, h.tag, h.typ);
    HolderIsShortest(g, root, h, t);
    var c := HasCandidate(g, root, h, t);
    var all := multiset(Candidates(g, root));
    OnlyItself(all, f, c);
    var p, q := h.index[..|h.index| - 1], f.index[..|f.index| - 1];
    assert h.index == p + [h.index[|p|]] && f.index == q + [f.index[|q|]];
    n := TwoPathsMeet(g, root, p, q, t);
    assert f.index[..n] == q[..n];
    if n == |q| {
      var u: nat :| Reaches(g, root, q[..n], u) && EmbeddedTwice(g, root, u, n);
      assert q[..n] == q;
      SameEnd(g, root, q, t, u);
    }
  }

  /** A survivor meets Go's rule unless it is ambiguous, and it is ambiguous exactly when some struct
      on its way, above its own, is embedded more than once in the level before. */
  lemma SurvivorAmbiguous(g: Graph, root: nat, f: Field)
    requires WellFormed(g) && root < |g| && Survives(multiset(Candidates(g, root)), f)
    ensures Picked(g, root, f) <==> !Ambiguous(g, root, f)
    ensures Ambiguous(g, root, f) <==> exists n | 0 < n < |f.index| - 1 :: TwiceOnTheWay(g, root, f.index, n)
  {
    hide Survives, Candidates, WellFormed, Leads, TwiceOnTheWay;
    SurvivorShortest(g, root, f);
    SurvivorLeads(g, root, f);
    if n :| 0 < n < |f.index| - 1 && TwiceOnTheWay(g, root, f.index, n) {
      TwiceIsAmbiguous(g, root, f, n);
    }
    if Ambiguous(g, root, f) {
      var p: seq<nat>, tag, typ :| Leads(g, root, p, f.name, tag, typ) && Rival(f, p, tag);
      var n := RivalMeets(g, root, f, Field(f.name, tag, p, typ));
    }
  }

  lemma SurvivorLeads(g: Graph, root: nat, f: Field)
    requires WellFormed(g) && root < |g| && Survives(multiset(Candidates(g, root)), f)
    ensures Leads(g, root, f.index, f.name, f.tag, f.typ)
  {
    hide Candidates, WellFormed, Leads;
    var fs := Candidates(g, root);
    SurvivorIn(fs, f);
    CandidatesLead(g, root);
    var k :| 0 <= k < |fs| && fs[k] == f;
  }

  /** Exactly when the search meets Go's rule: every field the rule picks survives, and a survivor is
      picked if and only if no struct above its own, on its way, is embedded more than once one level up. */
  lemma MeetsGoRule(g: Graph, root: nat, f: Field)
    requires WellFormed(g) && root < |g|
    ensures Picked(g, root, f) <==>
            Survives(multiset(Candidates(g, root)), f) &&
            forall n | 0 < n < |f.index| - 1 :: !TwiceOnTheWay(g, root, f.index, n)
  {
    hide Survives, Candidates, WellFormed, Picked, Ambiguous, TwiceOnTheWay;
    if Picked(g, root, f) {
      PickedSurvives(g, root, f);
    }
    if Survives(multiset(Candidates(g, root)), f) {
      SurvivorAmbiguous(g, root, f);
    }
  }

  /** The diamond is such a graph: the struct two steps down is embedded twice. */
  lemma DiamondNotPicked()
    ensures WellFormed(DIAMOND)
    ensures var f := Field("x", false, [0, 0, 0, 0], Other);
            Survives(multiset(Candidates(DIAMOND, 0)), f) && !Picked(DIAMOND, 0, f)
  {
    hide Candidates, Survives, Leads, Reaches;
    DiamondSurvives();
    var f := Field("x", false, [0, 0, 0, 0], Other);
    assert Rival(f, [1, 0, 0, 0], false);
  }
}
