/** Which candidate of a name survives, and typeFields as a whole (type_fields.go). */
module FieldDominance {
  import opened FieldSearch
  import StringOrder

  // ---------- the rule ----------

  /** `f` wins over another candidate of its name: it is shallower, or as shallow and the only one
      of the two with a tag. */
  predicate Beats(f: Field, h: Field) {
    |f.index| < |h.index| || (|f.index| == |h.index| && f.tag && !h.tag)
  }

  /** `f` is there, and beats every other candidate of its name, copies of itself included. */
  ghost predicate Survives(fs: multiset<Field>, f: Field) {
    f in fs && forall h | h in fs - multiset{f} :: h.name == f.name ==> Beats(f, h)
  }

  lemma OneSurvives(fs: multiset<Field>, f: Field, h: Field)
    requires Survives(fs, f) && Survives(fs, h) && f.name == h.name
    ensures f == h
  {
  }

  // ---------- sort orders ----------

  /** byIndex.Less. */
  predicate IndexLess(a: seq<nat>, b: seq<nat>) {
    b != [] && (a == [] || a[0] < b[0] || (a[0] == b[0] && IndexLess(a[1..], b[1..])))
  }

  /** byName.Less. */
  predicate NameLess(a: Field, b: Field) {
    if a.name != b.name then StringOrder.Less(a.name, b.name)
    else if |a.index| != |b.index| then |a.index| < |b.index|
    else if a.tag != b.tag then a.tag
    else IndexLess(a.index, b.index)
  }

  lemma {:induction false} IndexOrder(a: seq<nat>, b: seq<nat>, c: seq<nat>)
    ensures !(IndexLess(a, b) && IndexLess(b, a))
    ensures !IndexLess(b, a) && !IndexLess(c, b) ==> !IndexLess(c, a)
  {
    if a != [] && b != [] {
      IndexOrder(a[1..], b[1..], if c == [] then [] else c[1..]);
    }
  }

  lemma NameOrder(a: Field, b: Field, c: Field)
    ensures !(NameLess(a, b) && NameLess(b, a))
    ensures !NameLess(b, a) && !NameLess(c, b) ==> !NameLess(c, a)
  {
    IndexOrder(a.index, b.index, c.index);
    StringOrder.LessTotal(a.name, b.name);
    StringOrder.LessTotal(b.name, c.name);
    StringOrder.LessTotal(a.name, c.name);
    if StringOrder.Less(a.name, b.name) && StringOrder.Less(b.name, c.name) {
      StringOrder.LessTransitive(a.name, b.name, c.name);
    }
  }

  /** What sort.Sort(byName) or sort.Sort(byIndex) leaves: no element is less than an earlier one. */
  ghost predicate Sorted(s: seq<Field>, byName: bool) {
    forall i, j | 0 <= i < j < |s| :: !Less(s[j], s[i], byName)
  }

  predicate Less(a: Field, b: Field, byName: bool) {
    if byName then NameLess(a, b) else IndexLess(a.index, b.index)
  }

  lemma LessOrder(a: Field, b: Field, c: Field, byName: bool)
    ensures !(Less(a, b, byName) && Less(b, a, byName))
    ensures !Less(b, a, byName) && !Less(c, b, byName) ==> !Less(c, a, byName)
  {
    if byName {
      NameOrder(a, b, c);
    } else {
      IndexOrder(a.index, b.index, c.index);
    }
  }

  /** sort.Sort on either order. */
  method Sort(fields: seq<Field>, byName: bool) returns (r: seq<Field>)
    ensures multiset(r) == multiset(fields) && Sorted(r, byName)
  {
    hide Less;
    r := [];
    for n := 0 to |fields|
      invariant multiset(r) == multiset(fields[..n]) && Sorted(r, byName)
    {
      var x := fields[n];
      var i := 0;
      while i < |r| && !Less(x, r[i], byName)
        invariant 0 <= i <= |r|
        invariant forall j | 0 <= j < i :: !Less(x, r[j], byName)
      {
        i := i + 1;
      }
      Inserted(r, i, x, byName);
      assert fields[..n + 1] == fields[..n] + [x];
      assert r == r[..i] + r[i..];
      r := r[..i] + [x] + r[i..];
    }
    assert fields[..|fields|] == fields;
  }

  lemma Inserted(r: seq<Field>, i: nat, x: Field, byName: bool)
    requires Sorted(r, byName) && i <= |r|
    requires forall j | 0 <= j < i :: !Less(x, r[j], byName)
    requires i < |r| ==> Less(x, r[i], byName)
    ensures Sorted(r[..i] + [x] + r[i..], byName)
  {
    hide Less;
    var s := r[..i] + [x] + r[i..];
    if i < |r| {
      LessOrder(x, r[i], x, byName);
      forall j | i < j < |r|
        ensures !Less(r[j], x, byName)
      {
        LessOrder(x, r[i], r[j], byName);
      }
    }
    forall j, k | 0 <= j < k < |s|
      ensures !Less(s[k], s[j], byName)
    {
    }
  }

  // ---------- dominantField ----------

  /** A run of candidates of one name, as the sort leaves them. */
  ghost predicate Group(fs: seq<Field>) {
    fs != [] && Sorted(fs, true) && forall i | 0 <= i < |fs| :: fs[i].name == fs[0].name
  }

  method DominantField(fields: seq<Field>) returns (f: Field, ok: bool)
    requires Group(fields)
    ensures ok ==> Survives(multiset(fields), f)
    ensures !ok ==> forall h :: !Survives(multiset(fields), h)
  {
    var length := |fields[0].index|;
    var tagged := -1;
    var n := |fields|;
    var i := 0;
    while i < |fields|
      invariant 0 <= i <= |fields| == n
      invariant forall j | 0 <= j < i :: |fields[j].index| == length
      invariant tagged == -1 ==> forall j | 0 <= j < i :: !fields[j].tag
      invariant tagged != -1 ==>
                  0 <= tagged < i && fields[tagged].tag && forall j | 0 <= j < i && j != tagged :: !fields[j].tag
    {
      if |fields[i].index| > length {
        n := i;
        break;
      }
      Deeper(fields, 0, i);
      if fields[i].tag {
        if tagged >= 0 {
          NoneWins(fields, tagged, i);
          return fields[0], false;
        }
        tagged := i;
      }
      i := i + 1;
    }
    BehindIsDeeper(fields, n, length);
    if tagged >= 0 {
      Wins(fields, tagged);
      return fields[tagged], true;
    }
    if n > 1 {
      NoneWins(fields, 0, 1);
      return fields[0], false;
    }
    Wins(fields, 0);
    return fields[0], true;
  }

  lemma Deeper(fs: seq<Field>, i: nat, j: nat)
    requires Group(fs) && i <= j < |fs|
    ensures |fs[i].index| <= |fs[j].index|
    ensures |fs[i].index| == |fs[j].index| && fs[j].tag ==> fs[i].tag
  {
    hide IndexLess;
    if i < j {
      assert !Less(fs[j], fs[i], true);
    }
  }

  lemma BehindIsDeeper(fs: seq<Field>, n: nat, length: nat)
    requires Group(fs) && n <= |fs| && (n < |fs| ==> |fs[n].index| > length)
    ensures forall j | n <= j < |fs| :: |fs[j].index| > length
  {
    forall j | n <= j < |fs|
      ensures |fs[j].index| > length
    {
      Deeper(fs, n, j);
    }
  }

  /** One copy less of an element. */
  lemma Others(fs: seq<Field>, i: nat)
    requires i < |fs|
    ensures multiset(fs) - multiset{fs[i]} == multiset(fs[..i] + fs[i + 1..])
  {
    assert fs == fs[..i] + [fs[i]] + fs[i + 1..];
  }

  lemma Wins(fs: seq<Field>, i: nat)
    requires i < |fs| && forall j | 0 <= j < |fs| && j != i :: Beats(fs[i], fs[j])
    ensures Survives(multiset(fs), fs[i])
  {
    Others(fs, i);
    var rest := fs[..i] + fs[i + 1..];
    forall h | h in multiset(rest)
      ensures Beats(fs[i], h)
    {
      var j :| 0 <= j < |rest| && rest[j] == h;
      assert h == fs[if j < i then j else j + 1];
    }
  }

  lemma Loses(fs: seq<Field>, k: nat, m: nat)
    requires k < |fs| && m < |fs| && k != m && fs[k].name == fs[m].name && !Beats(fs[k], fs[m])
    ensures !Survives(multiset(fs), fs[k])
  {
    Others(fs, k);
    var rest := fs[..k] + fs[k + 1..];
    assert rest[if m < k then m else m - 1] == fs[m];
    assert fs[m] in multiset(rest);
  }

  /** Two candidates of a name that nothing beats. */
  lemma NoneWins(fs: seq<Field>, i: nat, j: nat)
    requires Group(fs) && i < j < |fs|
    requires forall k | 0 <= k < |fs| :: !Beats(fs[k], fs[i]) && !Beats(fs[k], fs[j])
    ensures forall h :: !Survives(multiset(fs), h)
  {
    hide Beats, Sorted;
    forall h
      ensures !Survives(multiset(fs), h)
    {
      if h in multiset(fs) {
        var k :| 0 <= k < |fs| && fs[k] == h;
        Loses(fs, k, if k == i then j else i);
      }
    }
  }

  // ---------- the filter, in place ----------

  /** Names do not come back after another name. */
  lemma NamesTogether(fs: seq<Field>, i: nat, j: nat, k: nat)
    requires Sorted(fs, true) && i <= j <= k < |fs| && fs[i].name == fs[k].name
    ensures fs[j].name == fs[i].name
  {
    hide IndexLess;
    if i < j < k {
      assert !Less(fs[j], fs[i], true) && !Less(fs[k], fs[j], true);
      StringOrder.LessTotal(fs[i].name, fs[j].name);
    }
  }

  /** `fs[i..j]` are all the candidates of their name. */
  ghost predicate Run(fs: seq<Field>, i: nat, j: nat) {
    i < j <= |fs| &&
    (forall k | i <= k < j :: fs[k].name == fs[i].name) &&
    (forall k | 0 <= k < |fs| && !(i <= k < j) :: fs[k].name != fs[i].name)
  }

  /** Only the candidates of its own name matter to a candidate. */
  lemma RunDecides(fs: seq<Field>, i: nat, j: nat, f: Field)
    requires Run(fs, i, j) && f.name == fs[i].name
    ensures Survives(multiset(fs), f) <==> Survives(multiset(fs[i..j]), f)
  {
    var rest := fs[..i] + fs[j..];
    assert multiset(fs) == multiset(fs[i..j]) + multiset(rest) by {
      assert fs == fs[..i] + fs[i..j] + fs[j..];
    }
    assert forall h | h in rest :: h.name != f.name;
    assert forall h :: h in multiset(rest) <==> h in rest;
  }

  lemma RunIsGroup(fs: seq<Field>, i: nat, j: nat)
    requires Sorted(fs, true) && Run(fs, i, j)
    ensures Group(fs[i..j])
  {
    hide Less;
  }

  lemma SurvivorIn(fs: seq<Field>, f: Field)
    requires Survives(multiset(fs), f)
    ensures f in fs
  {
  }

  /** The loop that writes the survivors over the candidates it has passed. */
  method Filter(a: array<Field>) returns (w: nat)
    requires Sorted(a[..], true)
    modifies a
    ensures w <= a.Length
    ensures forall f :: f in a[..w] <==> Survives(multiset(old(a[..])), f)
    ensures forall i, j | 0 <= i < j < w :: a[i].name != a[j].name
  {
    hide Survives, Less;
    ghost var all := a[..];
    w := 0;
    var i := 0;
    while i < a.Length
      invariant 0 <= w <= i <= a.Length
      invariant a[i..] == all[i..]
      invariant Kept(all, a[..w], i)
      decreases a.Length - i
    {
      var advance := 1;
      while i + advance < a.Length && a[i + advance].name == a[i].name
        invariant 1 <= advance && i + advance <= a.Length
        invariant forall k | i <= k < i + advance :: all[k].name == all[i].name
      {
        assert a[i..][advance] == all[i..][advance];
        advance := advance + 1;
      }
      var j := i + advance;
      assert j < a.Length ==> a[i..][advance] == all[i..][advance];
      assert a[i..][0] == all[i..][0];
      IsRun(all, a[..w], i, j);
      assert a[i..][..advance] == all[i..][..advance];
      assert a[i..j] == all[i..j];
      ghost var was := a[..w];
      var f, ok := SurvivorOf(a[i..j], all, i, j);
      if ok {
        assert a[j..] == all[j..] by { assert a[i..][advance..] == all[i..][advance..]; }
        a[w] := f;
        w := w + 1;
        assert a[..w] == was + [f];
        assert a[j..] == all[j..];
      } else {
        assert a[j..] == all[j..] by { assert a[i..][advance..] == all[i..][advance..]; }
      }
      KeptMore(all, was, i, j, f, ok);
      i := j;
    }
    assert all[..i] == all;
    KeptAll(all, a[..w]);
  }

  /** `group` is read from the array before anything is written over it. */
  method SurvivorOf(group: seq<Field>, ghost all: seq<Field>, ghost i: nat, ghost j: nat) returns (f: Field, ok: bool)
    requires Sorted(all, true) && Run(all, i, j) && group == all[i..j]
    ensures ok ==> f.name == all[i].name && Survives(multiset(all), f)
    ensures !ok ==> forall h: Field :: h.name == all[i].name ==> !Survives(multiset(all), h)
  {
    hide Survives, Less;
    RunIsGroup(all, i, j);
    if |group| == 1 {
      f, ok := group[0], true;
      Wins(group, 0);
      RunDecides(all, i, j, f);
      return;
    }
    f, ok := DominantField(group);
    if ok {
      SurvivorIn(group, f);
      RunDecides(all, i, j, f);
    } else {
      forall h: Field | h.name == all[i].name
        ensures !Survives(multiset(all), h)
      {
        RunDecides(all, i, j, h);
      }
    }
  }

  /** The survivors among the first `i` candidates, whose names do not come again. */
  ghost predicate Kept(all: seq<Field>, kept: seq<Field>, i: nat)
    requires i <= |all|
  {
    (forall k, m | 0 <= k < i <= m < |all| :: all[k].name != all[m].name) &&
    (forall f :: f in kept <==> f in all[..i] && Survives(multiset(all), f)) &&
    (forall k, m | 0 <= k < m < |kept| :: kept[k].name != kept[m].name)
  }

  lemma IsRun(all: seq<Field>, kept: seq<Field>, i: nat, j: nat)
    requires Sorted(all, true) && i < j <= |all| && Kept(all, kept, i)
    requires forall k | i <= k < j :: all[k].name == all[i].name
    requires j < |all| ==> all[j].name != all[i].name
    ensures Run(all, i, j)
  {
    hide Survives, Less;
    forall k | j <= k < |all|
      ensures all[k].name != all[i].name
    {
      if all[k].name == all[i].name {
        NamesTogether(all, i, j, k);
      }
    }
  }

  lemma KeptMore(all: seq<Field>, kept: seq<Field>, i: nat, j: nat, f: Field, ok: bool)
    requires Run(all, i, j) && Kept(all, kept, i)
    requires ok ==> f.name == all[i].name && Survives(multiset(all), f)
    requires !ok ==> forall h: Field :: h.name == all[i].name ==> !Survives(multiset(all), h)
    ensures Kept(all, if ok then kept + [f] else kept, j)
  {
    hide Survives;
    var now := if ok then kept + [f] else kept;
    forall h
      ensures h in now <==> h in all[..j] && Survives(multiset(all), h)
    {
      KeptOrRun(all, kept, i, j, h);
      if ok {
        KeptOrRun(all, kept, i, j, f);
        SurvivorIn(all, f);
        if Survives(multiset(all), h) && h.name == f.name {
          OneSurvives(multiset(all), f, h);
        }
      }
    }
    NewName(all, kept, i, j, f);
  }

  lemma KeptOrRun(all: seq<Field>, kept: seq<Field>, i: nat, j: nat, h: Field)
    requires Run(all, i, j) && Kept(all, kept, i)
    ensures h in kept <==> h in all[..i] && Survives(multiset(all), h)
    ensures h in all[..j] <==> h in all[..i] || h in all[i..j]
    ensures h in all[i..j] ==> h.name == all[i].name
    ensures h in all && h.name == all[i].name ==> h in all[i..j]
  {
    hide Survives;
    assert all[..j] == all[..i] + all[i..j];
  }

  lemma NewName(all: seq<Field>, kept: seq<Field>, i: nat, j: nat, f: Field)
    requires Run(all, i, j) && Kept(all, kept, i)
    ensures forall k, m | 0 <= k < j <= m < |all| :: all[k].name != all[m].name
    ensures forall k, m | 0 <= k < m < |kept| :: kept[k].name != kept[m].name
    ensures f.name == all[i].name ==> forall k | 0 <= k < |kept| :: kept[k].name != f.name
  {
    hide Survives;
    forall k | 0 <= k < |kept|
      ensures kept[k].name != all[i].name
    {
      assert kept[k] in kept;
      var n :| 0 <= n < i && all[n] == kept[k];
    }
  }

  lemma KeptAll(all: seq<Field>, kept: seq<Field>)
    requires Kept(all, kept, |all|)
    ensures forall f :: f in kept <==> Survives(multiset(all), f)
  {
    assert all[..|all|] == all;
  }

  // ---------- typeFields ----------

  /** The scan of one struct. */
  method ScanStructLoop(g: Graph, e: Entry, twice: bool, s: Progress) returns (r: Progress)
    requires e.id < |g|
    ensures r == ScanStruct(g, e, 0, twice, s)
  {
    hide RoleOf;
    var fields, next, nextCount: map<nat, nat> := s.fields, s.next, s.counts;
    for i := 0 to |g[e.id]|
      invariant ScanStruct(g, e, i, twice, Progress(fields, next, nextCount)) == ScanStruct(g, e, 0, twice, s)
    {
      ghost var before := Progress(fields, next, nextCount);
      var sf := g[e.id][i];
      var index := e.index + [i];
      var ft := Followed(sf.typ);
      match RoleOf(sf) {
        case Ignored =>
        case Found(name, tagged) =>
          var f := Field(name, tagged, index, ft);
          fields := fields + [f];
          if twice {
            fields := fields + [fields[|fields| - 1]];
            assert fields == before.fields + [f, f];
          }
        case Embedded(id) =>
          nextCount := nextCount[id := Count(nextCount, id) + 1];
          if nextCount[id] == 1 {
            next := next + [Entry(index, id)];
          }
      }
      assert Progress(fields, next, nextCount) == ScanField(sf, e, i, twice, before);
    }
    return Progress(fields, next, nextCount);
  }

  /** The breadth-first search. */
  method Collect(g: Graph, root: nat) returns (fields: seq<Field>)
    requires WellFormed(g) && root < |g|
    ensures fields == Candidates(g, root)
  {
    hide WellFormed, ScanStruct;
    var next, nextCount: map<nat, nat> := [Entry([], root)], map[];
    var visited: set<nat> := {};
    fields := [];
    while |next| > 0
      invariant Inside(g, next) && forall v | v in visited :: v < |g|
      invariant Search(g, next, nextCount, visited, fields) == Candidates(g, root)
      decreases |g| - |visited|, |next|
    {
      var current, count := next, nextCount;
      ghost var l := Level(Progress(fields, [], map[]), visited);
      ghost var was, found := visited, fields;
      next, nextCount := [], map[];
      for k := 0 to |current|
        invariant ScanLevel(g, current, k, count, Level(Progress(fields, next, nextCount), visited))
               == ScanLevel(g, current, 0, count, l)
      {
        var e := current[k];
        if e.id !in visited {
          visited := visited + {e.id};
          var s := ScanStructLoop(g, e, Count(count, e.id) > 1, Progress(fields, next, nextCount));
          fields, next, nextCount := s.fields, s.next, s.counts;
        }
      }
      ScanLevelMoves(g, current, 0, count, l);
      Pigeonhole(visited, |g|);
      SmallerSet(was, visited);
    }
  }

  /** typeFields: for every finite type graph, cyclic or not, it ends, and returns exactly the
      candidates that survive, one to a name, in the order of their indexes. */
  method TypeFields(g: Graph, root: nat) returns (out: seq<Field>)
    requires WellFormed(g) && root < |g|
    ensures forall f :: f in out <==> Survives(multiset(Candidates(g, root)), f)
    ensures forall i, j | 0 <= i < j < |out| :: out[i].name != out[j].name
    ensures Sorted(out, false)
  {
    hide Survives, Less, WellFormed, Candidates;
    var fields := Collect(g, root);
    fields := Sort(fields, true);
    var a := new Field[|fields|](i requires 0 <= i < |fields| => fields[i]);
    assert a[..] == fields;
    var w := Filter(a);
    out := Sort(a[..w], false);
    SameNames(a[..w], out);
  }

  /** Sorting does not bring equal names about. */
  lemma SameNames(s: seq<Field>, r: seq<Field>)
    requires multiset(s) == multiset(r)
    requires forall i, j | 0 <= i < j < |s| :: s[i].name != s[j].name
    ensures forall f :: f in r <==> f in s
    ensures forall i, j | 0 <= i < j < |r| :: r[i].name != r[j].name
  {
    forall f
      ensures f in r <==> f in s
    {
      assert f in multiset(r) <==> f in r;
      assert f in multiset(s) <==> f in s;
    }
    forall i, j | 0 <= i < j < |r|
      ensures r[i].name != r[j].name
    {
      if r[i].name == r[j].name {
        assert r[i] in s && r[j] in s;
        var k :| 0 <= k < |s| && s[k] == r[i];
        var m :| 0 <= m < |s| && s[m] == r[j];
        assert k == m;
        TwiceIn(r, i, j);
        OnceIn(s, k);
      }
    }
  }

  lemma TwiceIn(r: seq<Field>, i: nat, j: nat)
    requires i < j < |r| && r[i] == r[j]
    ensures multiset(r)[r[i]] >= 2
  {
    assert r == r[..i] + [r[i]] + r[i + 1..j] + [r[j]] + r[j + 1..];
  }

  lemma OnceIn(s: seq<Field>, k: nat)
    requires k < |s| && forall i, j | 0 <= i < j < |s| :: s[i].name != s[j].name
    ensures multiset(s)[s[k]] == 1
  {
    assert s == s[..k] + [s[k]] + s[k + 1..];
    assert s[k] !in s[..k] && s[k] !in s[k + 1..];
  }

  /** A surviving field is really there, behind a path of embedded structs, and no path leads to a
      field of its name at a lesser depth. */
  lemma SurvivorIsShallowest(g: Graph, root: nat, f: Field, path: seq<nat>, t: nat, i: nat)
    requires WellFormed(g) && root < |g| && Survives(multiset(Candidates(g, root)), f)
    requires Reaches(g, root, path, t) && t < |g| && i < |g[t]| && RoleOf(g[t][i]).Found?
    requires RoleOf(g[t][i]).name == f.name
    ensures Leads(g, root, f.index, f.name, f.tag, f.typ)
    ensures |f.index| <= |path| + 1
  {
    hide Candidates, WellFormed, Reaches, Leads;
    var fs := Candidates(g, root);
    CandidatesLead(g, root);
    CandidatesComplete(g, root);
    SurvivorIn(fs, f);
    var k :| 0 <= k < |fs| && fs[k] == f;
    assert Listed(g, fs, t, |path| + 1);
    var m :| 0 <= m < |fs| && fs[m].name == f.name && |fs[m].index| <= |path| + 1;
    if fs[m] != f {
      assert fs[m] in multiset(fs) - multiset{f};
    }
  }

  // ---------- where it parts from Go's rule ----------

  const X: StructField := StructField("x", true, "", false, Other)

  function Embed(id: nat): StructField
  {
    StructField("", true, "", true, Struct(id))
  }

  /** Two ways lead to the struct that holds `x`, equally deep, and meet one level above it. */
  const DIAMOND: Graph := [[Embed(1), Embed(2)], [Embed(3)], [Embed(3)], [Embed(4)], [X]]

  lemma ScanOne(g: Graph, e: Entry, twice: bool, s: Progress)
    requires e.id < |g| && |g[e.id]| == 1
    ensures ScanStruct(g, e, 0, twice, s) == ScanField(g[e.id][0], e, 0, twice, s)
  {
    hide ScanField;
    assert ScanStruct(g, e, 1, twice, ScanField(g[e.id][0], e, 0, twice, s)) == ScanField(g[e.id][0], e, 0, twice, s);
  }

  /** A level with one struct in its queue, and a struct with one field in it. */
  lemma LevelOfOne(g: Graph, e: Entry, counts: map<nat, nat>, visited: set<nat>, fields: seq<Field>)
    requires e.id < |g| && |g[e.id]| == 1 && e.id !in visited
    ensures NextLevel(g, [e], counts, visited, fields)
         == Level(ScanField(g[e.id][0], e, 0, Count(counts, e.id) > 1, Progress(fields, [], map[])), visited + {e.id})
  {
    hide ScanStruct, ScanField;
    var l := Level(Progress(fields, [], map[]), visited);
    var s := ScanStruct(g, e, 0, Count(counts, e.id) > 1, l.s);
    ScanOne(g, e, Count(counts, e.id) > 1, l.s);
    assert ScanLevel(g, [e], 1, counts, Level(s, visited + {e.id})) == Level(s, visited + {e.id});
  }

  /** A struct embedded for the first time in this level. */
  lemma FirstEmbedded(id: nat, e: Entry, i: nat, twice: bool, s: Progress)
    requires id !in s.counts
    ensures ScanField(Embed(id), e, i, twice, s)
         == Progress(s.fields, s.next + [Entry(e.index + [i], id)], s.counts[id := 1])
  {
  }

  lemma DiamondTop()
    ensures NextLevel(DIAMOND, [Entry([], 0)], map[], {}, [])
         == Level(Progress([], [Entry([0], 1), Entry([1], 2)], map[1 := 1, 2 := 1]), {0})
  {
    var e := Entry([], 0);
    var s0 := Progress([], [], map[]);
    var s1 := ScanField(Embed(1), e, 0, false, s0);
    FirstEmbedded(1, e, 0, false, s0);
    assert s1.counts == map[1 := 1];
    assert e.index + [0] == [0] && e.index + [1] == [1];
    assert s1.next == [Entry([0], 1)];
    assert s1 == Progress([], [Entry([0], 1)], map[1 := 1]);
    var s2 := ScanField(Embed(2), e, 1, false, s1);
    FirstEmbedded(2, e, 1, false, s1);
    assert s2.counts == map[1 := 1, 2 := 1];
    assert s2.next == [Entry([0], 1), Entry([1], 2)];
    assert s2 == Progress([], [Entry([0], 1), Entry([1], 2)], map[1 := 1, 2 := 1]);
    assert ScanStruct(DIAMOND, e, 2, false, s2) == s2;
    assert ScanStruct(DIAMOND, e, 1, false, s1) == s2;
    assert ScanLevel(DIAMOND, [e], 1, map[], Level(s2, {0})) == Level(s2, {0});
  }

  lemma DiamondSides()
    ensures var r := NextLevel(DIAMOND, [Entry([0], 1), Entry([1], 2)], map[1 := 1, 2 := 1], {0}, []);
            r == Level(Progress([], [Entry([0, 0], 3)], map[3 := 2]), {0, 1, 2})
  {
    hide ScanStruct;
    var es, counts := [Entry([0], 1), Entry([1], 2)], map[1 := 1, 2 := 1];
    var s0 := Progress([], [], map[]);
    ScanOne(DIAMOND, es[0], false, s0);
    var s1 := ScanField(Embed(3), es[0], 0, false, s0);
    FirstEmbedded(3, es[0], 0, false, s0);
    assert s1.counts == map[3 := 1];
    assert [0] + [0] == [0, 0];
    assert s1.next == [Entry([0, 0], 3)];
    assert s1 == Progress([], [Entry([0, 0], 3)], map[3 := 1]);
    ScanOne(DIAMOND, es[1], false, s1);
    var s2 := ScanField(Embed(3), es[1], 0, false, s1);
    assert s2.counts == map[3 := 2];
    assert s2 == Progress([], [Entry([0, 0], 3)], map[3 := 2]);
    assert {0} + {1} + {2} == {0, 1, 2};
    assert ScanLevel(DIAMOND, es, 2, counts, Level(s2, {0, 1, 2})) == Level(s2, {0, 1, 2});
    assert ScanLevel(DIAMOND, es, 1, counts, Level(s1, {0} + {1})) == Level(s2, {0, 1, 2});
  }

  /** The candidate is found once, because only the struct in the middle is counted twice. */
  lemma DiamondCandidates()
    ensures WellFormed(DIAMOND)
    ensures Candidates(DIAMOND, 0) == [Field("x", false, [0, 0, 0, 0], Other)]
  {
    hide ScanLevel, ScanStruct, NextLevel;
    DiamondTop();
    DiamondSides();
    var e3, e4 := Entry([0, 0], 3), Entry([0, 0, 0], 4);
    LevelOfOne(DIAMOND, e3, map[3 := 2], {0, 1, 2}, []);
    LevelOfOne(DIAMOND, e4, map[4 := 1], {0, 1, 2, 3}, []);
    var f := Field("x", false, [0, 0, 0, 0], Other);
    var s0 := Progress([], [], map[]);
    FirstEmbedded(4, e3, 0, true, s0);
    assert s0.counts[4 := 1] == map[4 := 1];
    assert e3.index + [0] == [0, 0, 0] && e4.index + [0] == [0, 0, 0, 0];
    assert s0.next + [e4] == [e4] && s0.fields + [f] == [f];
    assert ScanField(X, e4, 0, false, s0) == Progress([f], [], map[]);
    assert {0, 1, 2} + {3} == {0, 1, 2, 3} && {0, 1, 2, 3} + {4} == {0, 1, 2, 3, 4};
    assert Search(DIAMOND, [], map[], {0, 1, 2, 3, 4}, [f]) == [f];
    assert Search(DIAMOND, [e4], map[4 := 1], {0, 1, 2, 3}, []) == [f];
    assert Search(DIAMOND, [e3], map[3 := 2], {0, 1, 2}, []) == [f];
    assert Search(DIAMOND, [Entry([0], 1), Entry([1], 2)], map[1 := 1, 2 := 1], {0}, []) == [f];
  }

  /** Go calls a name ambiguous that two equally short paths lead to, and this search is meant to
      follow Go. Counting how often a struct is embedded in the level above misses such a pair when
      the paths meet further up: here `x` survives although two paths of length four lead to it. */
  lemma DiamondSurvives()
    ensures WellFormed(DIAMOND)
    ensures Survives(multiset(Candidates(DIAMOND, 0)), Field("x", false, [0, 0, 0, 0], Other))
    ensures Leads(DIAMOND, 0, [0, 0, 0, 0], "x", false, Other) && Leads(DIAMOND, 0, [1, 0, 0, 0], "x", false, Other)
  {
    hide Candidates, Search;
    DiamondCandidates();
    var f := Field("x", false, [0, 0, 0, 0], Other);
    assert multiset([f]) - multiset{f} == multiset{};
    DiamondPath(0);
    DiamondPath(1);
  }

  lemma DiamondPath(side: nat)
    requires side < 2
    ensures Leads(DIAMOND, 0, [side, 0, 0, 0], "x", false, Other)
  {
    var p := [side, 0, 0];
    assert [side, 0, 0, 0][..3] == p;
    assert p[1..] == [0, 0] && [0, 0][1..] == [0] && [0][1..] == [];
    assert Reaches(DIAMOND, 3, [0], 4);
    assert Reaches(DIAMOND, side + 1, [0, 0], 4);
    assert Reaches(DIAMOND, 0, p, 4);
    assert LeadsVia(DIAMOND, 0, [side, 0, 0, 0], 4, "x", false, Other);
  }
}
