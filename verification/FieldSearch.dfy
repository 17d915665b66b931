/** Which fields of a struct take part: the search through embedded structs (type_fields.go). */
module FieldSearch {

  /** A Go type, as far as the search looks at it; structs are numbered. */
  datatype Type = Struct(id: nat) | Pointer(elem: Type) | Other

  datatype StructField = StructField(name: string, exported: bool, tag: string, anonymous: bool, typ: Type)

  /** The fields of every struct, which may embed one another in cycles. */
  type Graph = seq<seq<StructField>>

  /** Follow a pointer. */
  function Followed(t: Type): Type
  {
    if t.Pointer? then t.elem else t
  }

  predicate WellFormed(g: Graph) {
    forall t, i | 0 <= t < |g| && 0 <= i < |g[t]| ::
      var ft := Followed(g[t][i].typ); ft.Struct? ==> ft.id < |g|
  }

  datatype Field = Field(name: string, tag: bool, index: seq<nat>, typ: Type)

  /** What one struct field amounts to. */
  datatype Role = Ignored | Found(name: string, tagged: bool) | Embedded(id: nat)

  function RoleOf(sf: StructField): Role
  {
    if !sf.exported || sf.tag == "-" then Ignored
    else if sf.tag != "" || !sf.anonymous || !Followed(sf.typ).Struct? then
      Found(if sf.tag != "" then sf.tag else sf.name, sf.tag != "")
    else Embedded(Followed(sf.typ).id)
  }

  // ---------- the search ----------

  /** An embedded struct to explore, and the way to it. */
  datatype Entry = Entry(index: seq<nat>, id: nat)

  /** The fields found, and the queue and counts for the next level. */
  datatype Progress = Progress(fields: seq<Field>, next: seq<Entry>, counts: map<nat, nat>)

  function Count(counts: map<nat, nat>, id: nat): nat
  {
    if id in counts then counts[id] else 0
  }

  /** One struct field of `e`; `twice` if the struct was queued more than once. */
  function ScanField(sf: StructField, e: Entry, i: nat, twice: bool, s: Progress): Progress
  {
    match RoleOf(sf)
    case Ignored => s
    case Found(name, tagged) =>
      var f := Field(name, tagged, e.index + [i], Followed(sf.typ));
      s.(fields := s.fields + if twice then [f, f] else [f])
    case Embedded(id) =>
      var s' := s.(counts := s.counts[id := Count(s.counts, id) + 1]);
      if s'.counts[id] == 1 then s'.(next := s.next + [Entry(e.index + [i], id)]) else s'
  }

  /** The fields of `e` from the i-th. */
  function ScanStruct(g: Graph, e: Entry, i: nat, twice: bool, s: Progress): Progress
    requires e.id < |g| && i <= |g[e.id]|
    decreases |g[e.id]| - i
  {
    if i == |g[e.id]| then s else ScanStruct(g, e, i + 1, twice, ScanField(g[e.id][i], e, i, twice, s))
  }

  predicate Inside(g: Graph, es: seq<Entry>) {
    forall i | 0 <= i < |es| :: es[i].id < |g|
  }

  datatype Level = Level(s: Progress, visited: set<nat>)

  /** The structs of one level, from the k-th. */
  function ScanLevel(g: Graph, current: seq<Entry>, k: nat, counts: map<nat, nat>, l: Level): Level
    requires Inside(g, current) && k <= |current|
    decreases |current| - k
  {
    if k == |current| then l
    else if current[k].id in l.visited then ScanLevel(g, current, k + 1, counts, l)
    else
      var e := current[k];
      ScanLevel(g, current, k + 1, counts,
                Level(ScanStruct(g, e, 0, Count(counts, e.id) > 1, l.s), l.visited + {e.id}))
  }

  /** The next level starts with an empty queue and empty counts. */
  function NextLevel(g: Graph, next: seq<Entry>, counts: map<nat, nat>, visited: set<nat>, fields: seq<Field>): Level
    requires Inside(g, next)
  {
    ScanLevel(g, next, 0, counts, Level(Progress(fields, [], map[]), visited))
  }

  // ---------- what a level does ----------

  lemma {:induction false} ScanStructInside(g: Graph, e: Entry, i: nat, twice: bool, s: Progress)
    requires WellFormed(g) && e.id < |g| && i <= |g[e.id]| && Inside(g, s.next)
    ensures Inside(g, ScanStruct(g, e, i, twice, s).next)
    decreases |g[e.id]| - i
  {
    if i < |g[e.id]| {
      assert var ft := Followed(g[e.id][i].typ); ft.Struct? ==> ft.id < |g|;
      ScanStructInside(g, e, i + 1, twice, ScanField(g[e.id][i], e, i, twice, s));
    }
  }

  /** A level that visits nothing new queues nothing. */
  lemma {:induction false} ScanLevelMoves(g: Graph, current: seq<Entry>, k: nat, counts: map<nat, nat>, l: Level)
    requires WellFormed(g) && Inside(g, current) && k <= |current| && Inside(g, l.s.next)
    ensures var r := ScanLevel(g, current, k, counts, l);
            Inside(g, r.s.next) && l.visited <= r.visited && (r.visited == l.visited ==> r == l) &&
            ((forall v | v in l.visited :: v < |g|) ==> forall v | v in r.visited :: v < |g|) &&
            (forall j | k <= j < |current| :: current[j].id in r.visited)
    decreases |current| - k
  {
    hide ScanStruct, WellFormed;
    if k < |current| {
      var e := current[k];
      if e.id in l.visited {
        ScanLevelMoves(g, current, k + 1, counts, l);
      } else {
        ScanStructInside(g, e, 0, Count(counts, e.id) > 1, l.s);
        ScanLevelMoves(g, current, k + 1, counts,
                       Level(ScanStruct(g, e, 0, Count(counts, e.id) > 1, l.s), l.visited + {e.id}));
      }
    }
  }

  lemma {:induction false} Pigeonhole(s: set<nat>, n: nat)
    requires forall v | v in s :: v < n
    ensures |s| <= n
  {
    if n == 0 {
      assert s == {};
    } else {
      Pigeonhole(s - {n - 1}, n - 1);
    }
  }

  /** typeFields up to the sort: level by level until nothing is queued. Cycles end because a struct
      is explored once. */
  function Search(g: Graph, next: seq<Entry>, counts: map<nat, nat>, visited: set<nat>, fields: seq<Field>): seq<Field>
    requires WellFormed(g) && Inside(g, next) && forall v | v in visited :: v < |g|
    decreases |g| - |visited|, |next|
  {
    if next == [] then fields else
    var r := NextLevel(g, next, counts, visited, fields);
    ScanLevelMoves(g, next, 0, counts, Level(Progress(fields, [], map[]), visited));
    Pigeonhole(r.visited, |g|);
    SmallerSet(visited, r.visited);
    Search(g, r.s.next, r.s.counts, r.visited, r.s.fields)
  }

  lemma SmallerSet(a: set<nat>, b: set<nat>)
    requires a <= b
    ensures |a| <= |b| && (a != b ==> |a| < |b|)
  {
    assert b == a + (b - a);
  }

  /** All candidates of a struct. */
  function Candidates(g: Graph, root: nat): seq<Field>
    requires WellFormed(g) && root < |g|
  {
    Search(g, [Entry([], root)], map[], {}, [])
  }

  // ---------- every candidate is where its index says ----------

  /** Following a path of embedded structs from `t` leads to `id`. */
  predicate Reaches(g: Graph, t: nat, path: seq<nat>, id: nat)
    decreases |path|
  {
    if path == [] then t == id
    else
      t < |g| && path[0] < |g[t]| && RoleOf(g[t][path[0]]).Embedded? &&
      Reaches(g, RoleOf(g[t][path[0]]).id, path[1..], id)
  }

  /** A path leads to a struct field that is found under this name. */
  ghost predicate Leads(g: Graph, t: nat, path: seq<nat>, name: string, tag: bool, typ: Type) {
    exists id: nat :: LeadsVia(g, t, path, id, name, tag, typ)
  }

  predicate LeadsVia(g: Graph, t: nat, path: seq<nat>, id: nat, name: string, tag: bool, typ: Type) {
    path != [] && Reaches(g, t, path[..|path| - 1], id) && id < |g| && path[|path| - 1] < |g[id]| &&
    var sf := g[id][path[|path| - 1]]; RoleOf(sf) == Found(name, tag) && typ == Followed(sf.typ)
  }

  lemma {:induction false} ReachesFurther(g: Graph, t: nat, path: seq<nat>, id: nat, i: nat)
    requires Reaches(g, t, path, id) && id < |g| && i < |g[id]| && RoleOf(g[id][i]).Embedded?
    ensures Reaches(g, t, path + [i], RoleOf(g[id][i]).id)
    decreases |path|
  {
    if path == [] {
      assert (path + [i])[1..] == [];
    } else {
      assert (path + [i])[1..] == path[1..] + [i];
      ReachesFurther(g, RoleOf(g[t][path[0]]).id, path[1..], id, i);
    }
  }

  /** The last step of a path. */
  lemma {:induction false} ReachesLast(g: Graph, t: nat, path: seq<nat>, id: nat)
    requires Reaches(g, t, path, id) && path != []
    ensures exists via: nat :: Reaches(g, t, path[..|path| - 1], via) && via < |g| && path[|path| - 1] < |g[via]| &&
              RoleOf(g[via][path[|path| - 1]]) == Embedded(id)
    decreases |path|
  {
    if |path| == 1 {
      assert path[1..] == [];
      assert Reaches(g, t, path[..0], t);
    } else {
      var m := RoleOf(g[t][path[0]]).id;
      ReachesLast(g, m, path[1..], id);
      var rest := path[1..];
      var via: nat :| Reaches(g, m, rest[..|rest| - 1], via) && via < |g| && rest[|rest| - 1] < |g[via]| &&
        RoleOf(g[via][rest[|rest| - 1]]) == Embedded(id);
      assert path[..|path| - 1][1..] == rest[..|rest| - 1];
      assert Reaches(g, t, path[..|path| - 1], via);
    }
  }

  /** The queue holds structs at depth `d`, each at the end of its path. */
  predicate Placed(g: Graph, root: nat, es: seq<Entry>, d: nat) {
    forall i | 0 <= i < |es| :: es[i].id < |g| && |es[i].index| == d && Reaches(g, root, es[i].index, es[i].id)
  }

  ghost predicate AllLead(g: Graph, root: nat, fs: seq<Field>) {
    forall i | 0 <= i < |fs| :: Leads(g, root, fs[i].index, fs[i].name, fs[i].tag, fs[i].typ)
  }

  lemma {:induction false} ScanStructLeads(g: Graph, root: nat, e: Entry, i: nat, twice: bool, s: Progress)
    requires WellFormed(g) && e.id < |g| && i <= |g[e.id]| && Reaches(g, root, e.index, e.id)
    requires Placed(g, root, s.next, |e.index| + 1) && AllLead(g, root, s.fields)
    ensures var r := ScanStruct(g, e, i, twice, s);
            Placed(g, root, r.next, |e.index| + 1) && AllLead(g, root, r.fields)
    decreases |g[e.id]| - i
  {
    hide Reaches, LeadsVia;
    if i < |g[e.id]| {
      StepLeads(g, root, e, i, twice, s);
      ScanStructLeads(g, root, e, i + 1, twice, ScanField(g[e.id][i], e, i, twice, s));
    }
  }

  lemma StepLeads(g: Graph, root: nat, e: Entry, i: nat, twice: bool, s: Progress)
    requires WellFormed(g) && e.id < |g| && i < |g[e.id]| && Reaches(g, root, e.index, e.id)
    requires Placed(g, root, s.next, |e.index| + 1) && AllLead(g, root, s.fields)
    ensures var r := ScanField(g[e.id][i], e, i, twice, s);
            Placed(g, root, r.next, |e.index| + 1) && AllLead(g, root, r.fields)
  {
    hide Reaches;
    var sf := g[e.id][i];
    assert var ft := Followed(sf.typ); ft.Struct? ==> ft.id < |g|;
    match RoleOf(sf)
    case Ignored =>
    case Found(name, tagged) =>
      assert (e.index + [i])[..|e.index|] == e.index;
      assert LeadsVia(g, root, e.index + [i], e.id, name, tagged, Followed(sf.typ));
    case Embedded(_) =>
      ReachesFurther(g, root, e.index, e.id, i);
  }

  lemma {:induction false} ScanLevelLeads(g: Graph, root: nat, d: nat, current: seq<Entry>, k: nat,
        counts: map<nat, nat>, l: Level)
    requires WellFormed(g) && Placed(g, root, current, d) && k <= |current|
    requires Placed(g, root, l.s.next, d + 1) && AllLead(g, root, l.s.fields)
    ensures Inside(g, current)
    ensures var r := ScanLevel(g, current, k, counts, l);
            Placed(g, root, r.s.next, d + 1) && AllLead(g, root, r.s.fields)
    decreases |current| - k
  {
    hide Reaches, LeadsVia, WellFormed, AllLead, ScanStruct;
    if k < |current| {
      var e := current[k];
      if e.id in l.visited {
        ScanLevelLeads(g, root, d, current, k + 1, counts, l);
      } else {
        ScanStructLeads(g, root, e, 0, Count(counts, e.id) > 1, l.s);
        ScanLevelLeads(g, root, d, current, k + 1, counts,
                       Level(ScanStruct(g, e, 0, Count(counts, e.id) > 1, l.s), l.visited + {e.id}));
      }
    }
  }

  lemma {:induction false} SearchLeads(g: Graph, root: nat, d: nat, next: seq<Entry>, counts: map<nat, nat>,
        visited: set<nat>, fields: seq<Field>)
    requires WellFormed(g) && Placed(g, root, next, d) && AllLead(g, root, fields) && forall v | v in visited :: v < |g|
    ensures Inside(g, next) && AllLead(g, root, Search(g, next, counts, visited, fields))
    decreases |g| - |visited|, |next|
  {
    hide Reaches, Leads, WellFormed, ScanLevel;
    if next != [] {
      var l := Level(Progress(fields, [], map[]), visited);
      ScanLevelLeads(g, root, d, next, 0, counts, l);
      ScanLevelMoves(g, next, 0, counts, l);
      var r := NextLevel(g, next, counts, visited, fields);
      Pigeonhole(r.visited, |g|);
      SmallerSet(visited, r.visited);
      SearchLeads(g, root, d + 1, r.s.next, r.s.counts, r.visited, r.s.fields);
    }
  }

  /** Each candidate's index is a path of embedded structs to a field of that name. */
  lemma CandidatesLead(g: Graph, root: nat)
    requires WellFormed(g) && root < |g|
    ensures AllLead(g, root, Candidates(g, root))
  {
    SearchLeads(g, root, 0, [Entry([], root)], map[], {}, []);
  }

  // ---------- no field is overlooked ----------

  function Ids(es: seq<Entry>): set<nat>
  {
    set i | 0 <= i < |es| :: es[i].id
  }

  /** Some candidate has this name and at most this depth. */
  ghost predicate Has(fs: seq<Field>, name: string, depth: nat) {
    exists i | 0 <= i < |fs| :: fs[i].name == name && |fs[i].index| <= depth
  }

  /** Every field of struct `t` has a candidate of its name at depth `d` or less. */
  ghost predicate Listed(g: Graph, fs: seq<Field>, t: nat, d: nat)
    requires t < |g|
  {
    forall i | 0 <= i < |g[t]| :: RoleOf(g[t][i]).Found? ==> Has(fs, RoleOf(g[t][i]).name, d)
  }

  /** Every struct embedded in `t` is in the set. */
  predicate Closed(g: Graph, t: nat, ids: set<nat>)
    requires t < |g|
  {
    forall i | 0 <= i < |g[t]| :: RoleOf(g[t][i]).Embedded? ==> RoleOf(g[t][i]).id in ids
  }

  /** What is counted is queued. */
  predicate Queued(s: Progress) {
    forall id | id in s.counts && s.counts[id] > 0 :: id in Ids(s.next)
  }

  lemma HasMore(fs: seq<Field>, more: seq<Field>, name: string, d: nat)
    requires Has(fs, name, d) && fs <= more
    ensures Has(more, name, d)
  {
    var i :| 0 <= i < |fs| && fs[i].name == name && |fs[i].index| <= d;
    assert more[i] == fs[i];
  }

  lemma ListedMore(g: Graph, fs: seq<Field>, more: seq<Field>, t: nat, d: nat, d': nat)
    requires t < |g| && Listed(g, fs, t, d) && fs <= more && d <= d'
    ensures Listed(g, more, t, d')
  {
    hide Has;
    forall i | 0 <= i < |g[t]| && RoleOf(g[t][i]).Found?
      ensures Has(more, RoleOf(g[t][i]).name, d')
    {
      HasMore(fs, more, RoleOf(g[t][i]).name, d);
      HasDeeper(more, RoleOf(g[t][i]).name, d, d');
    }
  }

  lemma HasDeeper(fs: seq<Field>, name: string, d: nat, d': nat)
    requires Has(fs, name, d) && d <= d'
    ensures Has(fs, name, d')
  {
  }

  lemma IdsMore(es: seq<Entry>, more: seq<Entry>)
    requires es <= more
    ensures Ids(es) <= Ids(more)
  {
    forall x | x in Ids(es)
      ensures x in Ids(more)
    {
      var i :| 0 <= i < |es| && es[i].id == x;
      assert more[i].id == x;
    }
  }

  /** One struct field is listed, or queued. */
  lemma StepCovers(sf: StructField, e: Entry, i: nat, twice: bool, s: Progress)
    requires Queued(s)
    ensures var r := ScanField(sf, e, i, twice, s);
            s.fields <= r.fields && s.next <= r.next && Queued(r) &&
            (RoleOf(sf).Found? ==> Has(r.fields, RoleOf(sf).name, |e.index| + 1)) &&
            (RoleOf(sf).Embedded? ==> RoleOf(sf).id in Ids(r.next))
  {
    var r := ScanField(sf, e, i, twice, s);
    IdsMore(s.next, r.next);
    if RoleOf(sf).Found? {
      assert r.fields[|s.fields|].name == RoleOf(sf).name;
    } else if RoleOf(sf).Embedded? {
      var id := RoleOf(sf).id;
      if r.counts[id] == 1 {
        assert r.next[|s.next|].id == id;
      }
    }
  }

  lemma {:induction false} ScanStructCovers(g: Graph, e: Entry, i: nat, twice: bool, s: Progress)
    requires e.id < |g| && i <= |g[e.id]| && Queued(s)
    ensures var r := ScanStruct(g, e, i, twice, s);
            s.fields <= r.fields && s.next <= r.next && Queued(r) &&
            (forall j | i <= j < |g[e.id]| ::
               RoleOf(g[e.id][j]).Found? ==> Has(r.fields, RoleOf(g[e.id][j]).name, |e.index| + 1)) &&
            (forall j | i <= j < |g[e.id]| :: RoleOf(g[e.id][j]).Embedded? ==> RoleOf(g[e.id][j]).id in Ids(r.next))
    decreases |g[e.id]| - i
  {
    hide RoleOf, ScanField, Has, Queued, Ids;
    if i < |g[e.id]| {
      var s' := ScanField(g[e.id][i], e, i, twice, s);
      StepCovers(g[e.id][i], e, i, twice, s);
      ScanStructCovers(g, e, i + 1, twice, s');
      var r := ScanStruct(g, e, i, twice, s);
      IdsMore(s'.next, r.next);
      if RoleOf(g[e.id][i]).Found? {
        HasMore(s'.fields, r.fields, RoleOf(g[e.id][i]).name, |e.index| + 1);
      }
    }
  }

  /** What is known of the structs visited so far, before a level at depth `d`. */
  ghost predicate Covered(g: Graph, visited: set<nat>, fields: seq<Field>, queued: set<nat>, d: nat) {
    forall t | t in visited :: t < |g| && Listed(g, fields, t, d) && Closed(g, t, visited + queued)
  }

  lemma VisitCovers(g: Graph, e: Entry, twice: bool, l: Level, goal: set<nat>, d: nat)
    requires e.id < |g| && |e.index| == d && Queued(l.s)
    requires Covered(g, l.visited, l.s.fields, goal + Ids(l.s.next), d + 1)
    ensures var s := ScanStruct(g, e, 0, twice, l.s);
            Queued(s) && l.s.fields <= s.fields && Covered(g, l.visited + {e.id}, s.fields, goal + Ids(s.next), d + 1)
  {
    hide RoleOf, Has, Queued, Ids, ScanStruct;
    ScanStructCovers(g, e, 0, twice, l.s);
    var s := ScanStruct(g, e, 0, twice, l.s);
    IdsMore(l.s.next, s.next);
    forall t | t in l.visited
      ensures Listed(g, s.fields, t, d + 1)
    {
      ListedMore(g, l.s.fields, s.fields, t, d + 1, d + 1);
    }
  }

  lemma {:induction false} ScanLevelCovers(g: Graph, current: seq<Entry>, k: nat, counts: map<nat, nat>,
        l: Level, goal: set<nat>, d: nat)
    requires Inside(g, current) && k <= |current| && (forall j | 0 <= j < |current| :: |current[j].index| == d)
    requires Queued(l.s) && Covered(g, l.visited, l.s.fields, goal + Ids(l.s.next), d + 1)
    ensures var r := ScanLevel(g, current, k, counts, l);
            l.s.fields <= r.s.fields && Covered(g, r.visited, r.s.fields, goal + Ids(r.s.next), d + 1)
    decreases |current| - k
  {
    hide Covered, Queued, Ids, ScanStruct;
    if k < |current| {
      var e := current[k];
      if e.id in l.visited {
        ScanLevelCovers(g, current, k + 1, counts, l, goal, d);
      } else {
        var twice := Count(counts, e.id) > 1;
        VisitCovers(g, e, twice, l, goal, d);
        ScanLevelCovers(g, current, k + 1, counts,
                        Level(ScanStruct(g, e, 0, twice, l.s), l.visited + {e.id}), goal, d);
      }
    }
  }

  /** A level visits its whole queue, and leaves the next level's invariant behind. */
  lemma LevelCovers(g: Graph, next: seq<Entry>, counts: map<nat, nat>, visited: set<nat>, fields: seq<Field>, d: nat)
    requires WellFormed(g) && Inside(g, next) && (forall j | 0 <= j < |next| :: |next[j].index| == d)
    requires Covered(g, visited, fields, Ids(next), d)
    ensures var r := NextLevel(g, next, counts, visited, fields);
            fields <= r.s.fields && visited + Ids(next) <= r.visited &&
            Covered(g, r.visited, r.s.fields, Ids(r.s.next), d + 1)
  {
    hide ScanLevel, Listed, RoleOf;
    var l := Level(Progress(fields, [], map[]), visited);
    forall t | t in visited
      ensures Listed(g, fields, t, d + 1)
    {
      ListedMore(g, fields, fields, t, d, d + 1);
    }
    ScanLevelCovers(g, next, 0, counts, l, Ids(next), d);
    ScanLevelMoves(g, next, 0, counts, l);
  }

  /** Whatever is at most `d` steps away was visited or is queued. */
  ghost predicate Near(g: Graph, root: nat, ids: set<nat>, d: nat) {
    forall path: seq<nat>, t: nat | Reaches(g, root, path, t) && |path| <= d :: t in ids
  }

  /** Whatever is fewer than `d` steps away is listed at its own depth. */
  ghost predicate Settled(g: Graph, root: nat, fields: seq<Field>, d: nat) {
    forall path: seq<nat>, t: nat | Reaches(g, root, path, t) && |path| < d && t < |g| ::
      Listed(g, fields, t, |path| + 1)
  }

  lemma NearNext(g: Graph, root: nat, old_: set<nat>, visited: set<nat>, ids: set<nat>, d: nat)
    requires Near(g, root, old_, d) && old_ <= visited
    requires forall t | t in visited :: t < |g| && Closed(g, t, visited + ids)
    ensures Near(g, root, visited + ids, d + 1)
  {
    forall path: seq<nat>, t: nat | Reaches(g, root, path, t) && |path| <= d + 1
      ensures t in visited + ids
    {
      if |path| == d + 1 {
        ReachesLast(g, root, path, t);
        var via: nat :| Reaches(g, root, path[..d], via) && via < |g| && path[d] < |g[via]| &&
          RoleOf(g[via][path[d]]) == Embedded(t);
        assert via in old_;
        assert Closed(g, via, visited + ids);
      }
    }
  }

  lemma SettledNext(g: Graph, root: nat, fields: seq<Field>, more: seq<Field>, old_: set<nat>,
        visited: set<nat>, d: nat)
    requires Settled(g, root, fields, d) && fields <= more
    requires Near(g, root, old_, d) && old_ <= visited
    requires forall t | t in visited :: t < |g| && Listed(g, more, t, d + 1)
    ensures Settled(g, root, more, d + 1)
  {
    hide Listed, Reaches;
    forall path: seq<nat>, t: nat | Reaches(g, root, path, t) && |path| < d + 1 && t < |g|
      ensures Listed(g, more, t, |path| + 1)
    {
      if |path| < d {
        ListedMore(g, fields, more, t, |path| + 1, |path| + 1);
      }
    }
  }

  /** With nothing queued, everything reachable was visited. */
  lemma {:induction false} AllVisited(g: Graph, root: nat, visited: set<nat>, path: seq<nat>, t: nat)
    requires Near(g, root, visited, 0) && forall v | v in visited :: v < |g| && Closed(g, v, visited)
    requires Reaches(g, root, path, t)
    ensures t in visited
    decreases |path|
  {
    if path != [] {
      ReachesLast(g, root, path, t);
      var n := |path| - 1;
      var via: nat :| Reaches(g, root, path[..n], via) && via < |g| && path[n] < |g[via]| &&
        RoleOf(g[via][path[n]]) == Embedded(t);
      AllVisited(g, root, visited, path[..n], via);
      assert Closed(g, via, visited);
    }
  }

  /** Every struct at the end of a path is listed, no deeper than the path is long. */
  ghost predicate Complete(g: Graph, root: nat, fields: seq<Field>) {
    forall path: seq<nat>, t: nat | Reaches(g, root, path, t) && t < |g| :: Listed(g, fields, t, |path| + 1)
  }

  lemma SearchEnds(g: Graph, root: nat, visited: set<nat>, fields: seq<Field>, d: nat)
    requires Covered(g, visited, fields, {}, d) && Near(g, root, visited, d) && Settled(g, root, fields, d)
    ensures Complete(g, root, fields)
  {
    hide Listed, Reaches;
    assert forall v :: v in visited + {} <==> v in visited;
    assert visited + {} == visited;
    forall path: seq<nat>, t: nat | Reaches(g, root, path, t) && t < |g|
      ensures Listed(g, fields, t, |path| + 1)
    {
      if |path| >= d {
        AllVisited(g, root, visited, path, t);
        ListedMore(g, fields, fields, t, d, |path| + 1);
      }
    }
  }

  lemma {:induction false} SearchCovers(g: Graph, root: nat, d: nat, next: seq<Entry>, counts: map<nat, nat>,
        visited: set<nat>, fields: seq<Field>)
    requires WellFormed(g) && Placed(g, root, next, d) && AllLead(g, root, fields)
    requires Covered(g, visited, fields, Ids(next), d)
    requires Near(g, root, visited + Ids(next), d) && Settled(g, root, fields, d)
    ensures Inside(g, next) && (forall v | v in visited :: v < |g|)
    ensures Complete(g, root, Search(g, next, counts, visited, fields))
    decreases |g| - |visited|, |next|
  {
    hide Reaches, WellFormed, ScanLevel, Listed, Closed, Near, Settled, Complete, Leads;
    if next == [] {
      assert Ids(next) == {} && visited + {} == visited;
      SearchEnds(g, root, visited, fields, d);
    } else {
      var l := Level(Progress(fields, [], map[]), visited);
      ScanLevelLeads(g, root, d, next, 0, counts, l);
      ScanLevelMoves(g, next, 0, counts, l);
      LevelCovers(g, next, counts, visited, fields, d);
      var r := NextLevel(g, next, counts, visited, fields);
      NearNext(g, root, visited + Ids(next), r.visited, Ids(r.s.next), d);
      SettledNext(g, root, fields, r.s.fields, visited + Ids(next), r.visited, d);
      Pigeonhole(r.visited, |g|);
      SmallerSet(visited, r.visited);
      SearchCovers(g, root, d + 1, r.s.next, r.s.counts, r.visited, r.s.fields);
    }
  }

  /** No field is overlooked: at the end of every path of embedded structs, however long, each field
      has a candidate of its name no deeper than the path leads. */
  lemma CandidatesComplete(g: Graph, root: nat)
    requires WellFormed(g) && root < |g|
    ensures Complete(g, root, Candidates(g, root))
  {
    hide Listed, Complete;
    var next := [Entry([], root)];
    assert next[0].id == root;
    assert Ids(next) == {root};
    assert Near(g, root, {} + Ids(next), 0) by {
      forall path: seq<nat>, t: nat | Reaches(g, root, path, t) && |path| <= 0
        ensures t in {} + Ids(next)
      {
        assert path == [];
      }
    }
    SearchCovers(g, root, 0, next, map[], {}, []);
  }
}
