/** How headers and keys change the parser's tables, context and implicit marks (parse.go). */
module TomlContext {
  import opened Options
  import opened TomlTree

  /** What the parser takes from the lexer, one top-level item at a time. */
  datatype Event = Header(key: Key) | ArrayHeader(key: Key) | KeyVal(name: string, value: Value)

  /** The parser's fields; `implicits` holds the dotted names marked true. */
  datatype State = State(mapping: Hash, context: Key, implicits: set<string>)

  /** A parse error is reported to the caller; Fatal is the source's `bug`, which ends the process. */
  datatype Outcome = Done(st: State) | ParseError | Fatal

  const START: State := State(EMPTY, [], {})

  /** Key.String. */
  function Join(key: Key): string
  {
    if key == [] then ""
    else if |key| == 1 then key[0]
    else key[0] + "." + Join(key[1..])
  }

  /** setValue: in the current context. */
  function SetValue(st: State, name: string, t: Tree): Outcome
  {
    match Find(st.mapping, st.context)
    case None => Fatal
    case Some(at) =>
      if name in at.entries then
        var full := Join(st.context + [name]);
        if full in st.implicits then Done(st.(implicits := st.implicits - {full})) else ParseError
      else Done(st.(mapping := Update(st.mapping, st.context, Put(at, name, t))))
  }

  /** A missing hash on the way to a header is created and marked. */
  function Vivify(st: State, path: Key, k: string): (r: State)
    requires Find(st.mapping, path).Some?
    ensures Find(r.mapping, path).Some? && k in Find(r.mapping, path).value.entries
  {
    var at := Find(st.mapping, path).value;
    if k in at.entries then st else
    FindUpdate(st.mapping, path, Put(at, k, Table(EMPTY)));
    st.(mapping := Update(st.mapping, path, Put(at, k, Table(EMPTY))), implicits := st.implicits + {Join(path + [k])})
  }

  /** The loop of establishContext over all but the last piece. */
  function Descend(st: State, path: Key, i: nat): (r: Outcome)
    requires i <= |path| && Find(st.mapping, path[..i]).Some?
    ensures r.Done? ==> Find(r.st.mapping, path).Some? && r.st.context == st.context
    ensures !r.Fatal?
    decreases |path| - i
  {
    if i == |path| then assert path[..i] == path; Done(st) else
    var st' := Vivify(st, path[..i], path[i]);
    FindStep(st'.mapping, path[..i], path[i]);
    assert path[..i] + [path[i]] == path[..i + 1];
    if Find(st'.mapping, path[..i + 1]).None? then ParseError else Descend(st', path, i + 1)
  }

  /** establishContext. */
  function Establish(st: State, key: Key, isArray: bool): Outcome
    requires key != []
  {
    var parent, k := key[..|key| - 1], key[|key| - 1];
    match Descend(st, parent, 0)
    case ParseError => ParseError
    case Done(st') =>
      if !isArray then
        match SetValue(st'.(context := parent), k, Table(EMPTY))
        case Done(st'') => Done(st''.(context := key))
        case other => other
      else
        var at := Find(st'.mapping, parent).value;
        if k !in at.entries then
          Done(st'.(mapping := Update(st'.mapping, parent, Put(at, k, Tables([], EMPTY))), context := key))
        else match at.entries[k]
          case Tables(earlier, last) =>
            Done(st'.(mapping := Update(st'.mapping, parent, Put(at, k, Tables(earlier + [last], EMPTY))),
                      context := key))
          case _ => ParseError
  }

  /** Headers always name something: the lexer refuses an empty table name. */
  predicate Named(ev: Event) {
    ev.KeyVal? || ev.key != []
  }

  predicate AllNamed(evs: seq<Event>) {
    forall i | 0 <= i < |evs| :: Named(evs[i])
  }

  function Step(st: State, ev: Event): Outcome
    requires Named(ev)
  {
    match ev
    case Header(key) => Establish(st, key, false)
    case ArrayHeader(key) => Establish(st, key, true)
    case KeyVal(name, value) => SetValue(st, name, Prim(value))
  }

  function Run(st: State, evs: seq<Event>): Outcome
    requires AllNamed(evs)
    decreases |evs|
  {
    if evs == [] then Done(st) else
    match Step(st, evs[0])
    case Done(st') => Run(st', evs[1..])
    case other => other
  }

  lemma {:induction false} RunAppend(st: State, a: seq<Event>, b: seq<Event>)
    requires AllNamed(a) && AllNamed(b)
    ensures Run(st, a + b) == if Run(st, a).Done? then Run(Run(st, a).st, b) else Run(st, a)
    decreases |a|
  {
    hide Step;
    if a == [] {
      assert a + b == b;
    } else {
      assert (a + b)[1..] == a[1..] + b;
      if Step(st, a[0]).Done? {
        RunAppend(Step(st, a[0]).st, a[1..], b);
      }
    }
  }
}
