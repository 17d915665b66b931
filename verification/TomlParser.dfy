/** The parser's tables as the source updates them, in place: fields, a cursor that walks down the
    nested maps, and loops over the pieces of a key (parse.go). */
module TomlParser {
  import opened Options
  import opened TomlTree
  import opened TomlContext

  /** How a call ends: normally, by a parse error, or by the end of the process (`bug`). */
  datatype Status = Ok | Error | Bug

  lemma {:induction false} FindConcat(h: Hash, a: Key, b: Key)
    ensures Find(h, a + b) == if Find(h, a).Some? then Find(Find(h, a).value, b) else None
  {
    if a == [] {
      assert a + b == b;
    } else {
      assert (a + b)[1..] == a[1..] + b;
      if a[0] in h.entries && Into(h.entries[a[0]]).Some? {
        FindConcat(Into(h.entries[a[0]]).value, a[1..], b);
      }
    }
  }

  /** The outcome a call's status and final state stand for. */
  ghost predicate Ends(r: Status, st: State, o: Outcome) {
    match o
    case Done(st') => r == Ok && st == st'
    case ParseError => r == Error
    case Fatal => r == Bug
  }

  class Parser {
    var mapping: Hash
    var context: Key
    /** Removed marks stay in the map as false. */
    var implicits: map<string, bool>

    constructor ()
      ensures St() == START
    {
      mapping, context, implicits := EMPTY, [], map[];
    }

    function St(): State
      reads this
    {
      State(mapping, context, set s | s in implicits && implicits[s])
    }

    method AddImplicit(key: Key)
      modifies this`implicits
      ensures St() == old(St()).(implicits := old(St()).implicits + {Join(key)})
    {
      implicits := implicits[Join(key) := true];
    }

    method RemoveImplicit(key: Key)
      modifies this`implicits
      ensures St() == old(St()).(implicits := old(St()).implicits - {Join(key)})
    {
      implicits := implicits[Join(key) := false];
    }

    predicate IsImplicit(key: Key)
      reads this
      ensures IsImplicit(key) <==> Join(key) in St().implicits
    {
      Join(key) in implicits && implicits[Join(key)]
    }

    method SetValue(name: string, value: Tree) returns (r: Status)
      modifies this
      ensures Ends(r, St(), TomlContext.SetValue(old(St()), name, value))
    {
      hide Find, Update;
      var hash := mapping;
      var keyContext: Key := [];
      StartOfPath(mapping, context);
      for i := 0 to |context|
        invariant context == old(context)
        invariant keyContext == context[..i] && Find(mapping, keyContext) == Some(hash)
        invariant St() == old(St())
      {
        assert context == keyContext + [context[i]] + context[i + 1..];
        FindStep(mapping, keyContext, context[i]);
        FindConcat(mapping, keyContext + [context[i]], context[i + 1..]);
        keyContext := keyContext + [context[i]];
        if context[i] !in hash.entries {
          return Bug;
        }
        var next := Into(hash.entries[context[i]]);
        if next.None? {
          return Bug;
        }
        hash := next.value;
      }
      assert keyContext == context;
      keyContext := keyContext + [name];
      if name in hash.entries {
        if IsImplicit(keyContext) {
          RemoveImplicit(keyContext);
          return Ok;
        }
        return Error;
      }
      mapping := Update(mapping, context, Put(hash, name, value));
      return Ok;
    }

    /** The loop over all pieces of a header but the last; `ok` is false on its error. */
    method DrillDown(parent: Key) returns (hashContext: Hash, ok: bool)
      modifies this
      ensures context == old(context)
      ensures ok == Descend(old(St()), parent, 0).Done?
      ensures ok ==> Descend(old(St()), parent, 0) == Done(St()) && Find(mapping, parent) == Some(hashContext)
    {
      hide Find, Update;
      hashContext := mapping;
      StartOfPath(mapping, parent);
      var keyContext: Key := [];
      for i := 0 to |parent|
        invariant keyContext == parent[..i] && Find(mapping, keyContext) == Some(hashContext)
        invariant context == old(context)
        invariant Descend(old(St()), parent, 0) == Descend(St(), parent, i)
      {
        var k := parent[i];
        var path := keyContext;
        ghost var st := St();
        assert path + [k] == parent[..i + 1];
        keyContext := keyContext + [k];
        if k !in hashContext.entries {
          AddImplicit(keyContext);
          mapping := Update(mapping, path, Put(hashContext, k, Table(EMPTY)));
          FindUpdate(st.mapping, path, Put(hashContext, k, Table(EMPTY)));
          hashContext := Put(hashContext, k, Table(EMPTY));
        }
        assert St() == Vivify(st, path, k);
        FindStep(mapping, path, k);
        var next := Into(hashContext.entries[k]);
        if next.None? {
          return hashContext, false;
        }
        hashContext := next.value;
      }
      assert keyContext == parent;
      return hashContext, true;
    }

    lemma StartOfPath(h: Hash, parent: Key)
      ensures parent[..0] == [] && Find(h, []) == Some(h)
    {
    }

    method EstablishContext(key: Key, isArray: bool) returns (r: Status)
      requires key != []
      modifies this
      ensures Ends(r, St(), Establish(old(St()), key, isArray))
    {
      hide Find, Update, Descend;
      var parent, k := key[..|key| - 1], key[|key| - 1];
      StartOfPath(mapping, parent);
      var hashContext, ok := DrillDown(parent);
      if !ok {
        return Error;
      }
      context := parent;
      if isArray {
        if k !in hashContext.entries {
          mapping := Update(mapping, parent, Put(hashContext, k, Tables([], EMPTY)));
        } else {
          match hashContext.entries[k]
          case Tables(earlier, last) =>
            mapping := Update(mapping, parent, Put(hashContext, k, Tables(earlier + [last], EMPTY)));
          case Prim(_) => return Error;
          case Table(_) => return Error;
        }
      } else {
        r := SetValue(k, Table(EMPTY));
        if r != Ok {
          return r;
        }
      }
      context := context + [k];
      assert context == key;
      return Ok;
    }

    /** One top-level item. */
    method TopLevel(ev: Event) returns (r: Status)
      requires Named(ev)
      modifies this
      ensures Ends(r, St(), Step(old(St()), ev))
    {
      hide TomlContext.SetValue, Establish;
      match ev
      case Header(key) => r := EstablishContext(key, false);
      case ArrayHeader(key) => r := EstablishContext(key, true);
      case KeyVal(name, value) => r := SetValue(name, Prim(value));
    }
  }

  /** parse, after the lexer. */
  method Parse(evs: seq<Event>) returns (p: Parser, r: Status)
    requires AllNamed(evs)
    ensures fresh(p) && Ends(r, p.St(), Run(START, evs))
  {
    hide Step;
    p := new Parser();
    r := Ok;
    for i := 0 to |evs|
      invariant fresh(p) && r == Ok
      invariant Run(START, evs) == Run(p.St(), evs[i..])
    {
      assert evs[i..][1..] == evs[i + 1..];
      r := p.TopLevel(evs[i]);
      if r != Ok {
        return;
      }
    }
  }
}
