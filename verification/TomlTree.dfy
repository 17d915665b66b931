/** The tables a TOML parser builds (parse.go): nested hashes, addressed by key paths. */
module TomlTree {
  import opened Options

  type Key = seq<string>

  /** What a key can hold besides tables. Floats and dates are kept as they were written. */
  datatype Value =
    | Str(s: string) | Int(i: int) | Bool(b: bool) | Array(elems: seq<Value>)
    | Float(text: string) | Datetime(text: string)

  /** A Go map[string]interface{}. */
  datatype Hash = Hash(entries: map<string, Tree>)

  /** One entry of it. A []map[string]interface{} always has a last element, because the parser
      appends to it in the same step that creates it. */
  datatype Tree = Prim(value: Value) | Table(hash: Hash) | Tables(earlier: seq<Hash>, last: Hash)

  const EMPTY: Hash := Hash(map[])

  function Put(h: Hash, k: string, t: Tree): (r: Hash)
    ensures r.entries == h.entries[k := t]
  {
    Hash(h.entries[k := t])
  }

  /** The hash an entry leads into: a table itself, or the last of an array of tables. */
  function Into(t: Tree): Option<Hash>
  {
    match t
    case Prim(_) => None
    case Table(h) => Some(h)
    case Tables(_, last) => Some(last)
  }

  function WithInto(t: Tree, h: Hash): (r: Tree)
    requires Into(t).Some?
    ensures Into(r) == Some(h)
  {
    match t
    case Table(_) => Table(h)
    case Tables(earlier, _) => Tables(earlier, h)
  }

  /** The hash at the end of a path. */
  function Find(h: Hash, path: Key): Option<Hash>
  {
    if path == [] then Some(h)
    else if path[0] !in h.entries then None
    else match Into(h.entries[path[0]])
      case None => None
      case Some(next) => Find(next, path[1..])
  }

  /** `h` with the hash at the end of a path replaced: the effect of assigning through the map
      the path leads to. */
  function Update(h: Hash, path: Key, new_: Hash): Hash
    requires Find(h, path).Some?
  {
    if path == [] then new_ else
    var t := h.entries[path[0]];
    Put(h, path[0], WithInto(t, Update(Into(t).value, path[1..], new_)))
  }

  lemma {:induction false} FindUpdate(h: Hash, path: Key, new_: Hash)
    requires Find(h, path).Some?
    ensures Find(Update(h, path, new_), path) == Some(new_)
  {
    if path != [] {
      FindUpdate(Into(h.entries[path[0]]).value, path[1..], new_);
    }
  }

  lemma {:induction false} UpdateUpdate(h: Hash, path: Key, a: Hash, b: Hash)
    requires Find(h, path).Some?
    ensures Find(Update(h, path, a), path).Some?
    ensures Update(Update(h, path, a), path, b) == Update(h, path, b)
  {
    FindUpdate(h, path, a);
    if path != [] {
      var t := h.entries[path[0]];
      UpdateUpdate(Into(t).value, path[1..], a, b);
      assert Update(h, path, a).entries[path[0] := h.entries[path[0]]] == h.entries;
    }
  }

  lemma {:induction false} UpdateSame(h: Hash, path: Key)
    requires Find(h, path).Some?
    ensures Update(h, path, Find(h, path).value) == h
  {
    if path != [] {
      UpdateSame(Into(h.entries[path[0]]).value, path[1..]);
    }
  }

  lemma {:induction false} FindStep(h: Hash, path: Key, k: string)
    requires Find(h, path).Some?
    ensures Find(h, path + [k])
         == var at := Find(h, path).value;
            if k in at.entries then Into(at.entries[k]) else None
  {
    if path == [] {
      assert (path + [k])[1..] == [];
    } else {
      assert (path + [k])[1..] == path[1..] + [k];
      FindStep(Into(h.entries[path[0]]).value, path[1..], k);
    }
  }

  lemma {:induction false} UpdateStep(h: Hash, path: Key, k: string, new_: Hash)
    requires Find(h, path).Some? && k in Find(h, path).value.entries
    requires Into(Find(h, path).value.entries[k]).Some?
    ensures Find(h, path + [k]).Some?
    ensures var at := Find(h, path).value;
            Update(h, path + [k], new_) == Update(h, path, Put(at, k, WithInto(at.entries[k], new_)))
  {
    FindStep(h, path, k);
    if path == [] {
      assert (path + [k])[1..] == [];
    } else {
      assert (path + [k])[1..] == path[1..] + [k];
      UpdateStep(Into(h.entries[path[0]]).value, path[1..], k, new_);
    }
  }

  /** Every prefix of a path that exists exists. */
  lemma {:induction false} FindPrefix(h: Hash, path: Key, i: nat)
    requires i <= |path| && Find(h, path).Some?
    ensures Find(h, path[..i]).Some?
  {
    if i > 0 {
      assert path[..i][1..] == path[1..][..i - 1];
      FindPrefix(Into(h.entries[path[0]]).value, path[1..], i - 1);
    }
  }
}
