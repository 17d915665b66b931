/** Go's string order and sorted key lists. */
module StringOrder {

  /** Go's `<` on strings. */
  predicate Less(a: string, b: string) {
    b != "" && (a == "" || a[0] < b[0] || (a[0] == b[0] && Less(a[1..], b[1..])))
  }

  lemma {:induction false} LessTransitive(a: string, b: string, c: string)
    requires Less(a, b) && Less(b, c)
    ensures Less(a, c)
  {
    if a != "" && a[0] == b[0] == c[0] {
      LessTransitive(a[1..], b[1..], c[1..]);
    }
  }

  lemma {:induction false} LessTotal(a: string, b: string)
    ensures Less(a, b) || a == b || Less(b, a)
    ensures !(Less(a, b) && Less(b, a)) && !Less(a, a)
  {
    if a != "" && b != "" {
      LessTotal(a[1..], b[1..]);
      assert a == [a[0]] + a[1..] && b == [b[0]] + b[1..];
    }
    if a != "" {
      LessTotal(a[1..], a[1..]);
    }
  }

  predicate Sorted(s: seq<string>) {
    forall i, j | 0 <= i < j < |s| :: Less(s[i], s[j])
  }

  ghost function Elements(s: seq<string>): set<string>
  {
    set x | x in s
  }

  /** The least string of a set. */
  ghost function Least(s: set<string>): (r: string)
    requires s != {}
    ensures r in s && forall x | x in s :: x == r || Less(r, x)
  {
    var x :| x in s;
    if s == {x} then x else
    var y := Least(s - {x});
    LessTotal(x, y);
    if Less(x, y) then
      assert forall z | z in s :: z == x || Less(x, z) by {
        forall z | z in s && z != x ensures Less(x, z) { if z != y { LessTransitive(x, y, z); } }
      }
      x
    else y
  }

  /** The elements of a set in increasing order: sort.Strings of its members. */
  ghost function SortedKeys(s: set<string>): (r: seq<string>)
    ensures Sorted(r) && Elements(r) == s
    decreases |s|
  {
    if s == {} then [] else
    var x := Least(s);
    var rest := SortedKeys(s - {x});
    PrependLeast(x, rest, s);
    [x] + rest
  }

  lemma PrependLeast(x: string, rest: seq<string>, s: set<string>)
    requires Sorted(rest) && x in s && Elements(rest) == s - {x}
    requires forall y | y in s :: y == x || Less(x, y)
    ensures Sorted([x] + rest) && Elements([x] + rest) == s
  {
    forall i | 0 <= i < |rest|
      ensures Less(x, rest[i])
    {
      assert rest[i] in Elements(rest);
    }
    ElementsAppend([x], rest);
  }

  lemma ElementsAppend(a: seq<string>, b: seq<string>)
    ensures Elements(a + b) == Elements(a) + Elements(b)
  {
    assert forall x :: x in a + b <==> x in a || x in b;
  }

  lemma SortedDistinct(s: seq<string>)
    requires Sorted(s)
    ensures forall i, j | 0 <= i < j < |s| :: s[i] != s[j]
  {
    forall i, j | 0 <= i < j < |s|
      ensures s[i] != s[j]
    {
      LessTotal(s[i], s[j]);
    }
  }

  /** A set has only one sorted list. */
  lemma {:induction false} SortedUnique(a: seq<string>, b: seq<string>)
    requires Sorted(a) && Sorted(b) && Elements(a) == Elements(b)
    ensures a == b
  {
    if a == [] {
      assert forall i | 0 <= i < |b| :: b[i] in Elements(b);
    } else {
      assert a[0] in Elements(a) && a[0] in Elements(b);
      var i :| 0 <= i < |b| && b[i] == a[0];
      assert b[0] in Elements(b) && b[0] in Elements(a);
      var j :| 0 <= j < |a| && a[j] == b[0];
      LessTotal(a[0], b[0]);
      assert a[0] == b[0];
      SortedDistinct(a);
      SortedDistinct(b);
      TailElements(a);
      TailElements(b);
      SortedUnique(a[1..], b[1..]);
      assert a == [a[0]] + a[1..] && b == [b[0]] + b[1..];
    }
  }

  lemma TailElements(s: seq<string>)
    requires s != [] && Sorted(s)
    ensures Elements(s[1..]) == Elements(s) - {s[0]} && Sorted(s[1..])
  {
    SortedDistinct(s);
    forall x | x in Elements(s) - {s[0]}
      ensures x in Elements(s[1..])
    {
      var i :| 0 <= i < |s| && s[i] == x;
      assert s[1..][i - 1] == x;
    }
  }

  /** sort.Strings on the members of a set, in whatever order they come. */
  method SortStrings(keys: seq<string>) returns (r: seq<string>)
    requires forall i, j | 0 <= i < j < |keys| :: keys[i] != keys[j]
    ensures r == SortedKeys(Elements(keys))
  {
    r := [];
    for n := 0 to |keys|
      invariant Sorted(r) && Elements(r) == Elements(keys[..n])
    {
      var i := 0;
      while i < |r| && Less(r[i], keys[n])
        invariant 0 <= i <= |r|
        invariant forall j | 0 <= j < i :: Less(r[j], keys[n])
      {
        i := i + 1;
      }
      InsertSorted(r, i, keys[n]) by {
        assert keys[n] !in keys[..n];
        assert forall x | x in r :: x in Elements(r);
      }
      assert Elements(keys[..n + 1]) == Elements(keys[..n]) + {keys[n]} by {
        assert keys[..n + 1] == keys[..n] + [keys[n]];
      }
      r := r[..i] + [keys[n]] + r[i..];
    }
    assert keys[..|keys|] == keys;
    SortedUnique(r, SortedKeys(Elements(keys)));
  }

  lemma InsertSorted(r: seq<string>, i: nat, x: string)
    requires Sorted(r) && i <= |r| && x !in r
    requires forall j | 0 <= j < i :: Less(r[j], x)
    requires i < |r| ==> !Less(r[i], x)
    ensures Sorted(r[..i] + [x] + r[i..]) && Elements(r[..i] + [x] + r[i..]) == Elements(r) + {x}
  {
    var s := r[..i] + [x] + r[i..];
    if i < |r| {
      LessTotal(r[i], x);
      forall j | i < j < |r| ensures Less(x, r[j]) { LessTransitive(x, r[i], r[j]); }
    }
    forall j, k | 0 <= j < k < |s|
      ensures Less(s[j], s[k])
    {
    }
    forall y | y in Elements(r)
      ensures y in Elements(s)
    {
      var j :| 0 <= j < |r| && r[j] == y;
      if j < i { assert s[j] == y; } else { assert s[j + 1] == y; }
    }
    assert s[i] == x;
  }
}
