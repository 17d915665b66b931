/** The encoder (encode.go): a Go value printed as table headers, array headers and keys. */
module TomlEncode {
  import opened Options
  import opened TomlTree
  import opened TomlContext
  import opened StringOrder

  /** A Go value as reflection shows it. Floats and times are given by what strconv.FormatFloat(v, 'f', -1,
      bits), Format("2006-01-02T15:04:05Z") in UTC and MarshalText make of them. A pointer to a time is a
      text marshaler, too, and calling that on a nil one panics. */
  datatype GoValue =
    | Boolean(b: bool)
    | Integer(i: int)
    | Real(digits: string)
    | Text(s: string)
    | Time(stamp: string, text: string)
    | NilSlice
    | Slice(elems: seq<GoValue>)
    | NilMap
    | Map(entries: map<string, GoValue>)
    | NilPointer(toTime: bool)
    | Pointer(elem: GoValue)
    | NilInterface
    | Interface(elem: GoValue)

  /** isNil. */
  predicate IsNil(v: GoValue) {
    v.NilSlice? || v.NilMap? || v.NilPointer? || v.NilInterface?
  }

  /** Where encode arrives by following pointers and interfaces. It stays at a pointer to a time; elsewhere
      this is eindirect. */
  function Settled(v: GoValue): (r: GoValue)
    ensures r == v || r < v
    ensures !r.Interface? && (r.Pointer? ==> r.elem.Time?)
  {
    match v
    case Interface(e) => Settled(e)
    case Pointer(e) => if e.Time? then v else Settled(e)
    case _ => v
  }

  /** tomlType; NoType is Go's nil type. */
  datatype TomlType =
    | NoType | TypeBool | TypeInteger | TypeFloat | TypeString | TypeDatetime | TypeArray | TypeHash | TypeArrayHash

  /** typeEqual: no type equals nothing, not even itself. */
  predicate TypeEqual(s: TomlType, t: TomlType) {
    s != NoType && s == t
  }

  predicate IsHash(t: TomlType) {
    TypeEqual(t, TypeHash) || TypeEqual(t, TypeArrayHash)
  }

  /** tomlTypeOfGo; None where the source panics with an encode error. */
  function TypeOf(v: GoValue): (r: Option<TomlType>)
    ensures r == Some(NoType) <==> IsNil(Settled(v))
    ensures r == Some(TypeHash) <==> Settled(v).Map?
    ensures r == Some(TypeArrayHash) ==>
              Settled(v).Slice? && Settled(v).elems != [] && forall e <- Settled(v).elems :: Settled(e).Map?
    ensures r == Some(TypeArray) ==> Settled(v).Slice?
    decreases v, 2, 0
  {
    match v
    case Boolean(_) => Some(TypeBool)
    case Integer(_) => Some(TypeInteger)
    case Real(_) => Some(TypeFloat)
    case Text(_) => Some(TypeString)
    case Time(_, _) => Some(TypeDatetime)
    case Map(_) => Some(TypeHash)
    case Pointer(e) => TypeOf(e)
    case Interface(e) => TypeOf(e)
    case Slice(_) =>
      (match ArrayType(v)
       case None => None
       case Some(t) => Some(if TypeEqual(TypeHash, t) then TypeArrayHash else TypeArray))
    case _ => Some(NoType)
  }

  /** tomlArrayType: the common type of the elements. */
  function ArrayType(v: GoValue): (r: Option<TomlType>)
    requires v.Slice?
    ensures r == Some(TypeHash) ==> v.elems != [] && forall e <- v.elems :: Settled(e).Map?
    decreases v, 1, 0
  {
    if v.elems == [] then Some(NoType) else
    match TypeOf(v.elems[0])
    case None => None
    case Some(first) =>
      if first == NoType || !Homogeneous(v, 1, first) then None
      else if first in {TypeArray, TypeArrayHash} then
        match ArrayType(Settled(v.elems[0]))
        case None => None
        case Some(nest) => if IsHash(nest) then None else Some(first)
      else Some(first)
  }

  /** The loop over the remaining elements. */
  predicate Homogeneous(v: GoValue, i: nat, first: TomlType)
    requires v.Slice? && i <= |v.elems|
    ensures Homogeneous(v, i, first) ==> forall j | i <= j < |v.elems| :: TypeOf(v.elems[j]) == Some(first)
    decreases v, 0, |v.elems| - i
  {
    i == |v.elems| ||
    (match TypeOf(v.elems[i])
     case None => false
     case Some(t) => TypeEqual(first, t) && Homogeneous(v, i + 1, first))
  }

  // ---------- names ----------

  predicate ValidTableName(s: string) {
    s != "" && forall c <- s :: c !in "[]."
  }

  predicate ValidTableKey(key: Key) {
    forall i | 0 <= i < |key| :: ValidTableName(key[i])
  }

  // ---------- printing ----------

  /** Keys have names, and headers only valid ones. */
  predicate ValidEvents(evs: seq<Event>) {
    forall i | 0 <= i < |evs| ::
      if evs[i].KeyVal? then evs[i].name != "" else evs[i].key != [] && ValidTableKey(evs[i].key)
  }

  /** floatAddDecimal. */
  function AddDecimal(digits: string): string
  {
    if '.' in digits then digits else digits + ".0"
  }

  /** What printing comes to: an encoder error is returned to the caller, any other panic is not caught. */
  datatype Printing<T> = Printed(value: T) | Refused | Crashed

  /** eElement: the value printed behind `key =`; None where it crashes. Pointers are not followed here. */
  function Element(v: GoValue): Option<Value>
    decreases v, 1, 0
  {
    match v
    case Boolean(b) => Some(Bool(b))
    case Integer(i) => Some(Int(i))
    case Real(digits) => Some(Float(AddDecimal(digits)))
    case Text(s) => Some(Str(s))
    case Time(stamp, _) => Some(Datetime(stamp))
    case Pointer(e) => if e.Time? then Some(Str(e.text)) else None
    case Interface(e) => Element(e)
    case NilSlice => Some(Array([]))
    case Slice(_) =>
      (match ElementsFrom(v, 0)
       case None => None
       case Some(vs) => Some(Array(vs)))
    case _ => None
  }

  function ElementsFrom(v: GoValue, i: nat): (r: Option<seq<Value>>)
    requires v.Slice? && i <= |v.elems|
    decreases v, 0, |v.elems| - i
  {
    if i == |v.elems| then Some([]) else
    match (Element(v.elems[i]), ElementsFrom(v, i + 1))
    case (Some(x), Some(xs)) => Some([x] + xs)
    case _ => None
  }

  function KeyEqElement(key: Key, v: GoValue): (r: Printing<seq<Event>>)
    ensures r.Printed? ==> AllNamed(r.value) && ValidEvents(r.value)
  {
    if key == [] || key[|key| - 1] == "" then Refused else
    match Element(v)
    case None => Crashed
    case Some(x) => Printed([KeyVal(key[|key| - 1], x)])
  }

  /** One thing after another, up to the first failure. */
  function Concat(a: Printing<seq<Event>>, b: Printing<seq<Event>>): (r: Printing<seq<Event>>)
    requires (a.Printed? ==> AllNamed(a.value)) && (b.Printed? ==> AllNamed(b.value))
    ensures r.Printed? ==> AllNamed(r.value)
    ensures a.Printed? && b.Printed? && ValidEvents(a.value) && ValidEvents(b.value) ==>
              r.Printed? && ValidEvents(r.value)
  {
    if !a.Printed? then a else if !b.Printed? then b else Printed(a.value + b.value)
  }

  /** encode. */
  ghost function Encode(key: Key, v: GoValue): (r: Printing<seq<Event>>)
    ensures r.Printed? ==> AllNamed(r.value) && ValidEvents(r.value)
    decreases v, 3, 0
  {
    match v
    case NilInterface => Printed([])
    case NilMap => Printed([])
    case NilPointer(toTime) => if toTime then KeyEqElement(key, v) else Printed([])
    case Interface(e) => Encode(key, e)
    case Pointer(e) => if e.Time? then KeyEqElement(key, v) else Encode(key, e)
    case Map(_) =>
      if key == [] then EncodeMap(key, v)
      else if !ValidTableKey(key) then Refused
      else Concat(Printed([Header(key)]), EncodeMap(key, v))
    case Slice(_) =>
      if TypeOf(v).None? then Refused
      else if TypeOf(v) == Some(TypeArrayHash) then
        if key == [] || !ValidTableKey(key) then Refused else EncodeTables(key, v, 0)
      else KeyEqElement(key, v)
    case _ => KeyEqElement(key, v)
  }

  /** The loop of eArrayOfTables. */
  ghost function EncodeTables(key: Key, v: GoValue, i: nat): (r: Printing<seq<Event>>)
    requires key != [] && v.Slice? && TypeOf(v) == Some(TypeArrayHash) && i <= |v.elems|
    ensures r.Printed? ==> AllNamed(r.value) && (ValidTableKey(key) ==> ValidEvents(r.value))
    decreases v, 2, |v.elems| - i
  {
    if i == |v.elems| then Printed([])
    else
      assert v.elems[i] in v.elems && v.elems[i] in Settled(v).elems;
      Concat(Concat(Printed([ArrayHeader(key)]), EncodeMap(key, Settled(v.elems[i]))), EncodeTables(key, v, i + 1))
  }

  /** The keys eMap writes first, and the ones that open tables of their own. */
  predicate IsSub(v: GoValue) {
    TypeOf(v).Some? && IsHash(TypeOf(v).value)
  }

  function DirectKeys(v: GoValue): set<string>
    requires v.Map?
  {
    set k | k in v.entries && !IsSub(v.entries[k])
  }

  function SubKeys(v: GoValue): set<string>
    requires v.Map?
  {
    set k | k in v.entries && IsSub(v.entries[k])
  }

  /** eMap: direct keys sorted, then sub-table keys sorted. */
  ghost function EncodeMap(key: Key, v: GoValue): (r: Printing<seq<Event>>)
    requires v.Map?
    ensures r.Printed? ==> AllNamed(r.value) && ValidEvents(r.value)
    decreases v, 1, 0
  {
    if exists k | k in v.entries :: TypeOf(v.entries[k]).None? then Refused
    else Concat(EncodeKeys(key, v, SortedKeys(DirectKeys(v))), EncodeKeys(key, v, SortedKeys(SubKeys(v))))
  }

  /** The loop of writeMapKeys; what is nil itself, and not inside an interface, is passed over. */
  ghost function EncodeKeys(key: Key, v: GoValue, ks: seq<string>): (r: Printing<seq<Event>>)
    requires v.Map? && Elements(ks) <= v.entries.Keys
    ensures r.Printed? ==> AllNamed(r.value) && ValidEvents(r.value)
    decreases v, 0, |ks|
  {
    if ks == [] then Printed([])
    else
      assert ks[0] in Elements(ks) && forall k <- ks[1..] :: k in ks;
      Concat(EncodeEntry(key, ks[0], v.entries[ks[0]]), EncodeKeys(key, v, ks[1..]))
  }

  ghost function EncodeEntry(key: Key, k: string, x: GoValue): (r: Printing<seq<Event>>)
    ensures r.Printed? ==> AllNamed(r.value) && ValidEvents(r.value)
    decreases x, 4, 0
  {
    if IsNil(x) then Printed([]) else Encode(key + [k], x)
  }

  /** What is under the pointers and interfaces is what is printed. */
  lemma {:induction false} EncodeSettles(key: Key, v: GoValue)
    ensures Encode(key, v) == Encode(key, Settled(v))
    ensures TypeOf(v) == TypeOf(Settled(v))
  {
    hide EncodeMap, EncodeTables, KeyEqElement, ArrayType;
    match v
    case Interface(e) => EncodeSettles(key, e);
    case Pointer(e) => if !e.Time? { EncodeSettles(key, e); }
    case _ =>
  }

  // ---------- the tree a value stands for ----------

  /** Nothing is written for these. */
  predicate Omitted(x: GoValue) {
    IsNil(x) || Settled(x) in {NilInterface, NilMap, NilPointer(false)}
  }

  function ToTree(v: GoValue): Tree
    decreases v, 2, 0
  {
    var s := Settled(v);
    if s.Map? then Table(ToHash(s))
    else if TypeOf(v) == Some(TypeArrayHash) then
      var n := |s.elems| - 1;
      assert s.elems[n] in s.elems;
      Tables(ToHashes(s, n), ToHash(Settled(s.elems[n])))
    else if Element(s).Some? then Prim(Element(s).value)
    else Prim(Array([]))
  }

  /** The first `n` elements of an array of tables. */
  function ToHashes(v: GoValue, n: nat): (hs: seq<Hash>)
    requires v.Slice? && n <= |v.elems| && forall e <- v.elems :: Settled(e).Map?
    ensures |hs| == n
    decreases v, 1, n
  {
    if n == 0 then []
    else
      assert v.elems[n - 1] in v.elems;
      ToHashes(v, n - 1) + [ToHash(Settled(v.elems[n - 1]))]
  }

  /** nil entries are not written. */
  function ToHash(v: GoValue): Hash
    requires v.Map?
    decreases v, 0, 0
  {
    Hash(map k | k in v.entries && !Omitted(v.entries[k]) :: ToTree(v.entries[k]))
  }

  // ---------- when eElement crashes ----------

  /** Through interfaces, a pointer to something other than a time. */
  predicate IsPointer(e: GoValue)
  {
    match e
    case Interface(x) => IsPointer(x)
    case Pointer(x) => !x.Time?
    case _ => false
  }

  /** A slice that, at some depth, has a pointer for an element. */
  predicate HoldsPointer(v: GoValue)
  {
    match v
    case Interface(x) => HoldsPointer(x)
    case Slice(elems) => exists e <- elems :: IsPointer(e) || HoldsPointer(e)
    case _ => false
  }

  /** A value with a type that is not a table is printed, unless it holds a pointer: eElement has a case for
      interfaces and none for pointers, although the types of both are looked up behind them. */
  lemma {:induction false} ElementExactly(v: GoValue)
    requires TypeOf(v).Some? && TypeOf(v) != Some(NoType) && !IsSub(v)
    ensures Element(v).Some? <==> !IsPointer(v) && !HoldsPointer(v)
    decreases v, 1
  {
    hide ArrayType;
    match v
    case Interface(x) => ElementExactly(x);
    case Slice(_) => ElementsExactly(v, 0);
    case _ =>
  }

  lemma {:induction false} ElementsExactly(v: GoValue, i: nat)
    requires v.Slice? && i <= |v.elems| && TypeOf(v) == Some(TypeArray)
    ensures ElementsFrom(v, i).Some? <==>
            forall j | i <= j < |v.elems| :: !IsPointer(v.elems[j]) && !HoldsPointer(v.elems[j])
    decreases v, 0, |v.elems| - i
  {
    hide IsPointer, HoldsPointer, Element, TypeOf, IsSub;
    if i < |v.elems| {
      ElementTyped(v, i);
      ElementExactly(v.elems[i]);
      ElementsExactly(v, i + 1);
    }
  }

  /** The elements of an array are of one type, which is not a table. */
  lemma ElementTyped(v: GoValue, i: nat)
    requires v.Slice? && i < |v.elems| && TypeOf(v) == Some(TypeArray)
    ensures TypeOf(v.elems[i]) == TypeOf(v.elems[0]) && TypeOf(v.elems[0]).Some?
    ensures TypeOf(v.elems[i]) != Some(NoType) && !IsSub(v.elems[i])
  {
    hide TypeOf, ArrayType;
    ArrayTyped(v);
    FirstType(v);
  }

  lemma ArrayTyped(v: GoValue)
    requires v.Slice? && TypeOf(v) == Some(TypeArray)
    ensures ArrayType(v).Some? && ArrayType(v).value != TypeHash
  {
    hide ArrayType;
  }

  /** The common type; arrays of tables are not nested in arrays. */
  lemma FirstType(v: GoValue)
    requires v.Slice? && v.elems != [] && ArrayType(v).Some?
    ensures var first := ArrayType(v).value;
            first != NoType && first != TypeArrayHash && forall e <- v.elems :: TypeOf(e) == Some(first)
  {
    hide TypeOf, Encode;
    assert TypeOf(v.elems[0]) == ArrayType(v);
    assert forall e <- v.elems :: exists j | 0 <= j < |v.elems| :: v.elems[j] == e;
    if ArrayType(v).value == TypeArrayHash {
      EncodeSettles([], v.elems[0]);
      TablesType(Settled(v.elems[0]));
    }
  }

  lemma TablesType(s: GoValue)
    requires s.Slice? && TypeOf(s) == Some(TypeArrayHash)
    ensures ArrayType(s) == Some(TypeHash)
  {
    hide ArrayType;
  }

  /** Exactly when printing a value behind a key crashes, for every value with a type that is no table:
      a slice in it has a pointer for an element, at some depth. */
  lemma DirectCrashesExactly(key: Key, k: string, v: GoValue)
    requires TypeOf(v).Some? && TypeOf(v) != Some(NoType) && !IsSub(v) && k != ""
    ensures Encode(key + [k], v) == Crashed <==> HoldsPointer(Settled(v))
    ensures Encode(key + [k], v) == Crashed || Encode(key + [k], v).Printed?
  {
    hide TypeOf, Element, EncodeMap, EncodeTables, HoldsPointer;
    var s := Settled(v);
    EncodeSettles(key + [k], v);
    SettledTwice(v);
    ElementExactly(s);
    SettledIsNoPointer(v);
    DirectPrints(key + [k], s);
  }

  lemma SettledIsNoPointer(v: GoValue)
    ensures !IsPointer(Settled(v))
  {
  }

  lemma {:induction false} SettledTwice(v: GoValue)
    ensures Settled(Settled(v)) == Settled(v)
  {
    match v
    case Interface(e) => SettledTwice(e);
    case Pointer(e) => if !e.Time? { SettledTwice(e); }
    case _ =>
  }

  lemma DirectPrints(key: Key, s: GoValue)
    requires s == Settled(s) && TypeOf(s).Some? && !IsSub(s) && s !in {NilInterface, NilMap, NilPointer(false)}
    ensures Encode(key, s) == KeyEqElement(key, s)
  {
    hide KeyEqElement, EncodeMap, EncodeTables, ArrayType;
  }

  /** One pointer in a slice is enough. */
  lemma PointerCrashes()
    ensures TypeOf(Slice([Pointer(Integer(1))])) == Some(TypeArray)
    ensures Encode(["a"], Slice([Pointer(Integer(1))])) == Crashed
  {
    var v := Slice([Pointer(Integer(1))]);
    assert v.elems[0] == Pointer(Integer(1)) && v.elems[0] in v.elems;
    assert TypeOf(v.elems[0]) == Some(TypeInteger) && Homogeneous(v, 1, TypeInteger);
    DirectCrashesExactly([], "a", v);
    assert [] + ["a"] == ["a"];
  }
}
