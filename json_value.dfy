/**
 * The JSON value of the json library: a tagged union of null, bool, int64,
 * double, string, array and object, with the lenient accessors, type
 * queries and the printer presets.
 *
 * Two layers:
 *  - `Value` is the content of a document, a pure tree. An object's
 *    members are kept as a list strictly ascending by key, which is the
 *    order and uniqueness of the std::map behind json::map.
 *  - `Handle` is a json::value as the program holds it: scalars are
 *    immutable, while arrays and objects point at a shared backend object
 *    (`ArrayBackend`, `ObjectBackend`), so copies of a handle and views made
 *    from it alias the same payload. The aliasing is one level deep: a
 *    backend holds `Value`s, so an array or object added into another is
 *    the snapshot of its contents at that moment, where the C++ code keeps
 *    sharing the inner backend with the handle it was added from.
 */
module JsonValue {
  import opened ByteString

  type int64 = x: int | -0x8000_0000_0000_0000 <= x < 0x8000_0000_0000_0000
  type int32 = x: int | -0x8000_0000 <= x < 0x8000_0000
  type int16 = x: int | -0x8000 <= x < 0x8000
  type int8 = x: int | -0x80 <= x < 0x80

  /** A double, kept opaque: the model only compares doubles for identity. */
  datatype Double = Double(bits: bv64)

  /** json::type, in declaration order. */
  datatype Type = NULLPTR | BOOL | NUMBER | INTEGER | FLOAT | STRING | VECTOR | MAP

  datatype Value =
    | Null
    | Bool(b: bool)
    | Integer(n: int64)
    | Float(d: Double)
    | String(s: Bytes)
    | Array(items: seq<Value>)
    | Object(fields: seq<Field>)

  datatype Field = Field(key: Bytes, val: Value)

  // ---------------------------------------------------------------------
  // Type queries and lenient accessors

  /** value::get_type: the backend's type, NULLPTR without a backend. */
  function GetType(v: Value): Type
  {
    match v
    case Null => NULLPTR
    case Bool(_) => BOOL
    case Integer(_) => INTEGER
    case Float(_) => FLOAT
    case String(_) => STRING
    case Array(_) => VECTOR
    case Object(_) => MAP
  }

  /** value::is<T>, with the NUMBER specialisation. */
  predicate Is(v: Value, t: Type)
  {
    if t == NUMBER then GetType(v) == INTEGER || GetType(v) == FLOAT else GetType(v) == t
  }

  /** value::operator bool */
  predicate Truthy(v: Value) { !Is(v, NULLPTR) }

  /** get_type never answers NUMBER, and is<NUMBER> holds exactly for integers and floats. */
  lemma TypeQueries(v: Value)
    ensures GetType(v) != NUMBER
    ensures Is(v, NUMBER) <==> v.Integer? || v.Float?
    ensures Truthy(v) <==> !v.Null?
    ensures forall t :: t != NUMBER ==> (Is(v, t) <==> GetType(v) == t)
  {
  }

  /** as_bool: the stored bool, false for any other variant. */
  function AsBool(v: Value): bool { if v.Bool? then v.b else false }
  /** as_int: the stored integer, 0 for any other variant (a FLOAT included). */
  function AsInt(v: Value): int64 { if v.Integer? then v.n else 0 }
  /** The double 0.0 (all bits clear). */
  const Zero := Double(0)
  /** as_double: the stored double, 0.0 for any other variant (an INTEGER included). */
  function AsDouble(v: Value): Double { if v.Float? then v.d else Zero }
  /** as_string: the stored string, "" for any other variant. */
  function AsString(v: Value): Bytes { if v.String? then v.s else [] }

  /** The accessors never fail; on a variant mismatch they give false, 0, 0.0 and "". */
  lemma AccessorDefaults(v: Value)
    ensures !v.Bool? ==> AsBool(v) == false
    ensures !v.Integer? ==> AsInt(v) == 0
    ensures !v.Float? ==> AsDouble(v) == Zero
    ensures !v.String? ==> AsString(v) == []
    ensures v.Integer? ==> AsDouble(v) == Zero && AsInt(v) == v.n
    ensures v.Float? ==> AsInt(v) == 0 && AsDouble(v) == v.d
  {
  }

  // Constructors of json::value for each C++ argument type.
  function FromInt8(x: int8): (v: Value) ensures GetType(v) == INTEGER && AsInt(v) == x { Integer(x) }
  function FromInt16(x: int16): (v: Value) ensures GetType(v) == INTEGER && AsInt(v) == x { Integer(x) }
  function FromInt32(x: int32): (v: Value) ensures GetType(v) == INTEGER && AsInt(v) == x { Integer(x) }
  function FromInt64(x: int64): (v: Value) ensures GetType(v) == INTEGER && AsInt(v) == x { Integer(x) }
  function FromDouble(x: Double): (v: Value) ensures GetType(v) == FLOAT && AsDouble(v) == x { Float(x) }
  function FromString(s: Bytes): (v: Value) ensures GetType(v) == STRING && AsString(v) == s { String(s) }
  function FromBool(b: bool): (v: Value) ensures GetType(v) == BOOL && AsBool(v) == b { Bool(b) }

  /** The int8/16/32/64 constructors agree on every value they share. */
  lemma IntegerConstructorsAgree(x: int8)
    ensures FromInt8(x) == FromInt16(x) == FromInt32(x) == FromInt64(x) == Integer(x)
    ensures Truthy(FromInt8(x)) && Truthy(FromDouble(Zero)) && Truthy(FromString([])) && Truthy(FromBool(false))
  {
  }

  // ---------------------------------------------------------------------
  // Object members: std::map<std::string, value> order

  /** std::string ordering: lexicographic on unsigned bytes, a proper prefix first. */
  predicate KeyLess(a: Bytes, b: Bytes)
    decreases |a|
  {
    if a == [] then b != []
    else if b == [] then false
    else a[0] < b[0] || (a[0] == b[0] && KeyLess(a[1..], b[1..]))
  }

  lemma {:induction false} KeyLessIrreflexive(a: Bytes)
    ensures !KeyLess(a, a)
    decreases |a|
  {
    if a != [] {
      KeyLessIrreflexive(a[1..]);
    }
  }

  lemma {:induction false} KeyLessTransitive(a: Bytes, b: Bytes, c: Bytes)
    requires KeyLess(a, b) && KeyLess(b, c)
    ensures KeyLess(a, c)
    decreases |a|
  {
    if a != [] && b != [] && c != [] && a[0] == b[0] == c[0] {
      KeyLessTransitive(a[1..], b[1..], c[1..]);
    }
  }

  lemma {:induction false} KeyLessTotal(a: Bytes, b: Bytes)
    ensures a == b || KeyLess(a, b) || KeyLess(b, a)
    decreases |a|
  {
    if a != [] && b != [] && a[0] == b[0] {
      KeyLessTotal(a[1..], b[1..]);
      if a[1..] == b[1..] {
        assert a == [a[0]] + a[1..] && b == [b[0]] + b[1..];
      }
    }
  }

  /** Keys strictly ascending, hence unique. */
  predicate Sorted(fs: seq<Field>)
  {
    forall i, j :: 0 <= i < j < |fs| ==> KeyLess(fs[i].key, fs[j].key)
  }

  function Keys(fs: seq<Field>): set<Bytes>
  {
    if fs == [] then {} else {fs[0].key} + Keys(fs[1..])
  }

  /** Every key of the list is a key of some member, and conversely. */
  lemma {:induction false} KeysMembers(fs: seq<Field>)
    ensures forall i :: 0 <= i < |fs| ==> fs[i].key in Keys(fs)
    ensures forall k :: k in Keys(fs) ==> exists i :: 0 <= i < |fs| && fs[i].key == k
  {
    if fs != [] {
      KeysMembers(fs[1..]);
      forall k | k in Keys(fs) ensures exists i :: 0 <= i < |fs| && fs[i].key == k {
        if k != fs[0].key {
          var i :| 0 <= i < |fs[1..]| && fs[1..][i].key == k;
          assert fs[i + 1].key == k;
        }
      }
    }
  }

  /** map::find on the member list. */
  function Lookup(fs: seq<Field>, k: Bytes): Option<Value>
  {
    if fs == [] then None
    else if fs[0].key == k then Some(fs[0].val)
    else Lookup(fs[1..], k)
  }

  /**
   * map::add: overwrite the value of an existing key, otherwise insert the
   * pair at its place in key order.
   */
  function Insert(fs: seq<Field>, k: Bytes, v: Value): seq<Field>
  {
    if fs == [] then [Field(k, v)]
    else if fs[0].key == k then [Field(k, v)] + fs[1..]
    else if KeyLess(k, fs[0].key) then [Field(k, v)] + fs
    else [fs[0]] + Insert(fs[1..], k, v)
  }

  /** Every member of an inserted-into list is the new pair or an old member. */
  lemma {:induction false} InsertMembers(fs: seq<Field>, k: Bytes, v: Value)
    ensures forall x :: x in Insert(fs, k, v) ==> x == Field(k, v) || x in fs
  {
    if fs != [] && fs[0].key != k && !KeyLess(k, fs[0].key) {
      InsertMembers(fs[1..], k, v);
    }
  }

  /** map::add adds the key to the key set; the size grows only for a new key. */
  lemma {:induction false} InsertKeys(fs: seq<Field>, k: Bytes, v: Value)
    requires Sorted(fs)
    ensures Keys(Insert(fs, k, v)) == Keys(fs) + {k}
    ensures |Insert(fs, k, v)| == if k in Keys(fs) then |fs| else |fs| + 1
  {
    if fs == [] {
    } else if fs[0].key == k {
      assert Insert(fs, k, v)[1..] == fs[1..];
    } else if KeyLess(k, fs[0].key) {
      assert Insert(fs, k, v)[1..] == fs;
      assert k !in Keys(fs) by {
        KeysMembers(fs);
        if k in Keys(fs) {
          var i :| 0 <= i < |fs| && fs[i].key == k;
          KeyLessIrreflexive(k);
          if i > 0 {
            KeyLessTransitive(k, fs[0].key, fs[i].key);
          }
        }
      }
    } else {
      InsertKeys(fs[1..], k, v);
      assert Insert(fs, k, v)[1..] == Insert(fs[1..], k, v);
    }
  }

  /** map::add keeps the keys strictly ascending. */
  lemma {:induction false} InsertSorted(fs: seq<Field>, k: Bytes, v: Value)
    requires Sorted(fs)
    ensures Sorted(Insert(fs, k, v))
  {
    if fs == [] {
    } else if fs[0].key == k {
    } else if KeyLess(k, fs[0].key) {
      var r := Insert(fs, k, v);
      forall i, j | 0 <= i < j < |r| ensures KeyLess(r[i].key, r[j].key) {
        if i == 0 && j > 1 {
          KeyLessTransitive(k, fs[0].key, fs[j - 1].key);
        }
      }
    } else {
      KeyLessTotal(k, fs[0].key);
      InsertSorted(fs[1..], k, v);
      InsertAbove(fs, k, v);
      ConsSorted(fs[0], Insert(fs[1..], k, v));
    }
  }

  /** Inserting a key above the first one leaves every key of the rest above the first. */
  lemma InsertAbove(fs: seq<Field>, k: Bytes, v: Value)
    requires Sorted(fs) && fs != [] && KeyLess(fs[0].key, k)
    ensures forall j :: 0 <= j < |Insert(fs[1..], k, v)| ==> KeyLess(fs[0].key, Insert(fs[1..], k, v)[j].key)
  {
    InsertMembers(fs[1..], k, v);
    var t := Insert(fs[1..], k, v);
    forall j | 0 <= j < |t| ensures KeyLess(fs[0].key, t[j].key) {
      assert t[j] in t;
      if t[j] != Field(k, v) {
        var q :| 0 <= q < |fs[1..]| && fs[1..][q] == t[j];
        assert fs[q + 1] == t[j];
      }
    }
  }

  /** A sorted list behind a key below all of its keys is sorted. */
  lemma ConsSorted(h: Field, t: seq<Field>)
    requires Sorted(t) && forall j :: 0 <= j < |t| ==> KeyLess(h.key, t[j].key)
    ensures Sorted([h] + t)
  {
    var r := [h] + t;
    forall i, j | 0 <= i < j < |r| ensures KeyLess(r[i].key, r[j].key) {
      assert r[j] == t[j - 1];
      if i > 0 {
        assert r[i] == t[i - 1];
      }
    }
  }

  /** After map::add, the key maps to the new value and every other key is unchanged. */
  lemma {:induction false} LookupInsert(fs: seq<Field>, k: Bytes, v: Value, k2: Bytes)
    ensures Lookup(Insert(fs, k, v), k2) == if k2 == k then Some(v) else Lookup(fs, k2)
  {
    if fs != [] && fs[0].key != k && !KeyLess(k, fs[0].key) {
      LookupInsert(fs[1..], k, v, k2);
    } else if fs != [] && fs[0].key == k {
      assert Insert(fs, k, v)[1..] == fs[1..];
    } else if fs != [] {
      assert Insert(fs, k, v)[1..] == fs;
    }
  }

  /** Lookup finds exactly the keys of the list. */
  lemma {:induction false} LookupKeys(fs: seq<Field>, k: Bytes)
    ensures Lookup(fs, k).Some? <==> k in Keys(fs)
  {
    if fs != [] {
      LookupKeys(fs[1..], k);
      assert Keys(fs) == {fs[0].key} + Keys(fs[1..]);
    }
  }

  /** Every object in the tree has strictly ascending keys. */
  predicate Canonical(v: Value)
  {
    match v
    case Array(items) => forall i :: 0 <= i < |items| ==> Canonical(items[i])
    case Object(fs) => Sorted(fs) && forall i :: 0 <= i < |fs| ==> Canonical(fs[i].val)
    case _ => true
  }

  /** No FLOAT anywhere in the tree. */
  predicate FloatFree(v: Value)
  {
    match v
    case Float(_) => false
    case Array(items) => forall i :: 0 <= i < |items| ==> FloatFree(items[i])
    case Object(fs) => forall i :: 0 <= i < |fs| ==> FloatFree(fs[i].val)
    case _ => true
  }

  // ---------------------------------------------------------------------
  // Printer options (value::options)

  datatype Options = Options(namesep: Bytes, listsep: Bytes, indentStr: Bytes, indent: int, doIndent: bool)

  /** options::dense() */
  function Dense(): (o: Options)
    ensures !o.doIndent && o.indent == 0
  {
    Options([':' as int], [',' as int], [' ' as int], 0, false)
  }

  /** options::indented(indent) */
  function Indented(indent: int): (o: Options)
    ensures o.doIndent && o.indent == indent && o.indentStr == [' ' as int]
  {
    Options([':' as int, ' ' as int], [',' as int], [' ' as int], indent, true)
  }

  /** options::indented(indentStr, indent) */
  function IndentedWith(indentStr: Bytes, indent: int): (o: Options)
    ensures o.doIndent && o.indent == indent && o.indentStr == indentStr
  {
    Options([':' as int, ' ' as int], [',' as int], indentStr, indent, true)
  }

  // ---------------------------------------------------------------------
  // Handles and shared backends

  datatype Exception = BadCast | OutOfRange | InvalidArgument

  datatype Result<T> = Ok(value: T) | Throws(ex: Exception)

  /** The std::vector<value> behind a json::vector. */
  class ArrayBackend {
    var values: seq<Value>

    constructor ()
      ensures values == []
    {
      values := [];
    }

    /** vector::add: push_back. */
    method Add(v: Value)
      modifies this
      ensures values == old(values) + [v]
    {
      values := values + [v];
    }

    /** vector::size */
    method Size() returns (n: nat)
      ensures n == |values|
    {
      n := |values|;
    }

    /** vector::at: bounds-checked. */
    method At(ndx: nat) returns (r: Result<Value>)
      ensures ndx < |values| ==> r == Ok(values[ndx])
      ensures ndx >= |values| ==> r == Throws(OutOfRange)
    {
      if ndx < |values| {
        r := Ok(values[ndx]);
      } else {
        r := Throws(OutOfRange);
      }
    }
  }

  /** The std::map<std::string, value> behind a json::map. */
  class ObjectBackend {
    var values: seq<Field>

    ghost predicate Valid()
      reads this
    {
      Sorted(values)
    }

    constructor ()
      ensures Valid() && values == []
    {
      values := [];
    }

    /** map::add: overwrite or insert, keys stay unique and ordered. */
    method Add(k: Bytes, v: Value)
      requires Valid()
      modifies this
      ensures Valid()
      ensures values == Insert(old(values), k, v)
      ensures Lookup(values, k) == Some(v)
    {
      InsertSorted(values, k, v);
      LookupInsert(values, k, v, k);
      values := Insert(values, k, v);
    }

    /** map::find */
    method Find(k: Bytes) returns (r: Option<Value>)
      ensures r == Lookup(values, k)
    {
      var i := 0;
      while i < |values| && values[i].key != k
        invariant 0 <= i <= |values|
        invariant Lookup(values[i..], k) == Lookup(values, k)
      {
        assert values[i..][1..] == values[i + 1..];
        i := i + 1;
      }
      if i < |values| {
        r := Some(values[i].val);
      } else {
        r := None;
      }
    }

    /** map::at: throws out_of_range for a missing key. */
    method At(k: Bytes) returns (r: Result<Value>)
      ensures Lookup(values, k).Some? ==> r == Ok(Lookup(values, k).value)
      ensures Lookup(values, k).None? ==> r == Throws(OutOfRange)
    {
      var f := Find(k);
      if f.Some? {
        r := Ok(f.value);
      } else {
        r := Throws(OutOfRange);
      }
    }

    /** map::erase(find(k)): erasing needs the key to be present (erase(end()) is undefined). */
    method Erase(k: Bytes)
      requires Valid() && Lookup(values, k).Some?
      modifies this
      ensures Valid()
      ensures values == Remove(old(values), k)
      ensures Keys(values) == Keys(old(values)) - {k}
      ensures forall k2 :: k2 != k ==> Lookup(values, k2) == Lookup(old(values), k2)
    {
      RemoveProps(values, k);
      values := Remove(values, k);
    }

    /** map::operator[]: the stored value, inserting null for a missing key. */
    method Index(k: Bytes) returns (v: Value)
      requires Valid()
      modifies this
      ensures Valid()
      ensures old(Lookup(values, k)).Some? ==> v == old(Lookup(values, k)).value && values == old(values)
      ensures old(Lookup(values, k)).None? ==> v == Null && values == Insert(old(values), k, Null)
    {
      var f := Find(k);
      if f.Some? {
        v := f.value;
      } else {
        Add(k, Null);
        v := Null;
      }
    }
  }

  /** The member list without the member for k. */
  function Remove(fs: seq<Field>, k: Bytes): seq<Field>
  {
    if fs == [] then []
    else if fs[0].key == k then fs[1..]
    else [fs[0]] + Remove(fs[1..], k)
  }

  /** Removing keeps the order, drops exactly key k and leaves the other lookups alone. */
  lemma {:induction false} RemoveProps(fs: seq<Field>, k: Bytes)
    requires Sorted(fs)
    ensures Sorted(Remove(fs, k))
    ensures Keys(Remove(fs, k)) == Keys(fs) - {k}
    ensures forall x :: x in Remove(fs, k) ==> x in fs
    ensures forall k2 :: k2 != k ==> Lookup(Remove(fs, k), k2) == Lookup(fs, k2)
  {
    if fs != [] {
      var r := Remove(fs, k);
      if fs[0].key == k {
        assert k !in Keys(fs[1..]) by {
          KeysMembers(fs[1..]);
          if k in Keys(fs[1..]) {
            var i :| 0 <= i < |fs[1..]| && fs[1..][i].key == k;
            assert fs[i + 1].key == k;
            KeyLessIrreflexive(k);
          }
        }
      } else {
        RemoveProps(fs[1..], k);
        assert r[1..] == Remove(fs[1..], k);
        forall i, j | 0 <= i < j < |r| ensures KeyLess(r[i].key, r[j].key) {
          if i == 0 {
            assert r[j] in Remove(fs[1..], k);
            var q :| 0 <= q < |fs[1..]| && fs[1..][q] == r[j];
            assert fs[q + 1] == r[j];
          }
        }
      }
    }
  }

  /** A json::value as held by the program: scalars by value, arrays and objects through a shared backend. */
  datatype Handle =
    | HNull
    | HBool(b: bool)
    | HInteger(n: int64)
    | HFloat(d: Double)
    | HString(s: Bytes)
    | HVector(arr: ArrayBackend)
    | HMap(obj: ObjectBackend)

  function Backends(h: Handle): set<object>
  {
    match h
    case HVector(a) => {a}
    case HMap(o) => {o}
    case _ => {}
  }

  /** The document a handle currently shows. */
  function Snapshot(h: Handle): Value
    reads Backends(h)
  {
    match h
    case HNull => Null
    case HBool(b) => Bool(b)
    case HInteger(n) => Integer(n)
    case HFloat(d) => Float(d)
    case HString(s) => String(s)
    case HVector(a) => Array(a.values)
    case HMap(o) => Object(o.values)
  }

  /** json::vector(): a value with a fresh, empty array backend. */
  method NewVector() returns (h: Handle)
    ensures h.HVector? && fresh(h.arr) && Snapshot(h) == Array([])
  {
    var a := new ArrayBackend();
    h := HVector(a);
  }

  /** json::map(): a value with a fresh, empty object backend. */
  method NewMap() returns (h: Handle)
    ensures h.HMap? && fresh(h.obj) && h.obj.Valid() && Snapshot(h) == Object([])
  {
    var o := new ObjectBackend();
    h := HMap(o);
  }

  /** The explicit json::vector(const value&) constructor: shares the backend, or throws bad_cast. */
  method VectorOf(h: Handle) returns (r: Result<Handle>)
    ensures h.HVector? ==> r == Ok(h)
    ensures !h.HVector? ==> r == Throws(BadCast)
  {
    if h.HVector? {
      r := Ok(h);
    } else {
      r := Throws(BadCast);
    }
  }

  /** The explicit json::map(const value&) constructor: shares the backend, or throws bad_cast. */
  method MapOf(h: Handle) returns (r: Result<Handle>)
    ensures h.HMap? ==> r == Ok(h)
    ensures !h.HMap? ==> r == Throws(BadCast)
  {
    if h.HMap? {
      r := Ok(h);
    } else {
      r := Throws(BadCast);
    }
  }

  /** get<VECTOR>: a view sharing the backend, or a fresh empty array on a mismatch. */
  method GetVector(h: Handle) returns (r: Handle)
    ensures r.HVector?
    ensures h.HVector? ==> r == h
    ensures !h.HVector? ==> fresh(r.arr) && r.arr.values == []
  {
    if h.HVector? {
      r := h;
    } else {
      r := NewVector();
    }
  }

  /** get<MAP>: a view sharing the backend, or a fresh empty object on a mismatch. */
  method GetMap(h: Handle) returns (r: Handle)
    ensures r.HMap?
    ensures h.HMap? ==> r == h
    ensures !h.HMap? ==> fresh(r.obj) && r.obj.values == [] && r.obj.Valid()
  {
    if h.HMap? {
      r := h;
    } else {
      r := NewMap();
    }
  }

  /**
   * Adding through a view made from a value is visible through the value
   * and through every copy of it, since they share one backend.
   */
  method AddThroughView(h: Handle, copy: Handle, x: Value)
    requires h.HVector? && copy == h
    modifies h.arr
    ensures Snapshot(h) == Snapshot(copy) == Array(old(h.arr.values) + [x])
  {
    var view := VectorOf(h);
    view.value.arr.Add(x);
  }

  /** A view over an array of another handle is unaffected: adding through a fresh get<VECTOR> result leaves the source alone. */
  method AddThroughMismatchedGet(h: Handle, x: Value)
    requires !h.HVector?
    ensures Snapshot(h) == old(Snapshot(h))
  {
    var view := GetVector(h);
    view.arr.Add(x);
  }
}
