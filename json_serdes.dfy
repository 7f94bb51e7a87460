/**
 * The marshalling layer of the json library (serdes.hpp): translators that
 * pack a C++ object into a json::value and unpack one back into it.
 *
 * The C++ code is a family of templates selected by the field types. Here
 * a `Shape` describes such a type (a primitive, a sequence, a string-keyed
 * std::map or a JSON_STRUCT with its registered members), and `Data` is an
 * object of that shape. `Fits(s, d)` says that `d` is an object of type
 * `s`, which the C++ type system guarantees.
 *
 * `unpack` writes through a `void*` into the caller's object; here it
 * returns the new object next to its success flag, so the partial writes
 * left behind by a failure are part of the result.
 */
module JsonSerdes {
  import opened ByteString
  import opened JsonValue

  /** int8_t, int16_t, int32_t, int64_t. */
  datatype Width = W8 | W16 | W32 | W64

  /** 2^(bits - 1): the magnitude of the most negative value of the width. */
  function Half(w: Width): int
  {
    match w
    case W8 => 0x80
    case W16 => 0x8000
    case W32 => 0x8000_0000
    case W64 => 0x8000_0000_0000_0000
  }

  /**
   * The conversion T(int64_t) of simple_translator::unpack: two's
   * complement truncation to the width of the field.
   */
  function Truncate(n: int64, w: Width): (r: int)
    ensures -Half(w) <= r < Half(w)
    ensures (r - n) % (2 * Half(w)) == 0
    ensures -Half(w) <= n < Half(w) ==> r == n
  {
    Wraps(n, w);
    (n + Half(w)) % (2 * Half(w)) - Half(w)
  }

  /** Reducing into [-Half(w), Half(w)) moves by a multiple of 2 Half(w) and keeps what is already there. */
  lemma Wraps(n: int, w: Width)
    ensures var h, r := Half(w), (n + Half(w)) % (2 * Half(w)) - Half(w);
      -h <= r < h && (r - n) % (2 * h) == 0 && (-h <= n < h ==> r == n)
  {
    match w
    case W8 =>
    case W16 =>
    case W32 =>
    case W64 =>
  }

  /** The SIMPLE_TRANSLATOR types (float is read as double). */
  datatype Prim = PNull | PBool | PString | PInt(w: Width) | PDouble

  /** JSON_PROP, JSON_OPT_PROP and JSON_ITEM_PROP registrations. */
  datatype Kind = Plain | Optional | Item

  datatype Shape =
    | Prim(p: Prim)
    | SeqOf(elem: Shape)
    | MapOf(elem: Shape)
    | Struct(members: seq<Member>)

  datatype Member = Member(name: Bytes, kind: Kind, shape: Shape)

  datatype Data =
    | DNull
    | DBool(b: bool)
    | DString(s: Bytes)
    | DInt(n: int)
    | DDouble(d: Double)
    | DSeq(items: seq<Data>)
    | DMap(entries: seq<Entry>)
    | DRecord(fields: seq<Data>)

  /** One pair of a std::map<std::string, T>. */
  datatype Entry = Entry(key: Bytes, val: Data)

  /**
   * Whether an item member that is absent from the object is an error (as
   * the code is written: member_item_translator keeps the default
   * `optional() == false`) or is cleaned like an optional member.
   */
  datatype ItemRule = ItemsRequired | ItemsOptional

  // ---------------------------------------------------------------------
  // Objects of a shape

  predicate PrimFits(p: Prim, d: Data)
  {
    match p
    case PNull => d.DNull?
    case PBool => d.DBool?
    case PString => d.DString?
    case PInt(w) => d.DInt? && -Half(w) <= d.n < Half(w)
    case PDouble => d.DDouble?
  }

  /** std::map keeps its keys strictly ascending. */
  predicate EntriesSorted(es: seq<Entry>)
  {
    forall i, j :: 0 <= i < j < |es| ==> KeyLess(es[i].key, es[j].key)
  }

  /** `d` is an object of the C++ type `s`. */
  predicate Fits(s: Shape, d: Data)
    decreases s
  {
    match s
    case Prim(p) => PrimFits(p, d)
    case SeqOf(e) => d.DSeq? && forall i :: 0 <= i < |d.items| ==> Fits(e, d.items[i])
    case MapOf(e) => d.DMap? && EntriesSorted(d.entries) && forall i :: 0 <= i < |d.entries| ==> Fits(e, d.entries[i].val)
    case Struct(ms) => d.DRecord? && |d.fields| == |ms| && forall i :: 0 <= i < |ms| ==> Fits(ms[i].shape, d.fields[i])
  }

  /** The value-initialised object `T{}` (or `P()`). */
  function Default(s: Shape): (d: Data)
    ensures Fits(s, d)
    decreases s, 1
  {
    match s
    case Prim(p) =>
      (match p
       case PNull => DNull
       case PBool => DBool(false)
       case PString => DString([])
       case PInt(_) => DInt(0)
       case PDouble => DDouble(Zero))
    case SeqOf(_) => DSeq([])
    case MapOf(_) => DMap([])
    case Struct(ms) => DRecord(Defaults(ms, |ms|))
  }

  function Defaults(ms: seq<Member>, n: nat): (ds: seq<Data>)
    requires n <= |ms|
    ensures |ds| == n && forall i :: 0 <= i < n ==> Fits(ms[i].shape, ds[i])
    decreases Struct(ms), 0, n
  {
    if n == 0 then [] else Defaults(ms, n - 1) + [Default(ms[n - 1].shape)]
  }

  /** The number of elements of a container (0 for anything else). */
  function Size(d: Data): nat
  {
    match d
    case DSeq(items) => |items|
    case DMap(es) => |es|
    case _ => 0
  }

  /** named_translator::valid: whether struct_translator::pack emits the member. */
  predicate Valid(m: Member, d: Data)
  {
    match m.kind
    case Plain => true
    case Optional => d != Default(m.shape)
    case Item => Size(d) > 0
  }

  /** named_translator::optional, under the given item rule. */
  predicate IsOptional(m: Member, rule: ItemRule)
  {
    m.kind == Optional || (m.kind == Item && rule == ItemsOptional)
  }

  // ---------------------------------------------------------------------
  // pack

  /** simple_translator::pack: the json::value constructor for the field type. */
  function PackPrim(p: Prim, d: Data): (v: Value)
    requires PrimFits(p, d)
  {
    match p
    case PNull => Null
    case PBool => Bool(d.b)
    case PString => String(d.s)
    case PInt(w) => Integer(d.n)
    case PDouble => Float(d.d)
  }

  function Pack(s: Shape, d: Data): Value
    requires Fits(s, d)
    decreases s, 2
  {
    match s
    case Prim(p) => PackPrim(p, d)
    case SeqOf(e) => Array(PackItems(e, d.items))
    case MapOf(e) => Object(PackEntries(e, d.entries))
    case Struct(ms) => Object(PackMembers(ms, d.fields, |ms|))
  }

  /** container_translator::pack: each element packed, in container order. */
  function PackItems(e: Shape, items: seq<Data>): (vs: seq<Value>)
    requires forall i :: 0 <= i < |items| ==> Fits(e, items[i])
    ensures |vs| == |items| && forall i :: 0 <= i < |items| ==> vs[i] == Pack(e, items[i])
    decreases SeqOf(e), 0, |items|
  {
    if items == [] then [] else PackItems(e, items[..|items| - 1]) + [Pack(e, items[|items| - 1])]
  }

  /** The map translator's pack: `out.add(key, pack(value))` for each pair in key order. */
  function PackEntries(e: Shape, es: seq<Entry>): seq<Field>
    requires forall i :: 0 <= i < |es| ==> Fits(e, es[i].val)
    decreases MapOf(e), 0, |es|
  {
    if es == [] then []
    else Insert(PackEntries(e, es[..|es| - 1]), es[|es| - 1].key, Pack(e, es[|es| - 1].val))
  }

  /** struct_translator::pack over the first n registered members: `obj.add(name, pack)` for each valid one. */
  function PackMembers(ms: seq<Member>, fields: seq<Data>, n: nat): seq<Field>
    requires n <= |ms| == |fields|
    requires forall i :: 0 <= i < |ms| ==> Fits(ms[i].shape, fields[i])
    decreases Struct(ms), 0, n
  {
    if n == 0 then []
    else
      var fs := PackMembers(ms, fields, n - 1);
      if Valid(ms[n - 1], fields[n - 1]) then Insert(fs, ms[n - 1].name, PackMember(ms[n - 1], fields[n - 1])) else fs
  }

  /**
   * The pack of one member. An item member holding exactly one element
   * packs as that element (the first pair's value of a map); everything
   * else packs as the whole field.
   */
  function PackMember(m: Member, d: Data): Value
    requires Fits(m.shape, d)
    decreases m.shape, 3
  {
    if m.kind == Item && Size(d) == 1 then
      match m.shape
      case SeqOf(e) => Pack(e, d.items[0])
      case MapOf(e) => Pack(e, d.entries[0].val)
      case _ => Pack(m.shape, d)
    else Pack(m.shape, d)
  }

  // ---------------------------------------------------------------------
  // unpack

  /** simple_translator::unpack: `T(v.as<expected>())`, never failing. */
  function Convert(p: Prim, v: Value): (d: Data)
    ensures PrimFits(p, d)
  {
    match p
    case PNull => DNull
    case PBool => DBool(AsBool(v))
    case PString => DString(AsString(v))
    case PInt(w) => DInt(Truncate(AsInt(v), w))
    case PDouble => DDouble(AsDouble(v))
  }

  /** get<VECTOR>(v): the elements of an array, an empty vector for anything else. */
  function ElementsOf(v: Value): seq<Value>
  {
    if v.Array? then v.items else []
  }

  /** get<MAP>(v): the members of an object, an empty map for anything else. */
  function MembersOf(v: Value): seq<Field>
  {
    if v.Object? then v.fields else []
  }

  /** The value of key k in the pairs, or None. */
  function Find(es: seq<Entry>, k: Bytes): Option<Data>
  {
    if es == [] then None
    else if es[0].key == k then Some(es[0].val)
    else Find(es[1..], k)
  }

  /** std::map assignment at key k: overwrite, or insert at its place in key order. */
  function Put(es: seq<Entry>, k: Bytes, d: Data): seq<Entry>
  {
    if es == [] then [Entry(k, d)]
    else if es[0].key == k then [Entry(k, d)] + es[1..]
    else if KeyLess(k, es[0].key) then [Entry(k, d)] + es
    else [es[0]] + Put(es[1..], k, d)
  }

  function Unpack(s: Shape, v: Value, ctx: Data, rule: ItemRule): (r: (bool, Data))
    requires Fits(s, ctx)
    ensures Fits(s, r.1)
    decreases s, 2
  {
    match s
    case Prim(p) => (true, Convert(p, v))
    case SeqOf(e) =>
      var (ok, items) := UnpackItems(e, ElementsOf(v), [], rule);
      (ok, DSeq(items))
    case MapOf(e) =>
      var (ok, es) := UnpackEntries(e, MembersOf(v), [], rule);
      (ok, DMap(es))
    case Struct(ms) =>
      if !v.Object? then (false, ctx)
      else
        var (ok, fields) := UnpackMembers(ms, v.fields, ctx.fields, 0, rule);
        (ok, DRecord(fields))
  }

  /**
   * container_translator::unpack after `out.clear()`: unpack each element
   * into a fresh default and push it; the first failure stops the loop.
   */
  function UnpackItems(e: Shape, input: seq<Value>, acc: seq<Data>, rule: ItemRule): (r: (bool, seq<Data>))
    requires forall i :: 0 <= i < |acc| ==> Fits(e, acc[i])
    ensures forall i :: 0 <= i < |r.1| ==> Fits(e, r.1[i])
    decreases SeqOf(e), 0, |input|
  {
    if input == [] then (true, acc)
    else
      var (ok, x) := Unpack(e, input[0], Default(e), rule);
      if !ok then (false, acc) else UnpackItems(e, input[1..], acc + [x], rule)
  }

  /**
   * The map translator's unpack after `out.clear()`: for each member,
   * `out[key]` (a default value for a new key) is unpacked in place; the
   * first failure stops the loop with that pair already in the map.
   */
  function UnpackEntries(e: Shape, input: seq<Field>, acc: seq<Entry>, rule: ItemRule): (r: (bool, seq<Entry>))
    requires EntriesSorted(acc) && forall i :: 0 <= i < |acc| ==> Fits(e, acc[i].val)
    ensures EntriesSorted(r.1) && forall i :: 0 <= i < |r.1| ==> Fits(e, r.1[i].val)
    decreases MapOf(e), 0, |input|
  {
    if input == [] then (true, acc)
    else
      var k := input[0].key;
      var cur := match Find(acc, k) case Some(d) => d case None => Default(e);
      FindFits(e, acc, k);
      var (ok, x) := Unpack(e, input[0].val, cur, rule);
      PutSorted(acc, k, x);
      PutFits(e, acc, k, x);
      var acc' := Put(acc, k, x);
      if !ok then (false, acc') else UnpackEntries(e, input[1..], acc', rule)
  }

  lemma {:induction false} FindFits(e: Shape, es: seq<Entry>, k: Bytes)
    requires forall i :: 0 <= i < |es| ==> Fits(e, es[i].val)
    ensures Find(es, k).Some? ==> Fits(e, Find(es, k).value)
  {
    if es != [] && es[0].key != k {
      FindFits(e, es[1..], k);
    }
  }

  /** Assigning a key above every key already present appends the pair. */
  lemma {:induction false} PutLast(es: seq<Entry>, k: Bytes, d: Data)
    requires forall i :: 0 <= i < |es| ==> KeyLess(es[i].key, k)
    ensures Find(es, k) == None
    ensures Put(es, k, d) == es + [Entry(k, d)]
  {
    if es != [] {
      KeyLessIrreflexive(k);
      KeyLessNotBoth(es[0].key, k);
      PutLast(es[1..], k, d);
    }
  }

  /** Every pair after an assignment is the new pair or an old one. */
  lemma {:induction false} PutMembers(es: seq<Entry>, k: Bytes, d: Data)
    ensures forall x :: x in Put(es, k, d) ==> x == Entry(k, d) || x in es
  {
    if es != [] && es[0].key != k && !KeyLess(k, es[0].key) {
      PutMembers(es[1..], k, d);
    }
  }

  lemma PutFits(e: Shape, es: seq<Entry>, k: Bytes, d: Data)
    requires Fits(e, d) && forall i :: 0 <= i < |es| ==> Fits(e, es[i].val)
    ensures forall i :: 0 <= i < |Put(es, k, d)| ==> Fits(e, Put(es, k, d)[i].val)
  {
    PutMembers(es, k, d);
    forall i | 0 <= i < |Put(es, k, d)| ensures Fits(e, Put(es, k, d)[i].val) {
      var x := Put(es, k, d)[i];
      assert x in Put(es, k, d);
      if x != Entry(k, d) {
        var q :| 0 <= q < |es| && es[q] == x;
      }
    }
  }

  /** Assignment keeps a std::map's keys strictly ascending. */
  lemma {:induction false} PutSorted(es: seq<Entry>, k: Bytes, d: Data)
    requires EntriesSorted(es)
    ensures EntriesSorted(Put(es, k, d))
    decreases |es|
  {
    if es == [] {
    } else if es[0].key == k {
    } else if KeyLess(k, es[0].key) {
      PutSortedFront(es, k, d);
    } else {
      PutSorted(es[1..], k, d);
      PutSortedAfter(es, k, d);
    }
  }

  /** A key below the first one goes in front and keeps the order. */
  lemma PutSortedFront(es: seq<Entry>, k: Bytes, d: Data)
    requires EntriesSorted(es) && es != [] && KeyLess(k, es[0].key)
    ensures EntriesSorted(Put(es, k, d))
  {
    var r := Put(es, k, d);
    forall i, j | 0 <= i < j < |r| ensures KeyLess(r[i].key, r[j].key) {
      if i == 0 && j > 1 {
        KeyLessTransitive(k, es[0].key, es[j - 1].key);
      }
    }
  }

  /** A key above the first one goes into the rest, after the first. */
  lemma PutSortedAfter(es: seq<Entry>, k: Bytes, d: Data)
    requires EntriesSorted(es) && es != [] && es[0].key != k && !KeyLess(k, es[0].key)
    requires EntriesSorted(Put(es[1..], k, d))
    ensures EntriesSorted(Put(es, k, d))
  {
    KeyLessTotal(k, es[0].key);
    PutMembers(es[1..], k, d);
    var r := Put(es, k, d);
    var t := Put(es[1..], k, d);
    assert r == [es[0]] + t;
    forall j | 0 < j < |r| ensures KeyLess(r[0].key, r[j].key) {
      assert r[j] == t[j - 1];
      assert t[j - 1] in t;
      if t[j - 1] != Entry(k, d) {
        var q :| 0 <= q < |es[1..]| && es[1..][q] == t[j - 1];
        assert es[q + 1] == t[j - 1];
      }
    }
  }

  lemma KeyLessNotBoth(a: Bytes, b: Bytes)
    requires KeyLess(a, b)
    ensures !KeyLess(b, a)
  {
    if KeyLess(b, a) {
      KeyLessTransitive(a, b, a);
      KeyLessIrreflexive(a);
    }
  }

  /**
   * struct_translator::unpack from the member at index i, in registration
   * order: a missing required member fails, a missing optional one is
   * cleaned, a present one is unpacked into its field; the first failure
   * stops the loop, keeping the fields written so far.
   */
  function UnpackMembers(ms: seq<Member>, fs: seq<Field>, cur: seq<Data>, i: nat, rule: ItemRule): (r: (bool, seq<Data>))
    requires i <= |ms| == |cur| && forall j :: 0 <= j < |ms| ==> Fits(ms[j].shape, cur[j])
    ensures |r.1| == |ms| && forall j :: 0 <= j < |ms| ==> Fits(ms[j].shape, r.1[j])
    decreases Struct(ms), 0, |ms| - i
  {
    if i == |ms| then (true, cur)
    else
      var m := ms[i];
      match Lookup(fs, m.name)
      case None =>
        if !IsOptional(m, rule) then (false, cur)
        else UnpackMembers(ms, fs, cur[i := Default(m.shape)], i + 1, rule)
      case Some(x) =>
        var (ok, f) := UnpackMember(m, x, cur[i], rule);
        if !ok then (false, cur[i := f]) else UnpackMembers(ms, fs, cur[i := f], i + 1, rule)
  }

  /**
   * The unpack of one present member. An item member clears its container;
   * a source of the container's own shape (an array for a sequence, an
   * object for a map) is unpacked as the container, anything else into a
   * single default element (the "" key of a map).
   */
  function UnpackMember(m: Member, x: Value, cur: Data, rule: ItemRule): (r: (bool, Data))
    requires Fits(m.shape, cur)
    ensures Fits(m.shape, r.1)
    decreases m.shape, 3
  {
    if m.kind == Item then
      match m.shape
      case SeqOf(e) =>
        if x.Array? then Unpack(m.shape, x, DSeq([]), rule)
        else
          var (ok, y) := Unpack(e, x, Default(e), rule);
          (ok, DSeq([y]))
      case MapOf(e) =>
        if x.Object? then Unpack(m.shape, x, DMap([]), rule)
        else
          var (ok, y) := Unpack(e, x, Default(e), rule);
          (ok, DMap([Entry([], y)]))
      case _ => Unpack(m.shape, x, cur, rule)
    else Unpack(m.shape, x, cur, rule)
  }

  /** json::unpack<T>: the unpacked object, or `T{}` when unpacking fails. */
  function UnpackDocument(s: Shape, v: Value, rule: ItemRule): (d: Data)
    ensures Fits(s, d)
    ensures !Unpack(s, v, Default(s), rule).0 ==> d == Default(s)
    ensures Unpack(s, v, Default(s), rule).0 ==> d == Unpack(s, v, Default(s), rule).1
  {
    var (ok, d) := Unpack(s, v, Default(s), rule);
    if ok then d else Default(s)
  }

  // ---------------------------------------------------------------------
  // The unpack loops as the code runs them

  /** container_translator::unpack: clear, then push each unpacked element until one fails. */
  method UnpackSequence(e: Shape, v: Value, rule: ItemRule) returns (ok: bool, out: seq<Data>)
    ensures (ok, DSeq(out)) == Unpack(SeqOf(e), v, DSeq([]), rule)
  {
    var input := ElementsOf(v);
    out := [];
    var i := 0;
    while i < |input|
      invariant 0 <= i <= |input|
      invariant forall j :: 0 <= j < |out| ==> Fits(e, out[j])
      invariant UnpackItems(e, input[i..], out, rule) == UnpackItems(e, input, [], rule)
    {
      assert input[i..][1..] == input[i + 1..];
      var (itemOk, x) := Unpack(e, input[i], Default(e), rule);
      if !itemOk {
        return false, out;
      }
      out := out + [x];
      i := i + 1;
    }
    ok := true;
  }

  /** The map translator's unpack: clear, then unpack each member into `out[key]` until one fails. */
  method UnpackMap(e: Shape, v: Value, rule: ItemRule) returns (ok: bool, out: seq<Entry>)
    ensures (ok, DMap(out)) == Unpack(MapOf(e), v, DMap([]), rule)
  {
    var input := MembersOf(v);
    out := [];
    var i := 0;
    while i < |input|
      invariant 0 <= i <= |input|
      invariant EntriesSorted(out) && forall j :: 0 <= j < |out| ==> Fits(e, out[j].val)
      invariant UnpackEntries(e, input[i..], out, rule) == UnpackEntries(e, input, [], rule)
    {
      assert input[i..][1..] == input[i + 1..];
      var itemOk;
      itemOk, out := UnpackEntry(e, input[i..], out, rule);
      if !itemOk {
        return false, out;
      }
      i := i + 1;
    }
    ok := true;
  }

  /** One member of the map translator's unpack: `out[key]` unpacked from the member's value. */
  method UnpackEntry(e: Shape, input: seq<Field>, out: seq<Entry>, rule: ItemRule) returns (ok: bool, out1: seq<Entry>)
    requires input != [] && EntriesSorted(out) && forall j :: 0 <= j < |out| ==> Fits(e, out[j].val)
    ensures EntriesSorted(out1) && forall j :: 0 <= j < |out1| ==> Fits(e, out1[j].val)
    ensures UnpackEntries(e, input, out, rule) == if ok then UnpackEntries(e, input[1..], out1, rule) else (false, out1)
  {
    var k := input[0].key;
    FindFits(e, out, k);
    var cur := match Find(out, k) case Some(d) => d case None => Default(e);
    var r := Unpack(e, input[0].val, cur, rule);
    var x := r.1;
    ok := r.0;
    PutSorted(out, k, x);
    PutFits(e, out, k, x);
    out1 := Put(out, k, x);
  }

  /** struct_translator::unpack: visit the members in registration order, stopping at the first failure. */
  method UnpackRecord(ms: seq<Member>, v: Value, ctx: seq<Data>, rule: ItemRule) returns (ok: bool, fields: seq<Data>)
    requires |ctx| == |ms| && forall j :: 0 <= j < |ms| ==> Fits(ms[j].shape, ctx[j])
    ensures (ok, DRecord(fields)) == Unpack(Struct(ms), v, DRecord(ctx), rule)
  {
    if !v.Object? {
      return false, ctx;
    }
    fields := ctx;
    for i := 0 to |ms|
      invariant |fields| == |ms| && forall j :: 0 <= j < |ms| ==> Fits(ms[j].shape, fields[j])
      invariant UnpackMembers(ms, v.fields, fields, i, rule) == UnpackMembers(ms, v.fields, ctx, 0, rule)
    {
      var m := ms[i];
      match Lookup(v.fields, m.name) {
        case None =>
          if !IsOptional(m, rule) {
            return false, fields;
          }
          fields := fields[i := Default(m.shape)];
        case Some(x) =>
          var (memberOk, f) := UnpackMember(m, x, fields[i], rule);
          fields := fields[i := f];
          if !memberOk {
            return false, fields;
          }
      }
    }
    ok := true;
  }
}
