/**
 * What the translators of serdes.hpp promise: packed values are
 * well-formed documents, the struct translator emits exactly the valid
 * members in key order, the unpack loops stop at the first failure keeping
 * what they wrote, and unpacking a packed object gives the object back.
 */
module JsonSerdesFacts {
  import opened ByteString
  import opened JsonValue
  import opened JsonSerdes

  // ---------------------------------------------------------------------
  // Packed values

  /** Every object pack produces has strictly ascending keys, at every depth. */
  lemma {:induction false} PackCanonical(s: Shape, d: Data)
    requires Fits(s, d)
    ensures Canonical(Pack(s, d))
    decreases s, 2
  {
    match s
    case Prim(_) =>
    case SeqOf(e) =>
      forall i | 0 <= i < |d.items| ensures Canonical(Pack(e, d.items[i])) {
        PackCanonical(e, d.items[i]);
      }
    case MapOf(e) =>
      PackEntriesCanonical(e, d.entries);
    case Struct(ms) =>
      PackMembersCanonical(ms, d.fields, |ms|);
  }

  lemma {:induction false} PackEntriesCanonical(e: Shape, es: seq<Entry>)
    requires forall i :: 0 <= i < |es| ==> Fits(e, es[i].val)
    ensures Canonical(Object(PackEntries(e, es)))
    decreases MapOf(e), 0, |es|
  {
    if es != [] {
      var init := es[..|es| - 1];
      var last := es[|es| - 1];
      PackEntriesCanonical(e, init);
      PackCanonical(e, last.val);
      InsertCanonical(PackEntries(e, init), last.key, Pack(e, last.val));
    }
  }

  lemma {:induction false} PackMembersCanonical(ms: seq<Member>, fields: seq<Data>, n: nat)
    requires n <= |ms| == |fields|
    requires forall i :: 0 <= i < |ms| ==> Fits(ms[i].shape, fields[i])
    ensures Canonical(Object(PackMembers(ms, fields, n)))
    decreases Struct(ms), 0, n
  {
    if n > 0 {
      PackMembersCanonical(ms, fields, n - 1);
      if Valid(ms[n - 1], fields[n - 1]) {
        PackMemberCanonical(ms[n - 1], fields[n - 1]);
        InsertCanonical(PackMembers(ms, fields, n - 1), ms[n - 1].name, PackMember(ms[n - 1], fields[n - 1]));
      }
    }
  }

  lemma {:induction false} PackMemberCanonical(m: Member, d: Data)
    requires Fits(m.shape, d)
    ensures Canonical(PackMember(m, d))
    decreases m.shape, 3
  {
    if m.kind == Item && Size(d) == 1 && m.shape.SeqOf? {
      PackCanonical(m.shape.elem, d.items[0]);
    } else if m.kind == Item && Size(d) == 1 && m.shape.MapOf? {
      PackCanonical(m.shape.elem, d.entries[0].val);
    } else {
      PackCanonical(m.shape, d);
    }
  }

  /** map::add into a well-formed object with a well-formed value keeps it well-formed. */
  lemma InsertCanonical(fs: seq<Field>, k: Bytes, v: Value)
    requires Canonical(Object(fs)) && Canonical(v)
    ensures Canonical(Object(Insert(fs, k, v)))
  {
    InsertSorted(fs, k, v);
    InsertMembers(fs, k, v);
    var r := Insert(fs, k, v);
    forall i | 0 <= i < |r| ensures Canonical(r[i].val) {
      assert r[i] in r;
      if r[i] != Field(k, v) {
        var q :| 0 <= q < |fs| && fs[q] == r[i];
      }
    }
  }

  /** map::add of a key above every key present appends the pair. */
  lemma {:induction false} InsertLast(fs: seq<Field>, k: Bytes, v: Value)
    requires forall i :: 0 <= i < |fs| ==> KeyLess(fs[i].key, k)
    ensures Insert(fs, k, v) == fs + [Field(k, v)]
  {
    if fs != [] {
      KeyLessIrreflexive(k);
      KeyLessNotBoth(fs[0].key, k);
      InsertLast(fs[1..], k, v);
    }
  }

  /** The map translator packs a std::map pair for pair, in key order. */
  lemma {:induction false} PackEntriesInOrder(e: Shape, es: seq<Entry>)
    requires EntriesSorted(es) && forall i :: 0 <= i < |es| ==> Fits(e, es[i].val)
    ensures |PackEntries(e, es)| == |es|
    ensures forall i :: 0 <= i < |es| ==> PackEntries(e, es)[i] == Field(es[i].key, Pack(e, es[i].val))
    decreases |es|
  {
    if es != [] {
      var init := es[..|es| - 1];
      var last := es[|es| - 1];
      assert EntriesSorted(init) by {
        forall i, j | 0 <= i < j < |init| ensures KeyLess(init[i].key, init[j].key) {
          assert init[i] == es[i] && init[j] == es[j];
        }
      }
      PackEntriesInOrder(e, init);
      var fs := PackEntries(e, init);
      forall i | 0 <= i < |fs| ensures KeyLess(fs[i].key, last.key) {
        assert fs[i].key == es[i].key;
      }
      InsertLast(fs, last.key, Pack(e, last.val));
      assert PackEntries(e, es) == fs + [Field(last.key, Pack(e, last.val))];
    }
  }

  /** The names struct_translator::pack emits among the first n members: exactly the valid ones. */
  function ValidNames(ms: seq<Member>, fields: seq<Data>, n: nat): set<Bytes>
    requires n <= |ms| == |fields|
  {
    set j | 0 <= j < n && Valid(ms[j], fields[j]) :: ms[j].name
  }

  /** struct_translator::pack emits exactly the valid members, keys ascending. */
  lemma {:induction false} PackMembersKeys(ms: seq<Member>, fields: seq<Data>, n: nat)
    requires n <= |ms| == |fields|
    requires forall i :: 0 <= i < |ms| ==> Fits(ms[i].shape, fields[i])
    ensures Sorted(PackMembers(ms, fields, n))
    ensures Keys(PackMembers(ms, fields, n)) == ValidNames(ms, fields, n)
  {
    PackMembersCanonical(ms, fields, n);
    if n > 0 {
      PackMembersKeys(ms, fields, n - 1);
      var fs := PackMembers(ms, fields, n - 1);
      if Valid(ms[n - 1], fields[n - 1]) {
        InsertKeys(fs, ms[n - 1].name, PackMember(ms[n - 1], fields[n - 1]));
      }
      assert ValidNames(ms, fields, n) == ValidNames(ms, fields, n - 1) +
        (if Valid(ms[n - 1], fields[n - 1]) then {ms[n - 1].name} else {});
    }
  }

  predicate DistinctNames(ms: seq<Member>)
  {
    forall i, j :: 0 <= i < j < |ms| ==> ms[i].name != ms[j].name
  }

  /** With distinct names, a member's key holds its pack when it is valid and is absent otherwise. */
  lemma {:induction false} LookupPacked(ms: seq<Member>, fields: seq<Data>, n: nat, i: nat)
    requires n <= |ms| == |fields| && i < n && DistinctNames(ms)
    requires forall j :: 0 <= j < |ms| ==> Fits(ms[j].shape, fields[j])
    ensures Lookup(PackMembers(ms, fields, n), ms[i].name) ==
      if Valid(ms[i], fields[i]) then Some(PackMember(ms[i], fields[i])) else None
  {
    var fs := PackMembers(ms, fields, n - 1);
    if Valid(ms[n - 1], fields[n - 1]) {
      LookupInsert(fs, ms[n - 1].name, PackMember(ms[n - 1], fields[n - 1]), ms[i].name);
    }
    if i == n - 1 {
      LookupAbsent(ms, fields, n - 1, ms[i].name);
    } else {
      LookupPacked(ms, fields, n - 1, i);
    }
  }

  /** A name that none of the first n members carries is absent from their pack. */
  lemma {:induction false} LookupAbsent(ms: seq<Member>, fields: seq<Data>, n: nat, k: Bytes)
    requires n <= |ms| == |fields|
    requires forall j :: 0 <= j < |ms| ==> Fits(ms[j].shape, fields[j])
    requires forall j :: 0 <= j < n ==> ms[j].name != k
    ensures Lookup(PackMembers(ms, fields, n), k) == None
  {
    if n > 0 {
      LookupAbsent(ms, fields, n - 1, k);
      if Valid(ms[n - 1], fields[n - 1]) {
        LookupInsert(PackMembers(ms, fields, n - 1), ms[n - 1].name, PackMember(ms[n - 1], fields[n - 1]), k);
      }
    }
  }

  // ---------------------------------------------------------------------
  // The unpack loops

  /** One turn of the element loop on an element that unpacks. */
  lemma ItemsStep(e: Shape, input: seq<Value>, acc: seq<Data>, rule: ItemRule, x: Data)
    requires input != [] && Fits(e, x) && forall i :: 0 <= i < |acc| ==> Fits(e, acc[i])
    requires Unpack(e, input[0], Default(e), rule) == (true, x)
    ensures UnpackItems(e, input, acc, rule) == UnpackItems(e, input[1..], acc + [x], rule)
  {
  }

  /** The element loop from a prefix `acc` keeps the prefix and adds at most one value per element. */
  lemma {:induction false} UnpackItemsKeeps(e: Shape, input: seq<Value>, acc: seq<Data>, rule: ItemRule,
                                            ok: bool, out: seq<Data>)
    requires forall i :: 0 <= i < |acc| ==> Fits(e, acc[i])
    requires (ok, out) == UnpackItems(e, input, acc, rule)
    ensures |acc| <= |out| <= |acc| + |input| && out[..|acc|] == acc
    decreases |input|
  {
    if input != [] {
      var (itemOk, x) := Unpack(e, input[0], Default(e), rule);
      if itemOk {
        ItemsStep(e, input, acc, rule, x);
        UnpackItemsKeeps(e, input[1..], acc + [x], rule, ok, out);
        assert out[..|acc|] == (out[..|acc| + 1])[..|acc|];
      }
    }
  }

  /** The value the element loop adds at place j is what the j-th element unpacked to. */
  lemma {:induction false} UnpackItemsAt(e: Shape, input: seq<Value>, acc: seq<Data>, rule: ItemRule,
                                         ok: bool, out: seq<Data>, j: nat)
    requires forall i :: 0 <= i < |acc| ==> Fits(e, acc[i])
    requires (ok, out) == UnpackItems(e, input, acc, rule)
    requires |acc| + j < |out| <= |acc| + |input|
    ensures Unpack(e, input[j], Default(e), rule) == (true, out[|acc| + j])
    decreases j
  {
    var (itemOk, x) := Unpack(e, input[0], Default(e), rule);
    if itemOk {
      ItemsStep(e, input, acc, rule, x);
      UnpackItemsKeeps(e, input[1..], acc + [x], rule, ok, out);
      if j == 0 {
        assert out[|acc|] == out[..|acc| + 1][|acc|];
      } else {
        UnpackItemsAt(e, input[1..], acc + [x], rule, ok, out, j - 1);
        assert input[1..][j - 1] == input[j];
      }
    }
  }

  /** The element loop succeeds exactly when it took every element, and otherwise stops at one that fails. */
  lemma {:induction false} UnpackItemsStop(e: Shape, input: seq<Value>, acc: seq<Data>, rule: ItemRule,
                                           ok: bool, out: seq<Data>)
    requires forall i :: 0 <= i < |acc| ==> Fits(e, acc[i])
    requires (ok, out) == UnpackItems(e, input, acc, rule)
    ensures |acc| <= |out| <= |acc| + |input|
    ensures ok <==> |out| == |acc| + |input|
    ensures !ok ==> !Unpack(e, input[|out| - |acc|], Default(e), rule).0
    decreases |input|
  {
    if input != [] {
      var (itemOk, x) := Unpack(e, input[0], Default(e), rule);
      if itemOk {
        ItemsStep(e, input, acc, rule, x);
        UnpackItemsStop(e, input[1..], acc + [x], rule, ok, out);
        if !ok {
          assert input[1..][|out| - |acc| - 1] == input[|out| - |acc|];
        }
      } else {
        assert out == acc && !ok;
        assert input[|out| - |acc|] == input[0];
      }
    }
  }

  /** A sequence unpacks through the element loop, starting from an empty sequence. */
  lemma SequenceLoop(e: Shape, v: Value, ctx: Data, rule: ItemRule, ok: bool, d: Data)
    requires Fits(SeqOf(e), ctx) && (ok, d) == Unpack(SeqOf(e), v, ctx, rule)
    ensures d.DSeq? && (ok, d.items) == UnpackItems(e, ElementsOf(v), [], rule)
  {
  }

  /**
   * container_translator::unpack: the result holds the unpacked elements
   * of the array, in order.
   */
  lemma SequenceUnpackElements(e: Shape, v: Value, ctx: Data, rule: ItemRule, ok: bool, d: Data)
    requires Fits(SeqOf(e), ctx) && (ok, d) == Unpack(SeqOf(e), v, ctx, rule)
    ensures |d.items| <= |ElementsOf(v)|
    ensures forall i :: 0 <= i < |d.items| ==> Unpack(e, ElementsOf(v)[i], Default(e), rule) == (true, d.items[i])
  {
    SequenceLoop(e, v, ctx, rule, ok, d);
    UnpackItemsKeeps(e, ElementsOf(v), [], rule, ok, d.items);
    forall i | 0 <= i < |d.items|
      ensures Unpack(e, ElementsOf(v)[i], Default(e), rule) == (true, d.items[i])
    {
      UnpackItemsAt(e, ElementsOf(v), [], rule, ok, d.items, i);
    }
  }

  /**
   * container_translator::unpack succeeds exactly when every element did,
   * stopping before the first one that fails; a non-array reads as an
   * empty sequence and succeeds.
   */
  lemma SequenceUnpackStops(e: Shape, v: Value, ctx: Data, rule: ItemRule, ok: bool, d: Data)
    requires Fits(SeqOf(e), ctx) && (ok, d) == Unpack(SeqOf(e), v, ctx, rule)
    ensures |d.items| <= |ElementsOf(v)|
    ensures ok <==> |d.items| == |ElementsOf(v)|
    ensures !ok ==> !Unpack(e, ElementsOf(v)[|d.items|], Default(e), rule).0
    ensures !v.Array? ==> ok && d == DSeq([])
  {
    SequenceLoop(e, v, ctx, rule, ok, d);
    UnpackItemsStop(e, ElementsOf(v), [], rule, ok, d.items);
  }

  /** One turn of the map loop on a member whose key is above every key so far. */
  lemma EntriesStep(e: Shape, input: seq<Field>, acc: seq<Entry>, rule: ItemRule, ok: bool, x: Data)
    requires input != [] && Fits(e, x)
    requires EntriesSorted(acc) && forall i :: 0 <= i < |acc| ==> Fits(e, acc[i].val)
    requires forall i :: 0 <= i < |acc| ==> KeyLess(acc[i].key, input[0].key)
    requires Unpack(e, input[0].val, Default(e), rule) == (ok, x)
    ensures EntriesSorted(acc + [Entry(input[0].key, x)])
    ensures UnpackEntries(e, input, acc, rule) ==
      if ok then UnpackEntries(e, input[1..], acc + [Entry(input[0].key, x)], rule)
      else (false, acc + [Entry(input[0].key, x)])
  {
    PutLast(acc, input[0].key, x);
    PutSorted(acc, input[0].key, x);
  }

  /** The keys still to come are ascending and above every key of `acc`. */
  predicate Ahead(acc: seq<Entry>, input: seq<Field>)
  {
    Sorted(input) && forall i, j {:trigger KeyLess(acc[i].key, input[j].key)} :: 0 <= i < |acc| && 0 <= j < |input| ==> KeyLess(acc[i].key, input[j].key)
  }

  lemma AheadStep(acc: seq<Entry>, input: seq<Field>, x: Data)
    requires input != [] && Ahead(acc, input)
    ensures Ahead(acc + [Entry(input[0].key, x)], input[1..])
  {
    var acc' := acc + [Entry(input[0].key, x)];
    forall i, j | 0 <= i < |acc'| && 0 <= j < |input[1..]|
      ensures KeyLess(acc'[i].key, input[1..][j].key)
    {
      if i < |acc| {
        assert KeyLess(acc[i].key, input[j + 1].key);
      } else {
        assert KeyLess(input[0].key, input[j + 1].key);
      }
    }
  }

  /** The map loop from pairs `acc` below every key to come keeps them and adds at most a pair per member. */
  lemma {:induction false} UnpackEntriesKeeps(e: Shape, input: seq<Field>, acc: seq<Entry>, rule: ItemRule,
                                              ok: bool, out: seq<Entry>)
    requires EntriesSorted(acc) && forall i :: 0 <= i < |acc| ==> Fits(e, acc[i].val)
    requires Ahead(acc, input)
    requires (ok, out) == UnpackEntries(e, input, acc, rule)
    ensures |acc| <= |out| <= |acc| + |input| && out[..|acc|] == acc
    decreases |input|
  {
    if input != [] {
      var (itemOk, x) := Unpack(e, input[0].val, Default(e), rule);
      EntriesStep(e, input, acc, rule, itemOk, x);
      var acc' := acc + [Entry(input[0].key, x)];
      if itemOk {
        AheadStep(acc, input, x);
        UnpackEntriesKeeps(e, input[1..], acc', rule, ok, out);
        assert out[..|acc|] == (out[..|acc'|])[..|acc|];
      }
    }
  }

  /**
   * A pair the map loop added past `acc` is the first member with its
   * unpacked value, and the loop went on from there only if it had more
   * to add.
   */
  /** The map loop from `acc` over `input`, with the keys still to come above those already added, gave (ok, out). */
  predicate EntriesLoop(e: Shape, input: seq<Field>, acc: seq<Entry>, rule: ItemRule, ok: bool, out: seq<Entry>)
  {
    EntriesSorted(acc) && (forall i :: 0 <= i < |acc| ==> Fits(e, acc[i].val)) &&
    Ahead(acc, input) && (ok, out) == UnpackEntries(e, input, acc, rule)
  }

  lemma EntriesAdvance(e: Shape, input: seq<Field>, acc: seq<Entry>, rule: ItemRule, ok: bool, out: seq<Entry>)
    requires EntriesLoop(e, input, acc, rule, ok, out) && |acc| < |out|
    ensures input != []
    ensures out[|acc|] == Entry(input[0].key, Unpack(e, input[0].val, Default(e), rule).1)
    ensures |acc| + 1 < |out| ==> EntriesLoop(e, input[1..], acc + [out[|acc|]], rule, ok, out)
  {
    var (itemOk, x) := Unpack(e, input[0].val, Default(e), rule);
    EntriesStep(e, input, acc, rule, itemOk, x);
    var acc' := acc + [Entry(input[0].key, x)];
    if itemOk {
      AheadStep(acc, input, x);
      UnpackEntriesKeeps(e, input[1..], acc', rule, ok, out);
      assert out[|acc|] == out[..|acc'|][|acc|];
    }
  }

  /**
   * The pair the map loop adds at place j is the j-th member's key with
   * its unpacked value.
   */
  lemma {:induction false} UnpackEntriesAt(e: Shape, input: seq<Field>, acc: seq<Entry>, rule: ItemRule,
                                           ok: bool, out: seq<Entry>, j: nat)
    requires EntriesLoop(e, input, acc, rule, ok, out)
    requires |acc| + j < |out| && j < |input|
    ensures out[|acc| + j] == Entry(input[j].key, Unpack(e, input[j].val, Default(e), rule).1)
    decreases j
  {
    EntriesAdvance(e, input, acc, rule, ok, out);
    if j > 0 {
      var acc', rest := acc + [out[|acc|]], input[1..];
      assert |acc'| + (j - 1) == |acc| + j && rest[j - 1] == input[j];
      UnpackEntriesAt(e, rest, acc', rule, ok, out, j - 1);
    }
  }

  /** The map loop succeeds exactly when every member unpacked. */
  lemma {:induction false} UnpackEntriesStop(e: Shape, input: seq<Field>, acc: seq<Entry>, rule: ItemRule,
                                             ok: bool, out: seq<Entry>)
    requires EntriesSorted(acc) && forall i :: 0 <= i < |acc| ==> Fits(e, acc[i].val)
    requires Ahead(acc, input)
    requires (ok, out) == UnpackEntries(e, input, acc, rule)
    ensures ok <==> forall j :: 0 <= j < |input| ==> Unpack(e, input[j].val, Default(e), rule).0
    ensures ok ==> |out| == |acc| + |input|
    decreases |input|
  {
    if input != [] {
      var (itemOk, x) := Unpack(e, input[0].val, Default(e), rule);
      EntriesStep(e, input, acc, rule, itemOk, x);
      if itemOk {
        AheadStep(acc, input, x);
        UnpackEntriesStop(e, input[1..], acc + [Entry(input[0].key, x)], rule, ok, out);
        forall j | 0 <= j < |input[1..]| ensures input[1..][j] == input[j + 1] {
        }
        if !ok {
          var j :| 0 <= j < |input[1..]| && !Unpack(e, input[1..][j].val, Default(e), rule).0;
          assert !Unpack(e, input[j + 1].val, Default(e), rule).0;
        }
      }
    }
  }

  /** A map unpacks through the map loop, starting from an empty map. */
  lemma MapLoop(e: Shape, v: Value, ctx: Data, rule: ItemRule, ok: bool, d: Data)
    requires Fits(MapOf(e), ctx) && (ok, d) == Unpack(MapOf(e), v, ctx, rule)
    ensures d.DMap? && (ok, d.entries) == UnpackEntries(e, MembersOf(v), [], rule)
  {
  }

  /**
   * The map translator's unpack of an object: the pairs are the object's
   * members with their values unpacked, in key order, up to and including
   * the first member that fails.
   */
  lemma MapUnpackEntries(e: Shape, v: Value, ctx: Data, rule: ItemRule, ok: bool, d: Data)
    requires Fits(MapOf(e), ctx) && Canonical(v) && (ok, d) == Unpack(MapOf(e), v, ctx, rule)
    ensures |d.entries| <= |MembersOf(v)|
    ensures forall i :: 0 <= i < |d.entries| ==>
      d.entries[i] == Entry(MembersOf(v)[i].key, Unpack(e, MembersOf(v)[i].val, Default(e), rule).1)
  {
    MapLoop(e, v, ctx, rule, ok, d);
    UnpackEntriesKeeps(e, MembersOf(v), [], rule, ok, d.entries);
    forall i | 0 <= i < |d.entries|
      ensures d.entries[i] == Entry(MembersOf(v)[i].key, Unpack(e, MembersOf(v)[i].val, Default(e), rule).1)
    {
      UnpackEntriesAt(e, MembersOf(v), [], rule, ok, d.entries, i);
    }
  }

  /**
   * The map translator's unpack succeeds exactly when every member's value
   * did, and then holds a pair per member; a non-object reads as an empty
   * map and succeeds.
   */
  lemma MapUnpackStops(e: Shape, v: Value, ctx: Data, rule: ItemRule, ok: bool, d: Data)
    requires Fits(MapOf(e), ctx) && Canonical(v) && (ok, d) == Unpack(MapOf(e), v, ctx, rule)
    ensures ok <==> forall i :: 0 <= i < |MembersOf(v)| ==> Unpack(e, MembersOf(v)[i].val, Default(e), rule).0
    ensures ok ==> |d.entries| == |MembersOf(v)|
    ensures !v.Object? ==> ok && d == DMap([])
  {
    MapLoop(e, v, ctx, rule, ok, d);
    UnpackEntriesStop(e, MembersOf(v), [], rule, ok, d.entries);
  }

  /**
   * struct_translator::unpack from member i on: members before i are kept,
   * and on success every later member was present or is optional.
   */
  lemma {:induction false} UnpackMembersPresence(ms: seq<Member>, fs: seq<Field>, cur: seq<Data>, i: nat, rule: ItemRule,
                                                 ok: bool, out: seq<Data>)
    requires i <= |ms| == |cur| && forall j :: 0 <= j < |ms| ==> Fits(ms[j].shape, cur[j])
    requires (ok, out) == UnpackMembers(ms, fs, cur, i, rule)
    ensures out[..i] == cur[..i]
    ensures ok ==> forall j :: i <= j < |ms| ==> Lookup(fs, ms[j].name).Some? || IsOptional(ms[j], rule)
    decreases |ms| - i
  {
    if i < |ms| {
      var m := ms[i];
      match Lookup(fs, m.name)
      case None =>
        if IsOptional(m, rule) {
          UnpackMembersPresence(ms, fs, cur[i := Default(m.shape)], i + 1, rule, ok, out);
          assert out[..i] == out[..i + 1][..i];
        }
      case Some(x) =>
        var (itemOk, f) := UnpackMember(m, x, cur[i], rule);
        if itemOk {
          UnpackMembersPresence(ms, fs, cur[i := f], i + 1, rule, ok, out);
          assert out[..i] == out[..i + 1][..i];
        }
    }
  }

  /**
   * On success, struct_translator::unpack leaves every absent optional
   * member at its default and every present member at what its value
   * unpacked to.
   */
  lemma {:induction false} UnpackMembersValues(ms: seq<Member>, fs: seq<Field>, cur: seq<Data>, i: nat, rule: ItemRule,
                                               ok: bool, out: seq<Data>)
    requires i <= |ms| == |cur| && forall j :: 0 <= j < |ms| ==> Fits(ms[j].shape, cur[j])
    requires (ok, out) == UnpackMembers(ms, fs, cur, i, rule)
    ensures ok ==> forall j :: i <= j < |ms| && Lookup(fs, ms[j].name).None? ==> out[j] == Default(ms[j].shape)
    ensures ok ==> forall j :: i <= j < |ms| && Lookup(fs, ms[j].name).Some? ==>
      UnpackMember(ms[j], Lookup(fs, ms[j].name).value, cur[j], rule) == (true, out[j])
    decreases |ms| - i
  {
    if i < |ms| {
      var m := ms[i];
      match Lookup(fs, m.name)
      case None =>
        if IsOptional(m, rule) {
          var cur' := cur[i := Default(m.shape)];
          UnpackMembersValues(ms, fs, cur', i + 1, rule, ok, out);
          UnpackMembersPresence(ms, fs, cur', i + 1, rule, ok, out);
          assert out[i] == out[..i + 1][i];
        }
      case Some(x) =>
        var (itemOk, f) := UnpackMember(m, x, cur[i], rule);
        if itemOk {
          var cur' := cur[i := f];
          UnpackMembersValues(ms, fs, cur', i + 1, rule, ok, out);
          UnpackMembersPresence(ms, fs, cur', i + 1, rule, ok, out);
          assert out[i] == out[..i + 1][i];
        }
    }
  }

  /** A non-object never unpacks into a struct, and leaves it untouched. */
  lemma StructUnpackNeedsObject(ms: seq<Member>, v: Value, ctx: Data, rule: ItemRule)
    requires Fits(Struct(ms), ctx) && !v.Object?
    ensures Unpack(Struct(ms), v, ctx, rule) == (false, ctx)
  {
  }

  // ---------------------------------------------------------------------
  // Round trip

  /**
   * The shapes that survive pack and unpack: member names are distinct,
   * and an item member holds a sequence whose elements are not sequences
   * themselves (a one-element sequence of arrays would pack as an array
   * and unpack as the whole container; a one-pair map loses its key).
   */
  predicate RoundTrips(s: Shape)
    decreases s
  {
    match s
    case Prim(_) => true
    case SeqOf(e) => RoundTrips(e)
    case MapOf(e) => RoundTrips(e)
    case Struct(ms) =>
      DistinctNames(ms) &&
      forall i :: 0 <= i < |ms| ==> RoundTrips(ms[i].shape) && ItemShapeOk(ms[i])
  }

  predicate ItemShapeOk(m: Member)
  {
    m.kind == Item ==> m.shape.SeqOf? && !m.shape.elem.SeqOf?
  }

  /**
   * Unpacking what pack produced gives the object back, whatever the
   * target held before, once absent item members are cleaned like
   * optional ones.
   */
  lemma {:induction false} RoundTrip(s: Shape, d: Data, ctx: Data)
    requires RoundTrips(s) && Fits(s, d) && Fits(s, ctx)
    ensures Unpack(s, Pack(s, d), ctx, ItemsOptional) == (true, d)
    decreases s, 2
  {
    match s
    case Prim(p) =>
    case SeqOf(e) =>
      ItemsRoundTrip(e, d.items, 0);
    case MapOf(e) =>
      PackEntriesInOrder(e, d.entries);
      EntriesRoundTrip(e, d.entries, 0);
    case Struct(ms) =>
      assert d.fields[..0] + ctx.fields[0..] == ctx.fields;
      MembersRoundTrip(ms, d.fields, ctx.fields, 0);
  }

  lemma {:induction false} ItemsRoundTrip(e: Shape, items: seq<Data>, k: nat)
    requires RoundTrips(e) && k <= |items| && forall i :: 0 <= i < |items| ==> Fits(e, items[i])
    ensures UnpackItems(e, PackItems(e, items)[k..], items[..k], ItemsOptional) == (true, items)
    decreases SeqOf(e), 0, |items| - k
  {
    if k == |items| {
      assert items[..k] == items;
    } else {
      ItemsRoundTripStep(e, items, PackItems(e, items), k);
      ItemsRoundTrip(e, items, k + 1);
    }
  }

  /** One element of the sequence round trip: the packed element unpacks to the element it came from. */
  lemma ItemsRoundTripStep(e: Shape, items: seq<Data>, vs: seq<Value>, k: nat)
    requires RoundTrips(e) && k < |items| && forall i :: 0 <= i < |items| ==> Fits(e, items[i])
    requires |vs| == |items| && vs[k] == Pack(e, items[k])
    ensures UnpackItems(e, vs[k..], items[..k], ItemsOptional) == UnpackItems(e, vs[k + 1..], items[..k + 1], ItemsOptional)
    decreases SeqOf(e), 0, 0
  {
    var input := vs[k..];
    RoundTrip(e, items[k], Default(e));
    assert input[1..] == vs[k + 1..];
    assert items[..k] + [items[k]] == items[..k + 1];
    ItemsStep(e, input, items[..k], ItemsOptional, items[k]);
  }

  lemma {:induction false} EntriesRoundTrip(e: Shape, es: seq<Entry>, k: nat)
    requires RoundTrips(e) && EntriesSorted(es) && k <= |es| && forall i :: 0 <= i < |es| ==> Fits(e, es[i].val)
    requires |PackEntries(e, es)| == |es|
    requires forall i :: 0 <= i < |es| ==> PackEntries(e, es)[i] == Field(es[i].key, Pack(e, es[i].val))
    ensures UnpackEntries(e, PackEntries(e, es)[k..], es[..k], ItemsOptional) == (true, es)
    decreases MapOf(e), 0, |es| - k + 1
  {
    if k == |es| {
      assert es[..k] == es;
    } else {
      EntriesRoundTripStep(e, es, PackEntries(e, es), k);
      EntriesRoundTrip(e, es, k + 1);
    }
  }

  /** One pair of the map round trip: the packed member unpacks to the pair it came from. */
  lemma EntriesRoundTripStep(e: Shape, es: seq<Entry>, fs: seq<Field>, k: nat)
    requires RoundTrips(e) && EntriesSorted(es) && k < |es| && forall i :: 0 <= i < |es| ==> Fits(e, es[i].val)
    requires |fs| == |es| && fs[k] == Field(es[k].key, Pack(e, es[k].val))
    ensures UnpackEntries(e, fs[k..], es[..k], ItemsOptional) == UnpackEntries(e, fs[k + 1..], es[..k + 1], ItemsOptional)
    decreases MapOf(e), 0, 0
  {
    var input := fs[k..];
    var acc := es[..k];
    RoundTrip(e, es[k].val, Default(e));
    assert input[1..] == fs[k + 1..];
    assert acc + [Entry(es[k].key, es[k].val)] == es[..k + 1];
    forall i | 0 <= i < |acc| ensures KeyLess(acc[i].key, input[0].key) {
      assert acc[i] == es[i];
    }
    EntriesStep(e, input, acc, ItemsOptional, true, es[k].val);
  }

  lemma {:induction false} MembersRoundTrip(ms: seq<Member>, fields: seq<Data>, ctx: seq<Data>, i: nat)
    requires DistinctNames(ms) && forall j :: 0 <= j < |ms| ==> RoundTrips(ms[j].shape) && ItemShapeOk(ms[j])
    requires i <= |ms| == |fields| == |ctx|
    requires forall j :: 0 <= j < |ms| ==> Fits(ms[j].shape, fields[j]) && Fits(ms[j].shape, ctx[j])
    ensures UnpackMembers(ms, PackMembers(ms, fields, |ms|), fields[..i] + ctx[i..], i, ItemsOptional) == (true, fields)
    decreases Struct(ms), 0, |ms| - i
  {
    var cur := fields[..i] + ctx[i..];
    if i == |ms| {
      assert cur == fields;
    } else {
      var m := ms[i];
      LookupPacked(ms, fields, |ms|, i);
      if Valid(m, fields[i]) {
        MemberRoundTrip(m, fields[i], cur[i]);
      } else {
        assert fields[i] == Default(m.shape);
      }
      assert cur[i := fields[i]] == fields[..i + 1] + ctx[i + 1..];
      MembersRoundTrip(ms, fields, ctx, i + 1);
    }
  }

  lemma {:induction false} MemberRoundTrip(m: Member, d: Data, cur: Data)
    requires RoundTrips(m.shape) && ItemShapeOk(m) && Fits(m.shape, d) && Fits(m.shape, cur) && Valid(m, d)
    ensures UnpackMember(m, PackMember(m, d), cur, ItemsOptional) == (true, d)
    decreases m.shape, 3
  {
    if m.kind == Item {
      var e := m.shape.elem;
      if Size(d) == 1 {
        RoundTrip(e, d.items[0], Default(e));
        assert d.items == [d.items[0]];
      } else {
        RoundTrip(m.shape, d, DSeq([]));
      }
    } else {
      RoundTrip(m.shape, d, cur);
    }
  }

  /** json::unpack<T>(json::pack(x)) == x for the shapes that round-trip. */
  lemma DocumentRoundTrip(s: Shape, d: Data)
    requires RoundTrips(s) && Fits(s, d)
    ensures UnpackDocument(s, Pack(s, d), ItemsOptional) == d
  {
    RoundTrip(s, d, Default(s));
  }

  // ---------------------------------------------------------------------
  // Where the round trip breaks

  /**
   * As written, an item member is required on unpack, yet pack leaves an
   * empty one out: a struct whose item member is empty packs to `{}`,
   * which does not unpack, and json::unpack hands back the default.
   */
  lemma EmptyItemRejected(ctx: Data)
    requires Fits(Struct([Member([120], Item, SeqOf(Prim(PString)))]), ctx)
    ensures var s := Struct([Member([120], Item, SeqOf(Prim(PString)))]);
      Pack(s, DRecord([DSeq([])])) == Object([]) &&
      Unpack(s, Object([]), ctx, ItemsRequired) == (false, ctx)
  {
    var s := Struct([Member([120], Item, SeqOf(Prim(PString)))]);
    assert !Valid(s.members[0], DSeq([]));
    assert PackMembers(s.members, [DSeq([])], 1) == [];
    assert Lookup([], [120]).None?;
  }

  /** A one-pair map in an item member packs as its value alone, and comes back under the empty key. */
  lemma ItemMapLosesKey()
    ensures var m := Member([105], Item, MapOf(Prim(PInt(W32))));
      var d := DMap([Entry([107], DInt(1))]);
      PackMember(m, d) == Integer(1) &&
      UnpackMember(m, Integer(1), d, ItemsOptional) == (true, DMap([Entry([], DInt(1))]))
  {
  }
}
