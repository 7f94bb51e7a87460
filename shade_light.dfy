/**
 * Lights and groups of the shade model (light_source.h, light_source.cc,
 * light.cc, group.cc): the fields every light source has, their
 * comparison, the change-detecting update of a light from the bridge's
 * report, the comparison of light lists, and the translators that write a
 * light source and a group's light references into json and read them back.
 *
 * A light_source is a value record `Source`; `Light` and `Group` are the
 * objects that hold one (a C++ base subobject), and a group refers to its
 * lights by object, as the shared pointers of the original do.
 */
module ShadeLight {
  import opened ByteString
  import opened JsonValue
  import opened JsonSerdes
  import JsonSerdesFacts
  import opened ShadeColor

  /** The fields of a light_source: index, id, name, type, on, brightness and colour. */
  datatype Source = Source(idx: Bytes, id: Bytes, name: Bytes, kind: Bytes, on: bool, bri: int32, value: Color)

  /**
   * light_source::operator==: id, name, type, on, brightness and colour;
   * the index is not compared. With the colour comparison, two sources are
   * equal when they agree everywhere but in the index and their colour is
   * not empty.
   */
  function SourceEq(a: Source, b: Source): (r: bool)
    ensures r <==> !a.value.Empty? && a.(idx := b.idx) == b
  {
    a.id == b.id && a.name == b.name && a.kind == b.kind && a.on == b.on && a.bri == b.bri && ColorEq(a.value, b.value)
  }

  /** The light the bridge reports (hue::light, with the members of its state update reads). */
  datatype HueLightState = HueLightState(on: bool, bri: int32, hue: int32, sat: int32, ct: int32, xy: (Double, Double), colormode: Bytes)
  datatype HueLight = HueLight(name: Bytes, modelid: Bytes, uniqueid: Bytes, state: HueLightState)

  /**
   * The source after light::update: id from the unique id, name, type from
   * the model id, on, the clamped brightness and the colour derived from
   * the state (color::from_json, whose result is an input here).
   */
  function Updated(s: Source, json: HueLight, mode: Color): Source
  {
    s.(id := json.uniqueid, name := json.name, kind := json.modelid, on := json.state.on,
       bri := Clamp(json.state.bri), value := mode)
  }

  /** Updating twice with the same report is updating once. */
  lemma UpdatedTwice(s: Source, json: HueLight, mode: Color)
    ensures Updated(Updated(s, json, mode), json, mode) == Updated(s, json, mode)
  {
  }

  /**
   * A second update with the same report finds a change exactly when the
   * derived colour is empty: an empty colour never equals itself.
   */
  lemma UpdateAgain(s: Source, json: HueLight, mode: Color)
    ensures var t := Updated(s, json, mode);
      !SourceEq(t, Updated(t, json, mode)) <==> mode.Empty?
  {
  }

  class Light {
    var src: Source

    constructor(src: Source)
      ensures this.src == src
    {
      this.src := src;
    }

    /** light_source::bri(v): the clamped value is stored. */
    method SetBri(v: int32)
      modifies this
      ensures src == old(src).(bri := Clamp(v))
    {
      src := src.(bri := Clamp(v));
    }

    /**
     * light::update: each of id, name, type, on, brightness and colour is
     * set when it differs; the result says whether any did, that is,
     * whether the light no longer compares equal to what it was.
     */
    method Update(key: Bytes, json: HueLight, mode: Color) returns (updated: bool)
      modifies this
      ensures src == Updated(old(src), json, mode)
      ensures updated <==> !SourceEq(old(src), src)
    {
      updated := false;
      var brightness := Clamp(json.state.bri);
      if src.id != json.uniqueid {
        updated := true;
        src := src.(id := json.uniqueid);
      }
      if src.name != json.name {
        updated := true;
        src := src.(name := json.name);
      }
      if src.kind != json.modelid {
        updated := true;
        src := src.(kind := json.modelid);
      }
      if src.on != json.state.on {
        updated := true;
        src := src.(on := json.state.on);
      }
      if src.bri != brightness {
        updated := true;
        SetBri(brightness);
      }
      if ColorNe(src.value, mode) {
        updated := true;
        src := src.(value := mode);
      }
    }
  }

  // ---------------------------------------------------------------------
  // range_equal

  /**
   * The loop of range_equal as written: at the first null on the left it
   * answers whether the right is null too, without looking further.
   */
  function RangeEqFrom(lhs: seq<Light?>, rhs: seq<Light?>, i: nat): bool
    requires |lhs| == |rhs| && i <= |lhs|
    reads lhs, rhs
    decreases |lhs| - i
  {
    if i == |lhs| then true
    else if lhs[i] == null then rhs[i] == null
    else if rhs[i] == null then false
    else if !SourceEq(rhs[i].src, lhs[i].src) then false
    else RangeEqFrom(lhs, rhs, i + 1)
  }

  /** range_equal, as written: false for different sizes, else the loop. */
  function RangeEq(lhs: seq<Light?>, rhs: seq<Light?>): bool
    reads lhs, rhs
  {
    |lhs| == |rhs| && RangeEqFrom(lhs, rhs, 0)
  }

  /** Two entries of the lists agree: both null, or both lights that compare equal. */
  predicate SameLight(l: Light?, r: Light?)
    reads l, r
  {
    (l == null && r == null) || (l != null && r != null && SourceEq(r.src, l.src))
  }

  /** The comparison range_equal evidently means: a null matches a null and the loop goes on. */
  function RangeEqFixedFrom(lhs: seq<Light?>, rhs: seq<Light?>, i: nat): (r: bool)
    requires |lhs| == |rhs| && i <= |lhs|
    reads lhs, rhs
    ensures r <==> forall j :: i <= j < |lhs| ==> SameLight(lhs[j], rhs[j])
    decreases |lhs| - i
  {
    if i == |lhs| then true
    else if lhs[i] == null then rhs[i] == null && RangeEqFixedFrom(lhs, rhs, i + 1)
    else if rhs[i] == null then false
    else if !SourceEq(rhs[i].src, lhs[i].src) then false
    else RangeEqFixedFrom(lhs, rhs, i + 1)
  }

  /** range_equal, corrected: the same size and every pair of entries agreeing. */
  function RangeEqFixed(lhs: seq<Light?>, rhs: seq<Light?>): (r: bool)
    reads lhs, rhs
    ensures r <==> |lhs| == |rhs| && forall j :: 0 <= j < |lhs| ==> SameLight(lhs[j], rhs[j])
  {
    |lhs| == |rhs| && RangeEqFixedFrom(lhs, rhs, 0)
  }

  /** Without nulls on the left the two readings agree; the written one accepts whatever the corrected one does. */
  lemma {:induction false} RangeEqAgrees(lhs: seq<Light?>, rhs: seq<Light?>, i: nat)
    requires |lhs| == |rhs| && i <= |lhs|
    ensures RangeEqFixedFrom(lhs, rhs, i) ==> RangeEqFrom(lhs, rhs, i)
    ensures (forall j :: i <= j < |lhs| ==> lhs[j] != null) ==> RangeEqFrom(lhs, rhs, i) == RangeEqFixedFrom(lhs, rhs, i)
    decreases |lhs| - i
  {
    if i < |lhs| && lhs[i] != null && rhs[i] != null && SourceEq(rhs[i].src, lhs[i].src) {
      RangeEqAgrees(lhs, rhs, i + 1);
    }
  }

  /** The written loop stops at a null pair: lists that differ after it still compare equal. */
  lemma NullHidesRest(a: Light, b: Light)
    requires !SourceEq(b.src, a.src)
    ensures RangeEq([null, a], [null, b]) && !RangeEqFixed([null, a], [null, b])
  {
    assert !SameLight([null, a][1], [null, b][1]);
  }

  /** range_equal as the code runs it. */
  method RangeEqual(lhs: seq<Light?>, rhs: seq<Light?>) returns (r: bool)
    ensures r == RangeEq(lhs, rhs)
  {
    if |lhs| != |rhs| {
      return false;
    }
    var i := 0;
    while i < |lhs|
      invariant 0 <= i <= |lhs|
      invariant RangeEqFrom(lhs, rhs, 0) == RangeEqFrom(lhs, rhs, i)
    {
      var lhsItem, rhsItem := lhs[i], rhs[i];
      if lhsItem == null {
        return rhsItem == null;
      }
      if rhsItem == null {
        return false;
      }
      if !SourceEq(rhsItem.src, lhsItem.src) {
        return false;
      }
      i := i + 1;
    }
    return true;
  }

  // ---------------------------------------------------------------------
  // group

  class Group {
    var src: Source
    var some: bool
    var klass: Bytes
    var lights: seq<Light>

    constructor(src: Source, some: bool, klass: Bytes, lights: seq<Light>)
      ensures this.src == src && this.some == some && this.klass == klass && this.lights == lights
    {
      this.src := src;
      this.some := some;
      this.klass := klass;
      this.lights := lights;
    }
  }

  /**
   * group::operator==: the light_source part, `some`, the class and the
   * light lists, these compared as range_equal evidently means.
   */
  function GroupEq(a: Group, b: Group): (r: bool)
    reads a, b, a.lights, b.lights
    ensures r <==> (!a.src.value.Empty? && a.src.(idx := b.src.idx) == b.src && a.some == b.some && a.klass == b.klass &&
                    |a.lights| == |b.lights| && forall j :: 0 <= j < |a.lights| ==> SourceEq(b.lights[j].src, a.lights[j].src))
  {
    SourceEq(a.src, b.src) && a.some == b.some && a.klass == b.klass && RangeEqFixed(a.lights, b.lights)
  }

  // ---------------------------------------------------------------------
  // refs_translator

  /** "lights": the refs translator's name, and the environment entry it reads. */
  const KEY_LIGHTS: Bytes := [0x6C, 0x69, 0x67, 0x68, 0x74, 0x73]

  /** The ids of a list of lights, in order. */
  function Ids(lights: seq<Light>): (ids: seq<Bytes>)
    reads lights
    ensures |ids| == |lights| && forall j :: 0 <= j < |lights| ==> ids[j] == lights[j].src.id
  {
    seq(|lights|, j reads lights requires 0 <= j < |lights| => lights[j].src.id)
  }

  /** refs_translator::pack: an array of the group's light ids, in order. */
  method PackRefs(g: Group) returns (v: Value)
    ensures v.Array? && |v.items| == |g.lights|
    ensures forall j :: 0 <= j < |g.lights| ==> v.items[j] == String(g.lights[j].src.id)
  {
    var items: seq<Value> := [];
    for i := 0 to |g.lights|
      invariant |items| == i && forall j :: 0 <= j < i ==> items[j] == String(g.lights[j].src.id)
    {
      items := items + [String(g.lights[i].src.id)];
    }
    v := Array(items);
  }

  /** The first light of `all` with the given id. */
  function FirstWithId(all: seq<Light>, id: Bytes): (r: Option<Light>)
    reads all
    ensures r.Some? ==> r.value in all && r.value.src.id == id
    ensures r.None? ==> forall j :: 0 <= j < |all| ==> all[j].src.id != id
    ensures r.Some? ==> exists k :: 0 <= k < |all| && all[k] == r.value && forall j :: 0 <= j < k ==> all[j].src.id != id
  {
    if all == [] then None
    else if all[0].src.id == id then Some(all[0])
    else
      var r := FirstWithId(all[1..], id);
      if r.Some? then
        var k :| 0 <= k < |all[1..]| && all[1..][k] == r.value && forall j :: 0 <= j < k ==> all[1..][j].src.id != id;
        assert all[k + 1] == r.value;
        r
      else r
  }

  /** The lights the references name: each one's first match, unknown ids dropped, the order kept. */
  function Referenced(refs: seq<Value>, all: seq<Light>): (r: seq<Light>)
    reads all
    ensures |r| <= |refs| && forall j :: 0 <= j < |r| ==> r[j] in all
  {
    if refs == [] then []
    else
      var front := Referenced(refs[..|refs| - 1], all);
      match FirstWithId(all, AsString(refs[|refs| - 1]))
      case Some(l) => front + [l]
      case None => front
  }

  /** What refs_translator::unpack stores: nothing for a non-array or without the environment's lights. */
  function RefsUnpacked(v: Value, env: map<Bytes, seq<Light>>): seq<Light>
    reads if KEY_LIGHTS in env then env[KEY_LIGHTS] else []
  {
    if !v.Array? || KEY_LIGHTS !in env then [] else Referenced(v.items, env[KEY_LIGHTS])
  }

  /** refs_translator::clean: no lights. */
  method CleanRefs(g: Group)
    modifies g
    ensures g.lights == [] && g.src == old(g.src) && g.some == old(g.some) && g.klass == old(g.klass)
  {
    g.lights := [];
  }

  /** refs_translator::unpack: look each id up in the environment's lights; it always succeeds. */
  method UnpackRefs(g: Group, v: Value, env: map<Bytes, seq<Light>>) returns (ok: bool)
    modifies g
    ensures ok
    ensures g.lights == RefsUnpacked(v, env)
    ensures g.src == old(g.src) && g.some == old(g.some) && g.klass == old(g.klass)
  {
    if !v.Array? || KEY_LIGHTS !in env {
      CleanRefs(g);
      return true;
    }
    var out := ResolveRefs(v.items, env[KEY_LIGHTS]);
    g.lights := out;
    return true;
  }

  /** The loop of unpack: each reference's first match, in order. */
  method ResolveRefs(refs: seq<Value>, all: seq<Light>) returns (out: seq<Light>)
    ensures out == Referenced(refs, all)
  {
    out := [];
    for i := 0 to |refs|
      invariant out == Referenced(refs[..i], all)
    {
      assert refs[..i + 1][..i] == refs[..i];
      var sref := AsString(refs[i]);
      var found := FindLight(all, sref);
      if found.Some? {
        out := out + [found.value];
      }
    }
    assert refs[..|refs|] == refs;
  }

  /** The inner loop of unpack: the first light with the id. */
  method FindLight(all: seq<Light>, id: Bytes) returns (r: Option<Light>)
    ensures r == FirstWithId(all, id)
  {
    for i := 0 to |all|
      invariant FirstWithId(all, id) == FirstWithId(all[i..], id)
    {
      if all[i].src.id == id {
        assert all[i..][0] == all[i];
        return Some(all[i]);
      }
      assert all[i..][1..] == all[i + 1..];
    }
    return None;
  }

  /** A sequence is its front followed by its last element. */
  lemma LastSplit<T>(s: seq<T>)
    requires s != []
    ensures s[..|s| - 1] + [s[|s| - 1]] == s
  {
  }

  /**
   * Packing a group's references and reading them back against a list in
   * which each of its lights is the first with its id gives the same lights.
   */
  lemma {:induction false} RefsRoundTrip(refs: seq<Value>, lights: seq<Light>, all: seq<Light>)
    requires |refs| == |lights| && forall j :: 0 <= j < |lights| ==> refs[j] == String(lights[j].src.id)
    requires forall j :: 0 <= j < |lights| ==> FirstWithId(all, lights[j].src.id) == Some(lights[j])
    ensures Referenced(refs, all) == lights
  {
    if refs != [] {
      var n := |refs| - 1;
      assert Referenced(refs[..n], all) == lights[..n] by {
        RefsRoundTrip(refs[..n], lights[..n], all);
      }
      assert Referenced(refs, all) == Referenced(refs[..n], all) + [lights[n]] by {
        assert AsString(refs[n]) == lights[n].src.id;
        assert FirstWithId(all, AsString(refs[n])) == Some(lights[n]);
      }
      LastSplit(lights);
    }
  }

  // ---------------------------------------------------------------------
  // light_source::prepare

  /** "id", "name", "type", "on", "bri". */
  const KEY_ID: Bytes := [0x69, 0x64]
  const KEY_NAME: Bytes := [0x6E, 0x61, 0x6D, 0x65]
  const KEY_TYPE: Bytes := [0x74, 0x79, 0x70, 0x65]
  const KEY_ON: Bytes := [0x6F, 0x6E]
  const KEY_BRI: Bytes := [0x62, 0x72, 0x69]

  /** The registrations of light_source::prepare: id, name and type required, on and bri optional. */
  const SOURCE_MEMBERS: seq<Member> := [
    Member(KEY_ID, Plain, Prim(PString)),
    Member(KEY_NAME, Plain, Prim(PString)),
    Member(KEY_TYPE, Plain, Prim(PString)),
    Member(KEY_ON, Optional, Prim(PBool)),
    Member(KEY_BRI, Optional, Prim(PInt(W32)))]

  /** The registered fields of a source, as the translators see them. */
  function SourceFields(s: Source): (ds: seq<Data>)
    ensures |ds| == |SOURCE_MEMBERS| && forall j :: 0 <= j < |ds| ==> Fits(SOURCE_MEMBERS[j].shape, ds[j])
  {
    [DString(s.id), DString(s.name), DString(s.kind), DBool(s.on), DInt(s.bri)]
  }

  /** A source with its registered fields replaced. */
  function WithFields(s: Source, ds: seq<Data>): Source
    requires |ds| == |SOURCE_MEMBERS| && forall j :: 0 <= j < |ds| ==> Fits(SOURCE_MEMBERS[j].shape, ds[j])
  {
    assert Fits(SOURCE_MEMBERS[0].shape, ds[0]) && Fits(SOURCE_MEMBERS[1].shape, ds[1]) && Fits(SOURCE_MEMBERS[2].shape, ds[2]);
    assert Fits(SOURCE_MEMBERS[3].shape, ds[3]) && Fits(SOURCE_MEMBERS[4].shape, ds[4]);
    s.(id := ds[0].s, name := ds[1].s, kind := ds[2].s, on := ds[3].b, bri := ds[4].n)
  }

  /** The pack of a light source: its valid members, then the colour's members. */
  function PackSource(s: Source): Value
  {
    Object(PackMode(PackMembers(SOURCE_MEMBERS, SourceFields(s), |SOURCE_MEMBERS|), s.value))
  }

  /**
   * The unpack of a light source: a non-object fails; the members in
   * registration order, then, if they all succeeded, the colour.
   */
  function UnpackSource(v: Value, cur: Source): (bool, Source)
  {
    if !v.Object? then (false, cur)
    else
      var (ok, ds) := UnpackMembers(SOURCE_MEMBERS, v.fields, SourceFields(cur), 0, ItemsOptional);
      var s := WithFields(cur, ds);
      if !ok then (false, s) else (true, s.(value := UnpackMode(v.fields, s.value).1))
  }

  /** Unpacking the members reads nothing but the members' own names. */
  lemma {:induction false} UnpackMembersByName(ms: seq<Member>, fs: seq<Field>, gs: seq<Field>, cur: seq<Data>, i: nat, rule: ItemRule)
    requires i <= |ms| == |cur| && forall j :: 0 <= j < |ms| ==> Fits(ms[j].shape, cur[j])
    requires forall j :: i <= j < |ms| ==> Lookup(fs, ms[j].name) == Lookup(gs, ms[j].name)
    ensures UnpackMembers(ms, fs, cur, i, rule) == UnpackMembers(ms, gs, cur, i, rule)
    decreases |ms| - i
  {
    if i < |ms| {
      var m := ms[i];
      match Lookup(fs, m.name)
      case None =>
        if IsOptional(m, rule) {
          UnpackMembersByName(ms, fs, gs, cur[i := Default(m.shape)], i + 1, rule);
        }
      case Some(x) =>
        var (ok, f) := UnpackMember(m, x, cur[i], rule);
        if ok {
          UnpackMembersByName(ms, fs, gs, cur[i := f], i + 1, rule);
        }
    }
  }

  /** The registrations of a light source have distinct names and plain shapes that round-trip. */
  lemma SourceMembersOk()
    ensures JsonSerdesFacts.DistinctNames(SOURCE_MEMBERS)
    ensures forall j :: 0 <= j < |SOURCE_MEMBERS| ==>
      JsonSerdesFacts.RoundTrips(SOURCE_MEMBERS[j].shape) && JsonSerdesFacts.ItemShapeOk(SOURCE_MEMBERS[j])
    ensures forall j :: 0 <= j < |SOURCE_MEMBERS| ==> !ModeKey(SOURCE_MEMBERS[j].name)
  {
    var ms := SOURCE_MEMBERS;
    assert ms[0].name != ms[1].name && ms[0].name != ms[2].name && ms[0].name != ms[3].name && ms[0].name != ms[4].name;
    assert ms[1].name != ms[2].name && ms[1].name != ms[3].name && ms[1].name != ms[4].name;
    assert ms[2].name != ms[3].name && ms[2].name != ms[4].name && ms[3].name != ms[4].name;
  }

  /** The members of a packed source read back into any target give the source's fields. */
  lemma SourceMembersBack(s: Source, cur: Source)
    ensures UnpackMembers(SOURCE_MEMBERS, PackSource(s).fields, SourceFields(cur), 0, ItemsOptional) == (true, SourceFields(s))
  {
    var ms := SOURCE_MEMBERS;
    var fields := SourceFields(s);
    var packed := PackMembers(ms, fields, |ms|);
    SourceMembersOk();
    JsonSerdesFacts.MembersRoundTrip(ms, fields, SourceFields(cur), 0);
    assert fields[..0] + SourceFields(cur)[0..] == SourceFields(cur);
    forall j | 0 <= j < |ms|
      ensures Lookup(PackSource(s).fields, ms[j].name) == Lookup(packed, ms[j].name)
    {
      PackModeKeeps(packed, s.value, ms[j].name);
    }
    UnpackMembersByName(ms, PackSource(s).fields, packed, SourceFields(cur), 0, ItemsOptional);
  }

  /** The members of a source leave the colour's names free. */
  lemma SourceLeavesModeKeys(s: Source)
    ensures forall k :: ModeKey(k) ==> Lookup(PackMembers(SOURCE_MEMBERS, SourceFields(s), |SOURCE_MEMBERS|), k) == None
  {
    forall k | ModeKey(k)
      ensures Lookup(PackMembers(SOURCE_MEMBERS, SourceFields(s), |SOURCE_MEMBERS|), k) == None
    {
      JsonSerdesFacts.LookupAbsent(SOURCE_MEMBERS, SourceFields(s), |SOURCE_MEMBERS|, k);
    }
  }

  /**
   * A light source packed and unpacked again comes back whole, but for the
   * index, which is not registered, and an empty colour, which leaves the
   * target's colour as it was.
   */
  lemma SourceRoundTrip(s: Source, cur: Source)
    requires InRange(s.value)
    ensures UnpackSource(PackSource(s), cur) ==
      (true, s.(idx := cur.idx, value := if s.value.Empty? then cur.value else s.value))
  {
    SourceMembersBack(s, cur);
    var w := WithFields(cur, SourceFields(s));
    assert w == s.(idx := cur.idx, value := cur.value);
    SourceLeavesModeKeys(s);
    ModeRoundTrip(PackMembers(SOURCE_MEMBERS, SourceFields(s), |SOURCE_MEMBERS|), s.value, w.value);
  }
}
