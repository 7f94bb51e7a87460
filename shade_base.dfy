/**
 * The plain records of the shade model (base.h): the state of a light or a
 * group as the bridge reports it, the identity every light and group
 * shares, a group's description and a bridge's hardware description, with
 * their comparison operators.
 *
 * A C++ double is a `Double`, compared by its bit pattern.
 */
module ShadeBase {
  import opened ByteString
  import opened JsonValue

  /** light_state. */
  datatype LightState = LightState(on: bool, bri: int32, hue: int32, sat: int32, ct: int32, xy: (Double, Double), mode: Bytes)

  /** group_state: a light_state and the `any` flag. */
  datatype GroupState = GroupState(light: LightState, any: bool)

  /** info_base: id, name and type (a group's type or a light's model id). */
  datatype InfoBase = InfoBase(id: Bytes, name: Bytes, kind: Bytes)

  /** light_info: info_base and a state. */
  datatype LightInfo = LightInfo(info: InfoBase, state: LightState)

  /** group_info: info_base, class, state and the ids of its lights. */
  datatype GroupInfo = GroupInfo(info: InfoBase, klass: Bytes, state: GroupState, lights: seq<Bytes>)

  /** hw_info: where a bridge is and what it is. */
  datatype HwInfo = HwInfo(base: Bytes, name: Bytes, mac: Bytes, modelid: Bytes)

  /** operator== (light_state): on, bri, hue, sat, ct, both xy components and mode; that is, every member. */
  function LightStateEq(a: LightState, b: LightState): (r: bool)
    ensures r <==> a == b
  {
    a.on == b.on && a.bri == b.bri && a.hue == b.hue && a.sat == b.sat && a.ct == b.ct &&
    a.xy.0 == b.xy.0 && a.xy.1 == b.xy.1 && a.mode == b.mode
  }

  function LightStateNe(a: LightState, b: LightState): (r: bool)
    ensures r <==> a != b
  {
    !LightStateEq(a, b)
  }

  /** operator== (group_state): `any`, then the light_state part. */
  function GroupStateEq(a: GroupState, b: GroupState): (r: bool)
    ensures r <==> a == b
  {
    a.any == b.any && LightStateEq(a.light, b.light)
  }

  function GroupStateNe(a: GroupState, b: GroupState): (r: bool)
    ensures r <==> a != b
  {
    !GroupStateEq(a, b)
  }

  /** operator== (info_base): id, name and type. */
  function InfoBaseEq(a: InfoBase, b: InfoBase): (r: bool)
    ensures r <==> a == b
  {
    a.id == b.id && a.name == b.name && a.kind == b.kind
  }

  function InfoBaseNe(a: InfoBase, b: InfoBase): (r: bool)
    ensures r <==> a != b
  {
    !InfoBaseEq(a, b)
  }

  /** operator== (light_info): the state, then the info_base part. */
  function LightInfoEq(a: LightInfo, b: LightInfo): (r: bool)
    ensures r <==> a == b
  {
    LightStateEq(a.state, b.state) && InfoBaseEq(a.info, b.info)
  }

  function LightInfoNe(a: LightInfo, b: LightInfo): (r: bool)
    ensures r <==> a != b
  {
    !LightInfoEq(a, b)
  }

  /** operator== (group_info): state, class, the light id list, then the info_base part. */
  function GroupInfoEq(a: GroupInfo, b: GroupInfo): (r: bool)
    ensures r <==> a == b
  {
    GroupStateEq(a.state, b.state) && a.klass == b.klass && a.lights == b.lights && InfoBaseEq(a.info, b.info)
  }

  function GroupInfoNe(a: GroupInfo, b: GroupInfo): (r: bool)
    ensures r <==> a != b
  {
    !GroupInfoEq(a, b)
  }

  /** operator== (hw_info): base, name, mac and model id. */
  function HwInfoEq(a: HwInfo, b: HwInfo): (r: bool)
    ensures r <==> a == b
  {
    a.base == b.base && a.name == b.name && a.mac == b.mac && a.modelid == b.modelid
  }

  function HwInfoNe(a: HwInfo, b: HwInfo): (r: bool)
    ensures r <==> a != b
  {
    !HwInfoEq(a, b)
  }

  /** std::vector<light_info>::operator==: the same size and pairwise equal. */
  function LightInfosEq(a: seq<LightInfo>, b: seq<LightInfo>): (r: bool)
    ensures r <==> a == b
  {
    |a| == |b| && forall i :: 0 <= i < |a| ==> LightInfoEq(a[i], b[i])
  }

  /** std::vector<group_info>::operator==: the same size and pairwise equal. */
  function GroupInfosEq(a: seq<GroupInfo>, b: seq<GroupInfo>): (r: bool)
    ensures r <==> a == b
  {
    |a| == |b| && forall i :: 0 <= i < |a| ==> GroupInfoEq(a[i], b[i])
  }
}
