/**
 * The colour of a light or a group (light_source.h, light_source.cc): the
 * brightness clamp, the colour modes with their comparison and visitor,
 * and the translator that writes a colour into, and reads it from, the
 * members of a json object.
 */
module ShadeColor {
  import opened ByteString
  import opened JsonValue
  import JsonSerdes

  /** mode::max_value. */
  const MAX_VALUE: int := 254

  /** mode::clamp: into [0, max_value]. */
  function Clamp(v: int): (r: int)
    ensures 0 <= r <= MAX_VALUE
    ensures 0 <= v <= MAX_VALUE ==> r == v
    ensures v < 0 ==> r == 0
    ensures v > MAX_VALUE ==> r == MAX_VALUE
  {
    if v < 0 then 0 else if v > MAX_VALUE then MAX_VALUE else v
  }

  /** Clamping keeps the order of its arguments, and a clamped value clamps to itself. */
  lemma ClampMonotone(v: int, w: int)
    requires v <= w
    ensures Clamp(v) <= Clamp(w) && Clamp(Clamp(v)) == Clamp(v)
  {
  }

  /** mode::mode. */
  datatype Mode = EMPTY | HUE_SAT | CT | XY

  /** mode::color: no colour, or the payload of one mode. */
  datatype Color =
    | Empty
    | HueSat(hue: int32, sat: int32)
    | Ct(val: int32)
    | Xy(x: Double, y: Double)

  function ModeOf(c: Color): Mode
  {
    match c
    case Empty => EMPTY
    case HueSat(_, _) => HUE_SAT
    case Ct(_) => CT
    case Xy(_, _) => XY
  }

  /**
   * color::operator==: the same mode and equal payloads. The switch has no
   * case for an empty colour, so an empty colour equals nothing, not even
   * another empty colour.
   */
  function ColorEq(a: Color, b: Color): (r: bool)
    ensures r <==> !a.Empty? && a == b
  {
    if ModeOf(a) != ModeOf(b) then false
    else
      match a
      case HueSat(hue, sat) => hue == b.hue && sat == b.sat
      case Ct(val) => val == b.val
      case Xy(x, y) => x == b.x && y == b.y
      case Empty => false
  }

  function ColorNe(a: Color, b: Color): (r: bool)
    ensures r <==> a.Empty? || a != b
  {
    !ColorEq(a, b)
  }

  /** color::visit: the visitor's result on the active payload; nothing for an empty colour. */
  function Visit<T>(c: Color, onHueSat: (int32, int32) -> T, onXy: (Double, Double) -> T, onCt: int32 -> T): (r: Option<T>)
    ensures r.None? <==> c.Empty?
    ensures c.HueSat? ==> r == Some(onHueSat(c.hue, c.sat))
    ensures c.Xy? ==> r == Some(onXy(c.x, c.y))
    ensures c.Ct? ==> r == Some(onCt(c.val))
  {
    match c
    case Empty => None
    case HueSat(hue, sat) => Some(onHueSat(hue, sat))
    case Ct(val) => Some(onCt(val))
    case Xy(x, y) => Some(onXy(x, y))
  }

  // ---------------------------------------------------------------------
  // mode_translator

  /** "hue", "sat", "ct", "x", "y". */
  const KEY_HUE: Bytes := [0x68, 0x75, 0x65]
  const KEY_SAT: Bytes := [0x73, 0x61, 0x74]
  const KEY_CT: Bytes := [0x63, 0x74]
  const KEY_X: Bytes := [0x78]
  const KEY_Y: Bytes := [0x79]

  /** The member names the colour is written under. */
  predicate ModeKey(k: Bytes)
  {
    k == KEY_HUE || k == KEY_SAT || k == KEY_CT || k == KEY_X || k == KEY_Y
  }

  /** mode_translator::pack: the colour visited, each payload member added to the object. */
  function PackMode(out: seq<Field>, c: Color): seq<Field>
  {
    var r := Visit(c,
      (hue: int32, sat: int32) => Insert(Insert(out, KEY_HUE, Integer(hue)), KEY_SAT, Integer(sat)),
      (x: Double, y: Double) => Insert(Insert(out, KEY_X, Float(x)), KEY_Y, Float(y)),
      (val: int32) => Insert(out, KEY_CT, Integer(val)));
    if r.Some? then r.value else out
  }

  /** Packing a colour adds members under its own names only. */
  lemma PackModeKeeps(out: seq<Field>, c: Color, k: Bytes)
    requires !ModeKey(k)
    ensures Lookup(PackMode(out, c), k) == Lookup(out, k)
  {
    match c
    case Empty =>
    case HueSat(hue, sat) =>
      LookupInsert(Insert(out, KEY_HUE, Integer(hue)), KEY_SAT, Integer(sat), k);
      LookupInsert(out, KEY_HUE, Integer(hue), k);
    case Ct(val) =>
      LookupInsert(out, KEY_CT, Integer(val), k);
    case Xy(x, y) =>
      LookupInsert(Insert(out, KEY_X, Float(x)), KEY_Y, Float(y), k);
      LookupInsert(out, KEY_X, Float(x), k);
  }

  /** An integer member read into a colour component: `clamp((int)n)`, the int64 cut to int first. */
  function Component(n: int64): (r: int32)
    ensures 0 <= r <= MAX_VALUE
    ensures 0 <= n <= MAX_VALUE ==> r == n
  {
    Clamp(JsonSerdes.Truncate(n, JsonSerdes.W32))
  }

  /** Every integer component is within [0, max_value], as unpack leaves them. */
  predicate InRange(c: Color)
  {
    match c
    case HueSat(hue, sat) => 0 <= hue <= MAX_VALUE && 0 <= sat <= MAX_VALUE
    case Ct(val) => 0 <= val <= MAX_VALUE
    case _ => true
  }

  /**
   * mode_translator::unpack: an integer "ct" first, then integer "hue" and
   * "sat", then floating "x" and "y"; with none of them the colour is kept.
   * It never fails.
   */
  function UnpackMode(fs: seq<Field>, cur: Color): (r: (bool, Color))
    ensures r.0
    ensures r.1 == cur || (!r.1.Empty? && InRange(r.1))
  {
    var ct := Lookup(fs, KEY_CT);
    if ct.Some? && ct.value.Integer? then (true, Ct(Component(ct.value.n)))
    else
      var hue, sat := Lookup(fs, KEY_HUE), Lookup(fs, KEY_SAT);
      if hue.Some? && hue.value.Integer? && sat.Some? && sat.value.Integer? then
        (true, HueSat(Component(hue.value.n), Component(sat.value.n)))
      else
        var x, y := Lookup(fs, KEY_X), Lookup(fs, KEY_Y);
        if x.Some? && x.value.Float? && y.Some? && y.value.Float? then (true, Xy(x.value.d, y.value.d))
        else (true, cur)
  }

  /** "ct" wins: whatever else the object holds, an integer "ct" decides the colour. */
  lemma CtFirst(fs: seq<Field>, cur: Color, n: int64)
    requires Lookup(fs, KEY_CT) == Some(Integer(n))
    ensures UnpackMode(fs, cur).1 == Ct(Component(n))
  {
  }

  /**
   * Reading back what pack wrote, into an object that held none of the
   * colour's names, gives the colour again; an empty colour writes nothing
   * and leaves the target's colour as it was.
   */
  lemma ModeRoundTrip(out: seq<Field>, c: Color, cur: Color)
    requires InRange(c)
    requires forall k :: ModeKey(k) ==> Lookup(out, k) == None
    ensures UnpackMode(PackMode(out, c), cur) == (true, if c.Empty? then cur else c)
  {
    var fs := PackMode(out, c);
    match c
    case Empty =>
      assert Lookup(fs, KEY_CT) == None && Lookup(fs, KEY_HUE) == None && Lookup(fs, KEY_X) == None;
    case HueSat(hue, sat) =>
      var f1 := Insert(out, KEY_HUE, Integer(hue));
      LookupInsert(f1, KEY_SAT, Integer(sat), KEY_CT);
      LookupInsert(out, KEY_HUE, Integer(hue), KEY_CT);
      LookupInsert(f1, KEY_SAT, Integer(sat), KEY_HUE);
      LookupInsert(f1, KEY_SAT, Integer(sat), KEY_SAT);
      LookupInsert(out, KEY_HUE, Integer(hue), KEY_HUE);
    case Ct(val) =>
      LookupInsert(out, KEY_CT, Integer(val), KEY_CT);
    case Xy(x, y) =>
      var f1 := Insert(out, KEY_X, Float(x));
      LookupInsert(f1, KEY_Y, Float(y), KEY_CT);
      LookupInsert(out, KEY_X, Float(x), KEY_CT);
      LookupInsert(f1, KEY_Y, Float(y), KEY_HUE);
      LookupInsert(out, KEY_X, Float(x), KEY_HUE);
      LookupInsert(f1, KEY_Y, Float(y), KEY_X);
      LookupInsert(f1, KEY_Y, Float(y), KEY_Y);
      LookupInsert(out, KEY_X, Float(x), KEY_X);
  }
}
