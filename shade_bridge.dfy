/**
 * A bridge of the shade model (bridge.h, bridge.cc): what is known about
 * one Hue bridge (whether it was seen, its hardware, its lights and
 * groups) and the table of its hosts, one of which is current.
 *
 * The hosts are objects held by the bridge; the C++ vector of hosts moves
 * them when it grows, so `current_` has to be re-pointed (rebind_current),
 * while here an object keeps its identity.
 */
module ShadeBridge {
  import opened ByteString
  import opened ShadeBase
  import opened ShadeHost
  import ShadeLight

  /** The position of the first host with the name, or -1. */
  function IndexOfName(hosts: seq<Host>, name: Bytes): (r: int)
    ensures -1 <= r < |hosts|
    ensures r >= 0 ==> hosts[r].name == name && forall j :: 0 <= j < r ==> hosts[j].name != name
    ensures r == -1 <==> forall j :: 0 <= j < |hosts| ==> hosts[j].name != name
  {
    if hosts == [] then -1
    else
      var r := IndexOfName(hosts[..|hosts| - 1], name);
      if r >= 0 then r
      else if hosts[|hosts| - 1].name == name then |hosts| - 1
      else -1
  }

  /** No two hosts share a name. */
  predicate DistinctNames(hosts: seq<Host>)
  {
    forall i, j :: 0 <= i < j < |hosts| ==> hosts[i].name != hosts[j].name
  }

  /** With distinct names, a host is found at its own position. */
  lemma IndexOfOwnName(hosts: seq<Host>, k: nat)
    requires DistinctNames(hosts) && k < |hosts|
    ensures IndexOfName(hosts, hosts[k].name) == k
  {
  }

  /** std::find_if over the hosts by name. */
  method FindHost(hosts: seq<Host>, name: Bytes) returns (k: int)
    ensures k == IndexOfName(hosts, name)
  {
    for i := 0 to |hosts|
      invariant forall j :: 0 <= j < i ==> hosts[j].name != name
    {
      if hosts[i].name == name {
        return i;
      }
    }
    return -1;
  }

  class Bridge {
    var seen: bool
    var hw: HwInfo
    var lights: seq<LightInfo>
    var groups: seq<GroupInfo>
    var hosts: seq<Host>
    /** The current host, or null before one is set. */
    var current: Host?

    /** The host table has distinct names and the current host is one of its entries. */
    predicate Valid()
      reads this
    {
      DistinctNames(hosts) && (current != null ==> current in hosts)
    }

    /** bridge{}: not seen, empty hardware description, no lights, groups or hosts. */
    constructor()
      ensures !seen && hw == HwInfo([], [], [], []) && lights == [] && groups == [] && hosts == [] && current == null
      ensures Valid()
    {
      seen := false;
      hw := HwInfo([], [], [], []);
      lights := [];
      groups := [];
      hosts := [];
      current := null;
    }

    /**
     * bridge::set_host: the first host with the name, appended only when
     * there is none, becomes current and takes the storage. Only the
     * current host's storage changes; the table keeps distinct names.
     */
    method SetHost(name: Bytes, stg: object?)
      modifies this, hosts
      ensures var k := IndexOfName(old(hosts), name);
        && (k >= 0 ==> hosts == old(hosts) && current == hosts[k])
        && (k < 0 ==> hosts == old(hosts) + [current] && fresh(current)
                      && current.username == [] && current.selected == {} && current.stores == 0)
      ensures current != null && current.name == name && current.stg == stg && current in hosts
      ensures forall h :: h in old(hosts) ==>
        h.username == old(h.username) && h.selected == old(h.selected) && h.stores == old(h.stores) &&
        (h != current ==> h.stg == old(h.stg))
      ensures seen == old(seen) && hw == old(hw) && lights == old(lights) && groups == old(groups)
      ensures old(DistinctNames(hosts)) ==> Valid()
    {
      var k := FindHost(hosts, name);
      var h: Host;
      if k < 0 {
        h := new Host(name);
        hosts := hosts + [h];
      } else {
        h := hosts[k];
      }
      current := h;
      h.Set(stg);
    }

    /** bridge::set_host_from: set_host keyed on the upstream host's name, with its storage. */
    method SetHostFrom(upstream: Host)
      modifies this, hosts
      ensures var k := IndexOfName(old(hosts), upstream.name);
        && (k >= 0 ==> hosts == old(hosts) && current == hosts[k])
        && (k < 0 ==> hosts == old(hosts) + [current] && fresh(current)
                      && current.username == [] && current.selected == {} && current.stores == 0)
      ensures current != null && current.name == upstream.name && current.stg == old(upstream.stg) && current in hosts
      ensures forall h :: h in old(hosts) ==>
        h.username == old(h.username) && h.selected == old(h.selected) && h.stores == old(h.stores) &&
        (h != current ==> h.stg == old(h.stg))
      ensures seen == old(seen) && hw == old(hw) && lights == old(lights) && groups == old(groups)
      ensures old(DistinctNames(hosts)) ==> Valid()
    {
      SetHost(upstream.name, upstream.stg);
    }

    /**
     * bridge::rebind_current: the current host is re-pointed at the first
     * host with its name; the code dereferences both, so the current host
     * must be set and its name present.
     */
    method RebindCurrent()
      requires current != null && IndexOfName(hosts, current.name) >= 0
      modifies this
      ensures current == old(hosts[IndexOfName(hosts, current.name)])
      ensures current.name == old(current).name
      ensures hosts == old(hosts) && seen == old(seen) && hw == old(hw) && lights == old(lights) && groups == old(groups)
      ensures old(Valid()) ==> current == old(current) && Valid()
    {
      var k := FindHost(hosts, current.name);
      if old(Valid()) {
        var j :| 0 <= j < |hosts| && hosts[j] == current;
        IndexOfOwnName(hosts, j);
      }
      current := hosts[k];
    }
  }

  /** Setting the same host twice adds it at most once: the second call finds the first one's host. */
  method SetHostTwice(b: Bridge, name: Bytes, stg: object?)
    modifies b, b.hosts
    ensures IndexOfName(old(b.hosts), name) >= 0 ==> b.hosts == old(b.hosts)
    ensures IndexOfName(old(b.hosts), name) < 0 ==> b.hosts == old(b.hosts) + [b.current]
    ensures b.current != null && b.current.name == name && b.current.stg == stg
  {
    b.SetHost(name, stg);
    var first := b.current;
    b.SetHost(name, stg);
    assert b.current == first;
  }

  // ---------------------------------------------------------------------
  // lights_environment

  /**
   * lights_environment, packing or unpacking in place: the bridge's light
   * list published under "lights", every other entry kept. Unpacking
   * always succeeds; the translator has no json member of its own (its
   * named pack gives null, its named unpack fails, its clean does nothing).
   */
  function Publish<T>(env: map<Bytes, T>, lights: T): (r: map<Bytes, T>)
    ensures ShadeLight.KEY_LIGHTS in r && r[ShadeLight.KEY_LIGHTS] == lights
    ensures forall k :: k != ShadeLight.KEY_LIGHTS ==> (k in r <==> k in env) && (k in r ==> r[k] == env[k])
  {
    env[ShadeLight.KEY_LIGHTS := lights]
  }
}
