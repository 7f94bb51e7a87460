/**
 * The bridge cache of the shade model (cache.h, cache.cc): the bridges
 * known by id, and the rules by which discovery, naming and connection
 * reports change them and tell the storage listener that it is dirty.
 *
 * The listener is not modelled; each report returns whether it marked the
 * storage dirty. The cache builds its bridges through members of a newer
 * bridge (set_base, seen(...)) than the bridge.h modelled in ShadeBridge;
 * here they are the field assignments their names describe.
 */
module ShadeCache {
  import opened ByteString
  import opened ShadeBase
  import opened ShadeHost
  import opened ShadeBridge

  class Cache {
    /** The client id given at construction, which every new bridge's host is named after. */
    const clientid: Bytes
    var known: map<Bytes, Bridge>

    /** cache(client, browser): that client id, no bridges. */
    constructor(client: Bytes)
      ensures clientid == client && known == map[]
    {
      clientid := client;
      known := map[];
    }

    /** cache::current_host. */
    function CurrentHost(): Bytes
    {
      clientid
    }

    /** cache::get: the stored bridge, or null when the id is unknown. */
    function Get(id: Bytes): (r: Bridge?)
      reads this
      ensures r != null <==> id in known
      ensures r != null ==> r == known[id]
    {
      if id in known then known[id] else null
    }

    /** cache::bridges(v): the whole table replaced. */
    method SetBridges(v: map<Bytes, Bridge>)
      modifies this
      ensures known == v
    {
      known := v;
    }

    /** The bridge a report about `id` may change: the one already known under it. */
    function Existing(id: Bytes): set<Bridge>
      reads this
    {
      if id in known then {known[id]} else {}
    }

    /**
     * cache::bridge_located: an unknown id gets a new bridge, current host
     * the client, with that base; a known one takes the base if it differs.
     * Dirty exactly when the id was new or the base changed.
     */
    method BridgeLocated(id: Bytes, base: Bytes) returns (dirty: bool)
      modifies this, Existing(id)
      ensures dirty <==> id !in old(known) || old(known[id].hw.base) != base
      ensures id in known && known[id].hw.base == base
      ensures id in old(known) ==>
        known[id] == old(known[id]) && known[id].hw == old(known[id].hw).(base := base) && known[id].seen == old(known[id].seen)
      ensures id !in old(known) ==>
        fresh(known[id]) && known[id].Valid() && !known[id].seen &&
        known[id].current != null && known[id].current.name == clientid && known[id].hw.name == []
      ensures known.Keys == old(known.Keys) + {id}
      ensures forall k :: k in old(known) && k != id ==> known[k] == old(known[k])
    {
      if id !in known {
        var b := new Bridge();
        b.SetHost(clientid, null);
        b.hw := b.hw.(base := base);
        known := known[id := b];
        return true;
      }
      var b := known[id];
      if b.hw.base != base {
        b.hw := b.hw.(base := base);
        return true;
      }
      return false;
    }

    /**
     * cache::bridge_named: an unknown id gets a new, seen bridge with that
     * name, mac and model id; a known one is always marked seen and takes
     * the three only when one of them differs. Dirty exactly when the id
     * was new or one of the three changed.
     */
    method BridgeNamed(id: Bytes, name: Bytes, mac: Bytes, modelid: Bytes) returns (dirty: bool)
      modifies this, Existing(id)
      ensures dirty <==> (id !in old(known) ||
                          old(known[id].hw.name) != name || old(known[id].hw.mac) != mac || old(known[id].hw.modelid) != modelid)
      ensures id in known && known[id].seen
      ensures known[id].hw.name == name && known[id].hw.mac == mac && known[id].hw.modelid == modelid
      ensures id in old(known) ==> known[id] == old(known[id]) && known[id].hw.base == old(known[id].hw.base)
      ensures id !in old(known) ==>
        fresh(known[id]) && known[id].Valid() &&
        known[id].current != null && known[id].current.name == clientid && known[id].hw.base == []
      ensures known.Keys == old(known.Keys) + {id}
      ensures forall k :: k in old(known) && k != id ==> known[k] == old(known[k])
    {
      if id !in known {
        var b := new Bridge();
        b.SetHost(clientid, null);
        b.seen := true;
        b.hw := b.hw.(name := name, mac := mac, modelid := modelid);
        known := known[id := b];
        return true;
      }
      var b := known[id];
      b.seen := true;
      if b.hw.name != name || b.hw.mac != mac || b.hw.modelid != modelid {
        b.hw := b.hw.(name := name, mac := mac, modelid := modelid);
        return true;
      }
      return false;
    }

    /**
     * cache::bridge_connected: the bridge's current host takes the username;
     * dirty exactly when it differed.
     */
    method BridgeConnected(b: Bridge, username: Bytes) returns (dirty: bool)
      requires b.current != null
      modifies b.current
      ensures dirty <==> old(b.current.username) != username
      ensures b.current.username == username
    {
      dirty := b.current.Update(username);
    }
  }

  /** A second identical location report finds nothing to change. */
  method LocatedTwice(c: Cache, id: Bytes, base: Bytes) returns (first: bool, second: bool)
    modifies c, c.Existing(id)
    ensures first <==> id !in old(c.known) || old(c.known[id].hw.base) != base
    ensures !second
  {
    first := c.BridgeLocated(id, base);
    second := c.BridgeLocated(id, base);
  }

  /** A second identical naming report finds nothing to change. */
  method NamedTwice(c: Cache, id: Bytes, name: Bytes, mac: Bytes, modelid: Bytes) returns (first: bool, second: bool)
    modifies c, c.Existing(id)
    ensures first <==> (id !in old(c.known) ||
                        old(c.known[id].hw.name) != name || old(c.known[id].hw.mac) != mac || old(c.known[id].hw.modelid) != modelid)
    ensures !second
  {
    first := c.BridgeNamed(id, name, mac, modelid);
    second := c.BridgeNamed(id, name, mac, modelid);
  }
}
