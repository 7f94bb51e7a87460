/**
 * The configuration storage of the shade model (storage.h, storage.cc):
 * the bridges known by id, each bound to a host named after this client,
 * the rules by which discovery, naming, connection and configuration
 * reports change them and write the table back, and the text that is
 * written.
 *
 * storage.cc carries its own copies of host (`client`) and bridge
 * (`bridge_info`, with set_client for set_host); they are the same code and
 * are modelled by ShadeHost.Host and ShadeBridge.Bridge. The file itself is
 * not modelled: `stores` counts the writes of the table (storage::store),
 * and loading takes the outcome of reading and unpacking the file.
 */
module ShadeStorage {
  import opened ByteString
  import opened JsonValue
  import JsonPrint
  import Utf8
  import CString
  import opened ShadeBase
  import opened ShadeHost
  import opened ShadeBridge

  /** options::indented(): two spaces per level. */
  const STORE_INDENT: int := 2

  /**
   * The text storage::store writes: fprintf's "%s\n" of the indented
   * document's c_str(), so the document up to its first NUL byte (the
   * printer writes U+0000 as a raw 0), then a newline.
   */
  function StoreText(doc: Value, ftoa: Double -> Bytes): (text: Bytes)
    ensures |text| > 0 && text[|text| - 1] == LF
    ensures text[..|text| - 1] <= JsonPrint.Render(doc, Indented(STORE_INDENT), 0, ftoa)
    ensures 0 !in text[..|text| - 1]
    ensures var rendered := JsonPrint.Render(doc, Indented(STORE_INDENT), 0, ftoa);
      |text| - 1 < |rendered| ==> rendered[|text| - 1] == 0
  {
    var rendered := JsonPrint.Render(doc, Indented(STORE_INDENT), 0, ftoa);
    CString.CStr(rendered) + [LF]
  }

  /** A document whose text holds no NUL byte is written whole. */
  lemma StoreTextWhole(doc: Value, ftoa: Double -> Bytes)
    requires 0 !in JsonPrint.Render(doc, Indented(STORE_INDENT), 0, ftoa)
    ensures StoreText(doc, ftoa) == JsonPrint.Render(doc, Indented(STORE_INDENT), 0, ftoa) + [LF]
  {
    var rendered := JsonPrint.Render(doc, Indented(STORE_INDENT), 0, ftoa);
    var text := StoreText(doc, ftoa);
    assert text[..|text| - 1] == rendered;
  }

  /** The string holding U+0000 is cut after its opening quote: the file gets '"' and a newline. */
  lemma StoreTextCutsAtNul(ftoa: Double -> Bytes)
    ensures StoreText(String([0]), ftoa) == [QUOTE, LF]
  {
    Utf8.WidenOneChar([0], []);
    assert [0] + [] == [0];
    assert Utf8.Utf16Of([0]) == [0];
    assert JsonPrint.EscapeUnits([0]) == JsonPrint.EscapeUnits([]) + JsonPrint.EscapeUnit(0);
    assert JsonPrint.Render(String([0]), Indented(STORE_INDENT), 0, ftoa) == [QUOTE, 0, QUOTE];
  }

  /** The bridges of an unpacked table. */
  function Loaded(unpacked: Option<map<Bytes, Bridge>>): set<Bridge>
  {
    if unpacked.Some? then unpacked.value.Values else {}
  }

  /** The hosts of a set of bridges. */
  function HostsOf(bs: set<Bridge>): set<Host>
    reads bs
  {
    set b, h | b in bs && h in b.hosts :: h
  }

  /** The loop of storage::load: every bridge of the table bound to the client through set_client. */
  method BindAll(m: map<Bytes, Bridge>, clientid: Bytes, stg: object)
    modifies m.Values, HostsOf(m.Values)
    ensures forall k :: k in m ==> m[k].current != null && m[k].current.name == clientid
    ensures forall k :: k in m ==> m[k].current.stg == stg
  {
    var todo := m.Keys;
    while todo != {}
      invariant todo <= m.Keys
      invariant forall b :: b in m.Values ==> forall h :: h in b.hosts ==> h in old(b.hosts) || fresh(h)
      invariant forall k :: k in m && k !in todo ==> m[k].current != null && m[k].current.name == clientid
      invariant forall k :: k in m && k !in todo ==> m[k].current.stg == stg
      decreases todo
    {
      var k :| k in todo;
      var b := m[k];
      assert forall h :: h in b.hosts ==> h in old(b.hosts) || fresh(h);
      assert forall h :: h in old(b.hosts) ==> h in old(HostsOf(m.Values));
      b.SetHost(clientid, stg);
      todo := todo - {k};
    }
  }

  class Storage {
    const clientid: Bytes
    var known: map<Bytes, Bridge>
    /** How many times the table has been written. */
    var stores: nat

    /** Every known bridge has a current host, and it is this client. */
    predicate Valid()
      reads this, known.Values
    {
      forall k :: k in known ==> known[k].current != null && known[k].current.name == clientid
    }

    /** storage(client): that client id, no bridges, nothing written. */
    constructor(client: Bytes)
      ensures clientid == client && known == map[] && stores == 0 && Valid()
    {
      clientid := client;
      known := map[];
      stores := 0;
    }

    /** The objects a report about `id` may change: the bridge known under it and its current host. */
    function Existing(id: Bytes): set<object>
      reads this, known.Values
    {
      if id in known then {known[id] as object} + (if known[id].current != null then {known[id].current as object} else {})
      else {}
    }

    /** A new bridge for the id, bound to this client through set_client. */
    method AddBridge(id: Bytes) returns (b: Bridge)
      requires id !in known
      modifies this
      ensures fresh(b) && fresh(b.current) && known == old(known)[id := b] && stores == old(stores)
      ensures !b.seen && b.hw == HwInfo([], [], [], []) && b.lights == [] && b.groups == []
      ensures b.Valid() && b.current != null && b.current.name == clientid && b.current.stg == this
      ensures b.current.username == []
      ensures old(Valid()) ==> Valid()
    {
      b := new Bridge();
      b.SetHost(clientid, this);
      known := known[id := b];
    }

    /**
     * storage::bridge_located: an unknown id gets a new bridge with that
     * base; a known one takes the base if it differs. The result, and a
     * write of the table, exactly when the id was new or the base changed.
     */
    method BridgeLocated(id: Bytes, base: Bytes) returns (stored: bool)
      modifies this, Existing(id)
      ensures stored <==> id !in old(known) || old(known[id].hw.base) != base
      ensures stores == old(stores) + (if stored then 1 else 0)
      ensures id in known && known[id].hw.base == base
      ensures id in old(known) ==>
        known[id] == old(known[id]) && known[id].hw == old(known[id].hw).(base := base) && known[id].seen == old(known[id].seen)
      ensures id !in old(known) ==> fresh(known[id]) && !known[id].seen
      ensures known.Keys == old(known.Keys) + {id}
      ensures forall k :: k in old(known) && k != id ==> known[k] == old(known[k])
      ensures old(Valid()) ==> Valid()
    {
      if id !in known {
        var b := AddBridge(id);
        b.hw := b.hw.(base := base);
        stored := true;
      } else {
        var b := known[id];
        stored := b.hw.base != base;
        if stored {
          b.hw := b.hw.(base := base);
        }
      }
      if stored {
        stores := stores + 1;
      }
    }

    /**
     * storage::bridge_named: the bridge is marked seen in every case, and
     * takes name, mac and model id; the table is written exactly when the
     * id was new or one of the three differed.
     */
    method BridgeNamed(id: Bytes, name: Bytes, mac: Bytes, modelid: Bytes)
      modifies this, Existing(id)
      ensures stores == old(stores) +
        (if id !in old(known) || old(known[id].hw.name) != name || old(known[id].hw.mac) != mac ||
            old(known[id].hw.modelid) != modelid then 1 else 0)
      ensures id in known && known[id].seen
      ensures known[id].hw.name == name && known[id].hw.mac == mac && known[id].hw.modelid == modelid
      ensures id in old(known) ==> known[id] == old(known[id]) && known[id].hw.base == old(known[id].hw.base)
      ensures id !in old(known) ==> fresh(known[id]) && known[id].hw.base == []
      ensures known.Keys == old(known.Keys) + {id}
      ensures forall k :: k in old(known) && k != id ==> known[k] == old(known[k])
      ensures old(Valid()) ==> Valid()
    {
      var stored: bool;
      if id !in known {
        var b := AddBridge(id);
        b.seen := true;
        b.hw := b.hw.(name := name, mac := mac, modelid := modelid);
        stored := true;
      } else {
        var b := known[id];
        b.seen := true;
        stored := b.hw.name != name || b.hw.mac != mac || b.hw.modelid != modelid;
        if stored {
          b.hw := b.hw.(name := name, mac := mac, modelid := modelid);
        }
      }
      if stored {
        stores := stores + 1;
      }
    }

    /**
     * storage::bridge_connected: the current host of the bridge (a new one,
     * bound to this client, for an unknown id) takes the username; the table
     * is written exactly when the username changed, so for a new bridge
     * exactly when the username is not empty. The code dereferences the
     * current host of a known bridge, which must therefore be set.
     */
    method BridgeConnected(id: Bytes, username: Bytes)
      requires id in known ==> known[id].current != null
      modifies this, Existing(id)
      ensures id in known && known[id].current != null && known[id].current.username == username
      ensures id in old(known) ==>
        known[id] == old(known[id]) && known[id].current == old(known[id].current) &&
        stores == old(stores) + (if old(known[id].current.username) != username then 1 else 0)
      ensures id !in old(known) ==>
        fresh(known[id]) && known[id].current.name == clientid &&
        stores == old(stores) + (if username != [] then 1 else 0)
      ensures known.Keys == old(known.Keys) + {id}
      ensures forall k :: k in old(known) && k != id ==> known[k] == old(known[k])
      ensures old(Valid()) ==> Valid()
    {
      var b: Bridge;
      if id !in known {
        b := AddBridge(id);
      } else {
        b := known[id];
      }
      var stored := b.current.Update(username);
      if stored {
        stores := stores + 1;
      }
    }

    /**
     * storage::bridge_config as written: an unknown id gets a new bridge
     * with the lights and groups but, unlike every other report, no
     * set_client, so its current host stays null; a known one takes both
     * lists when either differs. The table is written exactly when the id
     * was new or a list differed.
     */
    method BridgeConfigAsWritten(id: Bytes, lights: seq<LightInfo>, groups: seq<GroupInfo>)
      modifies this, Existing(id)
      ensures id in known && known[id].lights == lights && known[id].groups == groups
      ensures stores == old(stores) +
        (if id !in old(known) || !LightInfosEq(old(known[id].lights), lights) || !GroupInfosEq(old(known[id].groups), groups)
         then 1 else 0)
      ensures id in old(known) ==> known[id] == old(known[id]) && known[id].current == old(known[id].current)
      ensures id !in old(known) ==> fresh(known[id]) && known[id].current == null && !Valid()
      ensures known.Keys == old(known.Keys) + {id}
      ensures forall k :: k in old(known) && k != id ==> known[k] == old(known[k])
    {
      var stored: bool;
      if id !in known {
        var b := new Bridge();
        b.lights := lights;
        b.groups := groups;
        known := known[id := b];
        stored := true;
      } else {
        var b := known[id];
        stored := !LightInfosEq(b.lights, lights) || !GroupInfosEq(b.groups, groups);
        if stored {
          b.lights := lights;
          b.groups := groups;
        }
      }
      if stored {
        stores := stores + 1;
      }
    }

    /**
     * storage::bridge_config as evidently intended: a new bridge is bound to
     * this client like every other new bridge, so the table stays valid.
     */
    method BridgeConfig(id: Bytes, lights: seq<LightInfo>, groups: seq<GroupInfo>)
      modifies this, Existing(id)
      ensures id in known && known[id].lights == lights && known[id].groups == groups
      ensures stores == old(stores) +
        (if id !in old(known) || !LightInfosEq(old(known[id].lights), lights) || !GroupInfosEq(old(known[id].groups), groups)
         then 1 else 0)
      ensures id in old(known) ==> known[id] == old(known[id]) && known[id].current == old(known[id].current)
      ensures id !in old(known) ==>
        fresh(known[id]) && known[id].current != null && fresh(known[id].current) && known[id].current.name == clientid
      ensures known.Keys == old(known.Keys) + {id}
      ensures forall k :: k in old(known) && k != id ==> known[k] == old(known[k])
      ensures old(Valid()) ==> Valid()
    {
      var stored: bool;
      if id !in known {
        var b := AddBridge(id);
        b.lights := lights;
        b.groups := groups;
        stored := true;
      } else {
        var b := known[id];
        stored := !LightInfosEq(b.lights, lights) || !GroupInfosEq(b.groups, groups);
        if stored {
          b.lights := lights;
          b.groups := groups;
        }
      }
      if stored {
        stores := stores + 1;
      }
    }

    /**
     * storage::store: the text written for the table's document (its pack
     * is an input here); the write itself is counted.
     */
    method Store(doc: Value, ftoa: Double -> Bytes) returns (text: Bytes)
      modifies this
      ensures text == StoreText(doc, ftoa)
      ensures stores == old(stores) + 1 && known == old(known)
    {
      var rendered := JsonPrint.ToString(doc, Indented(STORE_INDENT), 0, ftoa);
      text := CString.CStr(rendered) + [LF];
      stores := stores + 1;
    }

    /**
     * storage::load: nothing when the file does not open; an empty table
     * when its document does not unpack; otherwise the unpacked table, each
     * bridge then bound to this client.
     */
    method Load(found: bool, unpacked: Option<map<Bytes, Bridge>>)
      modifies this, Loaded(unpacked), HostsOf(Loaded(unpacked))
      ensures !found ==> known == old(known)
      ensures found && unpacked.None? ==> known == map[]
      ensures found && unpacked.Some? ==> known == unpacked.value
      ensures stores == old(stores)
      ensures found ==> Valid()
      ensures found ==> forall k :: k in known ==> known[k].current.stg == this
    {
      if !found {
        return;
      }
      if unpacked.None? {
        known := map[];
        return;
      }
      BindAll(unpacked.value, clientid, this);
      known := unpacked.value;
    }
  }

  /**
   * The as-written bridge_config leaves a new bridge without a current host,
   * so a connection report for the same id then has nothing to update; the
   * corrected one leaves the table valid for it.
   */
  method ConfigThenConnect(s: Storage, id: Bytes, lights: seq<LightInfo>, groups: seq<GroupInfo>, username: Bytes)
    requires s.Valid() && id !in s.known
    modifies s, s.Existing(id)
    ensures s.Valid() && id in s.known && s.known[id].current.username == username
  {
    s.BridgeConfig(id, lights, groups);
    s.BridgeConnected(id, username);
  }

  /** The same report against the as-written bridge_config: afterwards the storage is no longer valid. */
  method ConfigAsWrittenBreaksConnect(s: Storage, id: Bytes, lights: seq<LightInfo>, groups: seq<GroupInfo>)
    requires id !in s.known
    modifies s, s.Existing(id)
    ensures id in s.known && s.known[id].current == null && !s.Valid()
  {
    s.BridgeConfigAsWritten(id, lights, groups);
  }
}
