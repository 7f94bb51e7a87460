/**
 * A host of the shade model (host.h, host.cc): one client of a bridge,
 * known by its name, with the username the bridge issued to it and the set
 * of devices it has selected.
 *
 * The storage a host writes through (updatable's storage pointer) is any
 * object; updatable::store is not part of this model, so a host counts the
 * stores it requests instead.
 */
module ShadeHost {
  import opened ByteString

  /** The selection with `dev` added when absent and removed when present. */
  function Toggled(sel: set<Bytes>, dev: Bytes): (r: set<Bytes>)
    ensures dev in r <==> dev !in sel
    ensures forall x :: x != dev ==> (x in r <==> x in sel)
  {
    if dev in sel then sel - {dev} else sel + {dev}
  }

  /** Toggling the same device twice restores the selection. */
  lemma ToggleTwice(sel: set<Bytes>, dev: Bytes)
    ensures Toggled(Toggled(sel, dev), dev) == sel
  {
    var t := Toggled(Toggled(sel, dev), dev);
    forall x
      ensures x in t <==> x in sel
    {
      if x != dev {
        assert x in Toggled(sel, dev) <==> x in sel;
      }
    }
  }

  /** Toggling two different devices gives the same selection in either order. */
  lemma ToggleCommutes(sel: set<Bytes>, a: Bytes, b: Bytes)
    ensures Toggled(Toggled(sel, a), b) == Toggled(Toggled(sel, b), a)
  {
    var l, r := Toggled(Toggled(sel, a), b), Toggled(Toggled(sel, b), a);
    forall x
      ensures x in l <==> x in r
    {
      assert x in Toggled(sel, a) <==> (if x == a then x !in sel else x in sel);
      assert x in Toggled(sel, b) <==> (if x == b then x !in sel else x in sel);
    }
  }

  class Host {
    /** The name is given at construction and never changes. */
    const name: Bytes
    var username: Bytes
    var selected: set<Bytes>
    /** updatable::stg_: the storage the host writes through, or null. */
    var stg: object?
    /** The stores requested so far (updatable::store). */
    var stores: nat

    /** host(name): that name, no username, nothing selected, no storage. */
    constructor(name: Bytes)
      ensures this.name == name && username == [] && selected == {} && stg == null && stores == 0
    {
      this.name := name;
      username := [];
      selected := {};
      stg := null;
      stores := 0;
    }

    /** updatable::set: the storage pointer, nothing else. */
    method Set(stg: object?)
      modifies this
      ensures this.stg == stg
      ensures username == old(username) && selected == old(selected) && stores == old(stores)
    {
      this.stg := stg;
    }

    /**
     * host::update: a different username is taken and reported as a change;
     * the same one changes nothing.
     */
    method Update(user: Bytes) returns (changed: bool)
      modifies this
      ensures changed <==> old(username) != user
      ensures username == user
      ensures selected == old(selected) && stg == old(stg) && stores == old(stores)
    {
      if username == user {
        return false;
      }
      username := user;
      return true;
    }

    /** host::is_selected. */
    function IsSelected(dev: Bytes): (r: bool)
      reads this
      ensures r <==> dev in selected
    {
      dev in selected
    }

    /** host::switch_selection: toggle the device, leave the others, then store. */
    method SwitchSelection(dev: Bytes)
      modifies this
      ensures selected == Toggled(old(selected), dev)
      ensures IsSelected(dev) <==> !old(IsSelected(dev))
      ensures stores == old(stores) + 1
      ensures username == old(username) && stg == old(stg)
    {
      if dev !in selected {
        selected := selected + {dev};
      } else {
        selected := selected - {dev};
      }
      stores := stores + 1;
    }

    /** host::batch_update: the selection replaced by the given set. */
    method BatchUpdate(upstream: set<Bytes>)
      modifies this
      ensures selected == upstream
      ensures username == old(username) && stg == old(stg) && stores == old(stores)
    {
      selected := upstream;
    }

    /** host::clear_selection: nothing selected, no other field touched. */
    method ClearSelection()
      modifies this
      ensures selected == {}
      ensures username == old(username) && stg == old(stg) && stores == old(stores)
    {
      selected := {};
    }
  }

  /** Switching a device twice leaves the selection as it was and requests two stores. */
  method SwitchTwice(h: Host, dev: Bytes)
    modifies h
    ensures h.selected == old(h.selected) && h.stores == old(h.stores) + 2
  {
    h.SwitchSelection(dev);
    h.SwitchSelection(dev);
    ToggleTwice(old(h.selected), dev);
  }
}
