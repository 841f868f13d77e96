/** A configured device as an object. */
module ConfigDevice {
  import opened Wrappers
  import opened Properties
  import opened Registry
  import opened Mirroring
  import opened Links
  import Modes = DeviceModes

  /** A configured item and the id of the registry item it is linked to. */
  class DeviceItem {
    var id: Option<nat>
    const pattern: Pattern

    constructor (pattern: Pattern)
      ensures this.pattern == pattern && id == None
    {
      this.pattern := pattern;
      id := None;
    }

    method UnsetIfMatches(other: nat) returns (changed: bool)
      modifies this
      ensures id == Follow(old(id), pattern, Removed(other))
      ensures changed <==> old(id) == Some(other)
    {
      changed := id == Some(other);
      if changed {
        id := None;
      }
    }

    method SetIfMatches(other: nat, item: Item) returns (changed: bool)
      modifies this
      ensures id == Follow(old(id), pattern, Added(other, item))
      ensures changed <==> Selects(pattern, item.properties)
    {
      changed := Matches(item.properties, pattern);
      if changed {
        id := Some(other);
      }
    }
  }

  predicate Apart(items: seq<DeviceItem>) {
    forall i, j :: 0 <= i < j < |items| ==> items[i] != items[j]
  }

  /** The change sets or unsets the link. */
  predicate Moves(link: Option<nat>, pattern: Pattern, c: Change) {
    match c
    case Added(_, item) => Selects(pattern, item.properties)
    case Removed(id) => link == Some(id)
  }

  /** Each item follows the change; `changed` when one was set or unset, which notifies watchers. */
  method ChangeItems(items: seq<DeviceItem>, c: Change) returns (changed: bool)
    requires Apart(items)
    modifies set i | 0 <= i < |items| :: items[i]
    ensures forall i :: 0 <= i < |items| ==> items[i].id == Follow(old(items[i].id), items[i].pattern, c)
    ensures changed <==> exists i :: 0 <= i < |items| && Moves(old(items[i].id), items[i].pattern, c)
    ensures (exists i :: 0 <= i < |items| && items[i].id != old(items[i].id)) ==> changed
    ensures c.Removed? ==> (changed <==> exists i :: 0 <= i < |items| && items[i].id != old(items[i].id))
    ensures
      c.Added? ==> (changed <==> exists i :: 0 <= i < |items| && Selects(items[i].pattern, c.item.properties))
  {
    changed := false;
    for k := 0 to |items|
      invariant forall i :: 0 <= i < k ==> items[i].id == Follow(old(items[i].id), items[i].pattern, c)
      invariant forall i :: k <= i < |items| ==> items[i].id == old(items[i].id)
      invariant changed <==> exists i :: 0 <= i < k && Moves(old(items[i].id), items[i].pattern, c)
    {
      var did;
      match c {
        case Added(id, item) => did := items[k].SetIfMatches(id, item);
        case Removed(id) => did := items[k].UnsetIfMatches(id);
      }
      assert did <==> Moves(old(items[k].id), items[k].pattern, c);
      changed := did || changed;
    }
  }

  /** The list first, then each change received, until the stream ends. */
  method MonitorItems(items: seq<DeviceItem>, listed: seq<(nat, Item)>, changes: seq<Change>)
    requires Apart(items)
    modifies set i | 0 <= i < |items| :: items[i]
    ensures forall i :: 0 <= i < |items| ==>
      items[i].id == FollowAll(old(items[i].id), items[i].pattern, Listing(listed) + changes)
  {
    var all := Listing(listed) + changes;
    for k := 0 to |all|
      invariant forall i :: 0 <= i < |items| ==>
        items[i].id == FollowAll(old(items[i].id), items[i].pattern, all[..k])
    {
      var changed := ChangeItems(items, all[k]);
      assert all[..k + 1][..k] == all[..k];
    }
    assert all[..|all|] == all;
  }

  class Device {
    const modes: seq<Modes.Mode>
    var currentMode: Option<string>
    var log: seq<Modes.Call>

    constructor (modes: seq<Modes.Mode>)
      ensures this.modes == modes && View() == Modes.START
    {
      this.modes := modes;
      currentMode, log := None, [];
    }

    function View(): Modes.State
      reads this
    {
      Modes.State(currentMode, log)
    }

    method SetMode(name: string, actuators: Modes.Actuators) returns (error: Option<Modes.Error>)
      modifies this
      ensures (View(), error) == Modes.SetMode(modes, old(View()), name, actuators)
    {
      var found := Modes.Find(modes, name);
      if found.None? {
        return Some(Modes.ModeNotFound);
      }
      var target := found.value;
      if target.depends.Some? && currentMode != target.depends {
        return Some(Modes.WrongCurrentMode);
      }
      currentMode := None;
      var sequence := target.sequence;
      for i := 0 to |sequence|
        invariant currentMode == None && log == old(log) + Modes.Done(sequence[..i])
        invariant actuators.Stop? ==> i <= actuators.at
      {
        if actuators.Stop? && actuators.at == i {
          if !actuators.missing {
            log := log + [Modes.Call(sequence[i], false)];
          }
          assert log == old(log) + Modes.Calls(sequence, actuators);
          return Some(Modes.ActuatorFailed);
        }
        log := log + [Modes.Call(sequence[i], true)];
        assert Modes.Done(sequence[..i + 1]) == Modes.Done(sequence[..i]) + [Modes.Call(sequence[i], true)];
      }
      assert sequence[..|sequence|] == sequence;
      currentMode := Some(name);
      error := None;
    }
  }
}
