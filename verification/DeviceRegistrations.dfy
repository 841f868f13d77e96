/** The registrations as objects over the registries of the server. */
module DeviceRegistrations {
  import opened Wrappers
  import opened Properties
  import opened Registrations
  import Items = Registry

  /** What is registered, by kind and id. */
  datatype Stored =
    Stored(actuators: map<nat, Items.Item>, consoles: map<nat, Items.Item>, volumes: map<nat, Items.Item>)

  function At(s: Stored, r: Registration): Option<Items.Item> {
    var items := match r case Actuator(_) => s.actuators case Console(_) => s.consoles case Volume(_) => s.volumes;
    if r.id in items then Some(items[r.id]) else None
  }

  function Put(s: Stored, r: Registration, item: Items.Item): Stored {
    match r
    case Actuator(id) => s.(actuators := s.actuators[id := item])
    case Console(id) => s.(consoles := s.consoles[id := item])
    case Volume(id) => s.(volumes := s.volumes[id := item])
  }

  function Cut(s: Stored, r: Registration): Stored {
    match r
    case Actuator(id) => s.(actuators := s.actuators - {id})
    case Console(id) => s.(consoles := s.consoles - {id})
    case Volume(id) => s.(volumes := s.volumes - {id})
  }

  /** An item to register: its kind, its properties and the object behind it. */
  type Offered = (ItemKind, Properties, nat)

  function PutAll(s: Stored, items: seq<Registration>, batch: seq<Offered>): Stored
    requires |items| == |batch|
  {
    if items == [] then s
    else
      var n := |items| - 1;
      Put(PutAll(s, items[..n], batch[..n]), items[n], Items.Item(batch[n].1, batch[n].2))
  }

  function CutAll(s: Stored, items: seq<Registration>): Stored {
    if items == [] then s else Cut(CutAll(s, items[..|items| - 1]), items[|items| - 1])
  }

  /** Exactly one item is stored, or goes. */
  lemma OneAt(s: Stored, r: Registration, item: Items.Item, q: Registration)
    ensures At(Put(s, r, item), q) == if q == r then Some(item) else At(s, q)
    ensures At(Cut(s, r), q) == if q == r then None else At(s, q)
  {
  }

  lemma {:induction false} AllAt(s: Stored, items: seq<Registration>, batch: seq<Offered>, q: Registration)
    requires |items| == |batch|
    ensures q !in items ==> At(PutAll(s, items, batch), q) == At(s, q)
    ensures At(CutAll(s, items), q) == if q in items then None else At(s, q)
    decreases |items|
  {
    if items != [] {
      var n := |items| - 1;
      assert items == items[..n] + [items[n]];
      AllAt(s, items[..n], batch[..n], q);
      OneAt(PutAll(s, items[..n], batch[..n]), items[n], Items.Item(batch[n].1, batch[n].2), q);
      OneAt(CutAll(s, items[..n]), items[n], Items.Item(batch[n].1, batch[n].2), q);
    }
  }

  lemma {:induction false} BatchAt(s: Stored, items: seq<Registration>, batch: seq<Offered>, i: nat)
    requires |items| == |batch| && i < |items|
    requires forall j, k :: 0 <= j < k < |items| ==> items[j] != items[k]
    ensures At(PutAll(s, items, batch), items[i]) == Some(Items.Item(batch[i].1, batch[i].2))
    decreases |items|
  {
    var n := |items| - 1;
    if i < n {
      BatchAt(s, items[..n], batch[..n], i);
    }
    OneAt(PutAll(s, items[..n], batch[..n]), items[n], Items.Item(batch[n].1, batch[n].2), items[i]);
  }

  /** A batch stores each of its items, with its own properties and object, under the registration it gets,
      and leaves every other item alone. */
  lemma BatchIsStored(s: Stored, server: Server, batch: seq<Offered>)
    requires WellNumbered(server)
    ensures
      var items := Batch(server, Kinds(batch));
      && |items| == |batch|
      && (forall i :: 0 <= i < |batch| ==>
            && KindOf(items[i]) == batch[i].0
            && At(PutAll(s, items, batch), items[i]) == Some(Items.Item(batch[i].1, batch[i].2)))
      && (forall r :: r !in items ==> At(PutAll(s, items, batch), r) == At(s, r))
  {
    var items := Batch(server, Kinds(batch));
    BatchIsNew(server, Kinds(batch));
    forall i | 0 <= i < |batch|
      ensures At(PutAll(s, items, batch), items[i]) == Some(Items.Item(batch[i].1, batch[i].2))
    {
      BatchAt(s, items, batch, i);
    }
    forall r | r !in items
      ensures At(PutAll(s, items, batch), r) == At(s, r)
    {
      AllAt(s, items, batch, r);
    }
  }

  lemma BatchSnoc(server: Server, kinds: seq<ItemKind>, i: nat)
    requires i < |kinds|
    ensures
      var so := RegisterAll(server, kinds[..i]);
      && RegisterAll(server, kinds[..i + 1]) == Register(so, kinds[i])
      && Batch(server, kinds[..i + 1]) == Batch(server, kinds[..i]) + [Next(so, kinds[i])]
  {
    assert kinds[..i + 1][..i] == kinds[..i];
  }

  lemma PutAllSnoc(s: Stored, items: seq<Registration>, batch: seq<Offered>, i: nat, item: Registration)
    requires |items| == i < |batch|
    ensures
      PutAll(s, items + [item], batch[..i + 1]) ==
        Put(PutAll(s, items, batch[..i]), item, Items.Item(batch[i].1, batch[i].2))
  {
    assert batch[..i + 1][..i] == batch[..i] && (items + [item])[..i] == items;
  }

  /** What was registered for `path` is no longer stored. */
  function Freed(s: Stored, registrations: map<Path, State>, path: Path): Stored {
    if path in registrations && registrations[path].Registered? then CutAll(s, registrations[path].items) else s
  }

  class ServerInner {
    const actuators: Items.Registry
    const consoles: Items.Registry
    const volumes: Items.Registry

    constructor ()
      ensures Valid() && fresh(actuators) && fresh(consoles) && fresh(volumes)
      ensures View() == Server(Ids({}, 0), Ids({}, 0), Ids({}, 0))
    {
      actuators := new Items.Registry();
      consoles := new Items.Registry();
      volumes := new Items.Registry();
    }

    ghost predicate Valid()
      reads this, actuators, consoles, volumes
    {
      && actuators != consoles && actuators != volumes && consoles != volumes
      && actuators.Valid() && consoles.Valid() && volumes.Valid()
    }

    function View(): Server
      reads this, actuators, consoles, volumes
    {
      Server(Ids(actuators.contents.Keys, actuators.next), Ids(consoles.contents.Keys, consoles.next),
             Ids(volumes.contents.Keys, volumes.next))
    }

    function RegistryOf(kind: ItemKind): Items.Registry {
      match kind
      case ActuatorKind => actuators
      case ConsoleKind => consoles
      case VolumeKind => volumes
    }

    function Store(): Stored
      reads actuators, consoles, volumes
    {
      Stored(actuators.contents, consoles.contents, volumes.contents)
    }

    lemma Numbered()
      requires Valid()
      ensures WellNumbered(View())
    {
      Items.IdsBelow(actuators.log);
      Items.IdsBelow(consoles.log);
      Items.IdsBelow(volumes.log);
    }

    method RegisterItem(kind: ItemKind, properties: Properties, inner: nat) returns (r: Registration)
      requires Valid()
      modifies actuators, consoles, volumes
      ensures Valid()
      ensures r == Next(old(View()), kind) && View() == Register(old(View()), kind)
      ensures Store() == Put(old(Store()), r, Items.Item(properties, inner))
    {
      var registry := RegistryOf(kind);
      var id, item := registry.Add(properties, inner);
      assert registry.contents.Keys == old(registry.contents.Keys) + {id};
      r := match kind case ActuatorKind => Actuator(id) case ConsoleKind => Console(id) case VolumeKind => Volume(id);
    }

    /** Everything in a batch, in order, as the guard collects it. */
    method RegisterItems(batch: seq<Offered>) returns (items: seq<Registration>)
      requires Valid()
      modifies actuators, consoles, volumes
      ensures Valid() && View() == RegisterAll(old(View()), Kinds(batch)) && items == Batch(old(View()), Kinds(batch))
      ensures |items| == |batch| && Store() == PutAll(old(Store()), items, batch)
    {
      items := [];
      for i := 0 to |batch|
        invariant Valid() && |items| == i
        invariant View() == RegisterAll(old(View()), Kinds(batch)[..i])
        invariant items == Batch(old(View()), Kinds(batch)[..i])
        invariant Store() == PutAll(old(Store()), items, batch[..i])
      {
        var item := RegisterItem(batch[i].0, batch[i].1, batch[i].2);
        BatchSnoc(old(View()), Kinds(batch), i);
        PutAllSnoc(old(Store()), items, batch, i, item);
        items := items + [item];
      }
      assert Kinds(batch)[..|batch|] == Kinds(batch) && batch[..|batch|] == batch;
    }

    method UnregisterItem(r: Registration)
      requires Valid()
      modifies actuators, consoles, volumes
      ensures Valid() && View() == Unregister(old(View()), r) && Store() == Cut(old(Store()), r)
    {
      var registry := RegistryOf(KindOf(r));
      var item := registry.Lookup(r.id);
      if item.Some? {
        registry.Remove(r.id);
      }
    }
  }

  /** Kept while a device is set up. */
  datatype PreRegistration = PreRegistration(path: Path, seqnum: nat)

  class DeviceRegistrations {
    const server: ServerInner
    var registrations: map<Path, State>

    constructor (server: ServerInner)
      ensures this.server == server && registrations == map[]
    {
      this.server := server;
      registrations := map[];
    }

    ghost predicate Valid()
      reads this, server, server.actuators, server.consoles, server.volumes
    {
      server.Valid()
    }

    function View(): Tracker
      reads this, server, server.actuators, server.consoles, server.volumes
    {
      Tracker(registrations, server.View())
    }

    method UnregisterItems(items: seq<Registration>)
      requires Valid()
      modifies server.actuators, server.consoles, server.volumes
      ensures Valid() && server.View() == UnregisterAll(old(server.View()), items)
      ensures server.Store() == CutAll(old(server.Store()), items)
    {
      for i := 0 to |items|
        invariant Valid() && server.View() == UnregisterAll(old(server.View()), items[..i])
        invariant server.Store() == CutAll(old(server.Store()), items[..i])
      {
        server.UnregisterItem(items[i]);
        assert items[..i + 1][..i] == items[..i];
      }
      assert items[..|items|] == items;
    }

    method PreRegister(path: Path, seqnum: nat) returns (token: PreRegistration)
      requires Valid()
      modifies this, server.actuators, server.consoles, server.volumes
      ensures Valid() && View() == Registrations.PreRegister(old(View()), path, seqnum)
      ensures server.Store() == Freed(old(server.Store()), old(registrations), path)
      ensures token == PreRegistration(path, seqnum)
    {
      var existing := if path in registrations then Some(registrations[path]) else None;
      registrations := registrations[path := Pending(seqnum)];
      if existing.Some? && existing.value.Registered? {
        UnregisterItems(existing.value.items);
      }
      token := PreRegistration(path, seqnum);
    }

    method Remove(path: Path)
      requires Valid()
      modifies this, server.actuators, server.consoles, server.volumes
      ensures Valid() && View() == Registrations.Remove(old(View()), path)
      ensures server.Store() == Freed(old(server.Store()), old(registrations), path)
    {
      var existing := if path in registrations then Some(registrations[path]) else None;
      registrations := registrations - {path};
      if existing.Some? && existing.value.Registered? {
        UnregisterItems(existing.value.items);
      }
    }

    /** `batch` is what the caller's function registers with the guard, in that order; the token is
        dropped at the end. */
    method RegisterBatch(token: PreRegistration, batch: seq<Offered>)
      requires Valid()
      modifies this, server.actuators, server.consoles, server.volumes
      ensures Valid()
      ensures View() == Registrations.RegisterBatch(old(View()), token.path, token.seqnum, Kinds(batch))
      ensures
        server.Store() ==
          if Current(old(View()), token.path, token.seqnum) then
            PutAll(old(server.Store()), Batch(old(server.View()), Kinds(batch)), batch)
          else old(server.Store())
    {
      ConsumedToken(View(), token.path, token.seqnum, Kinds(batch));
      if token.path in registrations && registrations[token.path] == Pending(token.seqnum) {
        var items := server.RegisterItems(batch);
        registrations := registrations[token.path := Registered(items)];
      }
      Drop(token);
    }

    method Drop(token: PreRegistration)
      modifies this
      ensures View() == DropToken(old(View()), token.path, token.seqnum)
    {
      if token.path in registrations && registrations[token.path] == Pending(token.seqnum) {
        registrations := registrations - {token.path};
      }
    }
  }

  function Kinds(batch: seq<Offered>): (kinds: seq<ItemKind>)
    ensures |kinds| == |batch|
  {
    seq(|batch|, i requires 0 <= i < |batch| => batch[i].0)
  }
}
