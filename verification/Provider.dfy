/** A provider mirrors the items of a remote server, and what its copy amounts to. */
module Mirroring {
  import Bytes
  import opened Properties
  import opened Registry

  /** The remote-to-local ids of a provider, and the local registry. */
  datatype Mirror = Mirror(ids: map<nat, nat>, local: map<nat, Item>, next: nat)

  /** The local item that forwards to remote item `id`. */
  function Proxy(id: nat, item: Item, instance: string): Item {
    Item(item.properties[INSTANCE := instance], id)
  }

  function AddItem(m: Mirror, id: nat, item: Item, instance: string): Mirror {
    Mirror(m.ids[id := m.next], m.local[m.next := Proxy(id, item, instance)], m.next + 1)
  }

  function RemoveItem(m: Mirror, id: nat): Mirror {
    if id in m.ids then Mirror(m.ids - {id}, m.local - {m.ids[id]}, m.next) else m
  }

  function Receive(m: Mirror, c: Change, instance: string): Mirror {
    match c
    case Added(id, item) => AddItem(m, id, item, instance)
    case Removed(id) => RemoveItem(m, id)
  }

  function ReceiveAll(m: Mirror, changes: seq<Change>, instance: string): Mirror {
    if changes == [] then m
    else Receive(ReceiveAll(m, changes[..|changes| - 1], instance), changes[|changes| - 1], instance)
  }

  /** The connection broke: whatever the ids still name is unregistered. */
  function Drained(m: Mirror): Mirror {
    Mirror(map[], m.local - m.ids.Values, m.next)
  }

  // ------------------------------------------------------------- streams

  datatype ItemEvent = AddedItems(items: seq<(nat, Item)>) | RemovedItem(id: nat)

  function Listing(items: seq<(nat, Item)>): (changes: seq<Change>)
    ensures |changes| == |items|
  {
    seq(|items|, i requires 0 <= i < |items| => Added(items[i].0, items[i].1))
  }

  function EventOf(c: Change): ItemEvent {
    match c
    case Added(id, item) => AddedItems([(id, item)])
    case Removed(id) => RemovedItem(id)
  }

  /** The list of the registry first, then each change since the subscription. */
  function ItemStream(items: seq<(nat, Item)>, changes: seq<Change>): seq<ItemEvent> {
    [AddedItems(items)] + seq(|changes|, i requires 0 <= i < |changes| => EventOf(changes[i]))
  }

  function ChangesOf(e: ItemEvent): seq<Change> {
    match e
    case AddedItems(items) => Listing(items)
    case RemovedItem(id) => [Removed(id)]
  }

  function ChangeLists(events: seq<ItemEvent>): (lists: seq<seq<Change>>)
    ensures |lists| == |events|
  {
    seq(|events|, i requires 0 <= i < |events| => ChangesOf(events[i]))
  }

  function Flat(events: seq<ItemEvent>): seq<Change> {
    Bytes.Flat(ChangeLists(events))
  }

  lemma StreamSnoc(items: seq<(nat, Item)>, changes: seq<Change>, c: Change)
    ensures ItemStream(items, changes + [c]) == ItemStream(items, changes) + [EventOf(c)]
  {
  }

  lemma FlatConcat(a: seq<ItemEvent>, b: seq<ItemEvent>)
    ensures Flat(a + b) == Flat(a) + Flat(b)
  {
    assert ChangeLists(a + b) == ChangeLists(a) + ChangeLists(b);
    Bytes.FlatConcat(ChangeLists(a), ChangeLists(b));
  }

  lemma FlatSnoc(events: seq<ItemEvent>, e: ItemEvent)
    ensures Flat(events + [e]) == Flat(events) + ChangesOf(e)
  {
    assert ChangeLists(events + [e]) == ChangeLists(events) + [ChangesOf(e)];
    Bytes.FlatSnoc(ChangeLists(events), ChangesOf(e));
  }

  lemma {:induction false} StreamChanges(items: seq<(nat, Item)>, changes: seq<Change>)
    ensures Flat(ItemStream(items, changes)) == Listing(items) + changes
    decreases |changes|
  {
    if changes == [] {
      assert ItemStream(items, []) == [] + [AddedItems(items)];
      FlatSnoc([], AddedItems(items));
    } else {
      var before, c := changes[..|changes| - 1], changes[|changes| - 1];
      assert changes == before + [c];
      StreamChanges(items, before);
      StreamSnoc(items, before, c);
      FlatSnoc(ItemStream(items, before), EventOf(c));
      assert ChangesOf(EventOf(c)) == [c];
    }
  }

  lemma {:induction false} ReceiveConcat(m: Mirror, a: seq<Change>, b: seq<Change>, instance: string)
    ensures ReceiveAll(m, a + b, instance) == ReceiveAll(ReceiveAll(m, a, instance), b, instance)
    decreases |b|
  {
    if b == [] {
      assert a + b == a;
    } else {
      var n := |b| - 1;
      assert (a + b)[..|a + b| - 1] == a + b[..n];
      ReceiveConcat(m, a, b[..n], instance);
    }
  }

  /** The changes up to the first addition of an item whose lookup fails. */
  function Served(changes: seq<Change>, gone: set<nat>): seq<Change> {
    if changes == [] then []
    else
      var n := |changes| - 1;
      var before := Served(changes[..n], gone);
      if before != changes[..n] || (changes[n].Added? && changes[n].id in gone) then before else changes
  }

  lemma {:induction false} ServedStops(a: seq<Change>, b: seq<Change>, gone: set<nat>)
    requires Served(a, gone) != a
    ensures Served(a + b, gone) == Served(a, gone) != a + b
    decreases |b|
  {
    ServedPrefix(a, gone);
    if b == [] {
      assert a + b == a;
    } else {
      var n := |b| - 1;
      assert (a + b)[..|a + b| - 1] == a + b[..n];
      ServedStops(a, b[..n], gone);
    }
  }

  lemma {:induction false} ServedPrefix(changes: seq<Change>, gone: set<nat>)
    ensures |Served(changes, gone)| <= |changes|
    ensures |Served(changes, gone)| == |changes| ==> Served(changes, gone) == changes
    decreases |changes|
  {
    if changes != [] {
      ServedPrefix(changes[..|changes| - 1], gone);
    }
  }

  /** An item whose lookup fails. */
  predicate Lost(c: Change, gone: set<nat>) {
    c.Added? && c.id in gone
  }

  /** All changes are followed up to the first addition of an item whose lookup fails, and none from there
      on. */
  lemma {:induction false} ServedExactly(changes: seq<Change>, gone: set<nat>, k: nat)
    requires k <= |changes| && forall i :: 0 <= i < k ==> !Lost(changes[i], gone)
    requires k < |changes| ==> Lost(changes[k], gone)
    ensures Served(changes, gone) == changes[..k]
    decreases |changes|
  {
    if changes != [] {
      var n := |changes| - 1;
      ServedExactly(changes[..n], gone, if k <= n then k else n);
      if k > n {
        assert changes[..n][..n] == changes[..n] && changes[..k] == changes;
        assert !Lost(changes[n], gone);
      } else {
        assert changes[..n][..k] == changes[..k];
      }
    }
  }

  lemma {:induction false} ServedConcat(a: seq<Change>, b: seq<Change>, gone: set<nat>)
    requires Served(a, gone) == a
    ensures Served(a + b, gone) == a + Served(b, gone)
    ensures Served(a + b, gone) == a + b <==> Served(b, gone) == b
    decreases |b|
  {
    ServedPrefix(b, gone);
    if b == [] {
      assert a + b == a;
    } else {
      var n := |b| - 1;
      assert (a + b)[..|a + b| - 1] == a + b[..n];
      ServedConcat(a, b[..n], gone);
    }
  }

  /** One more event of a stream served so far: it is served to its end, and the stream goes on, or the
      stream ends with it. */
  lemma ServedEvent(m: Mirror, events: seq<ItemEvent>, e: nat, gone: set<nat>, instance: string)
    requires e < |events| && Served(Flat(events[..e]), gone) == Flat(events[..e])
    ensures
      var so, changes := Flat(events[..e]), ChangesOf(events[e]);
      var after := ReceiveAll(ReceiveAll(m, so, instance), Served(changes, gone), instance);
      if Served(changes, gone) == changes then
        Served(Flat(events[..e + 1]), gone) == Flat(events[..e + 1])
        && after == ReceiveAll(m, Flat(events[..e + 1]), instance)
      else
        Served(Flat(events), gone) != Flat(events) && after == ReceiveAll(m, Served(Flat(events), gone), instance)
  {
    var so, changes := Flat(events[..e]), ChangesOf(events[e]);
    assert Flat(events[..e + 1]) == so + changes by {
      assert events[..e + 1] == events[..e] + [events[e]];
      FlatSnoc(events[..e], events[e]);
    }
    ServedConcat(so, changes, gone);
    ReceiveConcat(m, so, Served(changes, gone), instance);
    if Served(changes, gone) != changes {
      assert Flat(events) == (so + changes) + Flat(events[e + 1..]) by {
        assert events == events[..e + 1] + events[e + 1..];
        FlatConcat(events[..e + 1], events[e + 1..]);
      }
      ServedStops(so + changes, Flat(events[e + 1..]), gone);
    }
  }

  // ---------------------------------------------------------- invariant

  ghost predicate OneToOne(ids: map<nat, nat>) {
    forall r, s :: r in ids && s in ids && ids[r] == ids[s] ==> r == s
  }

  /** The ids name, one to one, local items that forward to the items of `replica`; the items of
      `base` are untouched. */
  ghost predicate Mirrors(m: Mirror, replica: map<nat, Item>, base: map<nat, Item>, instance: string) {
    && m.ids.Keys == replica.Keys
    && OneToOne(m.ids)
    && (forall r :: r in m.ids ==> Forwards(m.local, m.ids[r], r, replica, instance) && m.ids[r] !in base)
    && Untouched(m.local, base)
    && (forall l :: l in m.local ==> l < m.next)
  }

  predicate Forwards(local: map<nat, Item>, l: nat, r: nat, replica: map<nat, Item>, instance: string) {
    r in replica && l in local && local[l] == Proxy(r, replica[r], instance)
  }

  /** `proxy` stands for the remote item `r`: it forwards to that, and has its properties, but for the
      instance, which names the remote server. */
  predicate StandsFor(proxy: Item, r: nat, item: Item, instance: string) {
    && proxy.inner == r
    && INSTANCE in proxy.properties && proxy.properties[INSTANCE] == instance
    && proxy.properties.Keys == item.properties.Keys + {INSTANCE}
    && forall key :: key in item.properties && key != INSTANCE ==>
         key in proxy.properties && proxy.properties[key] == item.properties[key]
  }

  ghost predicate Untouched(local: map<nat, Item>, base: map<nat, Item>) {
    forall l :: l in base ==> l in local && local[l] == base[l]
  }

  /** Local items of the provider that it has no id for any more. */
  function Leaked(m: Mirror, base: map<nat, Item>): set<nat> {
    m.local.Keys - base.Keys - m.ids.Values
  }

  lemma ValuesAdd(ids: map<nat, nat>, id: nat, l: nat)
    requires OneToOne(ids) && l !in ids.Values
    ensures ids[id := l].Values == ids.Values - (if id in ids then {ids[id]} else {}) + {l}
    ensures OneToOne(ids[id := l])
  {
    var n := ids[id := l];
    assert n[id] == l;
    forall v | v in ids.Values && (id in ids ==> v != ids[id])
      ensures v in n.Values
    {
      var r :| r in ids && ids[r] == v;
      assert n[r] == v;
    }
  }

  lemma ValuesRemove(ids: map<nat, nat>, id: nat)
    requires OneToOne(ids) && id in ids
    ensures (ids - {id}).Values == ids.Values - {ids[id]}
    ensures OneToOne(ids - {id})
  {
    var n := ids - {id};
    forall v | v in ids.Values && v != ids[id]
      ensures v in n.Values
    {
      var r :| r in ids && ids[r] == v;
      assert n[r] == v;
    }
  }

  lemma NextIsNew(m: Mirror, replica: map<nat, Item>, base: map<nat, Item>, instance: string)
    requires Mirrors(m, replica, base, instance)
    ensures m.next !in m.local && m.next !in base && m.next !in m.ids.Values
  {
    forall r | r in m.ids
      ensures m.ids[r] != m.next
    {
      assert Forwards(m.local, m.ids[r], r, replica, instance);
    }
  }

  lemma AddMirrors(m: Mirror, replica: map<nat, Item>, base: map<nat, Item>, id: nat, item: Item, instance: string)
    requires Mirrors(m, replica, base, instance)
    ensures Mirrors(AddItem(m, id, item, instance), replica[id := item], base, instance)
    ensures
      Leaked(AddItem(m, id, item, instance), base) ==
        Leaked(m, base) + if id in replica then {m.ids[id]} else {}
  {
    NextIsNew(m, replica, base, instance);
    ValuesAdd(m.ids, id, m.next);
    var n := AddItem(m, id, item, instance);
    forall r | r in n.ids
      ensures Forwards(n.local, n.ids[r], r, replica[id := item], instance) && n.ids[r] !in base
    {
      if r != id {
        assert Forwards(m.local, m.ids[r], r, replica, instance);
      }
    }
    if id in replica {
      assert Forwards(m.local, m.ids[id], id, replica, instance);
    }
  }

  lemma RemoveMirrors(m: Mirror, replica: map<nat, Item>, base: map<nat, Item>, id: nat, instance: string)
    requires Mirrors(m, replica, base, instance)
    ensures Mirrors(RemoveItem(m, id), replica - {id}, base, instance)
    ensures Leaked(RemoveItem(m, id), base) == Leaked(m, base)
  {
    var n := RemoveItem(m, id);
    if id in m.ids {
      ValuesRemove(m.ids, id);
      forall r | r in n.ids
        ensures Forwards(n.local, n.ids[r], r, replica - {id}, instance) && n.ids[r] !in base
      {
        assert Forwards(m.local, m.ids[r], r, replica, instance);
      }
    } else {
      assert replica - {id} == replica;
    }
  }

  lemma ProxyStands(r: nat, item: Item, instance: string)
    ensures StandsFor(Proxy(r, item, instance), r, item, instance)
  {
  }

  /** Over every run, whatever is received and whatever others do: the item an id names forwards to the
      remote item with that id, carries the instance, and otherwise exactly the properties of that item. */
  lemma EveryProxyForwards(w: World, events: seq<Happening>, instance: string, r: nat)
    requires Starts(w) && Fair(w, events, instance)
    requires r in HappenAll(w, events, instance).mirror.ids
    ensures
      var m, remote := HappenAll(w, events, instance).mirror, Replay(map[], Incoming(events));
      && r in remote && m.ids[r] in m.local
      && m.local[m.ids[r]].inner == r
      && INSTANCE in m.local[m.ids[r]].properties && m.local[m.ids[r]].properties[INSTANCE] == instance
      && m.local[m.ids[r]].properties.Keys == remote[r].properties.Keys + {INSTANCE}
      && forall key :: key in remote[r].properties && key != INSTANCE ==>
           m.local[m.ids[r]].properties[key] == remote[r].properties[key]
  {
    var after := AlwaysMirrors(w, events, instance);
    var m, remote := after.mirror, Replay(map[], Incoming(events));
    assert Forwards(m.local, m.ids[r], r, remote, instance);
    ProxyStands(r, remote[r], instance);
  }

  /** One change: the ids follow the replica, and an item leaks just when it is added although there
      is an id for it already. */
  lemma ReceiveMirrors(m: Mirror, replica: map<nat, Item>, base: map<nat, Item>, c: Change, instance: string)
    requires Mirrors(m, replica, base, instance)
    ensures Mirrors(Receive(m, c, instance), Apply(replica, c), base, instance)
    ensures
      Leaked(Receive(m, c, instance), base) ==
        Leaked(m, base) + if c.Added? && c.id in replica then {m.ids[c.id]} else {}
  {
    match c
    case Added(id, item) => AddMirrors(m, replica, base, id, item, instance);
    case Removed(id) => RemoveMirrors(m, replica, base, id, instance);
  }

  /** `items` lists the registry contents `live`, each id once. */
  predicate Lists(items: seq<(nat, Item)>, live: map<nat, Item>) {
    && (forall i, j :: 0 <= i < j < |items| ==> items[i].0 != items[j].0)
    && (forall i :: 0 <= i < |items| ==> items[i].0 in live && items[i].1 == live[items[i].0])
    && (forall id :: id in live ==> (id, live[id]) in items)
  }

  function Listed(items: seq<(nat, Item)>): map<nat, Item> {
    Replay(map[], Listing(items))
  }

  lemma {:induction false} ListedItems(items: seq<(nat, Item)>, n: nat)
    requires n <= |items|
    requires forall i, j :: 0 <= i < j < |items| ==> items[i].0 != items[j].0
    ensures forall id :: id in Listed(items[..n]) ==> (id, Listed(items[..n])[id]) in items[..n]
    ensures forall i :: 0 <= i < n ==> items[i].0 in Listed(items[..n])
    decreases n
  {
    if n > 0 {
      ListedItems(items, n - 1);
      assert Listing(items[..n]) == Listing(items[..n - 1]) + [Added(items[n - 1].0, items[n - 1].1)];
      ReplaySnoc(map[], Listing(items[..n - 1]), Added(items[n - 1].0, items[n - 1].1));
      assert items[..n] == items[..n - 1] + [items[n - 1]];
    }
  }

  /** The change at `k` adds an item that the snapshot at `b` has as well. */
  predicate Doubled(log: seq<Change>, b: nat, k: nat)
    requires k < |log|
  {
    k < b <= |log| && log[k].Added? && log[k].id in Live(log[..b])
  }

  /** Only such a change meets an item that is there already. */
  lemma MeetsItself(log: seq<Change>, a: nat, b: nat, k: nat)
    requires Journal(log) && a <= b <= |log| && a <= k < |log| && log[k].Added?
    ensures log[k].id in Replay(Live(log[..b]), log[a..k]) <==> Doubled(log, b, k)
  {
    JournalPrefix(log, k);
    FreshId(log[..k]);
    assert Follows(log[..k], log[k]);
    if k < b {
      CatchUp(log, a, k, b);
    } else {
      FollowsOn(log, a, b, k);
    }
  }

  lemma ListedExactly(items: seq<(nat, Item)>, live: map<nat, Item>)
    requires Lists(items, live)
    ensures Listed(items) == live
  {
    ListedItems(items, |items|);
    assert items[..|items|] == items;
    forall id | id in live
      ensures id in Listed(items)
    {
      var i :| 0 <= i < |items| && items[i] == (id, live[id]);
      assert items[i].0 in Listed(items[..|items|]);
    }
  }

  // --------------------------------------- with others on the same server

  /** The provider receives a change, or another user adds or removes an item of its own. */
  datatype Happening = Received(change: Change) | OtherAdd(item: Item) | OtherRemove(id: nat)

  /** `others` are the local items the provider did not add. */
  datatype World = World(mirror: Mirror, others: map<nat, Item>)

  function Happen(w: World, e: Happening, instance: string): World {
    var m := w.mirror;
    match e
    case Received(c) => w.(mirror := Receive(m, c, instance))
    case OtherAdd(item) =>
      World(Mirror(m.ids, m.local[m.next := item], m.next + 1), w.others[m.next := item])
    case OtherRemove(id) => World(m.(local := m.local - {id}), w.others - {id})
  }

  function HappenAll(w: World, events: seq<Happening>, instance: string): World {
    if events == [] then w
    else Happen(HappenAll(w, events[..|events| - 1], instance), events[|events| - 1], instance)
  }

  /** What the provider receives meanwhile. */
  function Incoming(events: seq<Happening>): seq<Change> {
    if events == [] then []
    else
      var e := events[|events| - 1];
      Incoming(events[..|events| - 1]) + if e.Received? then [e.change] else []
  }

  /** Others remove only what they added, or what was there before. */
  ghost predicate Fair(w: World, events: seq<Happening>, instance: string) {
    forall k :: 0 <= k < |events| && events[k].OtherRemove? ==>
      events[k].id in HappenAll(w, events[..k], instance).others
  }

  /** The provider has no ids yet; whatever is registered is not its own. */
  predicate Starts(w: World) {
    w.mirror.ids == map[] && w.others == w.mirror.local && forall l :: l in w.others ==> l < w.mirror.next
  }

  lemma OtherMirrors(w: World, e: Happening, replica: map<nat, Item>, instance: string)
    requires Mirrors(w.mirror, replica, w.others, instance)
    requires e.OtherAdd? || (e.OtherRemove? && e.id in w.others)
    ensures
      var n := Happen(w, e, instance);
      Mirrors(n.mirror, replica, n.others, instance) && Leaked(n.mirror, n.others) == Leaked(w.mirror, w.others)
  {
    NextIsNew(w.mirror, replica, w.others, instance);
    var n := Happen(w, e, instance);
    forall r | r in n.mirror.ids
      ensures Forwards(n.mirror.local, n.mirror.ids[r], r, replica, instance) && n.mirror.ids[r] !in n.others
    {
      assert Forwards(w.mirror.local, w.mirror.ids[r], r, replica, instance);
    }
    var local, others := w.mirror.local.Keys, w.others.Keys;
    if e.OtherAdd? {
      assert n.mirror.local.Keys == local + {w.mirror.next} && n.others.Keys == others + {w.mirror.next};
    } else {
      assert n.mirror.local.Keys == local - {e.id} && n.others.Keys == others - {e.id};
      assert local - {e.id} - (others - {e.id}) == local - others;
    }
  }

  /** What others do: an item more under the next id, or one of theirs less; the ids of the provider stay. */
  lemma OthersAct(w: World, item: Item, id: nat, instance: string)
    ensures
      var added, removed := Happen(w, OtherAdd(item), instance), Happen(w, OtherRemove(id), instance);
      && added.mirror.ids == removed.mirror.ids == w.mirror.ids
      && added.mirror.local == w.mirror.local[w.mirror.next := item] && added.mirror.next == w.mirror.next + 1
      && added.others == w.others[w.mirror.next := item]
      && removed.mirror.local == w.mirror.local - {id} && removed.others == w.others - {id}
  {
  }

  /** No item is added that is there already. */
  ghost predicate NeverTwice(changes: seq<Change>) {
    forall k {:trigger changes[..k]} :: 0 <= k < |changes| && changes[k].Added? ==>
      changes[k].id !in Replay(map[], changes[..k])
  }

  lemma NeverTwiceSnoc(changes: seq<Change>, c: Change)
    ensures
      NeverTwice(changes + [c]) <==>
        NeverTwice(changes) && (c.Added? ==> c.id !in Replay(map[], changes))
  {
    var all := changes + [c];
    assert all[..|changes|] == changes;
    assert forall k :: 0 <= k < |changes| ==> all[..k] == changes[..k];
  }

  /** The ids mirror what was received, and something leaked just when an item was added that was
      there. */
  ghost predicate Mirrored(w: World, seen: seq<Change>, instance: string) {
    && Mirrors(w.mirror, Replay(map[], seen), w.others, instance)
    && (Leaked(w.mirror, w.others) == {} <==> NeverTwice(seen))
  }

  lemma ReceivedStep(w: World, seen: seq<Change>, c: Change, instance: string)
    requires Mirrored(w, seen, instance)
    ensures Mirrored(Happen(w, Received(c), instance), seen + [c], instance)
  {
    ReplaySnoc(map[], seen, c);
    NeverTwiceSnoc(seen, c);
    ReceiveMirrors(w.mirror, Replay(map[], seen), w.others, c, instance);
  }

  lemma IncomingSnoc(events: seq<Happening>, e: Happening)
    ensures Incoming(events + [e]) == Incoming(events) + if e.Received? then [e.change] else []
  {
    assert (events + [e])[..|events|] == events;
  }

  /** Whatever is received and whatever others do. */
  lemma {:induction false} AlwaysMirrors(w: World, events: seq<Happening>, instance: string) returns (after: World)
    requires Starts(w) && Fair(w, events, instance)
    ensures after == HappenAll(w, events, instance) && Mirrored(after, Incoming(events), instance)
    decreases |events|
  {
    if events == [] {
      after := w;
    } else {
      var n := |events| - 1;
      var before, e := events[..n], events[n];
      assert forall k :: 0 <= k < n ==> before[..k] == events[..k] && before[k] == events[k];
      var so := AlwaysMirrors(w, before, instance);
      after := Happen(so, e, instance);
      assert Incoming(events) == Incoming(before) + if e.Received? then [e.change] else [] by {
        assert events == before + [e];
        IncomingSnoc(before, e);
      }
      if e.Received? {
        ReceivedStep(so, Incoming(before), e.change, instance);
      } else {
        OtherMirrors(so, e, Replay(map[], Incoming(before)), instance);
        assert Incoming(before) + [] == Incoming(before);
      }
    }
  }

  lemma {:induction false} ReplayConcat(m: map<nat, Item>, a: seq<Change>, b: seq<Change>)
    ensures Replay(m, a + b) == Replay(Replay(m, a), b)
    decreases |a|
  {
    if a == [] {
      assert a + b == b;
    } else {
      assert (a + b)[1..] == a[1..] + b;
      ReplayConcat(Apply(m, a[0]), a[1..], b);
    }
  }

  /** Of a list and the changes after its subscription, only those from `a` to `b` can repeat. */
  lemma StreamRepeats(items: seq<(nat, Item)>, log: seq<Change>, a: nat, b: nat)
    requires Journal(log) && a <= b <= |log| && Lists(items, Live(log[..b]))
    ensures
      NeverTwice(Listing(items) + log[a..]) <==> forall k :: a <= k < b ==> !Doubled(log, b, k)
  {
    var all := Listing(items) + log[a..];
    forall p: nat | p < |items|
      ensures items[p].0 !in Replay(map[], all[..p])
    {
      ListedItems(items, p);
      assert all[..p] == Listing(items[..p]);
    }
    forall k | a <= k < |log| && log[k].Added?
      ensures log[k].id in Replay(map[], all[..|items| + k - a]) <==> Doubled(log, b, k)
    {
      ListedExactly(items, Live(log[..b]));
      assert all[..|items| + k - a] == Listing(items) + log[a..k];
      ReplayConcat(map[], Listing(items), log[a..k]);
      MeetsItself(log, a, b, k);
    }
    RepeatsAt(items, log, a, b);
  }

  lemma RepeatsAt(items: seq<(nat, Item)>, log: seq<Change>, a: nat, b: nat)
    requires a <= b <= |log|
    requires
      var all := Listing(items) + log[a..];
      && (forall p: nat :: p < |items| ==> items[p].0 !in Replay(map[], all[..p]))
      && (forall k :: a <= k < |log| && log[k].Added? ==>
            (log[k].id in Replay(map[], all[..|items| + k - a]) <==> Doubled(log, b, k)))
    ensures NeverTwice(Listing(items) + log[a..]) <==> forall k :: a <= k < b ==> !Doubled(log, b, k)
  {
    var all := Listing(items) + log[a..];
    if forall k :: a <= k < b ==> !Doubled(log, b, k) {
      forall p: nat | p < |all| && all[p].Added?
        ensures all[p].id !in Replay(map[], all[..p])
      {
        if p >= |items| {
          var k := a + p - |items|;
          assert all[p] == log[k] && !Doubled(log, b, k);
        }
      }
    }
    if NeverTwice(all) {
      forall k | a <= k < b
        ensures !Doubled(log, b, k)
      {
        var p := |items| + k - a;
        assert all[p] == log[k];
        assert all[..p] == all[..p];
      }
    }
  }

  /** The provider subscribes to the remote registry at `a`, gets its list as of `b`, and receives
      every change after `a`, while others use the local registry at will: its ids are then exactly the
      remote ids, each naming its own proxy, and the others' items are untouched. Nothing is leaked if
      and only if no item on the list was added between `a` and `b`; when the connection breaks, what
      leaked stays. */
  lemma MirrorIsExact(w: World, events: seq<Happening>, items: seq<(nat, Item)>, log: seq<Change>, a: nat, b: nat,
                      instance: string)
    requires Journal(log) && a <= b <= |log| && Lists(items, Live(log[..b]))
    requires Starts(w) && Fair(w, events, instance)
    requires Incoming(events) == Flat(ItemStream(items, log[a..]))
    ensures
      var after := HappenAll(w, events, instance);
      && Mirrors(after.mirror, Live(log), after.others, instance)
      && (Leaked(after.mirror, after.others) == {} <==> forall k :: a <= k < b ==> !Doubled(log, b, k))
      && Drained(after.mirror).ids == map[]
      && Drained(after.mirror).local.Keys == after.others.Keys + Leaked(after.mirror, after.others)
      && Untouched(after.mirror.local, Drained(after.mirror).local)
  {
    var after := AlwaysMirrors(w, events, instance);
    StreamChanges(items, log[a..]);
    StreamRepeats(items, log, a, b);
    ListedExactly(items, Live(log[..b]));
    ReplayConcat(map[], Listing(items), log[a..]);
    Replicates(log, a, b);
    DrainLeaves(after.mirror, Live(log), after.others, instance);
  }

  lemma DrainLeaves(m: Mirror, replica: map<nat, Item>, base: map<nat, Item>, instance: string)
    requires Mirrors(m, replica, base, instance)
    ensures Drained(m).local.Keys == base.Keys + Leaked(m, base)
  {
    forall r | r in m.ids
      ensures m.ids[r] !in base
    {
      assert Forwards(m.local, m.ids[r], r, replica, instance);
    }
  }

  /** Without others, receiving is all that happens. */
  lemma {:induction false} ReceivedAlone(w: World, changes: seq<Change>, instance: string)
    returns (events: seq<Happening>)
    ensures Incoming(events) == changes && Fair(w, events, instance)
    ensures HappenAll(w, events, instance).mirror == ReceiveAll(w.mirror, changes, instance)
    decreases |changes|
  {
    if changes == [] {
      events := [];
    } else {
      var n := |changes| - 1;
      var before := ReceivedAlone(w, changes[..n], instance);
      events := before + [Received(changes[n])];
      assert events[..|before|] == before;
      assert forall k :: 0 <= k < |before| ==> events[k] == before[k] && events[..k] == before[..k];
    }
  }

  /** One item added between the subscription and the list: after the connection breaks, its proxy is
      still registered. */
  lemma LeftBehind(item: Item, instance: string)
    ensures
      var log := [Added(0, item)];
      var after := ReceiveAll(Mirror(map[], map[], 0), Flat(ItemStream([(0, item)], log)), instance);
      Journal(log) && after.ids == map[0 := 1] && Drained(after).local == map[0 := Proxy(0, item, instance)]
  {
    var m, log := Mirror(map[], map[], 0), [Added(0, item)];
    StreamChanges([(0, item)], log);
    assert Listing([(0, item)]) + log == [Added(0, item), Added(0, item)];
    assert [Added(0, item), Added(0, item)][..1] == [Added(0, item)];
    assert [Added(0, item)][..0] == [];
    assert ReceiveAll(m, [], instance) == m;
    assert ReceiveAll(m, [Added(0, item)], instance) == AddItem(m, 0, item, instance);
    var after := ReceiveAll(m, [Added(0, item), Added(0, item)], instance);
    assert after == AddItem(AddItem(m, 0, item, instance), 0, item, instance);
    var proxy := Proxy(0, item, instance);
    assert after.ids == map[0 := 1] && after.local == map[0 := proxy, 1 := proxy];
    assert after.ids[0] == 1 && after.ids.Values == {1};
    assert after.local - {1} == map[0 := proxy];
  }

  /** Two items are listed and the properties of the second cannot be looked up: mirroring ends there, the
      removal of the first is not followed, and its proxy stays. */
  lemma LookupLost(item: Item, instance: string)
    ensures
      var events := [AddedItems([(0, item), (1, item)]), RemovedItem(0)];
      var served := Served(Flat(events), {1});
      && served == [Added(0, item)] && served != Flat(events)
      && ReceiveAll(Mirror(map[], map[], 0), served, instance) ==
         Mirror(map[0 := 0], map[0 := Proxy(0, item, instance)], 1)
  {
    var listed := AddedItems([(0, item), (1, item)]);
    var one: seq<Change> := [Added(0, item)];
    var two, all := one + [Added(1, item)], one + [Added(1, item)] + [Removed(0)];
    assert Flat([listed] + [RemovedItem(0)]) == all by {
      FlatSnoc([], listed);
      FlatSnoc([listed], RemovedItem(0));
      assert [] + [listed] == [listed] && ChangesOf(listed) == two;
    }
    assert [listed] + [RemovedItem(0)] == [listed, RemovedItem(0)];
    assert Served(one, {1}) == one by { assert one[..0] == []; }
    assert Served(two, {1}) == one by { assert two[..1] == one; }
    ServedStops(two, [Removed(0)], {1});
    assert one[..0] == [];
  }
}

/** The provider as an object. */
module Provider {
  import opened Wrappers
  import opened Properties
  import opened Mirroring
  import Items = Registry

  lemma OneLess(rest: map<nat, nat>, remote: nat)
    requires remote in rest
    ensures (rest - {remote}).Values <= rest.Values <= (rest - {remote}).Values + {rest[remote]}
    ensures |rest - {remote}| < |rest|
  {
    forall l | l in rest.Values && l != rest[remote]
      ensures l in (rest - {remote}).Values
    {
      var r :| r in rest && rest[r] == l;
      assert (rest - {remote})[r] == l;
    }
    assert (rest - {remote}).Keys == rest.Keys - {remote};
    assert |rest.Keys - {remote}| < |rest.Keys|;
  }

  /** The part of a provider that mirrors one type of items. */
  class ItemProvider {
    var ids: map<nat, nat>
    const server: Items.Registry
    const instance: string

    constructor (server: Items.Registry, instance: string)
      ensures this.server == server && this.instance == instance && ids == map[]
    {
      this.server, this.instance := server, instance;
      ids := map[];
    }

    function View(): Mirror
      reads this, server
    {
      Mirror(ids, server.contents, server.next)
    }

    /** `found` is what the remote server has for the item; without it mirroring ends. */
    method AddItem(id: nat, found: Option<Items.Item>) returns (alive: bool)
      requires server.Valid()
      modifies this, server
      ensures server.Valid() && alive == found.Some?
      ensures View() == if alive then Mirroring.AddItem(old(View()), id, found.value, instance) else old(View())
      ensures
        alive ==>
          && id in ids && ids[id] in server.contents && ids[id] !in old(server.contents)
          && StandsFor(server.contents[ids[id]], id, found.value, instance)
    {
      alive := found.Some?;
      if alive {
        var properties := found.value.properties[INSTANCE := instance];
        ProxyStands(id, found.value, instance);
        var local, _ := server.Add(properties, id);
        ids := ids[id := local];
      }
    }

    method RemoveItem(id: nat)
      requires server.Valid()
      modifies this, server
      ensures server.Valid() && View() == Mirroring.RemoveItem(old(View()), id)
    {
      if id in ids {
        var local := ids[id];
        ids := ids - {id};
        server.Remove(local);
      }
    }

    method AddItems(items: seq<(nat, Items.Item)>, gone: set<nat>) returns (alive: bool)
      requires server.Valid()
      modifies this, server
      ensures server.Valid() && (alive <==> Served(Listing(items), gone) == Listing(items))
      ensures View() == ReceiveAll(old(View()), Served(Listing(items), gone), instance)
    {
      var changes := Listing(items);
      for i := 0 to |items|
        invariant server.Valid() && View() == ReceiveAll(old(View()), changes[..i], instance)
        invariant Served(changes[..i], gone) == changes[..i]
      {
        assert changes[..i + 1][..i] == changes[..i];
        alive := AddItem(items[i].0, if items[i].0 in gone then None else Some(items[i].1));
        if !alive {
          assert changes == changes[..i + 1] + changes[i + 1..];
          ServedStops(changes[..i + 1], changes[i + 1..], gone);
          return;
        }
      }
      assert changes[..|items|] == changes;
      alive := true;
    }

    method HandleEvent(event: ItemEvent, gone: set<nat>) returns (alive: bool)
      requires server.Valid()
      modifies this, server
      ensures server.Valid() && (alive <==> Served(ChangesOf(event), gone) == ChangesOf(event))
      ensures View() == ReceiveAll(old(View()), Served(ChangesOf(event), gone), instance)
    {
      match event {
        case AddedItems(items) => alive := AddItems(items, gone);
        case RemovedItem(id) =>
          assert [Items.Removed(id)][..0] == [];
          RemoveItem(id);
          alive := true;
      }
    }

    /** The items come with the properties the remote server has for them, except those in `gone`: the
        lookup of the first of these ends mirroring, and nothing is unregistered. */
    method MonitorItems(events: seq<ItemEvent>, gone: set<nat>) returns (alive: bool)
      requires server.Valid()
      modifies this, server
      ensures server.Valid() && (alive <==> Served(Flat(events), gone) == Flat(events))
      ensures
        var m := ReceiveAll(old(View()), Served(Flat(events), gone), instance);
        View() == if alive then Drained(m) else m
    {
      ghost var m := View();
      for e := 0 to |events|
        invariant server.Valid() && View() == ReceiveAll(m, Flat(events[..e]), instance)
        invariant Served(Flat(events[..e]), gone) == Flat(events[..e])
      {
        ServedEvent(m, events, e, gone, instance);
        alive := HandleEvent(events[e], gone);
        if !alive {
          return;
        }
      }
      assert events[..|events|] == events;
      alive := true;
      Drain();
    }

    method Drain()
      requires server.Valid()
      modifies this, server
      ensures server.Valid() && View() == Drained(old(View()))
    {
      var rest := ids;
      ids := map[];
      while rest != map[]
        invariant server.Valid() && ids == map[] && server.next == old(server.next)
        invariant rest.Values <= old(ids).Values
        invariant forall l :: l in server.contents ==>
          && l in old(server.contents) && server.contents[l] == old(server.contents)[l]
          && (l in old(ids).Values ==> l in rest.Values)
        invariant forall l :: l in old(server.contents) && l !in old(ids).Values ==> l in server.contents
        decreases |rest|
      {
        var remote :| remote in rest;
        server.Remove(rest[remote]);
        OneLess(rest, remote);
        rest := rest - {remote};
      }
      assert rest.Values == {};
    }
  }
}
