/** Device registrations guarded by sequence numbers. */
module Registrations {
  type Path = string

  datatype ItemKind = ActuatorKind | ConsoleKind | VolumeKind

  datatype Registration = Actuator(id: nat) | Console(id: nat) | Volume(id: nat)

  datatype State = Pending(seqnum: nat) | Registered(items: seq<Registration>)

  /** The ids live in one registry of the server, and the next one. */
  datatype Ids = Ids(live: set<nat>, next: nat)

  datatype Server = Server(actuators: Ids, consoles: Ids, volumes: Ids)

  datatype Tracker = Tracker(states: map<Path, State>, server: Server)

  function KindOf(r: Registration): ItemKind {
    match r
    case Actuator(_) => ActuatorKind
    case Console(_) => ConsoleKind
    case Volume(_) => VolumeKind
  }

  function IdsOf(s: Server, kind: ItemKind): Ids {
    match kind
    case ActuatorKind => s.actuators
    case ConsoleKind => s.consoles
    case VolumeKind => s.volumes
  }

  predicate Live(s: Server, r: Registration) {
    r.id in IdsOf(s, KindOf(r)).live
  }

  function Named(kind: ItemKind, id: nat): Registration {
    match kind
    case ActuatorKind => Actuator(id)
    case ConsoleKind => Console(id)
    case VolumeKind => Volume(id)
  }

  function With(s: Server, kind: ItemKind, ids: Ids): Server {
    match kind
    case ActuatorKind => s.(actuators := ids)
    case ConsoleKind => s.(consoles := ids)
    case VolumeKind => s.(volumes := ids)
  }

  function Register(s: Server, kind: ItemKind): Server {
    var ids := IdsOf(s, kind);
    With(s, kind, Ids(ids.live + {ids.next}, ids.next + 1))
  }

  /** The item the next registration of this kind makes. */
  function Next(s: Server, kind: ItemKind): Registration {
    Named(kind, IdsOf(s, kind).next)
  }

  function Unregister(s: Server, r: Registration): Server {
    var ids := IdsOf(s, KindOf(r));
    With(s, KindOf(r), ids.(live := ids.live - {r.id}))
  }

  function RegisterAll(s: Server, kinds: seq<ItemKind>): Server {
    if kinds == [] then s else Register(RegisterAll(s, kinds[..|kinds| - 1]), kinds[|kinds| - 1])
  }

  function Batch(s: Server, kinds: seq<ItemKind>): (items: seq<Registration>)
    ensures |items| == |kinds|
  {
    if kinds == [] then []
    else
      var n := |kinds| - 1;
      Batch(s, kinds[..n]) + [Next(RegisterAll(s, kinds[..n]), kinds[n])]
  }

  function UnregisterAll(s: Server, items: seq<Registration>): Server {
    if items == [] then s else Unregister(UnregisterAll(s, items[..|items| - 1]), items[|items| - 1])
  }

  /** What was registered for `path` is gone. */
  function Forget(t: Tracker, path: Path): Server {
    if path in t.states && t.states[path].Registered? then UnregisterAll(t.server, t.states[path].items)
    else t.server
  }

  function PreRegister(t: Tracker, path: Path, seqnum: nat): Tracker {
    Tracker(t.states[path := Pending(seqnum)], Forget(t, path))
  }

  function Remove(t: Tracker, path: Path): Tracker {
    Tracker(t.states - {path}, Forget(t, path))
  }

  predicate Current(t: Tracker, path: Path, seqnum: nat) {
    path in t.states && t.states[path] == Pending(seqnum)
  }

  /** A token registers its items, unless it is outdated. */
  function RegisterBatch(t: Tracker, path: Path, seqnum: nat, kinds: seq<ItemKind>): Tracker {
    if Current(t, path, seqnum) then
      Tracker(t.states[path := Registered(Batch(t.server, kinds))], RegisterAll(t.server, kinds))
    else t
  }

  /** A token is dropped; after it registered its items this does nothing. */
  function DropToken(t: Tracker, path: Path, seqnum: nat): Tracker {
    if Current(t, path, seqnum) then t.(states := t.states - {path}) else t
  }

  /** The token is consumed by its registration. */
  lemma ConsumedToken(t: Tracker, path: Path, seqnum: nat, kinds: seq<ItemKind>)
    ensures
      var n := RegisterBatch(t, path, seqnum, kinds);
      DropToken(n, path, seqnum) == n
  {
  }

  // ------------------------------------------------------------ item sets

  ghost predicate WellNumbered(s: Server) {
    forall kind :: Below(IdsOf(s, kind))
  }

  ghost predicate Below(ids: Ids) {
    forall id :: id in ids.live ==> id < ids.next
  }

  lemma WithIds(s: Server, kind: ItemKind, ids: Ids)
    ensures forall k :: IdsOf(With(s, kind, ids), k) == if k == kind then ids else IdsOf(s, k)
  {
  }

  /** The k-th item of a batch has the k-th kind, is new, and is live once all are registered;
      nothing else changes. */
  lemma {:induction false} BatchIsNew(s: Server, kinds: seq<ItemKind>)
    requires WellNumbered(s)
    ensures
      var n, items := RegisterAll(s, kinds), Batch(s, kinds);
      && WellNumbered(n) && |items| == |kinds|
      && (forall i :: 0 <= i < |items| ==> KindOf(items[i]) == kinds[i] && !Live(s, items[i]))
      && (forall i, j :: 0 <= i < j < |items| ==> items[i] != items[j])
      && (forall r :: Live(n, r) <==> Live(s, r) || r in items)
    decreases |kinds|
  {
    if kinds != [] {
      var k := |kinds| - 1;
      BatchIsNew(s, kinds[..k]);
      RegisterOne(RegisterAll(s, kinds[..k]), kinds[k]);
    }
  }

  lemma RegisterOne(s: Server, kind: ItemKind)
    requires WellNumbered(s)
    ensures
      var n, item := Register(s, kind), Next(s, kind);
      && WellNumbered(n) && KindOf(item) == kind && !Live(s, item)
      && (forall r :: Live(n, r) <==> Live(s, r) || r == item)
  {
    var ids := IdsOf(s, kind);
    WithIds(s, kind, Ids(ids.live + {ids.next}, ids.next + 1));
    assert Below(ids);
  }

  lemma UnregisterOne(s: Server, item: Registration)
    requires WellNumbered(s)
    ensures WellNumbered(Unregister(s, item))
    ensures forall r :: Live(Unregister(s, item), r) <==> Live(s, r) && r != item
  {
    var ids := IdsOf(s, KindOf(item));
    WithIds(s, KindOf(item), ids.(live := ids.live - {item.id}));
    assert Below(ids);
  }

  lemma {:induction false} AllUnregistered(s: Server, items: seq<Registration>)
    requires WellNumbered(s)
    ensures WellNumbered(UnregisterAll(s, items))
    ensures forall r :: Live(UnregisterAll(s, items), r) <==> Live(s, r) && r !in items
    decreases |items|
  {
    if items != [] {
      AllUnregistered(s, items[..|items| - 1]);
      UnregisterOne(UnregisterAll(s, items[..|items| - 1]), items[|items| - 1]);
    }
  }
}

/** Every history of device events, of setups that finish or fail in any order, and of others that
    use the same server. */
module RegistrationRuns {
  import opened Registrations

  datatype Event =
    | Add(path: Path, seqnum: nat)
    | Gone(path: Path)
    | Finish(path: Path, seqnum: nat, kinds: seq<ItemKind>)
    | Fail(path: Path, seqnum: nat)
    | OtherAdd(kind: ItemKind)
    | OtherRemove(item: Registration)

  /** `others` are the live items of other users of the server. */
  datatype World = World(tracker: Tracker, others: set<Registration>)

  const START := World(Tracker(map[], Server(Ids({}, 0), Ids({}, 0), Ids({}, 0))), {})

  function Step(w: World, e: Event): World {
    var t := w.tracker;
    match e
    case Add(path, seqnum) => w.(tracker := PreRegister(t, path, seqnum))
    case Gone(path) => w.(tracker := Remove(t, path))
    case Finish(path, seqnum, kinds) =>
      w.(tracker := DropToken(RegisterBatch(t, path, seqnum, kinds), path, seqnum))
    case Fail(path, seqnum) => w.(tracker := DropToken(t, path, seqnum))
    case OtherAdd(kind) =>
      World(t.(server := Register(t.server, kind)), w.others + {Next(t.server, kind)})
    case OtherRemove(item) =>
      World(t.(server := Unregister(t.server, item)), w.others - {item})
  }

  function Run(events: seq<Event>): World {
    if events == [] then START else Step(Run(events[..|events| - 1]), events[|events| - 1])
  }

  // ------------------------------------------ the history, independently

  /** The sequence number of the device at `path`, if its last event was an arrival. */
  function Present(events: seq<Event>, path: Path): (seqnum: int)
    ensures seqnum >= -1
  {
    if events == [] then -1
    else
      match events[|events| - 1]
      case Add(p, s) => if p == path then s else Present(events[..|events| - 1], path)
      case Gone(p) => if p == path then -1 else Present(events[..|events| - 1], path)
      case _ => Present(events[..|events| - 1], path)
  }

  datatype Fate = Unborn | Alive | Finished(kinds: seq<ItemKind>) | Failed

  /** What became of the setup of the device that arrived at `path` with this number. */
  function FateOf(events: seq<Event>, path: Path, seqnum: nat): Fate {
    if events == [] then Unborn
    else
      var before := FateOf(events[..|events| - 1], path, seqnum);
      match events[|events| - 1]
      case Add(p, s) => if p == path && s == seqnum then Alive else before
      case Finish(p, s, kinds) => if p == path && s == seqnum then Finished(kinds) else before
      case Fail(p, s) => if p == path && s == seqnum then Failed else before
      case _ => before
  }

  /** Sequence numbers are distinct per path, a setup ends once, and others remove their own items. */
  predicate Enabled(before: seq<Event>, e: Event) {
    match e
    case Add(path, seqnum) => FateOf(before, path, seqnum).Unborn?
    case Finish(path, seqnum, _) => FateOf(before, path, seqnum).Alive?
    case Fail(path, seqnum) => FateOf(before, path, seqnum).Alive?
    case OtherRemove(item) => item in Run(before).others
    case _ => true
  }

  ghost predicate Possible(events: seq<Event>) {
    forall k :: 0 <= k < |events| ==> Enabled(events[..k], events[k])
  }

  /** Others remove their own items; of devices and setups nothing is asked. */
  ghost predicate Fair(events: seq<Event>) {
    forall k :: 0 <= k < |events| && events[k].OtherRemove? ==> events[k].item in Run(events[..k]).others
  }

  /** The device present at `path` has been pre-registered, and no setup with its number has ended
      since. */
  predicate Unsettled(events: seq<Event>, path: Path) {
    events != [] &&
    var before := events[..|events| - 1];
    match events[|events| - 1]
    case Add(p, _) => p == path || Unsettled(before, path)
    case Gone(p) => p != path && Unsettled(before, path)
    case Finish(p, s, _) => !(p == path && s == Present(before, path)) && Unsettled(before, path)
    case Fail(p, s) => !(p == path && s == Present(before, path)) && Unsettled(before, path)
    case _ => Unsettled(before, path)
  }

  /** The entry of `path` says what happened to the device present there. */
  predicate Entry(events: seq<Event>, states: map<Path, State>, path: Path) {
    var s := Present(events, path);
    if s < 0 then path !in states
    else
      match FateOf(events, path, s)
      case Unborn => false
      case Alive => path in states && states[path] == Pending(s)
      case Failed => path !in states
      case Finished(kinds) => path in states && states[path].Registered? && OfKinds(states[path].items, kinds)
  }

  predicate OfKinds(items: seq<Registration>, kinds: seq<ItemKind>) {
    && |items| == |kinds|
    && forall i :: 0 <= i < |items| ==> KindOf(items[i]) == kinds[i]
  }

  predicate Owns(states: map<Path, State>, path: Path, item: Registration) {
    path in states && states[path].Registered? && item in states[path].items
  }

  predicate Distinct(items: seq<Registration>) {
    forall i, j :: 0 <= i < j < |items| ==> items[i] != items[j]
  }

  /** Live items are the disjoint union of the registered lists and the items of others. */
  ghost predicate Partitioned(w: World) {
    var states, server := w.tracker.states, w.tracker.server;
    && WellNumbered(server)
    && (forall r :: Live(server, r) <==> r in w.others || exists p :: Owns(states, p, r))
    && (forall p, q, r :: Owns(states, p, r) && Owns(states, q, r) ==> p == q)
    && (forall p, r :: Owns(states, p, r) ==> r !in w.others)
    && (forall p :: p in states && states[p].Registered? ==> Distinct(states[p].items))
  }

  ghost predicate Tracked(events: seq<Event>, w: World) {
    forall path :: Entry(events, w.tracker.states, path)
  }

  lemma RunSnoc(events: seq<Event>, e: Event)
    ensures Run(events + [e]) == Step(Run(events), e)
    ensures Possible(events + [e]) ==> Possible(events) && Enabled(events, e)
  {
    var all := events + [e];
    assert all[..|events|] == events && all[|events|] == e;
    assert forall k :: 0 <= k < |events| ==> all[..k] == events[..k] && all[k] == events[k];
  }

  /** How one more event moves the history of `path`. */
  lemma HistorySnoc(events: seq<Event>, e: Event, path: Path, seqnum: nat)
    ensures
      Present(events + [e], path) ==
        match e
        case Add(p, s) => if p == path then s else Present(events, path)
        case Gone(p) => if p == path then -1 else Present(events, path)
        case _ => Present(events, path)
    ensures
      FateOf(events + [e], path, seqnum) ==
        match e
        case Add(p, s) => if p == path && s == seqnum then Alive else FateOf(events, path, seqnum)
        case Finish(p, s, kinds) => if p == path && s == seqnum then Finished(kinds) else FateOf(events, path, seqnum)
        case Fail(p, s) => if p == path && s == seqnum then Failed else FateOf(events, path, seqnum)
        case _ => FateOf(events, path, seqnum)
  {
    assert (events + [e])[..|events|] == events;
  }

  lemma TrackedStep(events: seq<Event>, w: World, e: Event)
    requires Tracked(events, w) && WellNumbered(w.tracker.server) && Enabled(events, e)
    ensures Tracked(events + [e], Step(w, e))
  {
    forall path
      ensures Entry(events + [e], Step(w, e).tracker.states, path)
    {
      assert Entry(events, w.tracker.states, path);
      var s := Present(events, path);
      HistorySnoc(events, e, path, if s < 0 then 0 else s);
      match e
      case Add(p, n) => HistorySnoc(events, e, path, n);
      case Finish(p, n, kinds) =>
        ConsumedToken(w.tracker, p, n, kinds);
        BatchIsNew(w.tracker.server, kinds);
      case _ =>
    }
  }

  /** Entries without items may come and go. */
  lemma SameOwners(w: World, n: World)
    requires Partitioned(w) && n.tracker.server == w.tracker.server && n.others == w.others
    requires forall p, r :: Owns(n.tracker.states, p, r) <==> Owns(w.tracker.states, p, r)
    requires forall p :: p in n.tracker.states && n.tracker.states[p].Registered? ==>
      p in w.tracker.states && w.tracker.states[p] == n.tracker.states[p]
    ensures Partitioned(n)
  {
  }

  lemma ForgetStep(w: World, path: Path, states: map<Path, State>)
    requires Partitioned(w)
    requires forall p :: p != path ==> (p in states <==> p in w.tracker.states)
    requires forall p :: p != path && p in states ==> states[p] == w.tracker.states[p]
    requires path in states ==> states[path].Pending?
    ensures Partitioned(World(Tracker(states, Forget(w.tracker, path)), w.others))
  {
    var before, server := w.tracker.states, Forget(w.tracker, path);
    if path in before && before[path].Registered? {
      AllUnregistered(w.tracker.server, before[path].items);
    }
    assert forall r :: Live(server, r) <==> Live(w.tracker.server, r) && !Owns(before, path, r);
    assert forall p, r :: Owns(states, p, r) <==> p != path && Owns(before, p, r);
    forall r
      ensures Live(server, r) <==> r in w.others || exists p :: Owns(states, p, r)
    {
      if Live(server, r) && r !in w.others {
        var p :| Owns(before, p, r);
        assert Owns(states, p, r);
      }
    }
  }

  /** New items go to a path that has none. */
  lemma GivenItems(w: World, n: Tracker, path: Path, items: seq<Registration>)
    requires Partitioned(w) && WellNumbered(n.server) && Distinct(items)
    requires forall r :: r in items ==> !Live(w.tracker.server, r)
    requires forall r :: Live(n.server, r) <==> Live(w.tracker.server, r) || r in items
    requires path in w.tracker.states && w.tracker.states[path].Pending?
    requires n.states == w.tracker.states[path := Registered(items)]
    ensures Partitioned(World(n, w.others))
  {
    var before := w.tracker.states;
    assert forall p, r :: Owns(n.states, p, r) <==> if p == path then r in items else Owns(before, p, r);
    forall r
      ensures Live(n.server, r) <==> r in w.others || exists p :: Owns(n.states, p, r)
    {
      if r in items {
        assert Owns(n.states, path, r);
      } else if Live(n.server, r) && r !in w.others {
        var p :| Owns(before, p, r);
        assert Owns(n.states, p, r);
      }
    }
  }

  lemma BatchStep(w: World, path: Path, seqnum: nat, kinds: seq<ItemKind>)
    requires Partitioned(w) && Current(w.tracker, path, seqnum)
    ensures Partitioned(w.(tracker := RegisterBatch(w.tracker, path, seqnum, kinds)))
  {
    BatchIsNew(w.tracker.server, kinds);
    var items := Batch(w.tracker.server, kinds);
    GivenItems(w, RegisterBatch(w.tracker, path, seqnum, kinds), path, items);
  }

  lemma PartitionedStep(w: World, e: Event)
    requires Partitioned(w) && (e.OtherRemove? ==> e.item in w.others)
    ensures Partitioned(Step(w, e))
  {
    var t := w.tracker;
    match e
    case Add(path, seqnum) => ForgetStep(w, path, t.states[path := Pending(seqnum)]);
    case Gone(path) => ForgetStep(w, path, t.states - {path});
    case Finish(path, seqnum, kinds) =>
      ConsumedToken(t, path, seqnum, kinds);
      if Current(t, path, seqnum) {
        BatchStep(w, path, seqnum, kinds);
      }
    case Fail(path, seqnum) => SameOwners(w, Step(w, e));
    case OtherAdd(kind) => RegisterOne(t.server, kind);
    case OtherRemove(item) => UnregisterOne(t.server, item);
  }

  /** In every history, with any numbers and setups that end at any time: the live items of the server
      are the disjoint union of the registered lists and the items of others. */
  lemma {:induction false} AlwaysPartitioned(events: seq<Event>)
    requires Fair(events)
    ensures Partitioned(Run(events))
    decreases |events|
  {
    if events != [] {
      var n := |events| - 1;
      assert forall k :: 0 <= k < n ==> events[..n][..k] == events[..k] && events[..n][k] == events[k];
      AlwaysPartitioned(events[..n]);
      PartitionedStep(Run(events[..n]), events[n]);
    }
  }

  /** In every possible history the live items are so partitioned, and the entry of each path says
      exactly what happened to the device present there. */
  lemma {:induction false} EveryHistory(events: seq<Event>)
    requires Possible(events)
    ensures Partitioned(Run(events)) && Tracked(events, Run(events))
    decreases |events|
  {
    assert Fair(events) by {
      forall k | 0 <= k < |events| && events[k].OtherRemove?
        ensures events[k].item in Run(events[..k]).others
      {
        assert Enabled(events[..k], events[k]);
      }
    }
    AlwaysPartitioned(events);
    if events != [] {
      var before, e := events[..|events| - 1], events[|events| - 1];
      assert events == before + [e];
      RunSnoc(before, e);
      EveryHistory(before);
      TrackedStep(before, Run(before), e);
    }
  }

  /** An entry is pending just while the setup of the device present there is under way. */
  lemma PendingIsAlive(events: seq<Event>, path: Path, seqnum: nat)
    requires Possible(events)
    ensures
      Current(Run(events).tracker, path, seqnum) <==>
        Present(events, path) == seqnum && FateOf(events, path, seqnum).Alive?
  {
    EveryHistory(events);
    assert Entry(events, Run(events).tracker.states, path);
  }

  /** In every history, repeated numbers included: what is pending is the number of the device present,
      as long as no setup with that number ended. */
  lemma {:induction false} PendingIsPresent(events: seq<Event>, path: Path, seqnum: nat)
    ensures
      Current(Run(events).tracker, path, seqnum) <==> Present(events, path) == seqnum && Unsettled(events, path)
    decreases |events|
  {
    if events != [] {
      var n := |events| - 1;
      var before, w := events[..n], Run(events[..n]);
      PendingIsPresent(before, path, seqnum);
      match events[n]
      case Finish(p, s, kinds) =>
        ConsumedToken(w.tracker, p, s, kinds);
        PendingIsPresent(before, path, s);
      case Fail(p, s) => PendingIsPresent(before, path, s);
      case _ =>
    }
  }

  /** A setup takes effect, whichever arrival it belongs to, just when its number is that of the device
      present and no setup with that number has ended since; otherwise neither its end nor its failure
      changes anything. */
  lemma SetupTakesEffect(events: seq<Event>, path: Path, seqnum: nat, kinds: seq<ItemKind>)
    ensures
      var w, taken := Run(events), Present(events, path) == seqnum && Unsettled(events, path);
      && (Step(w, Finish(path, seqnum, kinds)) != w <==> taken)
      && (Step(w, Fail(path, seqnum)) != w <==> taken)
      && (taken ==>
            Step(w, Finish(path, seqnum, kinds)).tracker.states
            == w.tracker.states[path := Registered(Batch(w.tracker.server, kinds))])
  {
    PendingIsPresent(events, path, seqnum);
    var t := Run(events).tracker;
    ConsumedToken(t, path, seqnum, kinds);
    if Current(t, path, seqnum) {
      assert path in t.states && path !in t.states - {path};
      assert RegisterBatch(t, path, seqnum, kinds).states[path].Registered?;
    }
  }

  /** A setup whose number is not that of the device present registers nothing and disturbs nothing. */
  lemma StaleSetup(events: seq<Event>, path: Path, seqnum: nat, kinds: seq<ItemKind>)
    requires Present(events, path) != seqnum
    ensures Step(Run(events), Finish(path, seqnum, kinds)) == Run(events)
    ensures Step(Run(events), Fail(path, seqnum)) == Run(events)
  {
    SetupTakesEffect(events, path, seqnum, kinds);
  }

  /** Nothing of a removed device is live: every live item belongs to others or to a device that is
      present and whose setup finished, with an item of that kind. */
  lemma LiveIsPresent(events: seq<Event>, item: Registration)
    requires Possible(events)
    requires Live(Run(events).tracker.server, item) && item !in Run(events).others
    ensures exists path ::
      && Present(events, path) >= 0
      && FateOf(events, path, Present(events, path)).Finished?
      && KindOf(item) in FateOf(events, path, Present(events, path)).kinds
  {
    EveryHistory(events);
    var states := Run(events).tracker.states;
    var path :| Owns(states, path, item);
    assert Entry(events, states, path);
    var i :| 0 <= i < |states[path].items| && states[path].items[i] == item;
    assert KindOf(item) == FateOf(events, path, Present(events, path)).kinds[i];
  }

  /** Why numbers are to be distinct: when a device comes back under the number it had, the setup of
      its first stay registers for its second. */
  lemma RepeatedNumber(path: Path)
    ensures
      var again := [Add(path, 0), Gone(path), Add(path, 0)];
      && !Possible(again)
      && Step(Run(again), Finish(path, 0, [VolumeKind])).tracker.states == map[path := Registered([Volume(0)])]
  {
    var again := [Add(path, 0), Gone(path), Add(path, 0)];
    assert again == [Add(path, 0), Gone(path)] + [Add(path, 0)];
    assert [Add(path, 0), Gone(path)] == [Add(path, 0)] + [Gone(path)];
    assert [Add(path, 0)] == [] + [Add(path, 0)];
    RunSnoc([Add(path, 0), Gone(path)], Add(path, 0));
    RunSnoc([Add(path, 0)], Gone(path));
    RunSnoc([], Add(path, 0));
    HistorySnoc([], Add(path, 0), path, 0);
    HistorySnoc([Add(path, 0)], Gone(path), path, 0);
    assert !Enabled(again[..2], again[2]);
    var t := Run(again).tracker;
    assert t.server == START.tracker.server && Current(t, path, 0);
    assert Batch(t.server, [VolumeKind]) == [Volume(0)] by {
      assert [VolumeKind][..0] == [];
      assert RegisterAll(t.server, []) == t.server;
    }
    ConsumedToken(t, path, 0, [VolumeKind]);
  }
}
