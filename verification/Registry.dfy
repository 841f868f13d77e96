/** Properties and how they are matched. */
module Properties {
  const INSTANCE := "boardswarm.instance"

  type Properties = map<string, string>

  /** Key and value pairs to match, in the order given; keys may repeat. */
  type Pattern = seq<(string, string)>

  predicate Holds(p: Properties, pair: (string, string)) {
    pair.0 in p && p[pair.0] == pair.1
  }

  predicate Names(m: Pattern, key: string) {
    exists i :: 0 <= i < |m| && m[i].0 == key
  }

  /** The pattern is a subset of the properties, and those of a remote instance have to be asked for. */
  predicate Selects(m: Pattern, p: Properties) {
    && (forall i :: 0 <= i < |m| ==> Holds(p, m[i]))
    && (INSTANCE in p ==> Names(m, INSTANCE))
  }

  method Matches(p: Properties, m: Pattern) returns (matches: bool)
    ensures matches <==> Selects(m, p)
    ensures
      matches <==>
        && (forall i :: 0 <= i < |m| ==> m[i].0 in p && p[m[i].0] == m[i].1)
        && (INSTANCE in p ==> exists i :: 0 <= i < |m| && m[i].0 == INSTANCE)
  {
    var matchedInstance := false;
    var matched := true;
    var i := 0;
    while i < |m| && matched
      invariant 0 <= i <= |m|
      invariant matched ==> forall j :: 0 <= j < i ==> Holds(p, m[j])
      invariant !matched ==> exists j :: 0 <= j < i && !Holds(p, m[j])
      invariant matchedInstance <==> exists j :: 0 <= j < i && m[j].0 == INSTANCE
      decreases |m| - i
    {
      matchedInstance := matchedInstance || m[i].0 == INSTANCE;
      matched := m[i].0 in p && p[m[i].0] == m[i].1;
      i := i + 1;
    }
    matches := matched && matchedInstance == (INSTANCE in p);
  }

  /** A pattern selects items of one instance only: two items it selects are both local or both of
      the same remote instance. */
  lemma OneInstance(m: Pattern, p: Properties, q: Properties)
    requires Selects(m, p) && Selects(m, q)
    ensures INSTANCE in p <==> INSTANCE in q
    ensures INSTANCE in p ==> p[INSTANCE] == q[INSTANCE]
  {
    if i :| 0 <= i < |m| && m[i].0 == INSTANCE {
      assert Holds(p, m[i]) && Holds(q, m[i]);
    }
  }
}

/** The item registry and the log of its changes. */
module Registry {
  import opened Wrappers
  import opened Properties

  /** An item; `inner` stands for the object behind it. */
  datatype Item = Item(properties: Properties, inner: nat)

  datatype Change = Added(id: nat, item: Item) | Removed(id: nat)

  function Apply(m: map<nat, Item>, c: Change): map<nat, Item> {
    match c
    case Added(id, item) => m[id := item]
    case Removed(id) => m - {id}
  }

  /** What is registered after the changes of `log`. */
  function Live(log: seq<Change>): map<nat, Item> {
    if log == [] then map[] else Apply(Live(log[..|log| - 1]), log[|log| - 1])
  }

  /** How many items were ever added: the next id. */
  function Adds(log: seq<Change>): nat {
    if log == [] then 0 else Adds(log[..|log| - 1]) + if log[|log| - 1].Added? then 1 else 0
  }

  /** A log only a registry writes: ids are given out in order and only live items are removed. */
  ghost predicate Journal(log: seq<Change>) {
    forall k {:trigger Follows(log[..k], log[k])} :: 0 <= k < |log| ==> Follows(log[..k], log[k])
  }

  predicate Follows(log: seq<Change>, c: Change) {
    match c
    case Added(id, _) => id == Adds(log)
    case Removed(id) => id in Live(log)
  }

  lemma Snoc(log: seq<Change>, c: Change)
    ensures Live(log + [c]) == Apply(Live(log), c)
    ensures Adds(log + [c]) == Adds(log) + if c.Added? then 1 else 0
    ensures Journal(log) && Follows(log, c) ==> Journal(log + [c])
  {
    var n := log + [c];
    assert n[..|n| - 1] == log;
    assert forall k :: 0 <= k < |log| ==> n[..k] == log[..k];
  }

  class Registry {
    var next: nat
    var contents: map<nat, Item>
    var log: seq<Change>  // all changes sent to the monitors; a receiver is a position in it

    ghost predicate Valid()
      reads this
    {
      Journal(log) && contents == Live(log) && next == Adds(log)
    }

    constructor ()
      ensures Valid() && contents == map[] && log == []
    {
      next, contents, log := 0, map[], [];
    }

    method Add(properties: Properties, inner: nat) returns (id: nat, item: Item)
      requires Valid()
      modifies this
      ensures Valid()
      ensures id == old(next) && id !in old(contents) && item == Item(properties, inner)
      ensures contents == old(contents)[id := item] && next == old(next) + 1
      ensures log == old(log) + [Added(id, item)]
    {
      item := Item(properties, inner);
      id := next;
      FreshId(log);
      Snoc(log, Added(id, item));
      next := next + 1;
      contents := contents[id := item];
      log := log + [Added(id, item)];
    }

    method Remove(id: nat)
      requires Valid()
      modifies this
      ensures Valid() && next == old(next)
      ensures contents == old(contents) - {id}
      ensures log == old(log) + if id in old(contents) then [Removed(id)] else []
    {
      Snoc(log, Removed(id));
      if id in contents {
        contents := contents - {id};
        log := log + [Removed(id)];
      }
    }

    method Lookup(id: nat) returns (item: Option<Item>)
      ensures item == if id in contents then Some(contents[id]) else None
    {
      item := if id in contents then Some(contents[id]) else None;
    }

    /** In the order of the ids. */
    method Contents() returns (items: seq<(nat, Item)>)
      requires Valid()
      ensures forall i, j :: 0 <= i < j < |items| ==> items[i].0 < items[j].0
      ensures forall i :: 0 <= i < |items| ==> items[i].0 in contents && items[i].1 == contents[items[i].0]
      ensures forall id :: id in contents ==> (id, contents[id]) in items
    {
      items := [];
      IdsBelow(log);
      for id := 0 to next
        invariant forall i, j :: 0 <= i < j < |items| ==> items[i].0 < items[j].0
        invariant forall i :: 0 <= i < |items| ==>
          items[i].0 < id && items[i].0 in contents && items[i].1 == contents[items[i].0]
        invariant forall k :: 0 <= k < id && k in contents ==> (k, contents[k]) in items
      {
        if id in contents {
          items := items + [(id, contents[id])];
        }
      }
    }

    /** The matching item with the smallest id. */
    method Find(m: Pattern) returns (found: Option<(nat, Item)>)
      requires Valid()
      ensures found.None? ==> forall id :: id in contents ==> !Selects(m, contents[id].properties)
      ensures
        found.Some? ==>
          var (id, item) := found.value;
          && id in contents && item == contents[id] && Selects(m, item.properties)
          && forall k :: k in contents && k < id ==> !Selects(m, contents[k].properties)
    {
      IdsBelow(log);
      for id := 0 to next
        invariant forall k :: k in contents && k < id ==> !Selects(m, contents[k].properties)
      {
        if id in contents {
          var matches := Matches(contents[id].properties, m);
          if matches {
            return Some((id, contents[id]));
          }
        }
      }
      found := None;
    }

    method Monitor() returns (receiver: nat)
      ensures receiver == |log|
    {
      receiver := |log|;
    }
  }

  // -------------------------------------------------------- replication

  lemma {:induction false} IdsBelow(log: seq<Change>)
    requires Journal(log)
    ensures forall id :: id in Live(log) ==> id < Adds(log)
  {
    if log != [] {
      var n := |log| - 1;
      JournalPrefix(log, n);
      IdsBelow(log[..n]);
      assert Follows(log[..n], log[n]);
    }
  }

  lemma FreshId(log: seq<Change>)
    requires Journal(log)
    ensures Adds(log) !in Live(log)
  {
    IdsBelow(log);
  }

  lemma JournalPrefix(log: seq<Change>, n: nat)
    requires Journal(log) && n <= |log|
    ensures Journal(log[..n])
  {
    forall k | 0 <= k < n
      ensures log[..n][..k] == log[..k]
    {
    }
  }

  lemma {:induction false} AddsGrow(log: seq<Change>, k: nat)
    requires k < |log|
    ensures Adds(log[..k]) + (if log[k].Added? then 1 else 0) <= Adds(log)
    decreases |log|
  {
    var n := |log| - 1;
    if k < n {
      AddsGrow(log[..n], k);
      assert log[..n][..k] == log[..k];
    }
  }

  /** An id means one item: while it is live it has the item it was added with, and once removed it
      never comes back. */
  lemma {:induction false} IdsAreFinal(log: seq<Change>, k: nat)
    requires Journal(log) && k < |log|
    ensures log[k].Added? && log[k].id in Live(log) ==> Live(log)[log[k].id] == log[k].item
    ensures log[k].Removed? ==> log[k].id !in Live(log)
    decreases |log|
  {
    var n := |log| - 1;
    var before := log[..n];
    if k < n {
      JournalPrefix(log, n);
      IdsAreFinal(before, k);
      AddsGrow(before, k);
      assert before[..k] == log[..k];
      assert Follows(log[..k], log[k]) && Follows(before, log[n]);
      JournalPrefix(log, k);
      IdsBelow(log[..k]);
    }
  }

  /** A replica applies the changes it receives to the snapshot it took. */
  function Replay(m: map<nat, Item>, changes: seq<Change>): map<nat, Item>
    decreases |changes|
  {
    if changes == [] then m else Replay(Apply(m, changes[0]), changes[1..])
  }

  lemma {:induction false} ReplaySnoc(m: map<nat, Item>, changes: seq<Change>, c: Change)
    ensures Replay(m, changes + [c]) == Apply(Replay(m, changes), c)
    decreases |changes|
  {
    if changes == [] {
      assert [] + [c] == [c];
      assert Replay(Apply(m, c), []) == Apply(m, c);
    } else {
      assert (changes + [c])[1..] == changes[1..] + [c];
      ReplaySnoc(Apply(m, changes[0]), changes[1..], c);
    }
  }

  /** A replica that catches up with its snapshot: it has all of the snapshot, and else only items
      that were live at the point it has reached. */
  ghost predicate CatchesUp(replica: map<nat, Item>, snapshot: map<nat, Item>, reached: map<nat, Item>) {
    && (forall id :: id in snapshot ==> id in replica && replica[id] == snapshot[id])
    && (forall id :: id in replica && id !in snapshot ==> id in reached && replica[id] == reached[id])
  }

  lemma CatchesUpStep(replica: map<nat, Item>, snapshot: map<nat, Item>, reached: map<nat, Item>, c: Change)
    requires CatchesUp(replica, snapshot, reached)
    requires c.Added? && c.id in snapshot ==> snapshot[c.id] == c.item
    requires c.Removed? ==> c.id !in snapshot
    ensures CatchesUp(Apply(replica, c), snapshot, Apply(reached, c))
  {
  }

  /** One more change on both sides. */
  lemma OneChange(log: seq<Change>, m: map<nat, Item>, a: nat, k: nat)
    requires a <= k < |log|
    ensures Replay(m, log[a..k + 1]) == Apply(Replay(m, log[a..k]), log[k])
    ensures Live(log[..k + 1]) == Apply(Live(log[..k]), log[k])
  {
    assert log[a..k + 1] == log[a..k] + [log[k]];
    ReplaySnoc(m, log[a..k], log[k]);
    assert log[..k + 1] == log[..k] + [log[k]];
    Snoc(log[..k], log[k]);
  }

  lemma {:induction false} CatchUp(log: seq<Change>, a: nat, k: nat, b: nat)
    requires Journal(log) && a <= k <= b <= |log|
    ensures CatchesUp(Replay(Live(log[..b]), log[a..k]), Live(log[..b]), Live(log[..k]))
    decreases k
  {
    var snapshot := Live(log[..b]);
    if k > a {
      CatchUp(log, a, k - 1, b);
      OneChange(log, snapshot, a, k - 1);
      JournalPrefix(log, b);
      assert log[..b][k - 1] == log[k - 1];
      IdsAreFinal(log[..b], k - 1);
      CatchesUpStep(Replay(snapshot, log[a..k - 1]), snapshot, Live(log[..k - 1]), log[k - 1]);
    }
  }

  lemma {:induction false} FollowsOn(log: seq<Change>, a: nat, b: nat, k: nat)
    requires Journal(log) && a <= b <= k <= |log|
    ensures Replay(Live(log[..b]), log[a..k]) == Live(log[..k])
    decreases k
  {
    if k == b {
      CatchUp(log, a, b, b);
    } else {
      FollowsOn(log, a, b, k - 1);
      OneChange(log, Live(log[..b]), a, k - 1);
    }
  }

  /** Subscribe at `a`, take the snapshot at `b`, receive everything after `a`: the replica is the
      registry, although the changes from `a` to `b` are applied to a snapshot that has them. */
  lemma Replicates(log: seq<Change>, a: nat, b: nat)
    requires Journal(log) && a <= b <= |log|
    ensures Replay(Live(log[..b]), log[a..]) == Live(log)
  {
    FollowsOn(log, a, b, |log|);
    assert log[a..|log|] == log[a..] && log[..|log|] == log;
  }
}
