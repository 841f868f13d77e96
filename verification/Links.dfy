/** How the item links of a configured device follow a registry. */
module Links {
  import opened Wrappers
  import opened Properties
  import opened Registry
  import opened Mirroring

  predicate Wanted(pattern: Pattern, item: Item) {
    Selects(pattern, item.properties)
  }

  /** A link is set by any matching item and unset when the item it names goes. */
  function Follow(link: Option<nat>, pattern: Pattern, c: Change): Option<nat> {
    match c
    case Added(id, item) => if Wanted(pattern, item) then Some(id) else link
    case Removed(id) => if link == Some(id) then None else link
  }

  function FollowAll(link: Option<nat>, pattern: Pattern, changes: seq<Change>): Option<nat> {
    if changes == [] then link
    else Follow(FollowAll(link, pattern, changes[..|changes| - 1]), pattern, changes[|changes| - 1])
  }

  lemma FollowSnoc(link: Option<nat>, pattern: Pattern, changes: seq<Change>, c: Change)
    ensures FollowAll(link, pattern, changes + [c]) == Follow(FollowAll(link, pattern, changes), pattern, c)
  {
    assert (changes + [c])[..|changes|] == changes;
  }

  lemma {:induction false} FollowConcat(link: Option<nat>, pattern: Pattern, first: seq<Change>, more: seq<Change>)
    ensures FollowAll(link, pattern, first + more) == FollowAll(FollowAll(link, pattern, first), pattern, more)
    decreases |more|
  {
    if more == [] {
      assert first + more == first;
    } else {
      var n := |more| - 1;
      assert (first + more)[..|first + more| - 1] == first + more[..n];
      FollowConcat(link, pattern, first, more[..n]);
    }
  }

  // ------------------------------------------------------------- newest

  /** The matching item added last among the changes from `a` to `k`, or else `listed`. */
  function Newest(listed: Option<nat>, pattern: Pattern, log: seq<Change>, a: nat, k: nat): Option<nat>
    requires a <= k <= |log|
  {
    if k == a then listed
    else if log[k - 1].Added? && Wanted(pattern, log[k - 1].item) then Some(log[k - 1].id)
    else Newest(listed, pattern, log, a, k - 1)
  }

  /** `listed` matches and was on the list taken at `b`. */
  predicate OnList(listed: Option<nat>, pattern: Pattern, log: seq<Change>, b: nat) {
    listed.Some? ==>
      b <= |log| && listed.value in Live(log[..b]) && Wanted(pattern, Live(log[..b])[listed.value])
  }

  function IfIn(newest: Option<nat>, replica: map<nat, Item>): Option<nat> {
    if newest.Some? && newest.value in replica then newest else None
  }

  /** The newest matching item is not added a second time. */
  lemma {:induction false} NewestIsOld(listed: Option<nat>, pattern: Pattern, log: seq<Change>, a: nat, b: nat,
      k: nat, j: nat)
    requires Journal(log) && a <= k <= j < |log| && b <= |log| && OnList(listed, pattern, log, b)
    requires log[j].Added? && !Wanted(pattern, log[j].item)
    ensures Newest(listed, pattern, log, a, k) != Some(log[j].id)
    decreases k
  {
    if k == a {
      if listed == Some(log[j].id) {
        JournalPrefix(log, b);
        IdsBelow(log[..b]);
        if j < b {
          assert log[..b][j] == log[j];
          IdsAreFinal(log[..b], j);
        } else {
          assert Follows(log[..j], log[j]);
          AddsOrder(log, b, j);
        }
      }
    } else {
      NewestIsOld(listed, pattern, log, a, b, k - 1, j);
      if log[k - 1].Added? {
        assert Follows(log[..k - 1], log[k - 1]) && Follows(log[..j], log[j]);
        AddsGrow(log[..j], k - 1);
        assert log[..j][..k - 1] == log[..k - 1];
      }
    }
  }

  lemma {:induction false} AddsOrder(log: seq<Change>, i: nat, j: nat)
    requires i <= j <= |log|
    ensures Adds(log[..i]) <= Adds(log[..j])
    decreases j
  {
    if i < j {
      AddsOrder(log, i, j - 1);
      assert log[..j][..j - 1] == log[..j - 1];
    }
  }

  lemma FollowStep(newest: Option<nat>, replica: map<nat, Item>, pattern: Pattern, c: Change)
    requires c.Added? && !Wanted(pattern, c.item) ==> newest != Some(c.id)
    ensures
      Follow(IfIn(newest, replica), pattern, c) ==
        IfIn(if c.Added? && Wanted(pattern, c.item) then Some(c.id) else newest, Apply(replica, c))
  {
  }

  lemma OneLink(link: Option<nat>, pattern: Pattern, log: seq<Change>, a: nat, k: nat)
    requires a <= k < |log|
    ensures FollowAll(link, pattern, log[a..k + 1]) == Follow(FollowAll(link, pattern, log[a..k]), pattern, log[k])
  {
    assert log[a..k + 1] == log[a..k] + [log[k]];
    FollowSnoc(link, pattern, log[a..k], log[k]);
  }

  lemma NoChange(link: Option<nat>, pattern: Pattern, log: seq<Change>, a: nat, m: map<nat, Item>)
    requires a <= |log|
    ensures FollowAll(link, pattern, log[a..a]) == link && Replay(m, log[a..a]) == m
  {
    assert log[a..a] == [];
  }

  lemma LinkNext(listed: Option<nat>, pattern: Pattern, log: seq<Change>, a: nat, b: nat, k: nat,
                 newest: Option<nat>, replica: map<nat, Item>)
    requires Journal(log) && a <= b <= |log| && a <= k < |log| && OnList(listed, pattern, log, b)
    requires newest == Newest(listed, pattern, log, a, k) && replica == Replay(Live(log[..b]), log[a..k])
    requires FollowAll(listed, pattern, log[a..k]) == IfIn(newest, replica)
    ensures Replay(Live(log[..b]), log[a..k + 1]) == Apply(replica, log[k])
    ensures
      FollowAll(listed, pattern, log[a..k + 1]) ==
        IfIn(Newest(listed, pattern, log, a, k + 1), Apply(replica, log[k]))
  {
    var c := log[k];
    if c.Added? && !Wanted(pattern, c.item) {
      NewestIsOld(listed, pattern, log, a, b, k, k);
    }
    FollowStep(newest, replica, pattern, c);
    OneChange(log, Live(log[..b]), a, k);
    OneLink(listed, pattern, log, a, k);
  }

  /** After each change the link names the newest matching item while the replica has it. */
  lemma {:induction false} LinkFollows(listed: Option<nat>, pattern: Pattern, log: seq<Change>, a: nat, b: nat, k: nat)
    returns (newest: Option<nat>, replica: map<nat, Item>)
    requires Journal(log) && a <= b <= |log| && a <= k <= |log| && OnList(listed, pattern, log, b)
    ensures newest == Newest(listed, pattern, log, a, k) && replica == Replay(Live(log[..b]), log[a..k])
    ensures FollowAll(listed, pattern, log[a..k]) == IfIn(newest, replica)
    decreases k
  {
    if k == a {
      newest, replica := listed, Live(log[..b]);
      NoChange(listed, pattern, log, a, replica);
    } else {
      newest, replica := LinkFollows(listed, pattern, log, a, b, k - 1);
      LinkNext(listed, pattern, log, a, b, k - 1, newest, replica);
      newest, replica := Newest(listed, pattern, log, a, k), Apply(replica, log[k - 1]);
    }
  }

  // -------------------------------------------------------------- the list

  predicate Ascending(items: seq<(nat, Item)>) {
    forall i, j :: 0 <= i < j < |items| ==> items[i].0 < items[j].0
  }

  /** The matching entry of the list with the largest id, if any matches. */
  ghost predicate LastWanted(link: Option<nat>, items: seq<(nat, Item)>, pattern: Pattern) {
    && (forall i :: 0 <= i < |items| && Wanted(pattern, items[i].1) ==> link.Some? && items[i].0 <= link.value)
    && (link.Some? ==> exists i :: 0 <= i < |items| && items[i].0 == link.value && Wanted(pattern, items[i].1))
  }

  lemma LastWantedSnoc(link: Option<nat>, items: seq<(nat, Item)>, item: (nat, Item), pattern: Pattern)
    requires LastWanted(link, items, pattern) && Ascending(items + [item])
    ensures LastWanted(if Wanted(pattern, item.1) then Some(item.0) else link, items + [item], pattern)
  {
    var all := items + [item];
    assert all[|items|] == item;
    assert forall i :: 0 <= i < |items| ==> all[i] == items[i] && items[i].0 < item.0;
  }

  lemma ListingSnoc(items: seq<(nat, Item)>, item: (nat, Item))
    ensures Listing(items + [item]) == Listing(items) + [Added(item.0, item.1)]
  {
  }

  /** The last matching entry of the list is the link after going through it. */
  lemma {:induction false} LinkOfList(items: seq<(nat, Item)>, pattern: Pattern) returns (link: Option<nat>)
    requires Ascending(items)
    ensures link == FollowAll(None, pattern, Listing(items)) && LastWanted(link, items, pattern)
    decreases |items|
  {
    if items == [] {
      link := None;
    } else {
      var before, item := items[..|items| - 1], items[|items| - 1];
      assert items == before + [item];
      var so := LinkOfList(before, pattern);
      link := if Wanted(pattern, item.1) then Some(item.0) else so;
      ListingSnoc(before, item);
      FollowSnoc(None, pattern, Listing(before), Added(item.0, item.1));
      LastWantedSnoc(so, before, item, pattern);
    }
  }

  // ---------------------------------------------------------- main results

  /** No matching item newer than `id` was on the list or added since the subscription. */
  ghost predicate NoneNewer(id: nat, pattern: Pattern, items: seq<(nat, Item)>, log: seq<Change>, a: nat) {
    && (forall i :: 0 <= i < |items| && Wanted(pattern, items[i].1) ==> items[i].0 <= id)
    && (forall k :: a <= k < |log| && log[k].Added? && Wanted(pattern, log[k].item) ==> log[k].id <= id)
  }

  ghost predicate Match(log: seq<Change>, pattern: Pattern, id: nat) {
    id in Live(log) && Wanted(pattern, Live(log)[id])
  }

  /** What `Newest` is: nothing matching, or the matching item with the largest id. */
  lemma {:induction false} NewestIsLargest(listed: Option<nat>, pattern: Pattern, log: seq<Change>, a: nat, b: nat,
      k: nat)
    requires Journal(log) && a <= b <= |log| && a <= k <= |log| && OnList(listed, pattern, log, b)
    ensures
      var newest := Newest(listed, pattern, log, a, k);
      && (newest.None? ==> listed.None? && forall j :: a <= j < k && log[j].Added? ==> !Wanted(pattern, log[j].item))
      && (newest.Some? ==> forall j :: a <= j < k && log[j].Added? && Wanted(pattern, log[j].item) ==>
        log[j].id <= newest.value)
      && (newest.Some? && newest != listed ==>
            exists j :: a <= j < k && log[j].Added? && Wanted(pattern, log[j].item) && log[j].id == newest.value)
    decreases k
  {
    if k > a {
      var c := log[k - 1];
      NewestIsLargest(listed, pattern, log, a, b, k - 1);
      if c.Added? && Wanted(pattern, c.item) {
        forall j | a <= j < k && log[j].Added?
          ensures log[j].id <= c.id
        {
          assert Follows(log[..j], log[j]) && Follows(log[..k - 1], c);
          AddsOrder(log, j, k - 1);
        }
      }
    }
  }

  /** A live item was added once, with what it is now. */
  lemma {:induction false} WasAdded(log: seq<Change>, id: nat) returns (p: nat)
    requires Journal(log) && id in Live(log)
    ensures p < |log| && log[p] == Added(id, Live(log)[id]) && id == Adds(log[..p])
    decreases |log|
  {
    var n := |log| - 1;
    if log[n].Added? && log[n].id == id {
      p := n;
      assert Follows(log[..n], log[n]);
    } else {
      JournalPrefix(log, n);
      p := WasAdded(log[..n], id);
      assert log[..n][..p] == log[..p];
    }
  }

  /** Live since it was added. */
  lemma {:induction false} StillLive(log: seq<Change>, id: nat, p: nat, k: nat)
    requires Journal(log) && p < k <= |log| && log[p].Added? && log[p].id == id && id in Live(log)
    ensures id in Live(log[..k]) && Live(log[..k])[id] == Live(log)[id]
    decreases |log|
  {
    var n := |log| - 1;
    if k == |log| {
      assert log[..k] == log;
    } else {
      IdsAreFinal(log, n);
      if log[n].Added? {
        assert Follows(log[..n], log[n]) && Follows(log[..p], log[p]);
        AddsGrow(log[..n], p);
        assert log[..n][..p] == log[..p];
      }
      JournalPrefix(log, n);
      StillLive(log[..n], id, p, k);
      assert log[..n][..k] == log[..k];
    }
  }

  /** Ids grow with the position at which they are added. */
  lemma AddedLater(log: seq<Change>, p: nat, k: nat)
    requires Journal(log) && p < k < |log| && log[p].Added? && log[k].Added?
    ensures log[p].id < log[k].id
  {
    assert Follows(log[..p], log[p]) && Follows(log[..k], log[k]);
    AddsGrow(log[..k], p);
    assert log[..k][..p] == log[..p];
  }

  function LinkAfter(pattern: Pattern, items: seq<(nat, Item)>, log: seq<Change>, a: nat): Option<nat>
    requires a <= |log|
  {
    FollowAll(None, pattern, Listing(items) + log[a..])
  }

  /** A device that subscribed at `a` and took the list at `b`. */
  ghost predicate Subscribed(items: seq<(nat, Item)>, log: seq<Change>, a: nat, b: nat) {
    Journal(log) && a <= b <= |log| && Lists(items, Live(log[..b])) && Ascending(items)
  }

  lemma LinkAsNewest(pattern: Pattern, items: seq<(nat, Item)>, log: seq<Change>, a: nat, b: nat)
    returns (listed: Option<nat>, newest: Option<nat>)
    requires Subscribed(items, log, a, b)
    ensures newest == Newest(listed, pattern, log, a, |log|) && OnList(listed, pattern, log, b)
    ensures LinkAfter(pattern, items, log, a) == IfIn(newest, Live(log))
    ensures LastWanted(listed, items, pattern)
  {
    listed := LinkOfList(items, pattern);
    var replica;
    newest, replica := LinkFollows(listed, pattern, log, a, b, |log|);
    assert log[a..|log|] == log[a..];
    Replicates(log, a, b);
    FollowConcat(None, pattern, Listing(items), log[a..]);
  }

  /** Everything on the list is older than what is added after it, or is added again by the stream. */
  lemma ListIsOlder(items: seq<(nat, Item)>, log: seq<Change>, a: nat, b: nat, i: nat) returns (p: nat)
    requires Subscribed(items, log, a, b) && i < |items|
    ensures p < b && log[p] == Added(items[i].0, items[i].1)
    ensures forall j :: a <= j < |log| && log[j].Added? && p < a ==> items[i].0 < log[j].id
    ensures items[i].0 in Live(log) ==> Live(log)[items[i].0] == items[i].1
  {
    JournalPrefix(log, b);
    p := WasAdded(log[..b], items[i].0);
    IdsAreFinal(log, p);
    forall j | a <= j < |log| && log[j].Added? && p < a
      ensures items[i].0 < log[j].id
    {
      AddedLater(log, p, j);
    }
  }

  /** The link names an item just when that is live, matches, and no newer matching item was on the
      list or was added since the subscription. */
  lemma LinkIsNewest(pattern: Pattern, items: seq<(nat, Item)>, log: seq<Change>, a: nat, b: nat, id: nat)
    requires Subscribed(items, log, a, b)
    ensures
      LinkAfter(pattern, items, log, a) == Some(id) <==>
        Match(log, pattern, id) && NoneNewer(id, pattern, items, log, a)
  {
    var listed, newest := LinkAsNewest(pattern, items, log, a, b);
    NewestIsLargest(listed, pattern, log, a, b, |log|);
    if newest == Some(id) && id in Live(log) {
      NamedIsNewest(pattern, items, log, a, b, id, listed);
    }
    if Match(log, pattern, id) && NoneNewer(id, pattern, items, log, a) {
      NewestIsNamed(pattern, items, log, a, b, id, listed);
    }
  }

  lemma NamedIsNewest(pattern: Pattern, items: seq<(nat, Item)>, log: seq<Change>, a: nat, b: nat, id: nat,
                      listed: Option<nat>)
    requires Subscribed(items, log, a, b) && OnList(listed, pattern, log, b)
    requires Newest(listed, pattern, log, a, |log|) == Some(id) && id in Live(log)
    requires LastWanted(listed, items, pattern)
    ensures Match(log, pattern, id) && NoneNewer(id, pattern, items, log, a)
  {
    NewestIsLargest(listed, pattern, log, a, b, |log|);
    if listed == Some(id) {
      var i :| 0 <= i < |items| && items[i].0 == id && Wanted(pattern, items[i].1);
      var p := ListIsOlder(items, log, a, b, i);
    } else {
      var j :| a <= j < |log| && log[j].Added? && Wanted(pattern, log[j].item) && log[j].id == id;
      IdsAreFinal(log, j);
      forall i | 0 <= i < |items| && Wanted(pattern, items[i].1)
        ensures items[i].0 <= id
      {
        var p := ListIsOlder(items, log, a, b, i);
        assert log[j].Added?;
      }
    }
  }

  lemma NewestIsNamed(pattern: Pattern, items: seq<(nat, Item)>, log: seq<Change>, a: nat, b: nat, id: nat,
                      listed: Option<nat>)
    requires Subscribed(items, log, a, b) && OnList(listed, pattern, log, b)
    requires Match(log, pattern, id) && NoneNewer(id, pattern, items, log, a)
    requires LastWanted(listed, items, pattern)
    ensures Newest(listed, pattern, log, a, |log|) == Some(id)
  {
    NewestIsLargest(listed, pattern, log, a, b, |log|);
    var newest := Newest(listed, pattern, log, a, |log|);
    var p := WasAdded(log, id);
    if p < a {
      StillLive(log, id, p, b);
      assert (id, Live(log[..b])[id]) in items;
      var i :| 0 <= i < |items| && items[i] == (id, Live(log[..b])[id]);
      assert Wanted(pattern, items[i].1);
      if newest != listed {
        var j :| a <= j < |log| && log[j].Added? && Wanted(pattern, log[j].item) && log[j].id == newest.value;
        AddedLater(log, p, j);
      }
    } else {
      assert log[p].Added? && Wanted(pattern, log[p].item);
    }
  }

  ghost predicate AtMostOne(log: seq<Change>, pattern: Pattern) {
    forall i, j :: Match(log, pattern, i) && Match(log, pattern, j) ==> i == j
  }

  /** When at most one matching item is live at any time since the subscription, the link is that
      item, or none when there is none, although the device sees changes again that its list has. */
  lemma LinkIsTheMatch(pattern: Pattern, items: seq<(nat, Item)>, log: seq<Change>, a: nat, b: nat, id: nat)
    requires Subscribed(items, log, a, b)
    requires forall k :: a <= k <= |log| ==> AtMostOne(log[..k], pattern)
    ensures LinkAfter(pattern, items, log, a) == Some(id) <==> Match(log, pattern, id)
  {
    LinkIsNewest(pattern, items, log, a, b, id);
    if Match(log, pattern, id) {
      var p := WasAdded(log, id);
      forall k | a <= k < |log| && log[k].Added? && Wanted(pattern, log[k].item)
        ensures log[k].id <= id
      {
        if p < k {
          NotBoth(pattern, log, id, p, k);
        } else if k < p {
          AddedLater(log, k, p);
        }
      }
      forall i | 0 <= i < |items| && Wanted(pattern, items[i].1)
        ensures items[i].0 <= id
      {
        var q := ListIsOlder(items, log, a, b, i);
        if p < q {
          StillLive(log, id, p, b);
          assert AtMostOne(log[..b], pattern);
          assert Match(log[..b], pattern, id) && Match(log[..b], pattern, items[i].0);
        } else if q < p {
          AddedLater(log, q, p);
        }
      }
    }
  }

  /** A matching item that lives on while another is added. */
  lemma NotBoth(pattern: Pattern, log: seq<Change>, id: nat, p: nat, k: nat)
    requires Journal(log) && p < k < |log| && log[p].Added? && log[p].id == id && Match(log, pattern, id)
    requires log[k].Added? && Wanted(pattern, log[k].item) && AtMostOne(log[..k + 1], pattern)
    ensures log[k].id == id
  {
    StillLive(log, id, p, k + 1);
    assert log[..k + 1] == log[..k] + [log[k]];
    Snoc(log[..k], log[k]);
    assert Match(log[..k + 1], pattern, id) && Match(log[..k + 1], pattern, log[k].id);
  }

  lemma Logged(log: seq<Change>, c: Change) returns (after: seq<Change>)
    requires Journal(log) && Follows(log, c)
    ensures after == log + [c] && Journal(after) && Live(after) == Apply(Live(log), c)
    ensures Adds(after) == Adds(log) + if c.Added? then 1 else 0
  {
    Snoc(log, c);
    after := log + [c];
  }

  /** Two items added, the second removed. */
  lemma SecondRemoved(item: Item)
    ensures
      var log := [Added(0, item), Added(1, item), Removed(1)];
      Journal(log) && 0 in Live(log) && Live(log)[0] == item
  {
    var one := Logged([], Added(0, item));
    var two := Logged(one, Added(1, item));
    var three := Logged(two, Removed(1));
    assert three == [Added(0, item), Added(1, item), Removed(1)];
  }

  lemma LinkLost(pattern: Pattern, item: Item)
    requires Wanted(pattern, item)
    ensures FollowAll(None, pattern, [Added(0, item), Added(1, item), Removed(1)]) == None
  {
    var one, two := [Added(0, item)], [Added(0, item), Added(1, item)];
    FollowSnoc(None, pattern, one, Added(1, item));
    FollowSnoc(None, pattern, two, Removed(1));
    assert one + [Added(1, item)] == two;
    assert two + [Removed(1)] == [Added(0, item), Added(1, item), Removed(1)];
  }

  /** With two matching items, the removal of the newer one leaves no link although the older is live. */
  lemma OlderIsForgotten(pattern: Pattern, item: Item)
    requires Wanted(pattern, item)
    ensures
      var log := [Added(0, item), Added(1, item), Removed(1)];
      Subscribed([], log, 0, 0) && LinkAfter(pattern, [], log, 0) == None && Match(log, pattern, 0)
  {
    var log := [Added(0, item), Added(1, item), Removed(1)];
    SecondRemoved(item);
    LinkLost(pattern, item);
    assert log[..0] == [] && Listing([]) + log[0..] == log;
  }

  /** A matching item is on the list or is added since the subscription. */
  ghost predicate Sees(pattern: Pattern, items: seq<(nat, Item)>, log: seq<Change>, a: nat) {
    || (exists i :: 0 <= i < |items| && Wanted(pattern, items[i].1))
    || (exists k :: a <= k < |log| && log[k].Added? && Wanted(pattern, log[k].item))
  }

  /** A device that starts over, after a receiver lagged, with a link to an item removed meanwhile: the
      link stays dead if and only if no matching item is seen since, and otherwise is what it would be
      without the lag. */
  lemma DeadLinkStays(pattern: Pattern, dead: nat, items: seq<(nat, Item)>, log: seq<Change>, a: nat, b: nat)
    requires Subscribed(items, log, a, b) && dead < Adds(log[..a]) && dead !in Live(log[..a])
    ensures dead !in Live(log)
    ensures
      var link := FollowAll(Some(dead), pattern, Listing(items) + log[a..]);
      && (link == Some(dead) <==> !Sees(pattern, items, log, a))
      && (Sees(pattern, items, log, a) ==> link == LinkAfter(pattern, items, log, a))
  {
    StaysDead(log, dead, a, |log|);
    assert log[..|log|] == log;
    if Sees(pattern, items, log, a) {
      SeesChange(pattern, items, log, a);
      MovesOn(Some(dead), pattern, Listing(items) + log[a..]);
      LinkIsNewest(pattern, items, log, a, b, dead);
    } else {
      NothingSeen(pattern, dead, items, log, a);
    }
  }

  lemma SeesChange(pattern: Pattern, items: seq<(nat, Item)>, log: seq<Change>, a: nat)
    requires a <= |log| && Sees(pattern, items, log, a)
    ensures
      var changes := Listing(items) + log[a..];
      exists k :: 0 <= k < |changes| && changes[k].Added? && Wanted(pattern, changes[k].item)
  {
    var changes := Listing(items) + log[a..];
    if i :| 0 <= i < |items| && Wanted(pattern, items[i].1) {
      assert changes[i] == Added(items[i].0, items[i].1);
    } else {
      var k :| a <= k < |log| && log[k].Added? && Wanted(pattern, log[k].item);
      assert changes[|items| + (k - a)] == log[k];
    }
  }

  /** Once a matching item is seen, what the link was before does not matter. */
  lemma {:induction false} MovesOn(link: Option<nat>, pattern: Pattern, changes: seq<Change>)
    requires exists k :: 0 <= k < |changes| && changes[k].Added? && Wanted(pattern, changes[k].item)
    ensures FollowAll(link, pattern, changes) == FollowAll(None, pattern, changes)
    decreases |changes|
  {
    var n := |changes| - 1;
    var k :| 0 <= k < |changes| && changes[k].Added? && Wanted(pattern, changes[k].item);
    if k < n {
      assert changes[..n][k] == changes[k];
      MovesOn(link, pattern, changes[..n]);
    }
  }

  lemma NothingSeen(pattern: Pattern, dead: nat, items: seq<(nat, Item)>, log: seq<Change>, a: nat)
    requires Journal(log) && a <= |log| && dead < Adds(log[..a]) && dead !in Live(log[..a])
    requires !Sees(pattern, items, log, a)
    ensures FollowAll(Some(dead), pattern, Listing(items) + log[a..]) == Some(dead)
  {
    Unmoved(Some(dead), pattern, Listing(items));
    forall k | a <= k < |log|
      ensures log[k] != Removed(dead)
    {
      StaysDead(log, dead, a, k);
      assert Follows(log[..k], log[k]);
    }
    Unmoved(Some(dead), pattern, log[a..]);
    FollowConcat(Some(dead), pattern, Listing(items), log[a..]);
  }

  /** An item is added and linked; its removal is lost to a lag; after starting over the device still
      names it. */
  lemma LostRemoval(pattern: Pattern, item: Item)
    requires Wanted(pattern, item)
    ensures
      var log := [Added(0, item), Removed(0)];
      && Subscribed([], log[..1], 0, 0) && LinkAfter(pattern, [], log[..1], 0) == Some(0)
      && Subscribed([], log, 2, 2) && FollowAll(Some(0), pattern, Listing([]) + log[2..]) == Some(0)
      && 0 !in Live(log)
  {
    var log := [Added(0, item), Removed(0)];
    Snoc([], Added(0, item));
    Snoc([Added(0, item)], Removed(0));
    assert [] + [Added(0, item)] == [Added(0, item)] == log[..1];
    assert [Added(0, item)] + [Removed(0)] == log;
    assert log[..1][..0] == [] && log[..2] == log;
    assert Listing([]) + log[..1][0..] == [] + [Added(0, item)];
    FollowSnoc(None, pattern, [], Added(0, item));
    DeadLinkStays(pattern, 0, [], log, 2, 2);
  }

  lemma {:induction false} StaysDead(log: seq<Change>, dead: nat, a: nat, k: nat)
    requires Journal(log) && a <= k <= |log| && dead < Adds(log[..a]) && dead !in Live(log[..a])
    ensures dead !in Live(log[..k])
    decreases k
  {
    if k > a {
      StaysDead(log, dead, a, k - 1);
      assert log[..k] == log[..k - 1] + [log[k - 1]];
      Snoc(log[..k - 1], log[k - 1]);
      assert Follows(log[..k - 1], log[k - 1]);
      AddsOrder(log, a, k - 1);
    }
  }

  lemma {:induction false} Unmoved(link: Option<nat>, pattern: Pattern, changes: seq<Change>)
    requires link.Some?
    requires forall k :: 0 <= k < |changes| ==> changes[k] != Removed(link.value)
    requires forall k :: 0 <= k < |changes| && changes[k].Added? ==> !Wanted(pattern, changes[k].item)
    ensures FollowAll(link, pattern, changes) == link
    decreases |changes|
  {
    if changes != [] {
      Unmoved(link, pattern, changes[..|changes| - 1]);
    }
  }
}
