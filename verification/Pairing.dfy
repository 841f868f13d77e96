/** First-in-first-out pairing of requests and replies along a chain of servers. */
module Pairing {
  import opened Wrappers
  import opened Protocol

  // ----------------------------------------------------------- invariant

  /** Queue entries of the requests from `from` on. */
  ghost predicate Queues(q: seq<Queued>, a: seq<Request>, from: nat) {
    && from + |q| == |a|
    && forall i :: 0 <= i < |q| ==> q[i] == Queued(a[from + i], from + i)
  }

  /** Entries with the kinds of the requests from `from` to `end`. */
  ghost predicate Expects(q: seq<Entry>, a: seq<Request>, from: nat, end: nat) {
    && from + |q| == end <= |a|
    && forall i :: 0 <= i < |q| ==> q[i] == Entry(KindOf(a[from + i]), from + i)
  }

  /** The client queues hold the requests in order; each request is in one of them or resolved. */
  ghost predicate ClientInv(c: Client) {
    && c.matched <= c.recorded <= |c.accepted|
    && (if c.open then Queues(c.chan, c.accepted, c.recorded) else c.chan == [])
    && (if c.matching then Expects(c.outstanding, c.accepted, c.matched, c.recorded) else c.outstanding == [])
    && forall id: nat :: id in c.resolved.Keys <==>
         id < |c.accepted| && !(c.open && c.recorded <= id) && !(c.matching && c.matched <= id < c.recorded)
  }

  /** Requests travel in order; the server has taken the first `taken` of them. */
  ghost predicate WireInv(c: Client, requests: seq<Request>, taken: nat) {
    && taken + |requests| <= c.recorded <= |c.accepted|
    && (forall i :: 0 <= i < |requests| ==> requests[i] == c.accepted[taken + i])
    && (c.emitting.Some? ==> taken + |requests| + 1 == c.recorded && c.emitting.value == c.accepted[c.recorded - 1])
    && (c.emitting.None? && c.open ==> taken + |requests| == c.recorded)
  }

  function Handed(s: Server): nat {
    if s.starting.Some? && s.slots != [] then |s.slots| - 1 else |s.slots|
  }

  /** The next instance accepted exactly the requests handed to it, and each oneshot has the answer
      of its own request. */
  ghost predicate SlotInv(accepted: seq<Request>, s: Server, down: seq<Request>, answers: map<nat, Result>,
                          downOpen: bool) {
    && |s.slots| <= |accepted|
    && (s.starting.Some? ==>
          s.slots != [] && s.slots[|s.slots| - 1] == Fresh && s.starting.value == accepted[|s.slots| - 1])
    && |down| <= Handed(s) && down == accepted[..|down|]
    && (|down| < Handed(s) ==> !downOpen)
    && (forall j :: 0 <= j < |down| ==> Forwarded(s.slots[j], j, answers))
    && (forall j :: |down| <= j < Handed(s) ==> s.slots[j] == Done(Err(Unavailable)))
  }

  /** A oneshot whose request is number `id` of the next instance. */
  predicate Forwarded(slot: Slot, id: nat, answers: map<nat, Result>) {
    slot == Waiting(id) || slot == Dropped || (id in answers && slot == Done(answers[id]))
  }

  /** The reply task takes the completions in the order of the requests. */
  ghost predicate CompletionInv(accepted: seq<Request>, s: Server) {
    && s.replied <= |s.slots| <= |accepted|
    && (if s.replying then Expects(s.completions, accepted, s.replied, |s.slots|) else s.completions == [])
  }

  /** A reply in flight for request `id`; `final` when the stream ends with it. */
  ghost predicate ItemInv(item: Item, id: nat, slots: seq<Slot>, final: bool, clean: bool) {
    match item
    case Reply(answer) => id < |slots| && slots[id] == Done(Ok(answer))
    case Error(status) => final && (clean ==> id < |slots| && slots[id] == Done(Err(status)))
  }

  /** Replies in flight belong to the requests the matcher reaches next. */
  ghost predicate FlightInv(l: Link, matched: nat, replied: nat, slots: seq<Slot>) {
    && (l.replyOpen ==> matched + |l.replies| == replied)
    && forall i :: 0 <= i < |l.replies| ==>
         ItemInv(l.replies[i], matched + i, slots, i == |l.replies| - 1 && !l.replyOpen, l.clean)
  }

  ghost predicate OwnResult(result: Result, id: nat, slots: seq<Slot>, clean: bool) {
    match result
    case Ok(answer) => id < |slots| && slots[id] == Done(Ok(answer))
    case Err(status) =>
      clean && status != Aborted && status != Unmatched ==> id < |slots| && slots[id] == Done(Err(status))
  }

  /** A request is resolved with its own answer, or with an error. */
  ghost predicate ResolvedInv(resolved: map<nat, Result>, slots: seq<Slot>, clean: bool) {
    forall id :: id in resolved ==> OwnResult(resolved[id], id, slots, clean)
  }

  ghost predicate HopInv(h: Hop, down: seq<Request>, answers: map<nat, Result>, downOpen: bool) {
    && ClientInv(h.client)
    && WireInv(h.client, h.link.requests, |h.server.slots|)
    && SlotInv(h.client.accepted, h.server, down, answers, downOpen)
    && CompletionInv(h.client.accepted, h.server)
    && FlightInv(h.link, h.client.matched, h.server.replied, h.server.slots)
    && ResolvedInv(h.client.resolved, h.server.slots, h.link.clean)
  }

  ghost predicate Typed(requests: seq<Request>, answers: map<nat, Result>) {
    forall id :: id in answers ==> id < |requests| && Fits(requests[id], answers[id])
  }

  ghost predicate Inv(c: Chain) {
    && Typed(Accepted(c), Answers(c))
    && (c.Via? ==> Inv(c.next) && HopInv(c.hop, Accepted(c.next), Answers(c.next), Open(c.next)))
  }

  // -------------------------------------------------------- client queues

  lemma QueueIds(q: seq<Queued>, a: seq<Request>, from: nat)
    requires Queues(q, a, from)
    ensures forall id: nat :: id in QueuedIds(q) <==> from <= id < |a|
    decreases |q|
  {
    if q != [] {
      QueueIds(q[1..], a, from + 1);
      assert q[0].id == from + 0;
    }
  }

  lemma ExpectedIds(q: seq<Entry>, a: seq<Request>, from: nat, end: nat)
    requires Expects(q, a, from, end)
    ensures forall id: nat :: id in EntryIds(q) <==> from <= id < end
    decreases |q|
  {
    if q != [] {
      ExpectedIds(q[1..], a, from + 1, end);
      assert q[0].id == from + 0;
    }
  }

  ghost predicate Kept(results: map<nat, Result>, later: map<nat, Result>) {
    forall id :: id in results ==> id in later && later[id] == results[id]
  }

  lemma EnqueueClient(c: Client, r: Request)
    requires ClientInv(c) && c.open
    ensures ClientInv(Enqueue(c, r))
  {
  }

  lemma AbortFacts(resolved: map<nat, Result>, dropped: set<nat>, slots: seq<Slot>, clean: bool)
    requires ResolvedInv(resolved, slots, clean)
    ensures ResolvedInv(Abort(resolved, dropped), slots, clean)
    ensures Abort(resolved, dropped).Keys == resolved.Keys + dropped
    ensures dropped !! resolved.Keys ==> Kept(resolved, Abort(resolved, dropped))
  {
  }

  lemma EndClient(c: Client)
    requires ClientInv(c)
    ensures ClientInv(EndRequests(c)) && Kept(c.resolved, EndRequests(c).resolved)
  {
    if c.open {
      QueueIds(c.chan, c.accepted, c.recorded);
    }
    assert Abort(c.resolved, QueuedIds(c.chan)).Keys == c.resolved.Keys + QueuedIds(c.chan);
  }

  lemma RecordEntry(c: Client)
    requires ClientInv(c) && c.matching && c.chan != []
    ensures c.open && c.recorded < |c.accepted| && c.chan[0] == Queued(c.accepted[c.recorded], c.recorded)
    ensures Queues(c.chan[1..], c.accepted, c.recorded + 1)
  {
    assert c.chan[0] == Queued(c.accepted[c.recorded + 0], c.recorded + 0);
  }

  lemma RecordClient(c: Client)
    requires ClientInv(c)
    ensures ClientInv(Record(c)) && Kept(c.resolved, Record(c).resolved)
  {
    if c.chan != [] && c.emitting.None? {
      if c.matching {
        RecordEntry(c);
      } else {
        EndClient(c);
      }
    }
  }

  lemma OldestEntry(c: Client)
    requires ClientInv(c) && c.matching && c.outstanding != []
    ensures c.outstanding[0] == Entry(KindOf(c.accepted[c.matched]), c.matched)
    ensures Expects(c.outstanding[1..], c.accepted, c.matched + 1, c.recorded)
    ensures c.matched < c.recorded && c.matched !in c.resolved.Keys
    ensures forall id: nat :: id in EntryIds(c.outstanding[1..]) <==> c.matched < id < c.recorded
  {
    assert c.outstanding[0] == Entry(KindOf(c.accepted[c.matched + 0]), c.matched + 0);
    ExpectedIds(c.outstanding[1..], c.accepted, c.matched + 1, c.recorded);
  }

  lemma ResolveKeys(c: Client, result: Result, stop: bool)
    requires c.outstanding != []
    ensures
      var keys := c.resolved.Keys + {c.outstanding[0].id};
      Resolve(c, result, stop).resolved.Keys == if stop then keys + EntryIds(c.outstanding[1..]) else keys
  {
    assert c.resolved[c.outstanding[0].id := result].Keys == c.resolved.Keys + {c.outstanding[0].id};
  }

  /** The oldest entry is resolved; when the matcher stops, the others are dropped. */
  lemma ResolveClient(c: Client, result: Result, stop: bool)
    requires ClientInv(c) && c.matching && c.outstanding != []
    ensures ClientInv(Resolve(c, result, stop))
    ensures Kept(c.resolved, Resolve(c, result, stop).resolved)
  {
    OldestEntry(c);
    ResolveKeys(c, result, stop);
  }

  // ------------------------------------------------------------ one hop

  lemma SubmitInv(h: Hop, down: seq<Request>, answers: map<nat, Result>, downOpen: bool, r: Request)
    requires HopInv(h, down, answers, downOpen) && h.client.open
    ensures HopInv(h.(client := Enqueue(h.client, r)), down, answers, downOpen)
  {
    EnqueueClient(h.client, r);
  }

  /** A broken connection weakens what is known of errors only. */
  lemma Unclean(l: Link, matched: nat, replied: nat, slots: seq<Slot>, resolved: map<nat, Result>)
    requires FlightInv(l, matched, replied, slots) && ResolvedInv(resolved, slots, l.clean)
    ensures FlightInv(l.(clean := false), matched, replied, slots) && ResolvedInv(resolved, slots, false)
  {
  }

  lemma CloseInv(h: Hop, down: seq<Request>, answers: map<nat, Result>, downOpen: bool)
    requires HopInv(h, down, answers, downOpen)
    ensures HopInv(CloseRequests(h), down, answers, downOpen)
  {
    EndClient(h.client);
    AbortFacts(h.client.resolved, QueuedIds(h.client.chan), h.server.slots, h.link.clean);
  }

  lemma RecordWire(c: Client, requests: seq<Request>, taken: nat)
    requires ClientInv(c) && WireInv(c, requests, taken)
    ensures WireInv(Record(c), requests, taken)
  {
    if c.chan != [] && c.matching {
      RecordEntry(c);
    }
  }

  lemma RecordInv(h: Hop, down: seq<Request>, answers: map<nat, Result>, downOpen: bool)
    requires HopInv(h, down, answers, downOpen)
    ensures HopInv(h.(client := Record(h.client)), down, answers, downOpen)
  {
    var c := h.client;
    RecordClient(c);
    RecordWire(c, h.link.requests, |h.server.slots|);
    RecordOwn(c, h.server.slots, h.link.clean);
  }

  lemma RecordOwn(c: Client, slots: seq<Slot>, clean: bool)
    requires ResolvedInv(c.resolved, slots, clean)
    ensures ResolvedInv(Record(c).resolved, slots, clean)
    ensures Record(c).accepted == c.accepted && Record(c).matched == c.matched
  {
    AbortFacts(c.resolved, QueuedIds(c.chan), slots, clean);
  }

  lemma EmitInv(h: Hop, down: seq<Request>, answers: map<nat, Result>, downOpen: bool)
    requires HopInv(h, down, answers, downOpen)
    ensures HopInv(Emit(h), down, answers, downOpen)
  {
  }

  /** Oneshots are completed once: a later list of oneshots keeps every result. */
  ghost predicate Later(slots: seq<Slot>, later: seq<Slot>) {
    |slots| <= |later| && forall j :: 0 <= j < |slots| && slots[j].Done? ==> later[j] == slots[j]
  }

  lemma LaterSlots(h: Hop, later: seq<Slot>)
    requires FlightInv(h.link, h.client.matched, h.server.replied, h.server.slots)
    requires ResolvedInv(h.client.resolved, h.server.slots, h.link.clean)
    requires Later(h.server.slots, later)
    ensures FlightInv(h.link, h.client.matched, h.server.replied, later)
    ensures ResolvedInv(h.client.resolved, later, h.link.clean)
  {
  }

  lemma BeginSlots(accepted: seq<Request>, s: Server, down: seq<Request>, answers: map<nat, Result>, downOpen: bool)
    requires SlotInv(accepted, s, down, answers, downOpen) && s.starting.None? && |s.slots| < |accepted|
    ensures SlotInv(accepted, Begin(s, accepted[|s.slots|]), down, answers, downOpen)
  {
  }

  lemma ExpectsOneMore(q: seq<Entry>, accepted: seq<Request>, from: nat, end: nat, entry: Entry)
    requires Expects(q, accepted, from, end) && end < |accepted| && entry == Entry(KindOf(accepted[end]), end)
    ensures Expects(q + [entry], accepted, from, end + 1)
  {
  }

  lemma BeginCompletion(accepted: seq<Request>, s: Server)
    requires CompletionInv(accepted, s) && |s.slots| < |accepted|
    ensures CompletionInv(accepted, Begin(s, accepted[|s.slots|]))
  {
    if s.replying {
      var end := |s.slots|;
      ExpectsOneMore(s.completions, accepted, s.replied, end, Entry(KindOf(accepted[end]), end));
    }
  }

  lemma TakeWire(c: Client, requests: seq<Request>, taken: nat)
    requires WireInv(c, requests, taken) && requests != []
    ensures taken < |c.accepted| && requests[0] == c.accepted[taken]
    ensures WireInv(c, requests[1..], taken + 1)
  {
    assert requests[0] == c.accepted[taken + 0];
    assert forall i :: 0 <= i < |requests[1..]| ==> requests[1..][i] == requests[i + 1];
  }

  lemma TakeInv(h: Hop, down: seq<Request>, answers: map<nat, Result>, downOpen: bool)
    requires HopInv(h, down, answers, downOpen)
    ensures HopInv(Take(h), down, answers, downOpen)
  {
    var s := h.server;
    if s.serving && s.starting.None? && h.link.requests != [] {
      TakeWire(h.client, h.link.requests, |s.slots|);
      BeginSlots(h.client.accepted, s, down, answers, downOpen);
      BeginCompletion(h.client.accepted, s);
      LaterSlots(h, s.slots + [Fresh]);
    }
  }

  lemma StartedSlots(accepted: seq<Request>, s: Server, down: seq<Request>, answers: map<nat, Result>)
    requires s.starting.Some? && s.slots != []
    ensures
      SlotInv(accepted, s, down, answers, true) ==>
        SlotInv(accepted, Started(s, Waiting(|down|)), down + [s.starting.value], answers, true)
    ensures
      SlotInv(accepted, s, down, answers, false) ==>
        SlotInv(accepted, Started(s, Done(Err(Unavailable))), down, answers, false)
  {
    if SlotInv(accepted, s, down, answers, true) {
      assert |down| == |s.slots| - 1;
      assert down + [s.starting.value] == accepted[..|down| + 1];
    }
  }

  /** What a submission does to the next instance. */
  lemma SubmitChain(c: Chain, r: Request)
    ensures
      var n := Submit(c, r);
      && Answers(n) == Answers(c) && Open(n) == Open(c)
      && Accepted(n) == if Open(c) then Accepted(c) + [r] else Accepted(c)
  {
  }

  lemma StartedInv(h: Hop, slot: Slot, down: seq<Request>, answers: map<nat, Result>, downOpen: bool)
    requires h.server.slots != [] && h.server.slots[|h.server.slots| - 1] == Fresh
    requires ClientInv(h.client) && WireInv(h.client, h.link.requests, |h.server.slots|)
    requires CompletionInv(h.client.accepted, h.server)
    requires FlightInv(h.link, h.client.matched, h.server.replied, h.server.slots)
    requires ResolvedInv(h.client.resolved, h.server.slots, h.link.clean)
    requires SlotInv(h.client.accepted, Started(h.server, slot), down, answers, downOpen)
    ensures HopInv(h.(server := Started(h.server, slot)), down, answers, downOpen)
  {
    LaterSlots(h, Started(h.server, slot).slots);
  }

  lemma HandInv(h: Hop, next: Chain)
    requires HopInv(h, Accepted(next), Answers(next), Open(next))
    ensures
      var c := Hand(h, next);
      c.Via? && HopInv(c.hop, Accepted(c.next), Answers(c.next), Open(c.next))
  {
    var s, down := h.server, Accepted(next);
    if s.starting.Some? {
      SubmitChain(next, s.starting.value);
      StartedSlots(h.client.accepted, s, down, Answers(next));
      if Open(next) {
        StartedInv(h, Waiting(|down|), down + [s.starting.value], Answers(next), true);
      } else {
        StartedInv(h, Done(Err(Unavailable)), down, Answers(next), false);
      }
    }
  }

  lemma FinishInv(h: Hop, down: seq<Request>, answers: map<nat, Result>, downOpen: bool, slot: nat)
    requires HopInv(h, down, answers, downOpen)
    ensures HopInv(h.(server := Finish(h.server, slot, answers)), down, answers, downOpen)
  {
    LaterSlots(h, Finish(h.server, slot, answers).slots);
  }

  lemma DropInv(h: Hop, down: seq<Request>, answers: map<nat, Result>, downOpen: bool, slot: nat)
    requires HopInv(h, down, answers, downOpen)
    ensures HopInv(Drop(h, slot), down, answers, downOpen)
  {
    LaterSlots(h, Drop(h, slot).server.slots);
  }

  /** Sending the result of the completion at the head. */
  lemma SendFlight(h: Hop, result: Result)
    requires FlightInv(h.link, h.client.matched, h.server.replied, h.server.slots) && h.link.replyOpen
    requires h.server.replied < |h.server.slots| && h.server.slots[h.server.replied] == Done(result)
    requires h.server.completions != []
    ensures FlightInv(SendReply(h, result).link, h.client.matched, h.server.replied + 1, h.server.slots)
  {
    var replies, n := h.link.replies, SendReply(h, result).link;
    forall i | 0 <= i < |n.replies|
      ensures
        ItemInv(n.replies[i], h.client.matched + i, h.server.slots, i == |n.replies| - 1 && !n.replyOpen, n.clean)
    {
      if i < |replies| {
        assert ItemInv(replies[i], h.client.matched + i, h.server.slots, false, h.link.clean);
      }
    }
  }

  lemma SendCompletion(h: Hop, result: Result)
    requires CompletionInv(h.client.accepted, h.server) && h.server.replying && h.server.completions != []
    ensures CompletionInv(h.client.accepted, SendReply(h, result).server)
  {
    assert Expects(h.server.completions[1..], h.client.accepted, h.server.replied + 1, |h.server.slots|);
  }

  lemma SendInv(h: Hop, down: seq<Request>, answers: map<nat, Result>, downOpen: bool, result: Result)
    requires HopInv(h, down, answers, downOpen) && h.server.replying && h.server.completions != [] && h.link.replyOpen
    requires h.server.slots[h.server.replied] == Done(result)
    ensures HopInv(SendReply(h, result), down, answers, downOpen)
  {
    SendFlight(h, result);
    SendCompletion(h, result);
  }

  lemma StopReplyingInv(h: Hop, down: seq<Request>, answers: map<nat, Result>, downOpen: bool)
    requires HopInv(h, down, answers, downOpen)
    ensures HopInv(StopReplying(h), down, answers, downOpen)
  {
  }

  lemma ReplyHeadInv(h: Hop, down: seq<Request>, answers: map<nat, Result>, downOpen: bool)
    requires HopInv(h, down, answers, downOpen)
    ensures HopInv(ReplyHead(h), down, answers, downOpen)
  {
    StopReplyingInv(h, down, answers, downOpen);
    if h.server.replying && h.server.completions != [] {
      assert h.server.completions[0].id == h.server.replied + 0;
      var slot := h.server.slots[h.server.replied];
      if slot.Done? && h.link.replyOpen {
        SendInv(h, down, answers, downOpen, slot.result);
      }
    }
  }

  lemma BreakInv(h: Hop, down: seq<Request>, answers: map<nat, Result>, downOpen: bool, kept: nat, status: Status)
    requires HopInv(h, down, answers, downOpen)
    ensures HopInv(h.(link := Break(h.link, kept, status)), down, answers, downOpen)
  {
    Unclean(h.link, h.client.matched, h.server.replied, h.server.slots, h.client.resolved);
    assert FlightInv(Break(h.link, kept, status), h.client.matched, h.server.replied, h.server.slots);
  }

  lemma StopServingInv(h: Hop, down: seq<Request>, answers: map<nat, Result>, downOpen: bool)
    requires HopInv(h, down, answers, downOpen)
    ensures HopInv(StopServing(h), down, answers, downOpen)
  {
  }

  /** Against this server the reply at hand always has the kind of the request at hand. */
  lemma NoMismatch(h: Hop, down: seq<Request>, answers: map<nat, Result>, downOpen: bool)
    requires HopInv(h, down, answers, downOpen) && Typed(down, answers)
    ensures !Mismatch(h)
  {
    var c, l := h.client, h.link;
    if c.matching && c.outstanding != [] && l.replies != [] && l.replies[0].Reply? {
      var m := c.matched;
      assert ItemInv(l.replies[0], m + 0, h.server.slots, 0 == |l.replies| - 1 && !l.replyOpen, l.clean);
      assert h.server.slots[m] == Done(Ok(l.replies[0].answer));
      OldestEntry(c);
      assert m < |down| && Forwarded(h.server.slots[m], m, answers);
      assert down[m] == c.accepted[m];
    }
  }

  /** Taking the reply at hand. */
  lemma ReceiveFlight(l: Link, matched: nat, replied: nat, slots: seq<Slot>)
    requires FlightInv(l, matched, replied, slots) && l.replies != []
    ensures FlightInv(l.(replies := l.replies[1..]), matched + 1, replied, slots)
    ensures
      match l.replies[0]
      case Reply(answer) => OwnResult(Ok(answer), matched, slots, l.clean)
      case Error(status) => OwnResult(Err(status), matched, slots, l.clean)
  {
    var rest := l.replies[1..];
    assert ItemInv(l.replies[0], matched + 0, slots, 0 == |l.replies| - 1 && !l.replyOpen, l.clean);
    forall i | 0 <= i < |rest|
      ensures ItemInv(rest[i], matched + 1 + i, slots, i == |rest| - 1 && !l.replyOpen, l.clean)
    {
      assert ItemInv(l.replies[i + 1], matched + (i + 1), slots, i + 1 == |l.replies| - 1 && !l.replyOpen, l.clean);
    }
  }

  lemma ResolveOwn(c: Client, result: Result, stop: bool, slots: seq<Slot>, clean: bool)
    requires ResolvedInv(c.resolved, slots, clean)
    requires c.outstanding != [] && OwnResult(result, c.outstanding[0].id, slots, clean)
    ensures ResolvedInv(Resolve(c, result, stop).resolved, slots, clean)
  {
    var resolved := c.resolved[c.outstanding[0].id := result];
    assert ResolvedInv(resolved, slots, clean);
    AbortFacts(resolved, EntryIds(c.outstanding[1..]), slots, clean);
  }

  /** What the matcher does when no reply is of the wrong kind. */
  lemma MatchCases(h: Hop)
    requires h.client.matching && h.client.outstanding != [] && !Mismatch(h)
    ensures
      h.link.replies == [] && !h.link.replyOpen ==>
        Match(h) == h.(client := Resolve(h.client, Err(Unmatched), true))
    ensures
      h.link.replies != [] ==>
        Match(h) == h.(client := Resolve(h.client, ResultOf(h.link.replies[0]), false),
                       link := h.link.(replies := h.link.replies[1..]))
  {
  }

  function ResultOf(item: Item): Result {
    match item
    case Reply(answer) => Ok(answer)
    case Error(status) => Err(status)
  }

  lemma MatchReply(h: Hop, down: seq<Request>, answers: map<nat, Result>, downOpen: bool)
    requires HopInv(h, down, answers, downOpen)
    requires h.client.matching && h.client.outstanding != [] && h.link.replies != []
    ensures
      HopInv(h.(client := Resolve(h.client, ResultOf(h.link.replies[0]), false),
                link := h.link.(replies := h.link.replies[1..])), down, answers, downOpen)
  {
    var result := ResultOf(h.link.replies[0]);
    ReceiveFlight(h.link, h.client.matched, h.server.replied, h.server.slots);
    OldestEntry(h.client);
    ResolveClient(h.client, result, false);
    ResolveOwn(h.client, result, false, h.server.slots, h.link.clean);
  }

  lemma MatchEnd(h: Hop, down: seq<Request>, answers: map<nat, Result>, downOpen: bool)
    requires HopInv(h, down, answers, downOpen)
    requires h.client.matching && h.client.outstanding != [] && h.link.replies == [] && !h.link.replyOpen
    ensures HopInv(h.(client := Resolve(h.client, Err(Unmatched), true)), down, answers, downOpen)
  {
    ResolveClient(h.client, Err(Unmatched), true);
    ResolveOwn(h.client, Err(Unmatched), true, h.server.slots, h.link.clean);
  }

  lemma MatchInv(h: Hop, down: seq<Request>, answers: map<nat, Result>, downOpen: bool)
    requires HopInv(h, down, answers, downOpen) && Typed(down, answers)
    ensures HopInv(Match(h), down, answers, downOpen)
    ensures Kept(h.client.resolved, Match(h).client.resolved)
  {
    var c, l := h.client, h.link;
    NoMismatch(h, down, answers, downOpen);
    if c.matching && c.outstanding != [] && (l.replies != [] || !l.replyOpen) {
      MatchCases(h);
      if l.replies != [] {
        MatchReply(h, down, answers, downOpen);
        ResolveClient(c, ResultOf(l.replies[0]), false);
      } else {
        MatchEnd(h, down, answers, downOpen);
        ResolveClient(c, Err(Unmatched), true);
      }
    }
  }

  /** A step of one hop keeps its invariant. */
  lemma LocalInv(h: Hop, down: seq<Request>, answers: map<nat, Result>, downOpen: bool, a: Local)
    requires HopInv(h, down, answers, downOpen) && Typed(down, answers)
    ensures HopInv(DoLocal(h, answers, a), down, answers, downOpen)
  {
    match a
    case DoCloseRequests => CloseInv(h, down, answers, downOpen);
    case DoRecord => RecordInv(h, down, answers, downOpen);
    case DoEmit => EmitInv(h, down, answers, downOpen);
    case DoTake => TakeInv(h, down, answers, downOpen);
    case DoFinish(slot) => FinishInv(h, down, answers, downOpen, slot);
    case DoDrop(slot) => DropInv(h, down, answers, downOpen, slot);
    case DoReply => ReplyHeadInv(h, down, answers, downOpen);
    case DoStopServing => StopServingInv(h, down, answers, downOpen);
    case DoBreak(kept, status) => BreakInv(h, down, answers, downOpen, kept, status);
    case DoMatch => MatchInv(h, down, answers, downOpen);
  }

  /** What an instance shows to the one in front of it. */
  lemma LocalKeeps(h: Hop, down: seq<Request>, answers: map<nat, Result>, downOpen: bool, a: Local)
    requires HopInv(h, down, answers, downOpen) && Typed(down, answers)
    ensures
      var n := DoLocal(h, answers, a).client;
      n.accepted == h.client.accepted && (n.open ==> h.client.open) && Kept(h.client.resolved, n.resolved)
  {
    match a
    case DoCloseRequests => EndClient(h.client);
    case DoRecord => RecordClient(h.client);
    case DoMatch => MatchInv(h, down, answers, downOpen);
    case _ =>
  }

  // ---------------------------------------------------------- all chains

  /** What the instance in front sees of a step behind it: requests stay, answers are final, and a
      closed request channel stays closed. */
  ghost predicate Evolves(accepted: seq<Request>, answers: map<nat, Result>, open: bool, n: Chain) {
    && Accepted(n) == accepted
    && (Open(n) ==> open)
    && Kept(answers, Answers(n))
  }

  /** A request is resolved once: no step changes or removes a result. */
  lemma DoEvolves(c: Chain, a: Action)
    requires Inv(c)
    ensures Evolves(Accepted(c), Answers(c), Open(c), Do(c, a))
  {
    if c.Via? && a.Here? {
      LocalKeeps(c.hop, Accepted(c.next), Answers(c.next), Open(c.next), a.step);
    }
  }

  lemma SlotsEvolve(accepted: seq<Request>, s: Server, down: seq<Request>, answers: map<nat, Result>,
                    downOpen: bool, next: Chain)
    requires SlotInv(accepted, s, down, answers, downOpen)
    requires Evolves(down, answers, downOpen, next)
    ensures SlotInv(accepted, s, Accepted(next), Answers(next), Open(next))
  {
  }

  /** Results fit their requests because the results behind them do. */
  lemma HopTyped(h: Hop, down: seq<Request>, answers: map<nat, Result>, downOpen: bool)
    requires HopInv(h, down, answers, downOpen) && Typed(down, answers)
    ensures Typed(h.client.accepted, h.client.resolved)
  {
    var accepted, resolved := h.client.accepted, h.client.resolved;
    forall id | id in resolved
      ensures id < |accepted| && Fits(accepted[id], resolved[id])
    {
      assert id in resolved.Keys;
      assert OwnResult(resolved[id], id, h.server.slots, h.link.clean);
      if resolved[id].Ok? {
        assert Forwarded(h.server.slots[id], id, answers);
        assert down[id] == accepted[id];
      }
    }
  }

  lemma ViaInv(h: Hop, next: Chain)
    requires Inv(next) && HopInv(h, Accepted(next), Answers(next), Open(next))
    ensures Inv(Via(h, next))
  {
    HopTyped(h, Accepted(next), Answers(next), Open(next));
  }

  lemma SendInvariant(c: Chain, r: Request)
    requires Inv(c)
    ensures Inv(Submit(c, r))
  {
    if c.Via? && c.hop.client.open {
      SubmitInv(c.hop, Accepted(c.next), Answers(c.next), Open(c.next), r);
      ViaInv(c.hop.(client := Enqueue(c.hop.client, r)), c.next);
    }
  }

  lemma HandInvariant(h: Hop, next: Chain)
    requires Inv(Via(h, next))
    ensures Inv(Hand(h, next))
  {
    if h.server.starting.Some? && h.server.slots != [] {
      HandInv(h, next);
      SendInvariant(next, h.server.starting.value);
      ViaInv(Hand(h, next).hop, Submit(next, h.server.starting.value));
    }
  }

  lemma DeeperInvariant(h: Hop, next: Chain, later: Chain)
    requires Inv(Via(h, next)) && Inv(later) && Evolves(Accepted(next), Answers(next), Open(next), later)
    ensures Inv(Via(h, later))
  {
    SlotsEvolve(h.client.accepted, h.server, Accepted(next), Answers(next), Open(next), later);
    ViaInv(h, later);
  }

  lemma DoInvariant(c: Chain, a: Action)
    requires Inv(c)
    ensures Inv(Do(c, a))
    decreases c
  {
    if c.Via? {
      match a
      case Complete(_, _) =>
      case Here(step) =>
        LocalInv(c.hop, Accepted(c.next), Answers(c.next), Open(c.next), step);
        ViaInv(DoLocal(c.hop, Answers(c.next), step), c.next);
      case DoHand => HandInvariant(c.hop, c.next);
      case Deeper(inner) =>
        DoInvariant(c.next, inner);
        DoEvolves(c.next, inner);
        DeeperInvariant(c.hop, c.next, Do(c.next, inner));
    }
  }
}
