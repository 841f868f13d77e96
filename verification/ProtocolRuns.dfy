/** What the interleavings of a chain of servers can and cannot do. */
module ProtocolRuns {
  import opened Wrappers
  import opened Protocol
  import opened Pairing

  // ------------------------------------------------- every reachable state

  lemma {:induction false} NewInvariant(hops: nat)
    ensures Inv(NewChain(hops)) && Accepted(NewChain(hops)) == [] && Open(NewChain(hops))
  {
    if hops > 0 {
      NewInvariant(hops - 1);
      assert NEW_HOP.client.resolved.Keys == {};
      assert HopInv(NEW_HOP, [], Answers(NewChain(hops - 1)), true);
      ViaInv(NEW_HOP, NewChain(hops - 1));
    }
  }

  function Sent(events: seq<Event>): seq<Request> {
    if events == [] then []
    else (if events[0].Send? then [events[0].request] else []) + Sent(events[1..])
  }

  lemma {:induction false} RunInvariant(c: Chain, events: seq<Event>)
    requires Inv(c)
    ensures Inv(Run(c, events))
    decreases |events|
  {
    if events != [] {
      if events[0].Send? {
        SendInvariant(c, events[0].request);
        RunInvariant(Submit(c, events[0].request), events[1..]);
      } else {
        DoInvariant(c, events[0].action);
        RunInvariant(Do(c, events[0].action), events[1..]);
      }
    }
  }

  /** Results are final: whatever happens later, a resolved request keeps its result. */
  lemma {:induction false} ResolvedOnce(c: Chain, events: seq<Event>)
    requires Inv(c)
    ensures Kept(Answers(c), Answers(Run(c, events)))
    decreases |events|
  {
    if events != [] {
      if events[0].Send? {
        SendInvariant(c, events[0].request);
        ResolvedOnce(Submit(c, events[0].request), events[1..]);
      } else {
        DoInvariant(c, events[0].action);
        DoEvolves(c, events[0].action);
        ResolvedOnce(Do(c, events[0].action), events[1..]);
      }
    }
  }

  /** How the accepted requests relate to those sent meanwhile: in order, and all of them as long as
      the channel is open. */
  ghost predicate Admits(accepted: seq<Request>, open: bool, sent: seq<Request>, after: seq<Request>, stillOpen: bool) {
    && accepted <= after <= accepted + sent
    && (stillOpen ==> open && after == accepted + sent)
    && (!open ==> after == accepted)
  }

  lemma AdmitsOne(accepted: seq<Request>, open: bool, r: Request, sent: seq<Request>,
      after: seq<Request>, stillOpen: bool)
    requires Admits(if open then accepted + [r] else accepted, open, sent, after, stillOpen)
    ensures Admits(accepted, open, [r] + sent, after, stillOpen)
  {
    assert accepted + [r] + sent == accepted + ([r] + sent);
    assert accepted <= accepted + [r];
  }

  lemma {:induction false} AcceptedInOrder(c: Chain, events: seq<Event>)
    requires Inv(c)
    ensures Admits(Accepted(c), Open(c), Sent(events), Accepted(Run(c, events)), Open(Run(c, events)))
    decreases |events|
  {
    var n := Run(c, events);
    if events != [] {
      if events[0].Send? {
        var r := events[0].request;
        SendInvariant(c, r);
        SubmitChain(c, r);
        AcceptedInOrder(Submit(c, r), events[1..]);
        AdmitsOne(Accepted(c), Open(c), r, Sent(events[1..]), Accepted(n), Open(n));
      } else {
        DoInvariant(c, events[0].action);
        DoEvolves(c, events[0].action);
        AcceptedInOrder(Do(c, events[0].action), events[1..]);
        assert Sent(events) == Sent(events[1..]);
        AdmitsSooner(Accepted(c), Open(c), Open(Do(c, events[0].action)), Sent(events), Accepted(n), Open(n));
      }
    }
  }

  lemma AdmitsSooner(accepted: seq<Request>, open: bool, openNow: bool, sent: seq<Request>, after: seq<Request>,
                     stillOpen: bool)
    requires Admits(accepted, openNow, sent, after, stillOpen) && (openNow ==> open)
    ensures Admits(accepted, open, sent, after, stillOpen)
  {
  }

  // ---------------------------------------------------------------- pairing

  /** The target at the end of the chain. */
  function Final(c: Chain): (target: Chain)
    ensures target.Target?
  {
    if c.Target? then c else Final(c.next)
  }

  /** No connection of the chain broke. */
  predicate Clean(c: Chain) {
    c.Via? ==> c.hop.link.clean && Clean(c.next)
  }

  /** Errors the chain makes itself. */
  predicate OfChain(status: Status) {
    status.Aborted? || status.Unmatched? || status.Unavailable?
  }

  /** A result the request `id` has at the head of the chain is the result the final target gave to
      its own request `id`: always for a success, and for an error that is not the chain's own when no
      connection broke. */
  ghost predicate Paired(c: Chain) {
    && Final(c).requests <= Accepted(c)
    && forall id :: id in Answers(c) && (Answers(c)[id].Ok? || (Clean(c) && !OfChain(Answers(c)[id].status))) ==>
         id in Final(c).results && Final(c).results[id] == Answers(c)[id]
  }

  lemma {:induction false} ChainPaired(c: Chain)
    requires Inv(c)
    ensures Paired(c)
  {
    if c.Via? {
      ChainPaired(c.next);
      var h, next := c.hop, c.next;
      assert Accepted(next) <= h.client.accepted;
      var resolved := h.client.resolved;
      forall id | id in resolved && (resolved[id].Ok? || (Clean(c) && !OfChain(resolved[id].status)))
        ensures id in Final(c).results && Final(c).results[id] == resolved[id]
      {
        assert OwnResult(resolved[id], id, h.server.slots, h.link.clean);
        AnsweredBehind(h, Accepted(next), Answers(next), Open(next), id);
      }
    }
  }

  /** A completed oneshot has the answer of the next instance, unless that was unavailable. */
  lemma AnsweredBehind(h: Hop, down: seq<Request>, answers: map<nat, Result>, downOpen: bool, id: nat)
    requires HopInv(h, down, answers, downOpen)
    requires id < |h.server.slots| && h.server.slots[id].Done? && h.server.slots[id] != Done(Err(Unavailable))
    ensures id in answers && h.server.slots[id] == Done(answers[id])
  {
    if id < |down| {
      assert Forwarded(h.server.slots[id], id, answers);
    }
  }

  /** Results of the final target belong to requests it got. */
  lemma {:induction false} FinalTyped(c: Chain)
    requires Inv(c)
    ensures Typed(Final(c).requests, Final(c).results)
  {
    if c.Via? {
      FinalTyped(c.next);
    }
  }

  /** No instance of the chain ever sees a reply of the wrong kind. */
  predicate NeverUnmatched(c: Chain) {
    c.Via? ==> !Mismatch(c.hop) && NeverUnmatched(c.next)
  }

  lemma {:induction false} ChainMatches(c: Chain)
    requires Inv(c)
    ensures NeverUnmatched(c)
  {
    if c.Via? {
      NoMismatch(c.hop, Accepted(c.next), Answers(c.next), Open(c.next));
      ChainMatches(c.next);
    }
  }

  /** In every interleaving over a chain of any length: the final target gets a prefix of the requests
      sent, in that order; the k-th request is resolved with the result of the k-th; the branch for
      unmatched kinds is dead code; and a result never changes. */
  lemma EveryRunIsPaired(hops: nat, events: seq<Event>, later: seq<Event>)
    ensures
      var c := Run(NewChain(hops), events);
      && Final(c).requests <= Accepted(c) <= Sent(events)
      && Paired(c)
      && NeverUnmatched(c)
      && Kept(Answers(c), Answers(Run(c, later)))
  {
    NewInvariant(hops);
    RunInvariant(NewChain(hops), events);
    var c := Run(NewChain(hops), events);
    ChainPaired(c);
    ChainMatches(c);
    AcceptedInOrder(NewChain(hops), events);
    assert [] + Sent(events) == Sent(events);
    ResolvedOnce(c, later);
  }

  // ------------------------------------------------ successes are a prefix

  predicate AllOk(resolved: map<nat, Result>, n: nat) {
    forall i: nat :: i < n ==> i in resolved && resolved[i].Ok?
  }

  /** Every success has only successes before it, and the matcher is past it. */
  ghost predicate OkFirst(resolved: map<nat, Result>, matched: nat) {
    forall id :: id in resolved && resolved[id].Ok? ==> id < matched && AllOk(resolved, id + 1)
  }

  /** An error is the last item of its stream. */
  predicate ErrorLast(l: Link) {
    forall i :: 0 <= i < |l.replies| && l.replies[i].Error? ==> i == |l.replies| - 1 && !l.replyOpen
  }

  /** Once a request has failed nothing follows on the reply stream. */
  ghost predicate FailsLast(h: Hop) {
    && OkFirst(h.client.resolved, h.client.matched)
    && ErrorLast(h.link)
    && (h.client.matching ==>
          AllOk(h.client.resolved, h.client.matched) || (h.link.replies == [] && !h.link.replyOpen))
  }

  /** Nothing but errors is new. */
  lemma OkFirstKept(resolved: map<nat, Result>, later: map<nat, Result>, matched: nat, m: nat)
    requires OkFirst(resolved, matched) && Kept(resolved, later) && matched <= m
    requires forall id :: id in later && later[id].Ok? ==> id in resolved
    ensures OkFirst(later, m)
  {
    forall id | id in later && later[id].Ok?
      ensures id < m && AllOk(later, id + 1)
    {
      assert AllOk(resolved, id + 1);
    }
  }

  lemma OkFirstSnoc(resolved: map<nat, Result>, matched: nat, answer: Answer)
    requires OkFirst(resolved, matched) && AllOk(resolved, matched) && matched !in resolved
    ensures
      var later := resolved[matched := Ok(answer)];
      OkFirst(later, matched + 1) && AllOk(later, matched + 1)
  {
    var later := resolved[matched := Ok(answer)];
    forall id | id in later && later[id].Ok?
      ensures id < matched + 1 && AllOk(later, id + 1)
    {
      if id != matched {
        assert AllOk(resolved, id + 1);
      }
    }
  }

  /** The matcher gives an error, stopping or not. */
  lemma ErrorResolved(c: Client, status: Status, stop: bool)
    requires ClientInv(c) && c.matching && c.outstanding != [] && OkFirst(c.resolved, c.matched)
    ensures OkFirst(Resolve(c, Err(status), stop).resolved, c.matched + 1)
  {
    ResolveClient(c, Err(status), stop);
    OkFirstKept(c.resolved, Resolve(c, Err(status), stop).resolved, c.matched, c.matched + 1);
  }

  lemma MatchFailsLast(h: Hop)
    requires ClientInv(h.client) && FailsLast(h)
    ensures FailsLast(Match(h))
  {
    var c, l := h.client, h.link;
    if c.matching && c.outstanding != [] {
      if l.replies == [] || Mismatch(h) {
        ErrorResolved(c, Unmatched, true);
      } else {
        OldestEntry(c);
        match l.replies[0]
        case Error(status) => ErrorResolved(c, status, false);
        case Reply(answer) => OkFirstSnoc(c.resolved, c.matched, answer);
      }
    }
  }

  lemma AbortedFailsLast(h: Hop, c: Client)
    requires FailsLast(h) && c == EndRequests(h.client) && Kept(h.client.resolved, c.resolved)
    ensures FailsLast(h.(client := c))
  {
    OkFirstKept(h.client.resolved, c.resolved, c.matched, c.matched);
  }

  lemma LocalFailsLast(h: Hop, answers: map<nat, Result>, a: Local)
    requires ClientInv(h.client) && FailsLast(h)
    ensures FailsLast(DoLocal(h, answers, a))
  {
    match a
    case DoCloseRequests =>
      EndClient(h.client);
      AbortedFailsLast(h, EndRequests(h.client));
    case DoRecord =>
      EndClient(h.client);
      AbortedFailsLast(h, EndRequests(h.client));
    case DoMatch => MatchFailsLast(h);
    case _ =>
  }

  lemma {:induction false} RunFailsLast(c: Chain, events: seq<Event>)
    requires Inv(c) && c.Via? && FailsLast(c.hop)
    ensures Run(c, events).Via? && FailsLast(Run(c, events).hop)
    decreases |events|
  {
    if events != [] {
      if events[0].Send? {
        SendInvariant(c, events[0].request);
        RunFailsLast(Submit(c, events[0].request), events[1..]);
      } else {
        var a := events[0].action;
        DoInvariant(c, a);
        if a.Here? {
          LocalFailsLast(c.hop, Answers(c.next), a.step);
        }
        RunFailsLast(Do(c, a), events[1..]);
      }
    }
  }

  /** Through at least one server, in every interleaving: when a request has succeeded, all before it
      have, each with the answer the final target gave to its own. */
  lemma SuccessIsPrefix(hops: nat, events: seq<Event>, j: nat)
    requires hops > 0
    requires
      var answers := Answers(Run(NewChain(hops), events));
      j in answers && answers[j].Ok?
    ensures
      var c := Run(NewChain(hops), events);
      forall i: nat :: i <= j ==>
        i in Answers(c) && Answers(c)[i].Ok? && i in Final(c).results && Final(c).results[i] == Answers(c)[i]
  {
    NewInvariant(hops);
    RunInvariant(NewChain(hops), events);
    RunFailsLast(NewChain(hops), events);
    var c := Run(NewChain(hops), events);
    ChainPaired(c);
    assert AllOk(Answers(c), j + 1);
  }

  // ------------------------------------------------------ nothing is stuck

  /** Work left for the client alone. */
  function Left(c: Client): nat {
    3 * |c.chan| + |c.outstanding| + if c.emitting.Some? then 1 else 0
  }

  /** A step of the client: its request stream is polled or goes on, or its matcher runs. */
  predicate OfClient(a: Local) {
    a.DoRecord? || a.DoEmit? || a.DoMatch?
  }

  /** Once the reply stream has ended it stays ended, nobody adds work for the client, and each step
      of the client that changes anything removes some. */
  lemma EndedStep(h: Hop, answers: map<nat, Result>, a: Local)
    requires ClientInv(h.client) && !h.link.replyOpen
    ensures
      var n := DoLocal(h, answers, a);
      && !n.link.replyOpen
      && Left(n.client) <= Left(h.client)
      && (OfClient(a) && n != h ==> Left(n.client) < Left(h.client))
  {
  }

  /** The steps left to the client lead nowhere else. */
  predicate ClientIdle(h: Hop) {
    Record(h.client) == h.client && Emit(h) == h && Match(h) == h
  }

  /** With the reply stream ended, a client that has nothing left to do has resolved every request it
      ever accepted: none is lost. */
  lemma EndedSettles(h: Hop)
    requires ClientInv(h.client) && !h.link.replyOpen
    ensures ClientIdle(h) <==> Left(h.client) == 0
    ensures ClientIdle(h) ==> forall id: nat :: id in h.client.resolved <==> id < |h.client.accepted|
  {
  }

  function RunLocal(h: Hop, answers: map<nat, Result>, steps: seq<Local>): Hop
    decreases |steps|
  {
    if steps == [] then h else RunLocal(DoLocal(h, answers, steps[0]), answers, steps[1..])
  }

  /** Whatever kept the reply stream from going on, the client alone gets from there to a state in which
      exactly the requests it accepted are resolved, in no more steps than it has work left. */
  lemma {:induction false} Settles(h: Hop, answers: map<nat, Result>) returns (steps: seq<Local>)
    requires ClientInv(h.client) && !h.link.replyOpen
    ensures |steps| <= Left(h.client) && forall i :: 0 <= i < |steps| ==> OfClient(steps[i])
    ensures
      var n := RunLocal(h, answers, steps).client;
      && n.accepted == h.client.accepted
      && forall id: nat :: id in n.resolved <==> id < |h.client.accepted|
    decreases Left(h.client)
  {
    EndedSettles(h);
    if ClientIdle(h) {
      steps := [];
    } else {
      var step :=
        if Emit(h) != h then DoEmit
        else if Record(h.client) != h.client then DoRecord
        else DoMatch;
      var n := DoLocal(h, answers, step);
      EndedStep(h, answers, step);
      ClientStep(h, answers, step);
      var rest := Settles(n, answers);
      steps := [step] + rest;
      assert steps[1..] == rest;
    }
  }

  /** Client steps keep the client's queues in order, with any replies. */
  lemma ClientStep(h: Hop, answers: map<nat, Result>, a: Local)
    requires ClientInv(h.client) && OfClient(a)
    ensures
      var n := DoLocal(h, answers, a).client;
      ClientInv(n) && n.accepted == h.client.accepted
  {
    var c := h.client;
    match a
    case DoRecord => RecordClient(c);
    case DoMatch =>
      if c.matching && c.outstanding != [] {
        if h.link.replies == [] {
          ResolveClient(c, Err(Unmatched), true);
        } else if Mismatch(h) {
          ResolveClient(c, Err(Unmatched), true);
        } else {
          ResolveClient(c, ResultOf(h.link.replies[0]), false);
        }
      }
    case _ =>
  }

  // --------------------------------------------- how the reply stream ends

  /** The completion the reply task waits for. */
  function Head(s: Server): Option<Slot> {
    if s.completions != [] && s.completions[0].id < |s.slots| then Some(s.slots[s.completions[0].id]) else None
  }

  /** What the reply task does next: it sends a result, an error as the last item; it ends with a completion
      that was dropped, with a listener that left, and once the server loop is gone and nothing is due; and
      otherwise it waits. */
  lemma ReplyAnswers(h: Hop, answers: map<nat, Result>)
    requires h.server.replying
    ensures
      var n, head := DoLocal(h, answers, DoReply), Head(h.server);
      if h.server.completions == [] then
        if h.server.serving then n == h else !n.server.replying && !n.link.replyOpen && n.link.replies == h.link.replies
      else if head.None? || head.value.Fresh? || head.value.Waiting? then n == h
      else if head.value.Dropped? || !h.link.replyOpen then
        !n.server.replying && !n.link.replyOpen && n.link.replies == h.link.replies
      else
        && n.server.completions == h.server.completions[1..] && n.server.replying
        && n.link.replyOpen == head.value.result.Ok?
        && n.link.replies == h.link.replies +
             [match head.value.result case Ok(answer) => Reply(answer) case Err(status) => Error(status)]
  {
  }

  /** A connection that breaks delivers some of the replies in flight, and then an error. */
  lemma BreakAnswers(h: Hop, answers: map<nat, Result>, kept: nat, status: Status)
    requires h.link.replyOpen && kept <= |h.link.replies|
    ensures
      var l := DoLocal(h, answers, DoBreak(kept, status)).link;
      l.replies == h.link.replies[..kept] + [Error(status)] && !l.replyOpen && !l.clean
  {
  }

  predicate IsAborted(resolved: map<nat, Result>, id: nat) {
    id in resolved && resolved[id] == Err(Aborted)
  }

  /** What the matcher does next: it gives the oldest request the reply at hand, or its error; at a reply of
      another kind, and at the end of the stream, that request is unmatched and those behind it are aborted;
      without a reply it waits. */
  lemma MatchAnswers(h: Hop, answers: map<nat, Result>)
    requires ClientInv(h.client) && h.client.matching && h.client.outstanding != []
    ensures
      var n, oldest := DoLocal(h, answers, DoMatch), h.client.outstanding[0];
      var c, l := n.client, h.link;
      if l.replies == [] && l.replyOpen then n == h
      else
        && oldest.id in c.resolved
        && n.link == (if l.replies == [] then l else l.(replies := l.replies[1..])) && n.server == h.server
        && if l.replies == [] || (l.replies[0].Reply? && AnswerKind(l.replies[0].answer) != oldest.kind) then
             && c.resolved[oldest.id] == Err(Unmatched) && !c.matching && c.outstanding == []
             && forall id: nat :: h.client.matched < id < h.client.recorded ==> IsAborted(c.resolved, id)
           else
             && c.matching && c.outstanding == h.client.outstanding[1..]
             && c.resolved[oldest.id] ==
                  match l.replies[0] case Reply(answer) => Ok(answer) case Error(status) => Err(status)
  {
    OldestEntry(h.client);
    var rest := EntryIds(h.client.outstanding[1..]);
    assert forall id: nat :: id in rest <==> h.client.matched < id < h.client.recorded;
  }

  /** When the request stream ends, because its transport drops it or the matcher is gone, what it had not
      emitted is aborted or lost, and the channel is closed. */
  lemma EndAnswers(h: Hop, answers: map<nat, Result>, a: Local)
    requires ClientInv(h.client) && h.client.open
    requires
      a == DoCloseRequests || (a == DoRecord && !h.client.matching && h.client.chan != [] && h.client.emitting.None?)
    ensures
      var n := DoLocal(h, answers, a);
      && !n.client.open && n.client.chan == [] && n.client.emitting.None? && n.link == h.link && n.server == h.server
      && forall id: nat :: h.client.recorded <= id < |h.client.accepted| ==> IsAborted(n.client.resolved, id)
  {
    QueueIds(h.client.chan, h.client.accepted, h.client.recorded);
  }

  /** A oneshot that waits can be dropped, and the server loop can end. */
  lemma ServerAnswers(h: Hop, answers: map<nat, Result>, slot: nat)
    ensures
      slot < |h.server.slots| && h.server.slots[slot].Waiting? ==>
        DoLocal(h, answers, DoDrop(slot)) == h.(server := h.server.(slots := h.server.slots[slot := Dropped]))
    ensures DoLocal(h, answers, DoStopServing) == h.(server := h.server.(serving := false))
  {
  }

  /** Every completion due has been decided, one way or the other. */
  predicate Decided(s: Server) {
    forall i :: 0 <= i < |s.completions| ==>
      s.completions[i].id < |s.slots| && (s.slots[s.completions[i].id].Done? || s.slots[s.completions[i].id].Dropped?)
  }

  /** Once the server loop is gone and every completion is decided, the reply task alone ends the stream, in
      no more steps than one for each of them and one more. */
  lemma {:induction false} ReplyTaskEnds(h: Hop, answers: map<nat, Result>) returns (steps: seq<Local>)
    requires h.server.replying && !h.server.serving && Decided(h.server)
    ensures |steps| <= |h.server.completions| + 1 && forall i :: 0 <= i < |steps| ==> steps[i] == DoReply
    ensures
      var n := RunLocal(h, answers, steps);
      n.client == h.client && !n.link.replyOpen
    decreases |h.server.completions|
  {
    ReplyAnswers(h, answers);
    var n := DoLocal(h, answers, DoReply);
    if !n.link.replyOpen {
      steps := [DoReply];
      assert steps[1..] == [];
    } else {
      assert forall i :: 0 <= i < |n.server.completions| ==> n.server.completions[i] == h.server.completions[i + 1];
      var rest := ReplyTaskEnds(n, answers);
      steps := [DoReply] + rest;
      assert steps[1..] == rest;
    }
  }

  lemma {:induction false} RunLocalConcat(h: Hop, answers: map<nat, Result>, a: seq<Local>, b: seq<Local>)
    ensures RunLocal(h, answers, a + b) == RunLocal(RunLocal(h, answers, a), answers, b)
    decreases |a|
  {
    if a == [] {
      assert a + b == b;
    } else {
      assert (a + b)[1..] == a[1..] + b;
      RunLocalConcat(DoLocal(h, answers, a[0]), answers, a[1..], b);
    }
  }

  /** So a server that goes away leaves no request open: its reply task and then the client settle all that
      were accepted. */
  lemma GoneServerSettles(h: Hop, answers: map<nat, Result>) returns (steps: seq<Local>)
    requires ClientInv(h.client) && h.server.replying && !h.server.serving && Decided(h.server)
    ensures
      var n := RunLocal(h, answers, steps).client;
      && n.accepted == h.client.accepted
      && forall id: nat :: id in n.resolved <==> id < |h.client.accepted|
  {
    var ends := ReplyTaskEnds(h, answers);
    var rest := Settles(RunLocal(h, answers, ends), answers);
    steps := ends + rest;
    RunLocalConcat(h, answers, ends, rest);
  }

  // ---------------------------------------------------------- an example

  function BothWaiting(r: Request, s: Request): Chain {
    var entries := [Entry(KindOf(r), 0), Entry(KindOf(s), 1)];
    Via(Hop(Client([r, s], [], true, None, entries, true, map[], 2, 0), Link([], [], true, true),
            Server([Waiting(0), Waiting(1)], entries, None, true, true, 0)),
        Target([r, s], map[]))
  }

  /** The oldest queued request is recorded and emitted. */
  lemma EmitOne(h: Hop, next: Chain) returns (after: Chain)
    requires h.client.chan != [] && h.client.emitting.None? && h.client.matching
    ensures after == Do(Do(Via(h, next), Here(DoRecord)), Here(DoEmit))
    ensures
      var Queued(r, id) := h.client.chan[0];
      after == Via(Hop(h.client.(chan := h.client.chan[1..], recorded := h.client.recorded + 1,
                                 outstanding := h.client.outstanding + [Entry(KindOf(r), id)]),
                       h.link.(requests := h.link.requests + [r]), h.server), next)
  {
    after := Do(Do(Via(h, next), Here(DoRecord)), Here(DoEmit));
  }

  /** The oldest request of the stream is taken and reaches the target. */
  lemma TakeOne(h: Hop, requests: seq<Request>) returns (after: Chain)
    requires h.link.requests != [] && h.server.serving && h.server.replying && h.server.starting.None?
    ensures after == Do(Do(Via(h, Target(requests, map[])), Here(DoTake)), DoHand)
    ensures
      var r := h.link.requests[0];
      after == Via(Hop(h.client, h.link.(requests := h.link.requests[1..]),
                       h.server.(slots := h.server.slots + [Waiting(|requests|)],
                                 completions := h.server.completions + [Entry(KindOf(r), |h.server.slots|)])),
                   Target(requests + [r], map[]))
  {
    var slots := h.server.slots + [Fresh];
    assert slots[|slots| - 1 := Waiting(|requests|)] == h.server.slots + [Waiting(|requests|)];
    after := Do(Do(Via(h, Target(requests, map[])), Here(DoTake)), DoHand);
  }

  lemma BothEmitted(r: Request, s: Request) returns (c1: Chain, c2: Chain)
    ensures c1 == Do(Do(Submit(Submit(NewChain(1), r), s), Here(DoRecord)), Here(DoEmit))
    ensures c2 == Do(Do(c1, Here(DoRecord)), Here(DoEmit))
    ensures c2 ==
      Via(Hop(BothWaiting(r, s).hop.client, Link([r, s], [], true, true), NEW_HOP.server), Target([], map[]))
  {
    assert NewChain(1) == Via(NEW_HOP, NewChain(0)) && NewChain(0) == Target([], map[]);
    var c0 := Submit(Submit(NewChain(1), r), s);
    assert c0.hop.client.chan == [Queued(r, 0), Queued(s, 1)] && c0.hop.client.accepted == [r, s];
    c1 := EmitOne(c0.hop, c0.next);
    c2 := EmitOne(c1.hop, c1.next);
    assert c2.hop.client.chan == [];
  }

  /** Two requests on their way to the target. */
  lemma BothForwarded(r: Request, s: Request) returns (c1: Chain, c2: Chain, c3: Chain)
    ensures c1 == Do(Do(Submit(Submit(NewChain(1), r), s), Here(DoRecord)), Here(DoEmit))
    ensures c2 == Do(Do(c1, Here(DoRecord)), Here(DoEmit))
    ensures c3 == Do(Do(c2, Here(DoTake)), DoHand)
    ensures Do(Do(c3, Here(DoTake)), DoHand) == BothWaiting(r, s)
  {
    c1, c2 := BothEmitted(r, s);
    c3 := TakeOne(c2.hop, []);
    assert c3.next == Target([r], map[]) && c3.hop.server.slots == [Waiting(0)];
    var c4 := TakeOne(c3.hop, [r]);
    assert c4.hop.link.requests == [] && c4.hop.server.slots == [Waiting(0), Waiting(1)];
    assert c4.next == Target([r, s], map[]);
  }

  /** The target completes a request, and the server its oneshot. */
  lemma Completed(h: Hop, requests: seq<Request>, results: map<nat, Result>, id: nat, result: Result)
    requires id < |requests| && id !in results && Fits(requests[id], result)
    requires id < |h.server.slots| && h.server.slots[id] == Waiting(id)
    ensures
      Do(Do(Via(h, Target(requests, results)), Deeper(Complete(id, result))), Here(DoFinish(id))) ==
        Via(h.(server := h.server.(slots := h.server.slots[id := Done(result)])),
            Target(requests, results[id := result]))
  {
    assert Do(Target(requests, results), Complete(id, result)) == Target(requests, results[id := result]);
  }

  /** The completion at the head is done: it is sent. */
  lemma ReplyOne(h: Hop, next: Chain, answer: Answer) returns (after: Chain)
    requires h.server.replying && h.link.replyOpen && h.server.completions != []
    requires
      var slot := h.server.completions[0].id;
      slot < |h.server.slots| && h.server.slots[slot] == Done(Ok(answer))
    ensures after == Do(Via(h, next), Here(DoReply))
    ensures
      after == Via(Hop(h.client, h.link.(replies := h.link.replies + [Reply(answer)]),
                       h.server.(completions := h.server.completions[1..], replied := h.server.replied + 1)), next)
  {
    after := Do(Via(h, next), Here(DoReply));
  }

  /** A reply of the right kind resolves the request at the head. */
  lemma MatchOne(h: Hop, next: Chain, answer: Answer) returns (after: Chain)
    requires h.client.matching && h.client.outstanding != [] && h.link.replies != []
    requires h.link.replies[0] == Reply(answer) && AnswerKind(answer) == h.client.outstanding[0].kind
    ensures after == Do(Via(h, next), Here(DoMatch))
    ensures
      var c := h.client;
      after == Via(Hop(c.(outstanding := c.outstanding[1..], matched := c.matched + 1,
                          resolved := c.resolved[c.outstanding[0].id := Ok(answer)]),
                       h.link.(replies := h.link.replies[1..]), h.server), next)
  {
    after := Do(Via(h, next), Here(DoMatch));
  }

  lemma RepliesArrive(h: Hop, next: Chain, r: Kind, s: Kind, x: Answer, y: Answer)
    requires h.server.slots == [Done(Ok(x)), Done(Ok(y))] && AnswerKind(x) == r && AnswerKind(y) == s
    requires h.server.completions == [Entry(r, 0), Entry(s, 1)] && h.server.replying
    requires h.link.replies == [] && h.link.replyOpen
    requires h.client.outstanding == [Entry(r, 0), Entry(s, 1)] && h.client.matching && h.client.resolved == map[]
    ensures
      var c := Do(Do(Via(h, next), Here(DoReply)), Here(DoReply));
      Answers(Do(Do(c, Here(DoMatch)), Here(DoMatch))) == map[0 := Ok(x), 1 := Ok(y)]
  {
    var c1 := ReplyOne(h, next, x);
    var c2 := ReplyOne(c1.hop, next, y);
    assert c2.hop.link.replies == [Reply(x), Reply(y)];
    var d1 := MatchOne(c2.hop, next, x);
    var d2 := MatchOne(d1.hop, next, y);
  }

  /** The target completes the second request first: the reply task waits for the first, and each
      request gets its own result. */
  lemma OutOfOrder(r: Request, s: Request, x: Answer, y: Answer) returns (c1: Chain, c2: Chain, c3: Chain)
    requires Fits(r, Ok(x)) && Fits(s, Ok(y))
    ensures c1 == Do(Do(BothWaiting(r, s), Deeper(Complete(1, Ok(y)))), Here(DoFinish(1)))
    ensures Do(c1, Here(DoReply)) == c1
    ensures c2 == Do(Do(c1, Deeper(Complete(0, Ok(x)))), Here(DoFinish(0)))
    ensures c3 == Do(Do(c2, Here(DoReply)), Here(DoReply))
    ensures Answers(Do(Do(c3, Here(DoMatch)), Here(DoMatch))) == map[0 := Ok(x), 1 := Ok(y)]
  {
    var h := BothWaiting(r, s).hop;
    Completed(h, [r, s], map[], 1, Ok(y));
    var h1 := h.(server := h.server.(slots := h.server.slots[1 := Done(Ok(y))]));
    c1 := Via(h1, Target([r, s], map[][1 := Ok(y)]));
    Completed(h1, [r, s], map[][1 := Ok(y)], 0, Ok(x));
    var h2 := h1.(server := h1.server.(slots := h1.server.slots[0 := Done(Ok(x))]));
    assert h2.server.slots == [Done(Ok(x)), Done(Ok(y))];
    c2 := Via(h2, Target([r, s], map[][1 := Ok(y)][0 := Ok(x)]));
    RepliesArrive(h2, c2.next, KindOf(r), KindOf(s), x, y);
    c3 := Do(Do(c2, Here(DoReply)), Here(DoReply));
  }
}
