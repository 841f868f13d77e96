/** The VolumeIo request and reply protocol over a chain of servers, as interleaved atomic steps.

    Requests and replies carry no identifiers: a reply belongs to the request that is its turn. The
    oneshot senders of the program are the numbers kept beside queue entries; the `recorded`,
    `matched` and `replied` counters are history that no step reads. */
module Protocol {
  import opened Wrappers
  import opened Bytes
  import VolumeRw

  type Request = VolumeRw.Request

  datatype Kind = ReadKind | WriteKind | FlushKind | ShutdownKind

  datatype Answer = Bytes(data: seq<byte>) | Written(count: nat) | Flushed | ShutDown

  datatype Status = Aborted | Unmatched | Unavailable | Other(code: nat)

  datatype Result = Ok(answer: Answer) | Err(status: Status)

  function KindOf(r: Request): Kind {
    match r
    case Read(_, _) => ReadKind
    case Write(_, _) => WriteKind
    case Flush => FlushKind
    case Shutdown => ShutdownKind
  }

  function AnswerKind(a: Answer): Kind {
    match a
    case Bytes(_) => ReadKind
    case Written(_) => WriteKind
    case Flushed => FlushKind
    case ShutDown => ShutdownKind
  }

  /** A completion has the type its request calls for. */
  predicate Fits(r: Request, result: Result) {
    result.Ok? ==> AnswerKind(result.answer) == KindOf(r)
  }

  /** An item of the reply stream; the stream ends after an error. */
  datatype Item = Reply(answer: Answer) | Error(status: Status)

  /** The oneshot of a request the server took: not handed to the target yet, awaiting a request of
      the next instance, completed, or dropped without completion. */
  datatype Slot = Fresh | Waiting(id: nat) | Done(result: Result) | Dropped

  /** A request on its way to the request stream, and the oneshot that waits for its result. */
  datatype Queued = Queued(request: Request, id: nat)

  /** A oneshot that waits for a result of this kind. */
  datatype Entry = Entry(kind: Kind, id: nat)

  /** What the client has accepted, what its stream has not polled, the request polled but not
      emitted, the entries the matcher has not reached, and what became of the requests. */
  datatype Client = Client(
    accepted: seq<Request>,
    chan: seq<Queued>,
    open: bool,
    emitting: Option<Request>,
    outstanding: seq<Entry>,
    matching: bool,
    resolved: map<nat, Result>,
    recorded: nat,
    matched: nat)

  /** Both directions of the connection; `clean` until it breaks. */
  datatype Link = Link(requests: seq<Request>, replies: seq<Item>, replyOpen: bool, clean: bool)

  /** The oneshots, the queue of the reply task, and the request being started. */
  datatype Server = Server(
    slots: seq<Slot>,
    completions: seq<Entry>,
    starting: Option<Request>,
    serving: bool,
    replying: bool,
    replied: nat)

  /** One client connected to one server. */
  datatype Hop = Hop(client: Client, link: Link, server: Server)

  const NEW_HOP := Hop(Client([], [], true, None, [], true, map[], 0, 0), Link([], [], true, true),
                       Server([], [], None, true, true, 0))

  /** The final target, or a hop whose target forwards to the rest of the chain. */
  datatype Chain = Target(requests: seq<Request>, results: map<nat, Result>) | Via(hop: Hop, next: Chain)

  function Accepted(c: Chain): seq<Request> {
    if c.Target? then c.requests else c.hop.client.accepted
  }

  function Answers(c: Chain): map<nat, Result> {
    if c.Target? then c.results else c.hop.client.resolved
  }

  predicate Open(c: Chain) {
    c.Target? || c.hop.client.open
  }

  // --------------------------------------------------------------- steps

  function Enqueue(c: Client, r: Request): Client {
    c.(accepted := c.accepted + [r], chan := c.chan + [Queued(r, |c.accepted|)])
  }

  /** `requests.send`: fails once the receiver is gone. */
  function Submit(c: Chain, r: Request): Chain {
    match c
    case Target(requests, results) => c.(requests := requests + [r])
    case Via(h, next) => if h.client.open then Via(h.(client := Enqueue(h.client, r)), next) else c
  }

  function QueuedIds(queue: seq<Queued>): set<nat> {
    if queue == [] then {} else {queue[0].id} + QueuedIds(queue[1..])
  }

  function EntryIds(entries: seq<Entry>): set<nat> {
    if entries == [] then {} else {entries[0].id} + EntryIds(entries[1..])
  }

  /** Requests whose sender is dropped resolve as aborted. */
  function Abort(resolved: map<nat, Result>, dropped: set<nat>): map<nat, Result> {
    resolved + map id | id in dropped :: Err(Aborted)
  }

  /** The request stream ends; the queue behind it is dropped. */
  function EndRequests(c: Client): Client {
    c.(open := false, chan := [], resolved := Abort(c.resolved, QueuedIds(c.chan)))
  }

  /** The transport drops the request stream, with the request it may hold. */
  function CloseRequests(h: Hop): Hop {
    h.(client := EndRequests(h.client).(emitting := None))
  }

  /** Poll the request stream: record the outstanding entry; without a matcher the stream ends. */
  function Record(c: Client): Client {
    if c.chan == [] || c.emitting.Some? then c
    else if !c.matching then EndRequests(c)
    else
      var Queued(r, id) := c.chan[0];
      c.(chan := c.chan[1..], outstanding := c.outstanding + [Entry(KindOf(r), id)], emitting := Some(r),
         recorded := c.recorded + 1)
  }

  function Emit(h: Hop): Hop {
    if h.client.emitting.None? then h
    else h.(client := h.client.(emitting := None),
            link := h.link.(requests := h.link.requests + [h.client.emitting.value]))
  }

  /** A request arrives: a new oneshot, whose receiver goes to the reply task. */
  function Begin(s: Server, r: Request): Server {
    s.(slots := s.slots + [Fresh], starting := Some(r),
       completions := if s.replying then s.completions + [Entry(KindOf(r), |s.slots|)] else s.completions)
  }

  /** The server loop takes a request and enqueues its completion. */
  function Take(h: Hop): Hop {
    if !h.server.serving || h.server.starting.Some? || h.link.requests == [] then h
    else h.(link := h.link.(requests := h.link.requests[1..]), server := Begin(h.server, h.link.requests[0]))
  }

  /** The server loop is done with the request; its oneshot is now `slot`. */
  function Started(s: Server, slot: Slot): Server
    requires s.slots != []
  {
    s.(slots := s.slots[|s.slots| - 1 := slot], starting := None)
  }

  /** The server loop hands the request to its target, which forwards it or finds it unavailable. */
  function Hand(h: Hop, next: Chain): Chain {
    if h.server.starting.None? || h.server.slots == [] then Via(h, next)
    else
      var slot := if Open(next) then Waiting(|Accepted(next)|) else Done(Err(Unavailable));
      Via(h.(server := Started(h.server, slot)), Submit(next, h.server.starting.value))
  }

  /** A forwarded request was answered: complete its oneshot, in whatever order that happens. */
  function Finish(s: Server, slot: nat, answers: map<nat, Result>): Server {
    if slot < |s.slots| && s.slots[slot].Waiting? && s.slots[slot].id in answers then
      s.(slots := s.slots[slot := Done(answers[s.slots[slot].id])])
    else s
  }

  /** A oneshot is dropped without a result. */
  function Drop(h: Hop, slot: nat): Hop {
    if slot < |h.server.slots| && h.server.slots[slot].Waiting? then
      h.(server := h.server.(slots := h.server.slots[slot := Dropped]))
    else h
  }

  function StopReplying(h: Hop): Hop {
    h.(server := h.server.(replying := false, completions := []), link := h.link.(replyOpen := false))
  }

  /** The result of the oldest completion is sent; an error ends the reply stream. */
  function SendReply(h: Hop, result: Result): Hop
    requires h.server.completions != []
  {
    var item := if result.Ok? then Reply(result.answer) else Error(result.status);
    h.(server := h.server.(completions := h.server.completions[1..], replied := h.server.replied + 1),
       link := h.link.(replies := h.link.replies + [item], replyOpen := result.Ok?))
  }

  /** The reply task waits for the completion at the head and sends it; it ends when that was
      dropped, when nobody listens, or when the server loop is gone. */
  function ReplyHead(h: Hop): Hop {
    var s := h.server;
    if !s.replying then h
    else if s.completions == [] then if s.serving then h else StopReplying(h)
    else
      var slot := s.completions[0].id;
      if slot >= |s.slots| then h
      else match s.slots[slot]
        case Done(result) => if h.link.replyOpen then SendReply(h, result) else StopReplying(h)
        case Dropped => StopReplying(h)
        case _ => h
  }

  /** The server loop ends, with its request stream or before. */
  function StopServing(h: Hop): Hop {
    h.(server := h.server.(serving := false))
  }

  /** The connection breaks: the first `kept` replies in flight arrive, then an error. */
  function Break(l: Link, kept: nat, status: Status): Link {
    if kept <= |l.replies| && l.replyOpen then
      l.(replies := l.replies[..kept] + [Error(status)], replyOpen := false, clean := false)
    else l
  }

  /** The matcher gives the entry at the head `result`; with `stop` it ends and drops the others. */
  function Resolve(c: Client, result: Result, stop: bool): Client
    requires c.outstanding != []
  {
    var resolved := c.resolved[c.outstanding[0].id := result];
    var rest := c.outstanding[1..];
    if stop then
      c.(outstanding := [], matching := false, matched := c.matched + 1,
         resolved := Abort(resolved, EntryIds(rest)))
    else c.(outstanding := rest, matched := c.matched + 1, resolved := resolved)
  }

  /** The reply at hand is of another kind than the request at hand. */
  predicate Mismatch(h: Hop) {
    && h.client.matching && h.client.outstanding != [] && h.link.replies != []
    && h.link.replies[0].Reply? && AnswerKind(h.link.replies[0].answer) != h.client.outstanding[0].kind
  }

  /** The client matcher pairs the oldest outstanding entry with the next reply; it stops at a reply
      of another kind and at the end of the reply stream. */
  function Match(h: Hop): Hop {
    var c, l := h.client, h.link;
    if !c.matching || c.outstanding == [] then h
    else if l.replies == [] then
      if l.replyOpen then h else h.(client := Resolve(c, Err(Unmatched), true))
    else
      var result, stop :=
        match l.replies[0]
          case Error(status) => Err(status)
          case Reply(answer) => if Mismatch(h) then Err(Unmatched) else Ok(answer),
        Mismatch(h);
      h.(client := Resolve(c, result, stop), link := l.(replies := l.replies[1..]))
  }

  /** The steps of one client and server that leave the target behind them alone. */
  datatype Local =
    | DoCloseRequests | DoRecord | DoEmit | DoTake
    | DoFinish(slot: nat) | DoDrop(slot: nat) | DoReply | DoStopServing
    | DoBreak(kept: nat, status: Status) | DoMatch

  /** A step that is not enabled changes nothing. */
  function DoLocal(h: Hop, answers: map<nat, Result>, a: Local): Hop {
    match a
    case DoCloseRequests => CloseRequests(h)
    case DoRecord => h.(client := Record(h.client))
    case DoEmit => Emit(h)
    case DoTake => Take(h)
    case DoFinish(slot) => h.(server := Finish(h.server, slot, answers))
    case DoDrop(slot) => Drop(h, slot)
    case DoReply => ReplyHead(h)
    case DoStopServing => StopServing(h)
    case DoBreak(kept, status) => h.(link := Break(h.link, kept, status))
    case DoMatch => Match(h)
  }

  datatype Action =
    | Complete(id: nat, result: Result)  // by the final target, in any order
    | Here(step: Local)
    | DoHand
    | Deeper(action: Action)

  /** A step anywhere in the chain. */
  function Do(c: Chain, a: Action): Chain
    decreases c
  {
    match c
    case Target(requests, results) =>
      if a.Complete? && a.id < |requests| && a.id !in results && Fits(requests[a.id], a.result) then
        Target(requests, results[a.id := a.result])
      else c
    case Via(h, next) =>
      match a
      case Complete(_, _) => c
      case Here(step) => Via(DoLocal(h, Answers(next), step), next)
      case DoHand => Hand(h, next)
      case Deeper(inner) => Via(h, Do(next, inner))
  }

  /** Requests enter at the head of the chain, everything else happens anywhere. */
  datatype Event = Send(request: Request) | Step(action: Action)

  function Run(c: Chain, events: seq<Event>): Chain
    decreases |events|
  {
    if events == [] then c
    else Run(if events[0].Send? then Submit(c, events[0].request) else Do(c, events[0].action), events[1..])
  }

  /** A chain of `hops` instances in front of an idle target. */
  function NewChain(hops: nat): Chain {
    if hops == 0 then Target([], map[]) else Via(NEW_HOP, NewChain(hops - 1))
  }
}
