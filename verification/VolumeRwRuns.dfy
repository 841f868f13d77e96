/** Runs of a `VolumeIoRW`: its polls interleaved with replies and channel changes. */
module VolumeRwRuns {
  import opened Wrappers
  import opened Bytes
  import opened VolumeRw

  /** A poll by the user, or something the outside does between two polls. */
  datatype Event =
    | DoWrite(buf: seq<byte>)
    | DoFlush
    | DoShutdown
    | DoRead(room: nat)
    | DoStartSeek(position: SeekFrom)
    | DoSeek
    | Answer(id: nat, reply: Reply)
    | SetSlot(slot: Slot)

  datatype Result =
    | Wrote(wrote: Poll<nat>)
    | Drained(drained: Poll<()>)
    | Got(got: Poll<seq<byte>>)
    | Moved(moved: Poll<u64>)
    | Nothing

  function Act(info: Info, c: Client, e: Event): (Client, Result) {
    match e
    case DoWrite(buf) => var o := StepWrite(info, c.rw, c.ch, buf); (Client(o.rw, o.ch), Wrote(o.poll))
    case DoFlush => var o := StepFlush(c.rw, c.ch); (Client(o.rw, o.ch), Drained(o.poll))
    case DoShutdown => var o := StepShutdown(c.rw, c.ch); (Client(o.rw, o.ch), Drained(o.poll))
    case DoRead(room) => var o := StepRead(info, c.rw, c.ch, room); (Client(o.rw, o.ch), Got(o.poll))
    case DoStartSeek(position) => (Client(StepStartSeek(info, c.rw, position).0, c.ch), Nothing)
    case DoSeek => var (rw, poll) := StepSeek(info, c.rw); (Client(rw, c.ch), Moved(poll))
    case Answer(id, reply) =>
      // a request is answered at most once
      (if id < |c.ch.sent| && id !in c.ch.replies then
         Client(c.rw, c.ch.(replies := c.ch.replies[id := reply]))
       else c, Nothing)
    case SetSlot(slot) => (Client(c.rw, c.ch.(slot := slot)), Nothing)
  }

  function Run(info: Info, c: Client, events: seq<Event>): Client
    decreases |events|
  {
    if events == [] then c else Run(info, Act(info, c, events[0]).0, events[1..])
  }

  const START: Client := Client(Rw(0, Idle, None, [], [], [], []), Channel([], map[], Free))

  // ------------------------------------------------ errors of requests

  /** The requests other than reads, in the order they were sent. */
  function Issued(sent: seq<Request>): seq<nat> {
    if sent == [] then []
    else
      var n := |sent| - 1;
      Issued(sent[..n]) + if sent[n].Read? then [] else [n]
  }

  /** The requests among `ids` that were answered with an error, in order. */
  function Failed(ids: seq<nat>, replies: map<nat, Reply>): seq<nat> {
    if ids == [] then []
    else
      var n := |ids| - 1;
      Failed(ids[..n], replies) + if ids[n] in replies && replies[ids[n]].Error? then [ids[n]] else []
  }

  /** Every request but a read is either awaited or settled, in order; the settled ones are answered,
      and their errors are exactly the ones reported, in order. */
  ghost predicate Tracked(c: Client) {
    && c.ch.Valid()
    && c.rw.settled + c.rw.pending == Issued(c.ch.sent)
    && (forall id :: id in c.rw.settled ==> id in c.ch.replies)
    && c.rw.reported == Failed(c.rw.settled, c.ch.replies)
  }

  lemma FailedSnoc(ids: seq<nat>, id: nat, replies: map<nat, Reply>)
    ensures Failed(ids + [id], replies)
         == Failed(ids, replies) + if id in replies && replies[id].Error? then [id] else []
  {
    assert (ids + [id])[..|ids|] == ids;
  }

  lemma {:induction false} FailedStable(ids: seq<nat>, replies: map<nat, Reply>, id: nat, reply: Reply)
    requires id !in replies && forall i :: i in ids ==> i in replies
    ensures Failed(ids, replies[id := reply]) == Failed(ids, replies)
  {
    if ids != [] {
      FailedStable(ids[..|ids| - 1], replies, id, reply);
    }
  }

  lemma IssuedSnoc(sent: seq<Request>, r: Request)
    ensures Issued(sent + [r]) == Issued(sent) + if r.Read? then [] else [|sent|]
  {
    assert (sent + [r])[..|sent|] == sent;
  }

  lemma {:induction false} CleanupTracked(rw: Rw, ch: Channel)
    requires Tracked(Client(rw, ch))
    ensures
      var (clean, error) := Cleanup(rw, ch.replies);
      && Tracked(Client(clean, ch))
      && clean.reported == rw.reported + if error.Some? then [error.value] else []
    decreases |rw.pending|
  {
    if rw.pending != [] && rw.pending[0] in ch.replies {
      var id := rw.pending[0];
      FailedSnoc(rw.settled, id, ch.replies);
      var next := rw.(pending := rw.pending[1..], settled := rw.settled + [id]);
      assert next.settled + next.pending == rw.settled + rw.pending;
      if !ch.replies[id].Error? {
        CleanupTracked(next, ch);
      }
    }
  }

  /** The accounts of `rw` are those of `from`, with one more request awaited if `r` was sent. */
  predicate SameAccounts(rw: Rw, from: Rw, sent: seq<nat>) {
    rw.settled == from.settled && rw.reported == from.reported && rw.pending == from.pending + sent
  }

  lemma SendTracked(rw: Rw, ch: Channel, r: Request, after: Rw)
    requires Tracked(Client(rw, ch)) && SameAccounts(after, rw, if r.Read? then [] else [|ch.sent|])
    ensures Tracked(Client(after, ch.Send(r)))
  {
    IssuedSnoc(ch.sent, r);
    assert after.settled + after.pending == (rw.settled + rw.pending) + if r.Read? then [] else [|ch.sent|];
  }

  lemma StayTracked(rw: Rw, ch: Channel, after: Rw, slot: Slot)
    requires Tracked(Client(rw, ch)) && SameAccounts(after, rw, [])
    ensures Tracked(Client(after, ch.(slot := slot)))
  {
    assert rw.pending + [] == rw.pending;
  }

  /** The error a poll of a write, flush or shutdown request returned. */
  function ReportedError(r: Result): seq<nat> {
    match r
    case Wrote(Fail(RequestFailed(id))) => [id]
    case Drained(Fail(RequestFailed(id))) => [id]
    case _ => []
  }

  /** The four ways a write poll can go. */
  lemma WriteCases(info: Info, rw: Rw, ch: Channel, buf: seq<byte>)
    ensures
      var o := StepWrite(info, rw, ch, buf);
      var (clean, error) := Cleanup(rw.(leftover := []), ch.replies);
      var len := Min(|buf|, MAX_WRITE_SIZE);
      if !info.writable then o == Outcome(rw, ch, Fail(Unsupported))
      else if error.Some? then o == Outcome(clean, ch, Fail(RequestFailed(error.value)))
      else if ch.slot == Free then
        o == Outcome(clean.(pos := SatAdd(rw.pos, len), state := Idle, pending := clean.pending + [|ch.sent|]),
                     ch.Send(Write(buf[..len], rw.pos)), Ready(len))
      else
        o == Outcome(clean.(state := Reserving), ch, if ch.slot == Full then Pending else Fail(NotConnected))
  {
  }

  lemma WriteTracked(info: Info, c: Client, buf: seq<byte>)
    requires Tracked(c)
    ensures
      var o := StepWrite(info, c.rw, c.ch, buf);
      Tracked(Client(o.rw, o.ch)) && o.rw.reported == c.rw.reported + ReportedError(Wrote(o.poll))
  {
    var rw, ch := c.rw.(leftover := []), c.ch;
    WriteCases(info, c.rw, ch, buf);
    StayTracked(c.rw, ch, rw, ch.slot);
    CleanupTracked(rw, ch);
    var (clean, error) := Cleanup(rw, ch.replies);
    var o := StepWrite(info, c.rw, ch, buf);
    if info.writable && error.None? {
      if ch.slot == Free {
        SendTracked(clean, ch, Write(buf[..Min(|buf|, MAX_WRITE_SIZE)], c.rw.pos), o.rw);
      } else {
        StayTracked(clean, ch, o.rw, ch.slot);
      }
    }
  }

  /** The ways the end of a flush or shutdown poll can go. */
  lemma WaitCases(rw: Rw, ch: Channel, request: Request, waiting: IoState)
    ensures
      var o := Drain(rw, ch, request, waiting);
      && ReportedError(Drained(o.poll)) == []
      && (o.ch == ch || o.ch == ch.Send(request))
      && (o.ch == ch ==> o.rw == rw.(state := o.rw.state))
      && (o.ch != ch ==> o.rw == rw.(state := waiting, pending := rw.pending + [|ch.sent|]))
      && (o.poll.Ready? ==> rw.pending == [])
  {
    assert ch.Send(request) != ch;
  }

  lemma WaitTracked(rw: Rw, ch: Channel, request: Request, waiting: IoState)
    requires Tracked(Client(rw, ch)) && !request.Read?
    ensures
      var o := Drain(rw, ch, request, waiting);
      && Tracked(Client(o.rw, o.ch)) && o.rw.reported == rw.reported
      && ReportedError(Drained(o.poll)) == []
  {
    WaitCases(rw, ch, request, waiting);
    var o := Drain(rw, ch, request, waiting);
    if o.ch == ch {
      StayTracked(rw, ch, o.rw, ch.slot);
    } else {
      SendTracked(rw, ch, request, o.rw);
    }
  }

  lemma FlushTracked(rw: Rw, ch: Channel)
    requires Tracked(Client(rw, ch))
    ensures
      var o := StepFlush(rw, ch);
      Tracked(Client(o.rw, o.ch)) && o.rw.reported == rw.reported + ReportedError(Drained(o.poll))
  {
    CleanupTracked(rw, ch);
    var (clean, error) := Cleanup(rw, ch.replies);
    if error.Some? {
      StayTracked(clean, ch, clean.(state := Idle), ch.slot);
    } else {
      WaitTracked(clean, ch, Flush, Flushing);
    }
  }

  lemma ShutdownTracked(rw: Rw, ch: Channel)
    requires Tracked(Client(rw, ch))
    ensures
      var o := StepShutdown(rw, ch);
      Tracked(Client(o.rw, o.ch)) && o.rw.reported == rw.reported + ReportedError(Drained(o.poll))
  {
    CleanupTracked(rw, ch);
    var (clean, error) := Cleanup(rw, ch.replies);
    if error.Some? {
      StayTracked(clean, ch, clean.(state := Idle), ch.slot);
    } else {
      WaitTracked(clean, ch, Shutdown, ShuttingDown);
    }
  }

  /** A read poll asks at the cursor or sends nothing, and keeps the accounts. */
  lemma ReadCases(info: Info, rw: Rw, ch: Channel, room: nat)
    ensures
      var o := StepRead(info, rw, ch, room);
      SameAccounts(o.rw, rw, []) && (o.ch == ch || o.ch == ch.Send(Read(room, rw.pos)))
  {
    assert rw.pending + [] == rw.pending;
  }

  lemma ReadTracked(info: Info, rw: Rw, ch: Channel, room: nat)
    requires Tracked(Client(rw, ch))
    ensures
      var o := StepRead(info, rw, ch, room);
      Tracked(Client(o.rw, o.ch)) && o.rw.reported == rw.reported
  {
    ReadCases(info, rw, ch, room);
    var o := StepRead(info, rw, ch, room);
    if o.ch == ch {
      StayTracked(rw, ch, o.rw, ch.slot);
    } else {
      SendTracked(rw, ch, Read(room, rw.pos), o.rw);
    }
  }

  lemma AnswerTracked(c: Client, id: nat, reply: Reply)
    requires Tracked(c) && id < |c.ch.sent| && id !in c.ch.replies
    ensures Tracked(Client(c.rw, c.ch.(replies := c.ch.replies[id := reply])))
  {
    FailedStable(c.rw.settled, c.ch.replies, id, reply);
  }

  /** Seeks and channel changes leave the accounts alone. */
  predicate Quiet(e: Event) {
    e.DoStartSeek? || e.DoSeek? || e.SetSlot?
  }

  lemma QuietCases(info: Info, c: Client, e: Event)
    requires Quiet(e)
    ensures
      var (next, r) := Act(info, c, e);
      && SameAccounts(next.rw, c.rw, []) && next.ch == c.ch.(slot := next.ch.slot)
      && ReportedError(r) == []
  {
    assert c.rw.pending + [] == c.rw.pending;
  }

  /** Each step keeps the accounts, and reports one more error exactly when its poll returns it. */
  lemma ActTracked(info: Info, c: Client, e: Event)
    requires Tracked(c)
    ensures Tracked(Act(info, c, e).0)
    ensures Act(info, c, e).0.rw.reported == c.rw.reported + ReportedError(Act(info, c, e).1)
  {
    match e
    case DoWrite(buf) => WriteTracked(info, c, buf);
    case DoFlush => FlushTracked(c.rw, c.ch);
    case DoShutdown => ShutdownTracked(c.rw, c.ch);
    case DoRead(room) => ReadTracked(info, c.rw, c.ch, room);
    case Answer(id, reply) =>
      if id < |c.ch.sent| && id !in c.ch.replies {
        AnswerTracked(c, id, reply);
      }
    case _ =>
      QuietCases(info, c, e);
      StayTracked(c.rw, c.ch, Act(info, c, e).0.rw, Act(info, c, e).0.ch.slot);
  }

  lemma {:induction false} RunTracked(info: Info, c: Client, events: seq<Event>)
    requires Tracked(c)
    ensures Tracked(Run(info, c, events))
    decreases |events|
  {
    if events != [] {
      ActTracked(info, c, events[0]);
      RunTracked(info, Act(info, c, events[0]).0, events[1..]);
    }
  }

  predicate Increasing(ids: seq<nat>) {
    forall i, j :: 0 <= i < j < |ids| ==> ids[i] < ids[j]
  }

  lemma IncreasingSnoc(ids: seq<nat>, id: nat)
    requires Increasing(ids) && forall i :: i in ids ==> i < id
    ensures Increasing(ids + [id])
  {
    forall i | 0 <= i < |ids|
      ensures ids[i] < id
    {
      assert ids[i] in ids;
    }
  }

  lemma {:induction false} IssuedIds(sent: seq<Request>)
    ensures Increasing(Issued(sent))
    ensures forall id: nat :: id in Issued(sent) <==> id < |sent| && !sent[id].Read?
  {
    if sent != [] {
      var n := |sent| - 1;
      IssuedIds(sent[..n]);
      IncreasingSnoc(Issued(sent[..n]), n);
    }
  }

  lemma {:induction false} FailedIds(ids: seq<nat>, replies: map<nat, Reply>)
    requires Increasing(ids)
    ensures Increasing(Failed(ids, replies))
    ensures forall id :: id in Failed(ids, replies) <==> id in ids && id in replies && replies[id].Error?
  {
    if ids != [] {
      var n := |ids| - 1;
      FailedIds(ids[..n], replies);
      assert ids == ids[..n] + [ids[n]];
      forall i | i in ids[..n]
        ensures i < ids[n]
      {
      }
      IncreasingSnoc(Failed(ids[..n], replies), ids[n]);
    }
  }

  /** In every run each failed request is reported at most once and in issue order; a read is never
      among them. */
  lemma ErrorsOnce(info: Info, events: seq<Event>)
    ensures
      var c := Run(info, START, events);
      && Increasing(c.rw.reported)
      && forall id :: id in c.rw.reported ==>
           id < |c.ch.sent| && !c.ch.sent[id].Read? && id in c.ch.replies && c.ch.replies[id].Error?
  {
    RunTracked(info, START, events);
    var c := Run(info, START, events);
    IssuedIds(c.ch.sent);
    assert c.rw.settled == Issued(c.ch.sent)[..|c.rw.settled|];
    FailedIds(c.rw.settled, c.ch.replies);
    assert forall id :: id in c.rw.settled ==> id in Issued(c.ch.sent);
  }

  /** With nothing awaited every request but a read was answered, and the failed ones were reported. */
  lemma NothingAwaited(c: Client)
    requires Tracked(c) && c.rw.pending == []
    ensures
      forall id: nat :: id < |c.ch.sent| && !c.ch.sent[id].Read? ==>
        id in c.ch.replies && (c.ch.replies[id].Error? <==> id in c.rw.reported)
  {
    assert c.rw.settled + [] == c.rw.settled;
    IssuedIds(c.ch.sent);
    FailedIds(c.rw.settled, c.ch.replies);
  }

  lemma ReadyAwaitsNothing(rw: Rw, ch: Channel)
    ensures StepFlush(rw, ch).poll.Ready? ==> StepFlush(rw, ch).rw.pending == []
    ensures StepShutdown(rw, ch).poll.Ready? ==> StepShutdown(rw, ch).rw.pending == []
  {
  }

  /** A shutdown or flush that completes means that every write, flush and shutdown sent before was
      answered, and that the failed ones are exactly those whose error a poll has returned. */
  lemma CompleteMeansSettled(info: Info, events: seq<Event>, last: Event)
    requires last == DoShutdown || last == DoFlush
    requires Act(info, Run(info, START, events), last).1 == Drained(Ready(()))
    ensures
      var c := Act(info, Run(info, START, events), last).0;
      forall id: nat :: id < |c.ch.sent| && !c.ch.sent[id].Read? ==>
        id in c.ch.replies && (c.ch.replies[id].Error? <==> id in c.rw.reported)
  {
    RunTracked(info, START, events);
    var before := Run(info, START, events);
    ActTracked(info, before, last);
    ReadyAwaitsNothing(before.rw, before.ch);
    NothingAwaited(Act(info, before, last).0);
  }

  // ------------------------------------------------- a sequential file

  /** The volume after a list of requests, executed in order. */
  function Exec(base: Image, sent: seq<Request>): Image {
    if sent == [] then base
    else
      var n := |sent| - 1;
      var before := Exec(base, sent[..n]);
      if sent[n].Write? then before + Place(sent[n].offset, sent[n].data) else before
  }

  predicate Agrees(data: seq<byte>, offset: nat, image: Image) {
    forall p: nat :: offset <= p < offset + |data| ==> p in image && image[p] == data[p - offset]
  }

  /** A first-in-first-out server: every read was answered with bytes of the volume as the requests
      before it left it. */
  ghost predicate Faithful(base: Image, ch: Channel) {
    forall id :: id in ch.replies && ch.replies[id].Data? ==>
      && id < |ch.sent| && ch.sent[id].Read?
      && ch.sent[id].offset + |ch.replies[id].data| <= U64_MAX
      && Agrees(ch.replies[id].data, ch.sent[id].offset, Exec(base, ch.sent[..id]))
  }

  predicate NoWrites(sent: seq<Request>, from: nat) {
    forall i :: from <= i < |sent| ==> !sent[i].Write?
  }

  /** Bytes left over are the volume's bytes at the cursor, and a read in flight asked there. */
  ghost predicate AtCursor(base: Image, c: Client) {
    && c.ch.Valid() && Faithful(base, c.ch)
    && c.rw.pos + |c.rw.leftover| <= U64_MAX
    && Agrees(c.rw.leftover, c.rw.pos, Exec(base, c.ch.sent))
    && (c.rw.state.Reading? ==>
          var id := c.rw.state.id;
          && c.rw.leftover == [] && id < |c.ch.sent|
          && c.ch.sent[id].Read? && c.ch.sent[id].offset == c.rw.pos && NoWrites(c.ch.sent, id))
  }

  /** What a sequential file is. */
  datatype SeqFile = SeqFile(image: Image, cursor: u64)

  function Abstract(base: Image, c: Client): SeqFile {
    SeqFile(Exec(base, c.ch.sent), c.rw.pos)
  }

  /** The bytes a read can hand out: those left over, or else those of the read in flight. */
  function AtHand(c: Client): Option<seq<byte>> {
    if c.rw.leftover != [] then Some(c.rw.leftover)
    else if c.rw.state.Reading? && c.rw.state.id in c.ch.replies && c.ch.replies[c.rw.state.id].Data? then
      Some(c.ch.replies[c.rw.state.id].data)
    else None
  }

  /** A step of a sequential file: a write lays its accepted bytes at the cursor, a read returns the first of
      the bytes at hand, which are those found there, both move the cursor, a seek sets it, and nothing else
      changes anything. So a read returns no bytes only for no room or an empty answer. */
  ghost predicate FileStep(info: Info, f: SeqFile, seek: Option<SeekFrom>, hand: Option<seq<byte>>, e: Event,
                           r: Result, g: SeqFile) {
    match (e, r)
    case (DoWrite(buf), Wrote(Ready(n))) =>
      n <= |buf| && g == SeqFile(f.image + Place(f.cursor, buf[..n]), SatAdd(f.cursor, n))
    case (DoRead(room), Got(Ready(data))) =>
      && hand.Some? && data == hand.value[..Min(room, |hand.value|)]
      && Agrees(data, f.cursor, f.image) && g == SeqFile(f.image, SatAdd(f.cursor, |data|))
    case (DoSeek, Moved(Ready(to))) =>
      && g == SeqFile(f.image, to)
      && (seek.None? ==> to == f.cursor)
      && (seek.Some? ==> SeekTarget(info, f.cursor, seek.value).Some?
                         && to == Clamp(SeekTarget(info, f.cursor, seek.value).value))
    case _ => g == f
  }

  lemma ExecSnoc(base: Image, sent: seq<Request>, r: Request)
    ensures Exec(base, sent + [r]) ==
            if r.Write? then Exec(base, sent) + Place(r.offset, r.data) else Exec(base, sent)
  {
    assert (sent + [r])[..|sent|] == sent;
  }

  lemma {:induction false} ExecNoWrites(base: Image, sent: seq<Request>, from: nat)
    requires from <= |sent| && NoWrites(sent, from)
    ensures Exec(base, sent) == Exec(base, sent[..from])
    decreases |sent|
  {
    if from < |sent| {
      var n := |sent| - 1;
      ExecNoWrites(base, sent[..n], from);
      assert sent[..n][..from] == sent[..from];
    } else {
      assert sent[..from] == sent;
    }
  }

  lemma SendFaithful(base: Image, ch: Channel, r: Request)
    requires ch.Valid() && Faithful(base, ch)
    ensures ch.Send(r).Valid() && Faithful(base, ch.Send(r))
  {
    forall id | id in ch.replies
      ensures ch.Send(r).sent[..id] == ch.sent[..id]
    {
    }
  }

  /** What the outside must respect: answers come from a first-in-first-out server. */
  ghost predicate Honest(base: Image, info: Info, c: Client, e: Event) {
    Faithful(base, Act(info, c, e).0.ch)
  }

  /** A seek must not find read bytes or a read in flight, unless it stays where it is. */
  predicate SeekSafe(info: Info, c: Client, e: Event) {
    e == DoSeek ==>
      || (c.rw.leftover == [] && !c.rw.state.Reading?)
      || StepSeek(info, c.rw).0.pos == c.rw.pos
  }

  /** A poll that sends nothing: read bytes stay at the cursor or are dropped. */
  lemma StaysAtCursor(base: Image, c: Client, n: Rw)
    requires AtCursor(base, c) && n.pos == c.rw.pos
    requires n.leftover == c.rw.leftover || n.leftover == []
    requires n.state.Reading? ==> n.state == c.rw.state
    ensures AtCursor(base, Client(n, c.ch)) && Abstract(base, Client(n, c.ch)) == Abstract(base, c)
  {
  }

  /** A poll that sends a write from the cursor, or a flush or shutdown. */
  lemma SendsAtCursor(base: Image, c: Client, n: Rw, r: Request)
    requires AtCursor(base, c) && !r.Read? && !n.state.Reading?
    requires if r.Write? then n.leftover == [] else n.leftover == c.rw.leftover && n.pos == c.rw.pos
    ensures AtCursor(base, Client(n, c.ch.Send(r)))
    ensures
      Exec(base, c.ch.Send(r).sent) ==
        if r.Write? then Exec(base, c.ch.sent) + Place(r.offset, r.data) else Exec(base, c.ch.sent)
  {
    SendFaithful(base, c.ch, r);
    ExecSnoc(base, c.ch.sent, r);
  }

  lemma WriteRefines(base: Image, info: Info, c: Client, buf: seq<byte>)
    requires AtCursor(base, c)
    ensures
      var o := StepWrite(info, c.rw, c.ch, buf);
      var n := Client(o.rw, o.ch);
      && AtCursor(base, n)
      && FileStep(info, Abstract(base, c), c.rw.seek, AtHand(c), DoWrite(buf), Wrote(o.poll), Abstract(base, n))
  {
    WriteCases(info, c.rw, c.ch, buf);
    assert Cleanup(c.rw.(leftover := []), c.ch.replies).0.(
             pending := c.rw.pending, settled := c.rw.settled, reported := c.rw.reported) == c.rw.(leftover := []) by {
      CleanupState(c.rw.(leftover := []), c.ch.replies, Idle);
    }
    var o, len := StepWrite(info, c.rw, c.ch, buf), Min(|buf|, MAX_WRITE_SIZE);
    if o.poll.Ready? {
      SendsAtCursor(base, c, o.rw, Write(buf[..len], c.rw.pos));
    } else {
      StaysAtCursor(base, c, o.rw);
    }
  }

  /** A flush or shutdown poll keeps cursor, seek and read bytes, and sends its request or nothing. */
  lemma DrainCases(rw: Rw, ch: Channel, e: Event)
    requires e == DoFlush || e == DoShutdown
    ensures
      var o := if e == DoFlush then StepFlush(rw, ch) else StepShutdown(rw, ch);
      var r := if e == DoFlush then Flush else Shutdown;
      && (o.ch == ch || o.ch == ch.Send(r))
      && o.rw.pos == rw.pos && o.rw.leftover == rw.leftover
      && (o.rw.state.Reading? ==> o.rw.state == rw.state && o.ch == ch)
  {
    CleanupState(rw, ch.replies, Idle);
  }

  lemma DrainRefines(base: Image, info: Info, c: Client, e: Event)
    requires AtCursor(base, c) && (e == DoFlush || e == DoShutdown)
    ensures
      var n := Act(info, c, e).0;
      AtCursor(base, n) && Abstract(base, n) == Abstract(base, c)
  {
    DrainCases(c.rw, c.ch, e);
    var n := Act(info, c, e).0;
    if n.ch == c.ch {
      StaysAtCursor(base, c, n.rw);
    } else {
      SendsAtCursor(base, c, n.rw, if e == DoFlush then Flush else Shutdown);
    }
  }

  lemma AgreesSplit(data: seq<byte>, offset: nat, image: Image, n: nat)
    requires Agrees(data, offset, image) && n <= |data|
    ensures Agrees(data[..n], offset, image) && Agrees(data[n..], offset + n, image)
  {
  }

  lemma HandOutRefines(base: Image, rw: Rw, ch: Channel, room: nat)
    requires AtCursor(base, Client(rw, ch)) && !rw.state.Reading?
    ensures
      var o := HandOut(rw, ch, room); var volume := Exec(base, ch.sent);
      && AtCursor(base, Client(o.rw, ch)) && o.ch == ch
      && o.poll.value == rw.leftover[..Min(room, |rw.leftover|)] && Agrees(o.poll.value, rw.pos, volume)
      && o.rw.pos == SatAdd(rw.pos, |o.poll.value|)
  {
    AgreesSplit(rw.leftover, rw.pos, Exec(base, ch.sent), Min(room, |rw.leftover|));
  }

  /** A read is sent, or waits for a slot. */
  lemma AskRefines(base: Image, c: Client, room: nat)
    requires AtCursor(base, c) && c.rw.leftover == [] && !c.rw.state.Reading?
    ensures
      var o: Outcome<seq<byte>> :=
        VolumeRw.Submit(c.rw, c.ch, Read(room, c.rw.pos), c.rw.(state := Reading(|c.ch.sent|)), Pending);
      var n := Client(o.rw, o.ch);
      AtCursor(base, n) && Abstract(base, n) == Abstract(base, c) && !o.poll.Ready?
  {
    if c.ch.slot == Free {
      SendFaithful(base, c.ch, Read(room, c.rw.pos));
      ExecSnoc(base, c.ch.sent, Read(room, c.rw.pos));
    } else {
      StaysAtCursor(base, c, c.rw.(state := Reserving));
    }
  }

  /** The bytes of a read in flight have arrived. */
  lemma ArrivalRefines(base: Image, c: Client, data: seq<byte>)
    requires AtCursor(base, c) && c.rw.state.Reading?
    requires c.rw.state.id in c.ch.replies && c.ch.replies[c.rw.state.id] == Data(data)
    ensures AtCursor(base, Client(c.rw.(state := Idle, leftover := data), c.ch))
  {
    ExecNoWrites(base, c.ch.sent, c.rw.state.id);
  }

  lemma ReadRefines(base: Image, info: Info, c: Client, room: nat)
    requires AtCursor(base, c)
    ensures
      var o := StepRead(info, c.rw, c.ch, room);
      var n := Client(o.rw, o.ch);
      && AtCursor(base, n)
      && FileStep(info, Abstract(base, c), c.rw.seek, AtHand(c), DoRead(room), Got(o.poll), Abstract(base, n))
  {
    var o := StepRead(info, c.rw, c.ch, room);
    if !info.readable {
    } else if c.rw.leftover != [] {
      HandOutRefines(base, c.rw, c.ch, room);
    } else if c.rw.state.Reading? {
      var id := c.rw.state.id;
      if id in c.ch.replies && c.ch.replies[id].Data? {
        ArrivalRefines(base, c, c.ch.replies[id].data);
        HandOutRefines(base, c.rw.(state := Idle, leftover := c.ch.replies[id].data), c.ch, room);
      } else {
        StaysAtCursor(base, c, o.rw);
      }
    } else {
      AskRefines(base, c, room);
    }
  }

  /** Against a first-in-first-out server each poll is a step of a sequential file. */
  lemma ActRefines(base: Image, info: Info, c: Client, e: Event)
    requires AtCursor(base, c) && Honest(base, info, c, e) && SeekSafe(info, c, e)
    ensures
      var (next, r) := Act(info, c, e);
      && AtCursor(base, next)
      && FileStep(info, Abstract(base, c), c.rw.seek, AtHand(c), e, r, Abstract(base, next))
  {
    match e
    case DoWrite(buf) => WriteRefines(base, info, c, buf);
    case DoFlush => DrainRefines(base, info, c, e);
    case DoShutdown => DrainRefines(base, info, c, e);
    case DoRead(room) => ReadRefines(base, info, c, room);
    case _ =>
  }

  ghost predicate WellBehaved(base: Image, info: Info, c: Client, events: seq<Event>)
    decreases |events|
  {
    events == [] ||
    (&& Honest(base, info, c, events[0]) && SeekSafe(info, c, events[0])
     && WellBehaved(base, info, Act(info, c, events[0]).0, events[1..]))
  }

  lemma {:induction false} RunAtCursor(base: Image, info: Info, c: Client, events: seq<Event>)
    requires AtCursor(base, c) && WellBehaved(base, info, c, events)
    ensures AtCursor(base, Run(info, c, events))
    decreases |events|
  {
    if events != [] {
      ActRefines(base, info, c, events[0]);
      RunAtCursor(base, info, Act(info, c, events[0]).0, events[1..]);
    }
  }

  /** In every well-behaved run a read that completes returns the volume's bytes at the cursor after
      all writes accepted so far. */
  lemma ReadsAreCurrent(base: Image, info: Info, events: seq<Event>, room: nat)
    requires WellBehaved(base, info, START, events)
    ensures
      var c := Run(info, START, events);
      var r := Act(info, c, DoRead(room)).1;
      r.got.Ready? ==> Agrees(r.got.value, c.rw.pos, Exec(base, c.ch.sent))
  {
    RunAtCursor(base, info, START, events);
    ReadRefines(base, info, Run(info, START, events), room);
  }

  /** After a seek the next read asks the volume at the new position exactly when no read bytes were
      left over and no read was in flight. */
  lemma SeekThenRead(info: Info, c: Client, room: nat)
    requires info.readable && info.seekable && c.ch.slot == Free
    requires StepSeek(info, c.rw).1.Ready?
    ensures
      var moved := Act(info, c, DoSeek).0;
      var next := Act(info, moved, DoRead(room)).0;
      next.ch.sent == c.ch.sent + [Read(room, moved.rw.pos)] <==> c.rw.leftover == [] && !c.rw.state.Reading?
  {
  }

  /** Otherwise it hands out the bytes of the old position. */
  lemma StaleRead(info: Info, c: Client, room: nat)
    requires info.readable && c.rw.leftover != []
    ensures
      var moved := Act(info, c, DoSeek).0;
      Act(info, moved, DoRead(room)).1 == Got(Ready(c.rw.leftover[..Min(room, |c.rw.leftover|)]))
  {
  }

  /** Two bytes are asked for, arrive, and one is handed out: the other is left over. */
  lemma OneLeftOver(info: Info)
    requires info.readable
    ensures
      var c := Act(info, Act(info, Act(info, START, DoRead(2)).0, Answer(0, Data([10, 11]))).0, DoRead(1)).0;
      c.rw.leftover == [11] && c.rw.pos == 1
  {
    var c1 := Act(info, START, DoRead(2)).0;
    assert c1.rw.state == Reading(0) && c1.ch.sent == [Read(2, 0)] && c1.ch.replies == map[];
    var c2 := Act(info, c1, Answer(0, Data([10, 11]))).0;
    assert c2.rw == c1.rw && c2.ch.replies == map[0 := Data([10, 11])];
    var c3 := Act(info, c2, DoRead(1)).0;
    assert c3.rw.leftover == [10, 11][1..] == [11];
  }

  /** A volume that starts 10, 11: two bytes are read, one is handed out, and after a seek back to the
      start the next read returns the second byte. */
  lemma StaleByte(info: Info)
    requires info.readable && info.seekable
    ensures
      var c3 := Act(info, Act(info, Act(info, START, DoRead(2)).0, Answer(0, Data([10, 11]))).0, DoRead(1)).0;
      var c := Act(info, Act(info, c3, DoStartSeek(Start(0))).0, DoSeek).0;
      c.rw.pos == 0 && Act(info, c, DoRead(1)).1 == Got(Ready([11]))
  {
    OneLeftOver(info);
    var c3 := Act(info, Act(info, Act(info, START, DoRead(2)).0, Answer(0, Data([10, 11]))).0, DoRead(1)).0;
    var c4 := Act(info, c3, DoStartSeek(Start(0))).0;
    assert c4.rw == c3.rw.(seek := Some(Start(0))) && [11][..1] == [11];
    StaleRead(info, c4, 1);
  }
}
