/** What each poll of a `VolumeIoRW` answers, told by what is awaited, what has been answered and whether
    the request channel has room. */
module VolumeRwAnswers {
  import opened Wrappers
  import opened Bytes
  import opened VolumeRw
  import opened VolumeRwRuns

  predicate AnsweredWell(ids: seq<nat>, replies: map<nat, Reply>) {
    forall i :: 0 <= i < |ids| ==> ids[i] in replies && !replies[ids[i]].Error?
  }

  /** Request `k` of those awaited was answered with an error. */
  predicate Fails(ids: seq<nat>, replies: map<nat, Reply>, k: nat) {
    k < |ids| && ids[k] in replies && replies[ids[k]].Error?
  }

  /** The oldest `k` requests awaited were answered without an error; the next one, if there is one, was
      not. */
  predicate Oldest(ids: seq<nat>, replies: map<nat, Reply>, k: nat) {
    && k <= |ids| && AnsweredWell(ids[..k], replies)
    && (k < |ids| ==> ids[k] !in replies || replies[ids[k]].Error?)
  }

  /** There always is one such number. */
  lemma {:induction false} OldestExists(ids: seq<nat>, replies: map<nat, Reply>) returns (k: nat)
    ensures Oldest(ids, replies, k)
    decreases |ids|
  {
    if ids == [] || ids[0] !in replies || replies[ids[0]].Error? {
      k := 0;
    } else {
      var rest := OldestExists(ids[1..], replies);
      k := rest + 1;
      OldestTail(ids, replies, k);
    }
  }

  lemma OldestTail(ids: seq<nat>, replies: map<nat, Reply>, k: nat)
    requires 0 < k <= |ids|
    ensures
      Oldest(ids, replies, k) <==> ids[0] in replies && !replies[ids[0]].Error? && Oldest(ids[1..], replies, k - 1)
  {
    var first, rest := ids[..k], ids[1..][..k - 1];
    assert first == [ids[0]] + rest;
    assert AnsweredWell(first, replies) ==> forall i :: 0 <= i < |rest| ==> rest[i] == first[i + 1];
  }

  /** The wrapper once the oldest `n` of those awaited are settled. */
  function Settled(rw: Rw, n: nat): Rw
    requires n <= |rw.pending|
  {
    rw.(pending := rw.pending[n..], settled := rw.settled + rw.pending[..n])
  }

  lemma {:induction false} CleanupTo(rw: Rw, replies: map<nat, Reply>, k: nat)
    requires Oldest(rw.pending, replies, k)
    ensures
      var (clean, error) := Cleanup(rw, replies);
      if Fails(rw.pending, replies, k) then
        error == Some(rw.pending[k]) && clean == Settled(rw, k + 1).(reported := rw.reported + [rw.pending[k]])
      else error == None && clean == Settled(rw, k)
    decreases k
  {
    if k > 0 {
      var id := rw.pending[0];
      var next := rw.(pending := rw.pending[1..], settled := rw.settled + [id]);
      OldestTail(rw.pending, replies, k);
      CleanupTo(next, replies, k - 1);
      SettledTail(rw, next, k);
      if Fails(rw.pending, replies, k) {
        SettledTail(rw, next, k + 1);
      }
    } else {
      assert rw.settled + [] == rw.settled;
      assert rw.pending != [] ==> rw.pending[..1] == [rw.pending[0]];
    }
  }

  lemma SettledTail(rw: Rw, next: Rw, n: nat)
    requires 0 < n <= |rw.pending|
    requires next == rw.(pending := rw.pending[1..], settled := rw.settled + [rw.pending[0]])
    ensures Settled(next, n - 1) == Settled(rw, n)
  {
    assert rw.pending[..n] == [rw.pending[0]] + rw.pending[1..][..n - 1];
    ConcatAssoc(rw.settled, [rw.pending[0]], rw.pending[1..][..n - 1]);
  }

  // ------------------------------------------------------------- errors

  /** Polls that look at the answers of earlier requests. */
  predicate Looks(info: Info, e: Event) {
    (e.DoWrite? && info.writable) || e.DoFlush? || e.DoShutdown?
  }

  /** The error of the oldest request that failed is what the next write, flush or shutdown poll returns.
      The requests up to it are settled, nothing is sent, and a flush or shutdown waits no longer. */
  lemma FailureIsReported(info: Info, c: Client, e: Event, k: nat)
    requires Looks(info, e)
    requires Oldest(c.rw.pending, c.ch.replies, k) && Fails(c.rw.pending, c.ch.replies, k)
    ensures
      var (next, r) := Act(info, c, e);
      var id := c.rw.pending[k];
      && r == (if e.DoWrite? then Wrote(Fail(RequestFailed(id))) else Drained(Fail(RequestFailed(id))))
      && next.ch == c.ch
      && next.rw.pending == c.rw.pending[k + 1..] && next.rw.settled == c.rw.settled + c.rw.pending[..k + 1]
      && next.rw.reported == c.rw.reported + [id]
      && next.rw.pos == c.rw.pos && next.rw.seek == c.rw.seek
      && (e.DoWrite? ==> next.rw.leftover == [] && next.rw.state == c.rw.state)
      && (!e.DoWrite? ==> next.rw.leftover == c.rw.leftover && next.rw.state == Idle)
  {
    CleanupTo(c.rw, c.ch.replies, k);
    CleanupTo(c.rw.(leftover := []), c.ch.replies, k);
  }

  predicate AllAnswered(ids: seq<nat>, replies: map<nat, Reply>) {
    forall i :: 0 <= i < |ids| ==> ids[i] in replies
  }

  function Failures(ids: seq<nat>, replies: map<nat, Reply>): seq<nat> {
    if ids == [] then []
    else (if ids[0] in replies && replies[ids[0]].Error? then [ids[0]] else []) + Failures(ids[1..], replies)
  }

  lemma {:induction false} NoFailures(ids: seq<nat>, replies: map<nat, Reply>)
    requires AnsweredWell(ids, replies)
    ensures Failures(ids, replies) == []
  {
    if ids != [] {
      assert forall i :: 0 <= i < |ids[1..]| ==> ids[1..][i] == ids[i + 1];
      NoFailures(ids[1..], replies);
    }
  }

  lemma {:induction false} FirstFailure(ids: seq<nat>, replies: map<nat, Reply>, k: nat)
    requires Oldest(ids, replies, k) && Fails(ids, replies, k)
    ensures Failures(ids, replies) == [ids[k]] + Failures(ids[k + 1..], replies)
    decreases k
  {
    if k > 0 {
      OldestTail(ids, replies, k);
      FirstFailure(ids[1..], replies, k - 1);
      assert ids[1..][k..] == ids[k + 1..];
    } else {
      assert ids[0] in replies && replies[ids[0]].Error?;
    }
  }

  /** The error each of these polls returns. */
  function Errors(info: Info, c: Client, polls: seq<Event>): seq<nat>
    decreases |polls|
  {
    if polls == [] then []
    else ReportedError(Act(info, c, polls[0]).1) + Errors(info, Act(info, c, polls[0]).0, polls[1..])
  }

  /** No failure is lost: once all requests awaited are answered, as many polls as there are failures among
      them, of writes, flushes and shutdowns in any mix, return exactly these, in order, send nothing, and
      leave no failure behind. */
  lemma {:induction false} EveryFailureReported(info: Info, c: Client, polls: seq<Event>)
    requires forall e :: e in polls ==> Looks(info, e)
    requires AllAnswered(c.rw.pending, c.ch.replies)
    requires |polls| == |Failures(c.rw.pending, c.ch.replies)|
    ensures Errors(info, c, polls) == Failures(c.rw.pending, c.ch.replies)
    ensures Run(info, c, polls).ch == c.ch && AnsweredWell(Run(info, c, polls).rw.pending, c.ch.replies)
    decreases |polls|
  {
    var ids, replies := c.rw.pending, c.ch.replies;
    var k := OldestExists(ids, replies);
    if Fails(ids, replies, k) {
      FirstFailure(ids, replies, k);
      FailureIsReported(info, c, polls[0], k);
      var next := Act(info, c, polls[0]).0;
      forall i | 0 <= i < |next.rw.pending|
        ensures next.rw.pending[i] in replies
      {
        assert next.rw.pending[i] == ids[k + 1 + i];
      }
      EveryFailureReported(info, next, polls[1..]);
    } else {
      assert ids[..k] == ids;
      NoFailures(ids, replies);
    }
  }

  // ------------------------------------------------------------- writes

  /** The position `n` bytes on, up to the largest. */
  function Onward(pos: u64, n: nat): u64 {
    if pos + n <= U64_MAX then pos + n else U64_MAX
  }

  /** Without a failure to report a write sends at most 3 MiB at the cursor and accepts them, as soon as the
      channel has room; read bytes are dropped in any case. */
  lemma WriteAnswers(info: Info, c: Client, buf: seq<byte>, k: nat)
    requires Oldest(c.rw.pending, c.ch.replies, k)
    requires info.writable ==> !Fails(c.rw.pending, c.ch.replies, k)
    ensures
      var (next, r) := Act(info, c, DoWrite(buf));
      var len := if |buf| <= 3 * 1024 * 1024 then |buf| else 3 * 1024 * 1024;
      var rest := Settled(c.rw.(leftover := []), k);
      if !info.writable then r == Wrote(Fail(Unsupported)) && next == c
      else
        match c.ch.slot
        case Full => r == Wrote(Pending) && next == Client(rest.(state := Reserving), c.ch)
        case Closed => r == Wrote(Fail(NotConnected)) && next == Client(rest.(state := Reserving), c.ch)
        case Free =>
          && r == Wrote(Ready(len))
          && next.rw == rest.(pos := Onward(c.rw.pos, len), state := Idle, pending := rest.pending + [|c.ch.sent|])
          && next.ch == c.ch.(sent := c.ch.sent + [Write(buf[..len], c.rw.pos)], slot := Full)
  {
    CleanupTo(c.rw.(leftover := []), c.ch.replies, k);
  }

  // ------------------------------------------------ flushes and shutdowns

  function Waiting(e: Event): IoState
    requires e.DoFlush? || e.DoShutdown?
  {
    if e.DoFlush? then Flushing else ShuttingDown
  }

  function RequestOf(e: Event): Request
    requires e.DoFlush? || e.DoShutdown?
  {
    if e.DoFlush? then Flush else Shutdown
  }

  /** Without a failure to report a flush or shutdown sends its request, as soon as the channel has room,
      and then waits until nothing is awaited; a flush after a shutdown is an error. */
  lemma WaitAnswers(info: Info, c: Client, e: Event, k: nat)
    requires e.DoFlush? || e.DoShutdown?
    requires Oldest(c.rw.pending, c.ch.replies, k) && !Fails(c.rw.pending, c.ch.replies, k)
    ensures
      var (next, r) := Act(info, c, e);
      var rest := Settled(c.rw, k);
      if c.rw.state == Waiting(e) then
        && next.ch == c.ch
        && (if k == |c.rw.pending| then r == Drained(Ready(())) && next.rw == rest.(state := Idle)
            else r == Drained(Pending) && next.rw == rest)
      else if c.rw.state == ShuttingDown then r == Drained(Fail(InvalidInput)) && next == Client(rest, c.ch)
      else
        match c.ch.slot
        case Full => r == Drained(Pending) && next == Client(rest.(state := Reserving), c.ch)
        case Closed => r == Drained(Fail(NotConnected)) && next == Client(rest.(state := Reserving), c.ch)
        case Free =>
          && r == Drained(Pending)
          && next.rw == rest.(state := Waiting(e), pending := rest.pending + [|c.ch.sent|])
          && next.ch == c.ch.(sent := c.ch.sent + [RequestOf(e)], slot := Full)
  {
    CleanupTo(c.rw, c.ch.replies, k);
  }

  /** A flush or shutdown that waits completes just when every awaited request was answered without an
      error. */
  lemma WaitingCompletes(info: Info, c: Client, e: Event)
    requires (e.DoFlush? || e.DoShutdown?) && c.rw.state == Waiting(e)
    ensures Act(info, c, e).1 == Drained(Ready(())) <==> AnsweredWell(c.rw.pending, c.ch.replies)
  {
    var ids, replies := c.rw.pending, c.ch.replies;
    var k := OldestExists(ids, replies);
    assert k == |ids| ==> ids[..k] == ids;
    if Fails(ids, replies, k) {
      FailureIsReported(info, c, e, k);
    } else {
      WaitAnswers(info, c, e, k);
    }
  }

  /** While a flush or shutdown waits, its request is the last one sent. */
  predicate WaitsForLast(c: Client) {
    && (c.rw.state == Flushing ==> c.ch.sent != [] && c.ch.sent[|c.ch.sent| - 1] == Flush)
    && (c.rw.state == ShuttingDown ==> c.ch.sent != [] && c.ch.sent[|c.ch.sent| - 1] == Shutdown)
  }

  lemma ActWaits(info: Info, c: Client, e: Event)
    requires WaitsForLast(c)
    ensures WaitsForLast(Act(info, c, e).0)
  {
    var k := OldestExists(c.rw.pending, c.ch.replies);
    if Looks(info, e) && Fails(c.rw.pending, c.ch.replies, k) {
      FailureIsReported(info, c, e, k);
    } else {
      match e
      case DoWrite(buf) =>
        if info.writable {
          WriteAnswers(info, c, buf, k);
        }
      case DoFlush => WaitAnswers(info, c, e, k);
      case DoShutdown => WaitAnswers(info, c, e, k);
      case _ =>
    }
  }

  lemma {:induction false} RunWaits(info: Info, c: Client, events: seq<Event>)
    requires WaitsForLast(c)
    ensures WaitsForLast(Run(info, c, events))
    decreases |events|
  {
    if events != [] {
      ActWaits(info, c, events[0]);
      RunWaits(info, Act(info, c, events[0]).0, events[1..]);
    }
  }

  /** In every run, a flush or shutdown that completes has sent its request, after all others; it was
      answered, without an error unless a poll returned that. */
  lemma CompletedWasSent(info: Info, events: seq<Event>, e: Event)
    requires e.DoFlush? || e.DoShutdown?
    requires Act(info, Run(info, START, events), e).1 == Drained(Ready(()))
    ensures
      var c := Act(info, Run(info, START, events), e).0;
      var last := |c.ch.sent| - 1;
      && last >= 0 && c.ch.sent[last] == RequestOf(e)
      && last in c.ch.replies && (c.ch.replies[last].Error? <==> last in c.rw.reported)
  {
    var before := Run(info, START, events);
    RunWaits(info, START, events);
    CompleteMeansSettled(info, events, e);
    var k := OldestExists(before.rw.pending, before.ch.replies);
    if Fails(before.rw.pending, before.ch.replies, k) {
      FailureIsReported(info, before, e, k);
    } else {
      WaitAnswers(info, before, e, k);
    }
  }

  /** The poll need not be one of its own: a flush is sent and fails, a write poll returns its error, and the
      flush, which still waits, completes. */
  lemma FlushErrorTaken(info: Info, buf: seq<byte>)
    requires info.writable
    ensures
      var c := Act(info, Act(info, START, DoFlush).0, Answer(0, Error)).0;
      var (next, r) := Act(info, c, DoWrite(buf));
      && c.ch.sent == [Flush] && r == Wrote(Fail(RequestFailed(0)))
      && Act(info, next, DoFlush).1 == Drained(Ready(()))
  {
    WaitAnswers(info, START, DoFlush, 0);
    var sent := Act(info, START, DoFlush).0;
    assert sent.rw.pending == [0] && sent.rw.state == Flushing && sent.ch.sent == [Flush];
    var c := Act(info, sent, Answer(0, Error)).0;
    assert c.rw == sent.rw && c.ch.replies == map[0 := Error];
    assert c.rw.pending[..0] == [];
    FailureIsReported(info, c, DoWrite(buf), 0);
    WaitingCompletes(info, Act(info, c, DoWrite(buf)).0, DoFlush);
  }

  // -------------------------------------------------------------- reads

  /** A read completes just when bytes are at hand, or an empty answer, and hands out the first of them;
      until then it asks once, at the cursor, and waits. */
  lemma ReadAnswers(info: Info, c: Client, room: nat)
    ensures
      var (next, r) := Act(info, c, DoRead(room));
      if !info.readable then r == Got(Fail(Unsupported)) && next == c
      else if AtHand(c).Some? then
        var data := AtHand(c).value;
        var n := if room <= |data| then room else |data|;
        && r == Got(Ready(data[..n])) && next.ch == c.ch
        && next.rw == c.rw.(pos := Onward(c.rw.pos, n), leftover := data[n..],
                            state := if c.rw.leftover == [] then Idle else c.rw.state)
      else if c.rw.state.Reading? then
        if c.rw.state.id in c.ch.replies then
          r == Got(Fail(RequestFailed(c.rw.state.id))) && next == Client(c.rw.(state := Idle), c.ch)
        else r == Got(Pending) && next == c
      else
        match c.ch.slot
        case Full => r == Got(Pending) && next == Client(c.rw.(state := Reserving), c.ch)
        case Closed => r == Got(Fail(NotConnected)) && next == Client(c.rw.(state := Reserving), c.ch)
        case Free =>
          && r == Got(Pending)
          && next.rw == c.rw.(state := Reading(|c.ch.sent|))
          && next.ch == c.ch.(sent := c.ch.sent + [Read(room, c.rw.pos)], slot := Full)
  {
  }

  /** So an empty answer to a reader with room means that the volume had nothing there. */
  lemma EmptyReadIsAnswered(info: Info, c: Client, room: nat)
    requires room > 0
    ensures
      Act(info, c, DoRead(room)).1 == Got(Ready([])) ==>
        && c.rw.leftover == [] && c.rw.state.Reading? && c.rw.state.id in c.ch.replies
        && c.ch.replies[c.rw.state.id] == Data([])
  {
    ReadAnswers(info, c, room);
  }

  // -------------------------------------------------------------- seeks

  /** A seek is stored until its completion is polled, which moves the cursor, or leaves it where no seek
      was asked for or the volume has no known size. */
  lemma SeekAnswers(info: Info, c: Client, position: SeekFrom)
    ensures
      var next := Act(info, c, DoStartSeek(position)).0;
      next == if info.seekable then Client(c.rw.(seek := Some(position)), c.ch) else c
    ensures StepStartSeek(info, c.rw, position).1 == if info.seekable then Ready(()) else Fail(Unsupported)
    ensures
      var (next, r) := Act(info, c, DoSeek);
      var rest := c.rw.(seek := None);
      if !info.seekable then r == Moved(Fail(Unsupported)) && next == c
      else
        match c.rw.seek
        case None => r == Moved(Ready(c.rw.pos)) && next == c
        case Some(Start(to)) => r == Moved(Ready(to)) && next == Client(rest.(pos := to), c.ch)
        case Some(End(off)) =>
          if info.size.None? then r == Moved(Fail(Unsupported)) && next == Client(rest, c.ch)
          else MovesTo(next, r, rest, c.ch, info.size.value + off)
        case Some(Current(off)) => MovesTo(next, r, rest, c.ch, c.rw.pos + off)
  {
  }

  /** The cursor is where it was to go, or at the end of the range it lies beyond. */
  predicate MovesTo(next: Client, r: Result, rest: Rw, ch: Channel, to: int) {
    && next.ch == ch && r == Moved(Ready(next.rw.pos)) && next.rw == rest.(pos := next.rw.pos)
    && (to < 0 ==> next.rw.pos == 0)
    && (0 <= to <= U64_MAX ==> next.rw.pos == to)
    && (to > U64_MAX ==> next.rw.pos == U64_MAX)
  }
}
