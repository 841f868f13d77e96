/** `VolumeIoRW`: a file-like view of a volume on top of positioned requests. */
module VolumeRw {
  import opened Wrappers
  import opened Bytes

  const U64_MAX: nat := 0xFFFF_FFFF_FFFF_FFFF
  type u64 = n: nat | n <= 0xFFFF_FFFF_FFFF_FFFF
  const MAX_WRITE_SIZE: nat := 3 * 1024 * 1024

  datatype Request = Write(data: seq<byte>, offset: nat) | Read(length: nat, offset: nat) | Flush | Shutdown

  datatype Reply = Written(count: nat) | Data(data: seq<byte>) | Done | Error

  /** Whether the request channel, which holds one request, can be reserved. */
  datatype Slot = Free | Full | Closed

  /** The request stream: all requests ever sent and the replies that have come back. */
  datatype Channel = Channel(sent: seq<Request>, replies: map<nat, Reply>, slot: Slot) {

    ghost predicate Valid() {
      forall id :: id in replies ==> id < |sent|
    }

    function Send(r: Request): Channel {
      this.(sent := sent + [r], slot := Full)
    }
  }

  datatype IoError = Unsupported | NotConnected | InvalidInput | SeekInProgress | RequestFailed(id: nat)

  datatype Poll<+T> = Pending | Ready(value: T) | Fail(error: IoError)

  datatype IoState = Idle | Reserving | Flushing | ShuttingDown | Reading(id: nat)

  datatype SeekFrom = Start(pos: u64) | End(off: int) | Current(off: int)

  datatype Info = Info(readable: bool, writable: bool, seekable: bool, size: Option<u64>, blocksize: Option<nat>)

  /** The wrapper: cursor, poll state, requested seek, requests whose outcome is still awaited and
      read bytes not handed out yet. `settled` and `reported` record the requests whose outcome was
      taken, and those among them whose error was returned by a poll. */
  datatype Rw = Rw(pos: u64, state: IoState, seek: Option<SeekFrom>, pending: seq<nat>, leftover: seq<byte>,
                   settled: seq<nat>, reported: seq<nat>)

  datatype Client = Client(rw: Rw, ch: Channel)

  datatype Outcome<+T> = Outcome(rw: Rw, ch: Channel, poll: Poll<T>)

  function SatAdd(a: u64, b: nat): u64 {
    Min(a + b, U64_MAX)
  }

  // ------------------------------------------------------------- polls

  function Cleanup(rw: Rw, replies: map<nat, Reply>): (Rw, Option<nat>)
    decreases |rw.pending|
  {
    if rw.pending == [] || rw.pending[0] !in replies then (rw, None)
    else
      var id := rw.pending[0];
      var next := rw.(pending := rw.pending[1..], settled := rw.settled + [id]);
      if replies[id].Error? then (next.(reported := rw.reported + [id]), Some(id))
      else Cleanup(next, replies)
  }

  /** Take a slot for one request, or wait for it. */
  function Submit<T>(rw: Rw, ch: Channel, request: Request, after: Rw, done: Poll<T>): Outcome<T> {
    match ch.slot
    case Full => Outcome(rw.(state := Reserving), ch, Pending)
    case Closed => Outcome(rw.(state := Reserving), ch, Fail(NotConnected))
    case Free => Outcome(after, ch.Send(request), done)
  }

  function StepWrite(info: Info, rw: Rw, ch: Channel, buf: seq<byte>): Outcome<nat> {
    if !info.writable then Outcome(rw, ch, Fail(Unsupported))
    else
      var (clean, error) := Cleanup(rw.(leftover := []), ch.replies);
      if error.Some? then Outcome(clean, ch, Fail(RequestFailed(error.value)))
      else
        var len := Min(|buf|, MAX_WRITE_SIZE);
        Submit(clean, ch, Write(buf[..len], rw.pos),
               clean.(pos := SatAdd(rw.pos, len), state := Idle, pending := clean.pending + [|ch.sent|]),
               Ready(len))
  }

  /** Flush and shutdown wait until every earlier request has been answered. */
  function Drain(rw: Rw, ch: Channel, request: Request, waiting: IoState): Outcome<()> {
    if rw.state == waiting then
      if rw.pending == [] then Outcome(rw.(state := Idle), ch, Ready(()))
      else Outcome(rw, ch, Pending)
    else
      Submit(rw, ch, request, rw.(state := waiting, pending := rw.pending + [|ch.sent|]), Pending)
  }

  function StepFlush(rw: Rw, ch: Channel): Outcome<()> {
    var (clean, error) := Cleanup(rw, ch.replies);
    if error.Some? then Outcome(clean.(state := Idle), ch, Fail(RequestFailed(error.value)))
    else if rw.state == ShuttingDown then Outcome(clean, ch, Fail(InvalidInput))
    else Drain(clean, ch, Flush, Flushing)
  }

  function StepShutdown(rw: Rw, ch: Channel): Outcome<()> {
    var (clean, error) := Cleanup(rw, ch.replies);
    if error.Some? then Outcome(clean.(state := Idle), ch, Fail(RequestFailed(error.value)))
    else Drain(clean, ch, Shutdown, ShuttingDown)
  }

  /** Hand out at most `room` of the bytes read before. */
  function HandOut(rw: Rw, ch: Channel, room: nat): Outcome<seq<byte>> {
    var n := Min(room, |rw.leftover|);
    Outcome(rw.(pos := SatAdd(rw.pos, n), leftover := rw.leftover[n..]), ch, Ready(rw.leftover[..n]))
  }

  function StepRead(info: Info, rw: Rw, ch: Channel, room: nat): Outcome<seq<byte>> {
    if !info.readable then Outcome(rw, ch, Fail(Unsupported))
    else if rw.leftover != [] then HandOut(rw, ch, room)
    else if rw.state.Reading? then
      var id := rw.state.id;
      if id !in ch.replies then Outcome(rw, ch, Pending)
      else match ch.replies[id]
        case Data(data) => HandOut(rw.(state := Idle, leftover := data), ch, room)
        case _ => Outcome(rw.(state := Idle), ch, Fail(RequestFailed(id)))
    else
      Submit(rw, ch, Read(room, rw.pos), rw.(state := Reading(|ch.sent|)), Pending)
  }

  function StepStartSeek(info: Info, rw: Rw, position: SeekFrom): (Rw, Poll<()>) {
    if info.seekable then (rw.(seek := Some(position)), Ready(())) else (rw, Fail(Unsupported))
  }

  /** Base and signed distance of a seek; `None` when the volume has no known size. */
  function SeekTarget(info: Info, pos: u64, seek: SeekFrom): Option<int> {
    match seek
    case Start(s) => Some(s)
    case End(e) => if info.size.Some? then Some(info.size.value + e) else None
    case Current(c) => Some(pos + c)
  }

  function Clamp(n: int): u64 {
    if n < 0 then 0 else if n > U64_MAX then U64_MAX else n
  }

  function StepSeek(info: Info, rw: Rw): (Rw, Poll<u64>) {
    if !info.seekable then (rw, Fail(Unsupported))
    else if rw.seek.None? then (rw, Ready(rw.pos))
    else
      var taken := rw.(seek := None);
      var to := SeekTarget(info, rw.pos, rw.seek.value);
      if to.None? then (taken, Fail(Unsupported))
      else (taken.(pos := Clamp(to.value)), Ready(Clamp(to.value)))
  }

  /** Cleaning up twice is cleaning up once, and a request just sent cannot be answered yet. */
  lemma {:induction false} CleanupStays(rw: Rw, replies: map<nat, Reply>, tail: seq<nat>)
    requires forall id :: id in tail ==> id !in replies
    ensures
      var (clean, error) := Cleanup(rw, replies);
      error.None? ==>
        && Cleanup(clean, replies) == (clean, None)
        && Cleanup(clean.(pending := clean.pending + tail), replies) == (clean.(pending := clean.pending + tail), None)
    decreases |rw.pending|
  {
    if rw.pending != [] && rw.pending[0] in replies && !replies[rw.pending[0]].Error? {
      var id := rw.pending[0];
      CleanupStays(rw.(pending := rw.pending[1..], settled := rw.settled + [id]), replies, tail);
    }
  }

  /** The poll state plays no part in cleaning up, which touches nothing but its own records. */
  lemma {:induction false} CleanupState(rw: Rw, replies: map<nat, Reply>, state: IoState)
    ensures
      var (clean, error) := Cleanup(rw, replies);
      && Cleanup(rw.(state := state), replies) == (clean.(state := state), error)
      && clean.(pending := rw.pending, settled := rw.settled, reported := rw.reported) == rw
    decreases |rw.pending|
  {
    if rw.pending != [] && rw.pending[0] in replies && !replies[rw.pending[0]].Error? {
      var id := rw.pending[0];
      CleanupState(rw.(pending := rw.pending[1..], settled := rw.settled + [id]), replies, state);
    }
  }

  /** A shutdown poll sends at most one shutdown, leaves the cursor alone, and completes only when one
      has been sent and nothing is awaited. */
  lemma ShutdownCases(rw: Rw, ch: Channel)
    ensures
      var o := StepShutdown(rw, ch);
      && o.rw.pos == rw.pos
      && (o.poll.Ready? ==> rw.state == ShuttingDown && o.ch.sent == ch.sent && o.rw.pending == [])
      && (o.ch.sent == ch.sent + [Shutdown] ||
          (o.ch.sent == ch.sent && (o.rw.state == ShuttingDown ==> rw.state == ShuttingDown)))
  {
    CleanupState(rw, ch.replies, Idle);
  }
}
