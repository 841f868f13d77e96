/** `BatchWriter`: collects writes into requests of one buffer size. */
module Batching {
  import opened Wrappers
  import opened Bytes
  import opened VolumeRw

  datatype Batch = Empty | Batched(data: seq<byte>)

  function Held(b: Batch): seq<byte> {
    if b.Empty? then [] else b.data
  }

  /** The largest multiple of the block size that fits one request. */
  function BufferSize(info: Info): nat
    requires info.blocksize != Some(0)
  {
    MAX_WRITE_SIZE - MAX_WRITE_SIZE % (if info.blocksize.Some? then info.blocksize.value else 4096)
  }

  // -------------------------------------------- over any inner writer

  /** The bytes a write hands to the inner writer, if it calls it at all. */
  function Offer(b: Batch, buf: seq<byte>, size: nat): Option<seq<byte>>
    requires |Held(b)| <= size
  {
    match b
    case Empty => if |buf| >= size then Some(buf) else None
    case Batched(data) => if |buf| + |data| < size then None else Some(data + buf[..size - |data|])
  }

  /** The batch and the answer of a write, given what the inner writer answered to the offer. */
  function AfterWrite(b: Batch, buf: seq<byte>, size: nat, inner: Poll<nat>): (Batch, Poll<nat>)
    requires |Held(b)| <= size
  {
    var offer := Offer(b, buf, size);
    if offer.None? then (Batched(Held(b) + buf), Ready(|buf|))
    else if b.Empty? then (Empty, inner)
    else
      match inner
      case Ready(written) =>
        (if written >= |offer.value| then Empty else Batched(offer.value[written..]), Ready(size - |b.data|))
      case _ => (b, inner)
  }

  /** One turn of draining the batch. */
  function AfterDrain(data: seq<byte>, inner: Poll<nat>): Batch {
    match inner
    case Ready(written) => if written >= |data| then Empty else Batched(data[written..])
    case _ => Batched(data)
  }

  /** What an inner writer took of an offer. */
  function Taken(offer: seq<byte>, inner: Poll<nat>): seq<byte> {
    if inner.Ready? then offer[..Min(inner.value, |offer|)] else []
  }

  datatype Call = Put(buf: seq<byte>, inner: Poll<nat>) | Drain(inner: Poll<nat>)

  /** The batch, all bytes the inner writer took and all bytes reported as accepted. */
  datatype Log = Log(batch: Batch, inner: seq<byte>, accepted: seq<byte>)

  predicate WithinOffer(b: Batch, call: Call, size: nat)
    requires |Held(b)| <= size
  {
    match call
    case Put(buf, Ready(n)) => Offer(b, buf, size).Some? ==> n <= |Offer(b, buf, size).value|
    case Drain(Ready(n)) => n <= |Held(b)|
    case _ => true
  }

  function Record(l: Log, call: Call, size: nat): Log
    requires |Held(l.batch)| <= size && WithinOffer(l.batch, call, size)
  {
    match call
    case Put(buf, inner) =>
      var offer := Offer(l.batch, buf, size);
      var (next, poll) := AfterWrite(l.batch, buf, size, inner);
      Log(next, l.inner + (if offer.Some? then Taken(offer.value, inner) else []),
          l.accepted + if poll.Ready? then buf[..Min(poll.value, |buf|)] else [])
    case Drain(inner) =>
      if l.batch.Empty? then l
      else Log(AfterDrain(l.batch.data, inner), l.inner + Taken(l.batch.data, inner), l.accepted)
  }

  function RecordAll(l: Log, calls: seq<Call>, size: nat): Option<Log>
    decreases |calls|
  {
    if calls == [] then Some(l)
    else if |Held(l.batch)| <= size && WithinOffer(l.batch, calls[0], size) then
      RecordAll(Record(l, calls[0], size), calls[1..], size)
    else None
  }

  lemma PutRefines(l: Log, buf: seq<byte>, inner: Poll<nat>, size: nat)
    requires |Held(l.batch)| <= size && WithinOffer(l.batch, Put(buf, inner), size)
    requires l.inner + Held(l.batch) == l.accepted
    ensures
      var next := Record(l, Put(buf, inner), size);
      && |Held(next.batch)| <= size
      && next.inner + Held(next.batch) == next.accepted
  {
    var offer := Offer(l.batch, buf, size);
    var data := Held(l.batch);
    var next := Record(l, Put(buf, inner), size);
    if offer.None? {
      assert next == Log(Batched(data + buf), l.inner + [], l.accepted + buf) by {
        assert buf[..|buf|] == buf;
      }
      ConcatAssoc(l.inner, data, buf);
    } else if inner.Ready? {
      var n := if l.batch.Empty? then inner.value else size - |data|;
      var piece := buf[..n];
      assert next.accepted == l.accepted + piece;
      SplitJoin(l.inner, data, piece, inner.value);
      assert next.inner == l.inner + (data + piece)[..inner.value];
      assert Held(next.batch) == (data + piece)[inner.value..];
    }
  }

  lemma SplitJoin<T>(a: seq<T>, b: seq<T>, c: seq<T>, n: nat)
    requires n <= |b| + |c|
    ensures (a + (b + c)[..n]) + (b + c)[n..] == (a + b) + c
    ensures n == |b| + |c| ==> a + (b + c)[..n] == (a + b) + c
  {
  }

  lemma DrainRefines(l: Log, inner: Poll<nat>, size: nat)
    requires |Held(l.batch)| <= size && WithinOffer(l.batch, Drain(inner), size)
    requires l.inner + Held(l.batch) == l.accepted
    ensures
      var next := Record(l, Drain(inner), size);
      && |Held(next.batch)| <= size
      && next.inner + Held(next.batch) == next.accepted
  {
    if l.batch.Batched? && inner.Ready? {
      var data := l.batch.data;
      assert data == data[..inner.value] + data[inner.value..];
    }
  }

  /** A poll that is not ready, or fails, changes nothing a user could tell. */
  lemma Unfinished(l: Log, call: Call, size: nat)
    requires |Held(l.batch)| <= size && WithinOffer(l.batch, call, size) && !call.inner.Ready?
    requires call.Put? ==> Offer(l.batch, call.buf, size).Some?
    ensures Record(l, call, size) == l
  {
  }

  /** Whatever the inner writer answers to the calls of a run, short writes included, the bytes it took
      followed by the batched ones are exactly the bytes reported as accepted. */
  lemma {:induction false} WriterRefines(l: Log, calls: seq<Call>, size: nat)
    requires |Held(l.batch)| <= size && l.inner + Held(l.batch) == l.accepted
    ensures var r := RecordAll(l, calls, size);
            r.Some? ==> |Held(r.value.batch)| <= size && r.value.inner + Held(r.value.batch) == r.value.accepted
    decreases |calls|
  {
    if calls != [] && WithinOffer(l.batch, calls[0], size) {
      match calls[0] {
        case Put(buf, inner) => PutRefines(l, buf, inner, size);
        case Drain(inner) => DrainRefines(l, inner, size);
      }
      WriterRefines(Record(l, calls[0], size), calls[1..], size);
    }
  }

  // ---------------------------------------------------- over VolumeIoRW

  datatype Writer = Writer(batch: Batch, seek: Option<SeekFrom>, client: Client)

  datatype Step<+T> = Step(w: Writer, poll: Poll<T>)

  function StepPut(info: Info, w: Writer, buf: seq<byte>, size: nat): Step<nat>
    requires |Held(w.batch)| <= size
  {
    var offer := Offer(w.batch, buf, size);
    if offer.None? then
      var (batch, poll) := AfterWrite(w.batch, buf, size, Pending);
      Step(w.(batch := batch), poll)
    else
      var o := StepWrite(info, w.client.rw, w.client.ch, offer.value);
      var (batch, poll) := AfterWrite(w.batch, buf, size, o.poll);
      Step(Writer(batch, w.seek, Client(o.rw, o.ch)), poll)
  }

  function StepDrain(info: Info, w: Writer): (s: Step<()>)
    ensures s.poll.Ready? ==> s.w.batch == Empty
    decreases if w.batch.Empty? then 0 else 1 + |w.batch.data|
  {
    if w.batch.Empty? then Step(w, Ready(()))
    else
      var o := StepWrite(info, w.client.rw, w.client.ch, w.batch.data);
      match o.poll
      case Pending => Step(w.(client := Client(o.rw, o.ch)), Pending)
      case Fail(e) => Step(w.(client := Client(o.rw, o.ch)), Fail(e))
      case Ready(_) => StepDrain(info, Writer(AfterDrain(w.batch.data, o.poll), w.seek, Client(o.rw, o.ch)))
  }

  function StepBatchFlush(info: Info, w: Writer, discard: bool): Step<()> {
    if discard then Step(w, Ready(()))
    else
      var d := StepDrain(info, w);
      if !d.poll.Ready? then d
      else
        var o := StepFlush(d.w.client.rw, d.w.client.ch);
        Step(d.w.(client := Client(o.rw, o.ch)), o.poll)
  }

  function StepBatchShutdown(info: Info, w: Writer): Step<()> {
    var d := StepDrain(info, w);
    if !d.poll.Ready? then d
    else
      var o := StepShutdown(d.w.client.rw, d.w.client.ch);
      Step(d.w.(client := Client(o.rw, o.ch)), o.poll)
  }

  function StepBatchStartSeek(info: Info, w: Writer, position: SeekFrom): Step<()> {
    match w.batch
    case Empty =>
      var (rw, poll) := StepStartSeek(info, w.client.rw, position);
      Step(w.(client := Client(rw, w.client.ch)), poll)
    case Batched(_) =>
      if w.seek.Some? then Step(w, Fail(SeekInProgress)) else Step(w.(seek := Some(position)), Ready(()))
  }

  function StepBatchSeek(info: Info, w: Writer): Step<u64> {
    var d := StepDrain(info, w);
    match d.poll
    case Pending => Step(d.w, Pending)
    case Fail(e) => Step(d.w, Fail(e))
    case Ready(_) =>
      var rw := d.w.client.rw;
      var (asked, start) :=
        if d.w.seek.Some? then StepStartSeek(info, rw, d.w.seek.value) else (rw, Ready(()));
      if start.Fail? then Step(Writer(Empty, None, Client(asked, d.w.client.ch)), Fail(start.error))
      else
        var (moved, poll) := StepSeek(info, asked);
        Step(Writer(Empty, None, Client(moved, d.w.client.ch)), poll)
  }

  /** The position the user of the batch writer sees. */
  function Logical(w: Writer): nat {
    w.client.rw.pos + |Held(w.batch)|
  }

  lemma {:induction false} DrainPosition(info: Info, w: Writer)
    requires Logical(w) <= U64_MAX
    ensures
      var d := StepDrain(info, w);
      && Logical(d.w) == Logical(w) && d.w.seek == w.seek
      && (w.batch.Batched? && d.poll.Ready? ==> d.w.client.rw.leftover == [] && d.w.client.rw.state == Idle)
      && d.w.client.rw.seek == w.client.rw.seek
    decreases if w.batch.Empty? then 0 else 1 + |w.batch.data|
  {
    if w.batch.Batched? {
      var data := w.batch.data;
      CleanupState(w.client.rw.(leftover := []), w.client.ch.replies, Idle);
      var o := StepWrite(info, w.client.rw, w.client.ch, data);
      if o.poll.Ready? {
        assert o.poll.value == Min(|data|, MAX_WRITE_SIZE);
        DrainPosition(info, Writer(AfterDrain(data, o.poll), w.seek, Client(o.rw, o.ch)));
      }
    }
  }

  /** A seek asked for while bytes are batched is resolved against the position behind those bytes,
      finds no read bytes to go stale, and leaves nothing batched. */
  lemma SeekIsLogical(info: Info, w: Writer)
    requires Logical(w) <= U64_MAX && info.seekable && w.batch.Batched? && w.seek.Some?
    requires StepBatchSeek(info, w).poll.Ready?
    ensures
      var s := StepBatchSeek(info, w);
      var to := SeekTarget(info, Logical(w), w.seek.value);
      && to.Some? && s.poll.value == Clamp(to.value) == Logical(s.w)
      && s.w.batch == Empty && s.w.client.rw.leftover == []
  {
    DrainPosition(info, w);
  }
}
