/** From the bytes given to a batch writer to the bytes on a fastboot partition. */
module EndToEnd {
  import opened Wrappers
  import opened Bytes
  import opened VolumeRw
  import opened VolumeRwRuns
  import opened Batching
  import opened FastbootServer
  import FastbootTarget
  import F = Fastboot
  import R = FastbootRuns

  /** Something that happens while data is copied: a write by the user, or the outside moving on. */
  datatype Event = Put(buf: seq<byte>) | Outside(event: VolumeRwRuns.Event)

  /** Replies and channel changes leave the wrapper alone. */
  predicate External(e: VolumeRwRuns.Event) {
    e.Answer? || e.SetSlot?
  }

  /** With a buffer of one largest request a write may have any length; otherwise it must be shorter
      than the buffer. */
  predicate Modest(e: Event, size: nat) {
    match e
    case Put(buf) => |buf| < size || size == MAX_WRITE_SIZE
    case Outside(x) => External(x)
  }

  function OutsideStep(info: Info, w: Writer, e: VolumeRwRuns.Event): Writer {
    w.(client := Act(info, w.client, e).0)
  }

  /** The bytes of a write that count as accepted. */
  function Accepted(buf: seq<byte>, poll: Poll<nat>): seq<byte> {
    if poll.Ready? then buf[..Min(poll.value, |buf|)] else []
  }

  /** The writer after a copy, and the bytes its writes reported as accepted. */
  function Copy(info: Info, w: Writer, accepted: seq<byte>, events: seq<Event>, size: nat): (Writer, seq<byte>)
    requires |Held(w.batch)| <= size
    decreases |events|
  {
    if events == [] then (w, accepted)
    else
      match events[0]
      case Put(buf) =>
        var s := StepPut(info, w, buf, size);
        PutKeepsSize(info, w, buf, size);
        Copy(info, s.w, accepted + Accepted(buf, s.poll), events[1..], size)
      case Outside(e) => Copy(info, OutsideStep(info, w, e), accepted, events[1..], size)
  }

  lemma PutKeepsSize(info: Info, w: Writer, buf: seq<byte>, size: nat)
    requires |Held(w.batch)| <= size
    ensures |Held(StepPut(info, w, buf, size).w.batch)| <= size
  {
  }

  /** Polling a shutdown while the outside moves on. */
  function Close(info: Info, w: Writer, events: seq<Option<VolumeRwRuns.Event>>): Writer
    decreases |events|
  {
    if events == [] then w
    else
      match events[0]
      case None => Close(info, StepBatchShutdown(info, w).w, events[1..])
      case Some(e) => Close(info, OutsideStep(info, w, e), events[1..])
  }

  // ------------------------------------------------------ requests sent

  /** The data of all writes, in order. */
  function Stream(sent: seq<Request>): seq<byte> {
    if sent == [] then []
    else
      var n := |sent| - 1;
      Stream(sent[..n]) + if sent[n].Write? then sent[n].data else []
  }

  /** Each write starts where the stream of the earlier ones ends. */
  predicate Sequential(sent: seq<Request>, start: nat) {
    forall i {:trigger sent[..i]} ::
      0 <= i < |sent| && sent[i].Write? ==> sent[i].offset == start + |Stream(sent[..i])|
  }

  lemma StreamSnoc(sent: seq<Request>, r: Request, start: nat)
    requires Sequential(sent, start)
    requires r.Write? ==> r.offset == start + |Stream(sent)|
    ensures Stream(sent + [r]) == Stream(sent) + if r.Write? then r.data else []
    ensures Sequential(sent + [r], start)
  {
    assert (sent + [r])[..|sent|] == sent;
    forall i | 0 <= i < |sent|
      ensures (sent + [r])[..i] == sent[..i]
    {
    }
  }

  predicate FullWrite(r: Request, size: nat) {
    r.Write? && |r.data| == size
  }

  predicate FullWrites(sent: seq<Request>, size: nat) {
    forall i {:trigger FullWrite(sent[i], size)} :: 0 <= i < |sent| ==> FullWrite(sent[i], size)
  }

  predicate IsShutdown(r: Request) {
    r == Shutdown
  }

  /** Only shutdowns are sent from `from` on. */
  predicate ShutdownsFrom(sent: seq<Request>, from: nat) {
    forall i {:trigger IsShutdown(sent[i])} :: from <= i < |sent| ==> IsShutdown(sent[i])
  }

  /** While copying: only full buffers have been sent, back to back, and what they hold followed by
      the batch is what has been accepted. */
  ghost predicate Copying(w: Writer, start: nat, accepted: seq<byte>, size: nat) {
    var sent := w.client.ch.sent;
    && FullWrites(sent, size) && Sequential(sent, start)
    && |Held(w.batch)| < size
    && Stream(sent) + Held(w.batch) == accepted
    && w.client.rw.pos == start + |Stream(sent)|
    && w.client.rw.state != ShuttingDown
  }

  /** Sending a write at the cursor extends the stream by its data. */
  lemma SendWrite(info: Info, rw: Rw, ch: Channel, data: seq<byte>, start: nat)
    requires Sequential(ch.sent, start) && rw.pos == start + |Stream(ch.sent)|
    requires rw.pos + |data| <= U64_MAX && |data| <= MAX_WRITE_SIZE
    ensures
      var o := StepWrite(info, rw, ch, data);
      && Sequential(o.ch.sent, start) && o.rw.pos == start + |Stream(o.ch.sent)|
      && (o.poll.Ready? ==>
            && o.poll.value == |data| && o.rw.state == Idle
            && o.ch.sent == ch.sent + [Write(data, rw.pos)]
            && Stream(o.ch.sent) == Stream(ch.sent) + data)
      && (!o.poll.Ready? ==> o.ch.sent == ch.sent && (o.rw.state == rw.state || o.rw.state == Reserving))
  {
    var r, o := Write(data, rw.pos), StepWrite(info, rw, ch, data);
    assert data[..|data|] == data;
    WriteCases(info, rw, ch, data);
    CleanupState(rw.(leftover := []), ch.replies, Idle);
    if o.poll.Ready? {
      StreamSnoc(ch.sent, r, start);
    }
  }

  /** An inner write of exactly one full buffer, made of the batch and the bytes `taken` from the user:
      when it is ready they count as accepted, and otherwise nothing has happened. */
  lemma SendFull(info: Info, w: Writer, start: nat, accepted: seq<byte>, taken: seq<byte>, size: nat)
    requires Copying(w, start, accepted, size) && |Held(w.batch) + taken| == size <= MAX_WRITE_SIZE
    requires start + |accepted| + size <= U64_MAX
    ensures
      var o := StepWrite(info, w.client.rw, w.client.ch, Held(w.batch) + taken);
      var n := Client(o.rw, o.ch);
      if o.poll.Ready? then o.poll.value == size && Copying(Writer(Empty, w.seek, n), start, accepted + taken, size)
      else Copying(w.(client := n), start, accepted, size)
  {
    var full, ch := Held(w.batch) + taken, w.client.ch;
    var o := StepWrite(info, w.client.rw, ch, full);
    SendWrite(info, w.client.rw, ch, full, start);
    if o.poll.Ready? {
      assert Stream(o.ch.sent) + [] == accepted + taken by {
        ConcatAssoc(Stream(ch.sent), Held(w.batch), taken);
      }
    }
  }

  lemma PutFull(info: Info, w: Writer, start: nat, accepted: seq<byte>, buf: seq<byte>, size: nat)
    requires Copying(w, start, accepted, size) && w.batch.Batched? && size <= MAX_WRITE_SIZE
    requires start + |accepted| + size <= U64_MAX && Offer(w.batch, buf, size).Some?
    ensures
      var s := StepPut(info, w, buf, size);
      Copying(s.w, start, accepted + Accepted(buf, s.poll), size)
  {
    var taken := buf[..size - |w.batch.data|];
    SendFull(info, w, start, accepted, taken, size);
    var o := StepWrite(info, w.client.rw, w.client.ch, w.batch.data + taken);
    var s := StepPut(info, w, buf, size);
    if o.poll.Ready? {
      assert s == Step(Writer(Empty, w.seek, Client(o.rw, o.ch)), Ready(|taken|));
    } else {
      assert s.w == w.(client := Client(o.rw, o.ch)) && accepted + [] == accepted;
    }
  }

  /** Of a long write only one largest request is sent. */
  lemma Truncated(info: Info, rw: Rw, ch: Channel, buf: seq<byte>)
    requires MAX_WRITE_SIZE <= |buf|
    ensures StepWrite(info, rw, ch, buf) == StepWrite(info, rw, ch, buf[..MAX_WRITE_SIZE])
  {
    assert buf[..MAX_WRITE_SIZE][..MAX_WRITE_SIZE] == buf[..MAX_WRITE_SIZE];
    WriteCases(info, rw, ch, buf);
    WriteCases(info, rw, ch, buf[..MAX_WRITE_SIZE]);
  }

  /** A write of a largest request or more, with nothing batched, sends one largest request. */
  lemma PutLong(info: Info, w: Writer, start: nat, accepted: seq<byte>, buf: seq<byte>)
    requires Copying(w, start, accepted, MAX_WRITE_SIZE) && w.batch == Empty && MAX_WRITE_SIZE <= |buf|
    requires start + |accepted| + MAX_WRITE_SIZE <= U64_MAX
    ensures
      var s := StepPut(info, w, buf, MAX_WRITE_SIZE);
      Copying(s.w, start, accepted + Accepted(buf, s.poll), MAX_WRITE_SIZE)
  {
    var taken := buf[..MAX_WRITE_SIZE];
    assert [] + taken == taken;
    SendFull(info, w, start, accepted, taken, MAX_WRITE_SIZE);
    Truncated(info, w.client.rw, w.client.ch, buf);
    var o := StepWrite(info, w.client.rw, w.client.ch, taken);
    var s := StepPut(info, w, buf, MAX_WRITE_SIZE);
    assert s == Step(Writer(Empty, w.seek, Client(o.rw, o.ch)), o.poll);
    if !o.poll.Ready? {
      assert accepted + [] == accepted;
    }
  }

  lemma PutCopying(info: Info, w: Writer, start: nat, accepted: seq<byte>, buf: seq<byte>, size: nat)
    requires Copying(w, start, accepted, size) && size <= MAX_WRITE_SIZE && Modest(Event.Put(buf), size)
    requires start + |accepted| + size <= U64_MAX
    ensures
      var s := StepPut(info, w, buf, size);
      Copying(s.w, start, accepted + Accepted(buf, s.poll), size)
  {
    if Offer(w.batch, buf, size).None? {
      assert buf[..|buf|] == buf;
      ConcatAssoc(Stream(w.client.ch.sent), Held(w.batch), buf);
    } else if w.batch.Batched? {
      PutFull(info, w, start, accepted, buf, size);
    } else {
      PutLong(info, w, start, accepted, buf);
    }
  }

  lemma {:induction false} CopyKeeps(info: Info, w: Writer, start: nat, accepted: seq<byte>, events: seq<Event>,
      size: nat)
    requires Copying(w, start, accepted, size) && size <= MAX_WRITE_SIZE
    requires forall e :: e in events ==> Modest(e, size)
    requires start + |Copy(info, w, accepted, events, size).1| <= U64_MAX - size
    ensures
      var (end, all) := Copy(info, w, accepted, events, size);
      Copying(end, start, all, size) && |accepted| <= |all|
    decreases |events|
  {
    if events != [] {
      CopyGrows(info, w, accepted, events, size);
      match events[0] {
        case Put(buf) =>
          assert Modest(events[0], size);
          PutCopying(info, w, start, accepted, buf, size);
          var s := StepPut(info, w, buf, size);
          CopyKeeps(info, s.w, start, accepted + Accepted(buf, s.poll), events[1..], size);
        case Outside(e) =>
          assert Modest(events[0], size);
          CopyKeeps(info, OutsideStep(info, w, e), start, accepted, events[1..], size);
      }
    }
  }

  lemma {:induction false} CopyGrows(info: Info, w: Writer, accepted: seq<byte>, events: seq<Event>, size: nat)
    requires |Held(w.batch)| <= size
    ensures |accepted| <= |Copy(info, w, accepted, events, size).1|
    decreases |events|
  {
    if events != [] {
      match events[0] {
        case Put(buf) =>
          var s := StepPut(info, w, buf, size);
          PutKeepsSize(info, w, buf, size);
          CopyGrows(info, s.w, accepted + Accepted(buf, s.poll), events[1..], size);
        case Outside(e) =>
          CopyGrows(info, OutsideStep(info, w, e), accepted, events[1..], size);
      }
    }
  }

  function Times(a: nat, b: nat): nat {
    a * b
  }

  ghost predicate Multiple(n: nat, block: nat) {
    exists k: nat :: n == Times(block, k)
  }

  lemma SumMultiple(a: nat, b: nat, block: nat)
    requires Multiple(a, block) && Multiple(b, block)
    ensures Multiple(a + b, block)
  {
    var i: nat :| a == Times(block, i);
    var j: nat :| b == Times(block, j);
    assert a + b == Times(block, i + j);
  }

  lemma {:induction false} StreamMultiple(sent: seq<Request>, size: nat, block: nat)
    requires FullWrites(sent, size) && Multiple(size, block)
    ensures Multiple(|Stream(sent)|, block)
  {
    if sent == [] {
      assert 0 == Times(block, 0);
    } else {
      assert FullWrite(sent[|sent| - 1], size);
      StreamMultiple(sent[..|sent| - 1], size, block);
      SumMultiple(|Stream(sent[..|sent| - 1])|, size, block);
    }
  }

  lemma BufferMultiple(block: nat)
    requires block > 0
    ensures Multiple(MAX_WRITE_SIZE - MAX_WRITE_SIZE % block, block)
  {
    assert MAX_WRITE_SIZE - MAX_WRITE_SIZE % block == Times(block, MAX_WRITE_SIZE / block);
  }

  /** While data is copied from an aligned start, in pieces shorter than the buffer unless that is as
      large as a request may be, every request is a write of exactly one buffer at a multiple of the
      block size. */
  lemma BatchAlignment(info: Info, w: Writer, start: nat, events: seq<Event>)
    requires info.blocksize.Some? && info.blocksize.value > 0 && Multiple(start, info.blocksize.value)
    requires w.batch == Empty && w.client.ch.sent == [] && w.client.rw.pos == start
    requires w.client.rw.state != ShuttingDown && BufferSize(info) > 0
    requires forall e :: e in events ==> Modest(e, BufferSize(info))
    requires start + |Copy(info, w, [], events, BufferSize(info)).1| <= U64_MAX - MAX_WRITE_SIZE
    ensures
      var block, end := info.blocksize.value, Copy(info, w, [], events, BufferSize(info)).0;
      forall r :: r in end.client.ch.sent ==>
        && r.Write? && |r.data| == BufferSize(info) <= MAX_WRITE_SIZE
        && Multiple(|r.data|, block) && Multiple(r.offset, block)
  {
    var size, block := BufferSize(info), info.blocksize.value;
    CopyKeeps(info, w, start, [], events, size);
    BufferMultiple(block);
    var sent := Copy(info, w, [], events, size).0.client.ch.sent;
    forall r | r in sent
      ensures r.Write? && |r.data| == size && Multiple(r.offset, block)
    {
      var i :| 0 <= i < |sent| && sent[i] == r;
      assert FullWrite(sent[i], size);
      StreamMultiple(sent[..i], size, block);
      SumMultiple(start, |Stream(sent[..i])|, block);
    }
  }

  // --------------------------------------------------------- the server

  predicate AllFlush(ops: seq<R.Op>) {
    forall i :: 0 <= i < |ops| ==> ops[i] == R.Flush
  }

  lemma {:induction false} IdleFlushes(t: R.Target, ops: seq<R.Op>, max: nat)
    requires F.Ready(t.buffered, max) && t.buffered == [] && AllFlush(ops)
    ensures R.Run(t, ops, max) == Some(t)
    decreases |ops|
  {
    if ops != [] {
      IdleFlushes(t, ops[1..], max);
    }
  }

  /** While closing: `n` full buffers, at most one shorter write, then only shutdowns. */
  ghost predicate Closing(w: Writer, start: nat, accepted: seq<byte>, size: nat, n: nat, m: nat) {
    var sent := w.client.ch.sent;
    && n <= m <= |sent| && m <= n + 1
    && FullWrites(sent[..n], size)
    && (n < m ==> sent[n].Write? && |sent[n].data| < size)
    && ShutdownsFrom(sent, m)
    && Sequential(sent, start)
    && Stream(sent) + Held(w.batch) == accepted && |Held(w.batch)| < size
    && w.client.rw.pos == start + |Stream(sent)|
    && (w.batch.Batched? ==> n == m == |sent|)
    && (w.client.rw.state == ShuttingDown ==> m < |sent|)
  }

  lemma CloseShutdown(info: Info, w: Writer, start: nat, accepted: seq<byte>, size: nat, n: nat, m: nat)
    requires Closing(w, start, accepted, size, n, m) && w.batch == Empty
    ensures Closing(StepBatchShutdown(info, w).w, start, accepted, size, n, m)
    ensures StepBatchShutdown(info, w).poll.Ready? ==> m < |w.client.ch.sent|
    ensures StepBatchShutdown(info, w).w.batch == Empty
  {
    var sent := w.client.ch.sent;
    ShutdownCases(w.client.rw, w.client.ch);
    StreamSnoc(sent, Shutdown, start);
    assert (sent + [Shutdown])[..n] == sent[..n];
    assert Stream(sent) + [] == Stream(sent);
  }

  lemma CloseDrain(info: Info, w: Writer, start: nat, accepted: seq<byte>, size: nat, n: nat) returns (m: nat)
    requires Closing(w, start, accepted, size, n, n) && w.batch.Batched? && size <= MAX_WRITE_SIZE
    requires start + |accepted| <= U64_MAX
    ensures n <= m
    ensures
      var d := StepDrain(info, w);
      && Closing(d.w, start, accepted, size, n, m)
      && (d.poll.Ready? ==> d.w.batch == Empty && StepBatchShutdown(info, w) == StepBatchShutdown(info, d.w))
      && (!d.poll.Ready? ==> StepBatchShutdown(info, w) == d)
  {
    var data, sent := w.batch.data, w.client.ch.sent;
    SendWrite(info, w.client.rw, w.client.ch, data, start);
    var o := StepWrite(info, w.client.rw, w.client.ch, data);
    var d := StepDrain(info, w);
    if o.poll.Ready? {
      m := n + 1;
      assert o.ch.sent[..n] == sent;
      assert sent[..n] == sent;
      assert Stream(o.ch.sent) + [] == Stream(o.ch.sent);
      assert d.w == Writer(Empty, w.seek, Client(o.rw, o.ch));
    } else {
      m := n;
    }
  }

  lemma CloseStep(info: Info, w: Writer, start: nat, accepted: seq<byte>, size: nat, n: nat, m: nat) returns (m': nat)
    requires Closing(w, start, accepted, size, n, m) && size <= MAX_WRITE_SIZE
    requires start + |accepted| <= U64_MAX
    ensures
      var s := StepBatchShutdown(info, w);
      && Closing(s.w, start, accepted, size, n, m')
      && (s.poll.Ready? ==> s.w.batch == Empty && m' < |s.w.client.ch.sent|)
  {
    if w.batch == Empty {
      m' := m;
      CloseShutdown(info, w, start, accepted, size, n, m);
    } else {
      m' := CloseDrain(info, w, start, accepted, size, n);
      var d := StepDrain(info, w);
      if d.poll.Ready? {
        CloseShutdown(info, d.w, start, accepted, size, n, m');
      }
    }
  }

  lemma {:induction false} CloseKeeps(info: Info, w: Writer, start: nat, accepted: seq<byte>,
                                      events: seq<Option<VolumeRwRuns.Event>>, size: nat, n: nat, m: nat)
    returns (m': nat)
    requires Closing(w, start, accepted, size, n, m) && size <= MAX_WRITE_SIZE
    requires start + |accepted| <= U64_MAX
    requires forall e :: e in events && e.Some? ==> External(e.value)
    ensures Closing(Close(info, w, events), start, accepted, size, n, m')
    decreases |events|
  {
    m' := m;
    if events != [] {
      match events[0] {
        case None =>
          m' := CloseStep(info, w, start, accepted, size, n, m);
          m' := CloseKeeps(info, StepBatchShutdown(info, w).w, start, accepted, events[1..], size, n, m');
        case Some(e) =>
          assert External(events[0].value);
          m' := CloseKeeps(info, OutsideStep(info, w, e), start, accepted, events[1..], size, n, m);
      }
    }
  }

  lemma {:induction false} ShutdownOps(sent: seq<Request>)
    requires ShutdownsFrom(sent, 0)
    ensures |Ops(sent)| == |sent| && AllFlush(Ops(sent))
  {
    if sent != [] {
      assert IsShutdown(sent[|sent| - 1]);
      ShutdownOps(sent[..|sent| - 1]);
    }
  }

  lemma {:induction false} OverlaySnoc(image: Image, ops: seq<R.Op>, op: R.Op)
    ensures
      R.Overlay(image, ops + [op]) ==
      if op.Write? then R.Overlay(image, ops) + Place(op.offset, op.data) else R.Overlay(image, ops)
    decreases |ops|
  {
    if ops == [] {
      assert [op][1..] == [];
    } else {
      assert (ops + [op])[1..] == ops[1..] + [op];
      OverlaySnoc(if ops[0].Write? then image + Place(ops[0].offset, ops[0].data) else image, ops[1..], op);
    }
  }

  lemma SequentialPrefix(sent: seq<Request>, start: nat, n: nat)
    requires n <= |sent| && Sequential(sent, start)
    ensures Sequential(sent[..n], start)
  {
    forall i | 0 <= i < n
      ensures sent[..n][..i] == sent[..i]
    {
    }
  }

  lemma {:induction false} WholeOps(sent: seq<Request>, start: nat)
    requires FullWrites(sent, MAX_WRITE_SIZE) && Sequential(sent, start)
    requires Aligned(start) && start + |Stream(sent)| <= R.OFFSET_LIMIT
    ensures Aligned(|Stream(sent)|)
    ensures forall op :: op in Ops(sent) ==> R.WholeOp(op) && op.Write? && |op.data| == MAX_WRITE_SIZE
  {
    if sent != [] {
      var n := |sent| - 1;
      assert FullWrite(sent[n], MAX_WRITE_SIZE);
      SequentialPrefix(sent, start, n);
      WholeOps(sent[..n], start);
    }
  }

  /** Full buffers sent back to back lay their stream over the partition at the start. */
  lemma {:induction false} StreamOverlay(sent: seq<Request>, start: nat, image: Image)
    requires FullWrites(sent, MAX_WRITE_SIZE) && Sequential(sent, start)
    ensures R.Overlay(image, Ops(sent)) == image + Place(start, Stream(sent))
  {
    if sent == [] {
      assert image + Place(start, []) == image;
    } else {
      var n := |sent| - 1;
      var r, before := sent[n], sent[..n];
      assert FullWrite(r, MAX_WRITE_SIZE);
      SequentialPrefix(sent, start, n);
      StreamOverlay(before, start, image);
      OverlaySnoc(image, Ops(before), R.Write(r.offset, r.data));
      PlaceConcat(start, Stream(before), r.data);
      OverlayAssoc(image, Place(start, Stream(before)), Place(r.offset, r.data));
    }
  }

  /** The partition a server leaves when `all` was streamed to it from `start`. */
  ghost predicate Holds(device: Image, start: nat, all: seq<byte>, t: Option<R.Target>) {
    exists k ::
      && (k == 0 || k == RoundUp(|all|) - |all|)
      && t == Some(R.Target(device + Place(start, all + Zeros(k)), []))
  }

  /** The partition of a target whose flashes may fail, once it answered all requests without an error. */
  ghost predicate HoldsOnceAnswered(device: Image, start: nat, all: seq<byte>, requests: seq<Request>, max: nat)
    requires max >= 8192
  {
    forall attempts: seq<seq<Attempt>> :: |attempts| == |requests| ==>
      var s := Serve(R.Target(device, []), requests, attempts, max);
      FastbootTarget.AllTrue(s.answers) ==> Holds(device, start, all, Some(s.target))
  }

  lemma Answered(device: Image, start: nat, all: seq<byte>, requests: seq<Request>, max: nat)
    requires max >= 8192 && Holds(device, start, all, R.Run(R.Target(device, []), Ops(requests), max))
    ensures HoldsOnceAnswered(device, start, all, requests, max)
  {
    forall attempts: seq<seq<Attempt>> | |attempts| == |requests|
      ensures
        var s := Serve(R.Target(device, []), requests, attempts, max);
        FastbootTarget.AllTrue(s.answers) ==> Holds(device, start, all, Some(s.target))
    {
      if FastbootTarget.AllTrue(Serve(R.Target(device, []), requests, attempts, max).answers) {
        AllServed(R.Target(device, []), requests, attempts, max);
      }
    }
  }

  lemma SmallWrite(len: nat)
    requires len <= MAX_WRITE_SIZE
    ensures F.FLASH_THRESHOLD + RoundUp(len) + 24 <= 19 * 1024 * 1024 + 24
  {
  }

  lemma WholeRun(whole: seq<Request>, start: nat, device: Image, max: nat) returns (u: R.Target)
    requires FullWrites(whole, MAX_WRITE_SIZE) && Sequential(whole, start)
    requires Aligned(start) && start + |Stream(whole)| <= R.OFFSET_LIMIT
    requires max >= 19 * 1024 * 1024 + 24
    ensures R.Run(R.Target(device, []), Ops(whole), max) == Some(u)
    ensures R.Whole(u.buffered) && R.Meaning(u) == device + Place(start, Stream(whole))
    ensures Aligned(|Stream(whole)|)
  {
    var t := R.Target(device, []);
    WholeOps(whole, start);
    assert R.Affordable(Ops(whole), max) by { SmallWrite(MAX_WRITE_SIZE); }
    R.AffordableRun(t, Ops(whole), max);
    R.RunWhole(t, Ops(whole), max);
    StreamOverlay(whole, start, device);
    u := R.Run(t, Ops(whole), max).value;
  }

  lemma RunThen(t: R.Target, a: seq<R.Op>, u: R.Target, b: seq<R.Op>, max: nat)
    requires F.Ready(t.buffered, max) && R.Run(t, a, max) == Some(u)
    ensures F.Ready(u.buffered, max) && R.Run(t, a + b, max) == R.Run(u, b, max)
  {
    R.RunConcat(t, a, b, max);
  }

  /** More flushes change nothing. */
  lemma FlushedTail(u: R.Target, op: R.Op, t: R.Target, flushes: seq<R.Op>, max: nat)
    requires F.Ready(u.buffered, max) && R.Run(u, [op, R.Flush], max) == Some(t) && t.buffered == []
    requires flushes != [] && AllFlush(flushes)
    ensures R.Run(u, [op] + flushes, max) == Some(t)
  {
    assert [op] + flushes == [op, R.Flush] + flushes[1..];
    R.RunConcat(u, [op, R.Flush], flushes[1..], max);
    IdleFlushes(t, flushes[1..], max);
  }

  lemma EmptyWrite(u: R.Target, offset: nat, ops: seq<R.Op>, max: nat)
    requires F.Ready(u.buffered, max)
    ensures R.Run(u, [R.Write(offset, [])] + ops, max) == R.Run(u, ops, max)
  {
    assert ([R.Write(offset, [])] + ops)[1..] == ops;
  }

  lemma HoldsBy(device: Image, start: nat, all: seq<byte>, k: nat, t: Option<R.Target>)
    requires k == 0 || k == RoundUp(|all|) - |all|
    requires t == Some(R.Target(device + Place(start, all + Zeros(k)), []))
    ensures Holds(device, start, all, t)
  {
  }

  /** Completed on its own or as the end of an aligned stream, a last write gets the same zeros. */
  lemma PlacedBytes(stream: seq<byte>, last: seq<byte>, placed: seq<byte>) returns (k: nat)
    requires R.Finish(last, placed) && Aligned(|stream|)
    ensures stream + placed == (stream + last) + Zeros(k)
    ensures k == 0 || k == RoundUp(|stream + last|) - |stream + last|
  {
    RoundUpSum(|stream|, |last|);
    if placed == last {
      k := 0;
      assert (stream + last) + Zeros(0) == stream + last;
    } else {
      k := RoundUp(|last|) - |last|;
      ConcatAssoc(stream, last, Zeros(k));
    }
  }

  lemma PlacedTotal(image: Image, device: Image, start: nat, stream: seq<byte>, last: seq<byte>, placed: seq<byte>,
                    offset: nat)
    requires R.Finish(last, placed) && Aligned(|stream|) && offset == start + |stream|
    requires image == device + Place(start, stream)
    ensures Holds(device, start, stream + last, Some(R.Target(image + Place(offset, placed), [])))
  {
    var k := PlacedBytes(stream, last, placed);
    var all := stream + last;
    OverlayAssoc(device, Place(start, stream), Place(offset, placed));
    PlaceConcat(start, stream, placed);
    HoldsBy(device, start, all, k, Some(R.Target(image + Place(offset, placed), [])));
  }

  lemma AlignedSum(a: nat, b: nat)
    requires Aligned(a) && Aligned(b)
    ensures Aligned(a + b)
  {
  }

  /** What a last write and a flush leave after a run of aligned length. */
  lemma LastHolds(u: R.Target, device: Image, start: nat, stream: seq<byte>, last: seq<byte>, offset: nat, max: nat)
    returns (t: R.Target)
    requires offset == start + |stream|
    requires F.Ready(u.buffered, max) && R.Whole(u.buffered) && R.Meaning(u) == device + Place(start, stream)
    requires Aligned(start) && Aligned(|stream|) && start + |stream| < R.OFFSET_LIMIT
    requires |last| < MAX_WRITE_SIZE && max >= 19 * 1024 * 1024 + 24
    ensures R.Run(u, [R.Write(offset, last), R.Flush], max) == Some(t) && t.buffered == []
    ensures Holds(device, start, stream + last, Some(t))
  {
    var placed;
    t, placed := LastFlushed(u, offset, last, max) by { AlignedSum(start, |stream|); }
    PlacedTotal(R.Meaning(u), device, start, stream, last, placed, offset);
  }

  lemma LastFlushed(u: R.Target, offset: nat, last: seq<byte>, max: nat) returns (t: R.Target, placed: seq<byte>)
    requires F.Ready(u.buffered, max) && R.Whole(u.buffered) && Aligned(offset) && offset < R.OFFSET_LIMIT
    requires |last| < MAX_WRITE_SIZE && max >= 19 * 1024 * 1024 + 24
    ensures R.Run(u, [R.Write(offset, last), R.Flush], max) == Some(t)
    ensures R.Finish(last, placed) && t == R.Target(R.Meaning(u) + Place(offset, placed), [])
  {
    SmallWrite(|last|);
    placed := R.FinishFits(u, offset, last, max);
    t := R.Target(R.Meaning(u) + Place(offset, placed), []);
  }

  /** After a run that left `u` with the stream so far: a last write, then flushes. */
  lemma LastWritten(t: R.Target, ops: seq<R.Op>, u: R.Target, device: Image, start: nat, stream: seq<byte>,
                    last: seq<byte>, flushes: seq<R.Op>, max: nat) returns (r: Option<R.Target>)
    requires F.Ready(t.buffered, max) && R.Run(t, ops, max) == Some(u)
    requires R.Whole(u.buffered) && R.Meaning(u) == device + Place(start, stream)
    requires Aligned(start) && Aligned(|stream|) && start + |stream| < R.OFFSET_LIMIT
    requires |last| < MAX_WRITE_SIZE && max >= 19 * 1024 * 1024 + 24
    requires flushes != [] && AllFlush(flushes)
    ensures r == R.Run(t, ops + ([R.Write(start + |stream|, last)] + flushes), max)
    ensures Holds(device, start, stream + last, r)
  {
    var op := R.Write(start + |stream|, last);
    var end := LastHolds(u, device, start, stream, last, op.offset, max);
    FlushedTail(u, op, end, flushes, max);
    RunThen(t, ops, u, [op] + flushes, max);
    r := Some(end);
  }

  /** After such a run: only flushes. */
  lemma OnlyFlushed(t: R.Target, ops: seq<R.Op>, u: R.Target, device: Image, start: nat, stream: seq<byte>,
                    flushes: seq<R.Op>, max: nat) returns (r: Option<R.Target>)
    requires F.Ready(t.buffered, max) && R.Run(t, ops, max) == Some(u)
    requires R.Whole(u.buffered) && R.Meaning(u) == device + Place(start, stream)
    requires Aligned(start) && Aligned(|stream|) && start + |stream| < R.OFFSET_LIMIT
    requires max >= 19 * 1024 * 1024 + 24 && flushes != [] && AllFlush(flushes)
    ensures r == R.Run(t, ops + flushes, max)
    ensures Holds(device, start, stream, r)
  {
    var op := R.Write(start + |stream|, []);
    var end := LastHolds(u, device, start, stream, [], op.offset, max);
    FlushedTail(u, op, end, flushes, max);
    EmptyWrite(u, start + |stream|, flushes, max);
    RunThen(t, ops, u, flushes, max);
    assert stream + [] == stream;
    r := Some(end);
  }

  lemma LargestBuffer(info: Info)
    requires info.blocksize == Some(4096)
    ensures BufferSize(info) == MAX_WRITE_SIZE
  {
    assert MAX_WRITE_SIZE == 768 * 4096;
  }

  /** A byte stream written through a batch writer in pieces of any length, from a block-aligned
      position, and then shut down: whatever was pending, refused or retried on the way,
      the fastboot target holds exactly the accepted bytes at that position, with at most zeros up to
      the end of their last block, and nothing else on the partition has changed; so it does when flashes
      may fail, once every request was answered without an error. */
  lemma StreamReachesDevice(info: Info, w: Writer, start: nat, copy: seq<Event>,
                            close: seq<Option<VolumeRwRuns.Event>>, device: Image, max: nat)
    requires info.blocksize == Some(4096)
    requires w.batch == Empty && w.client.ch.sent == [] && w.client.rw.pos == start
    requires w.client.rw.state != ShuttingDown
    requires Aligned(start) && max >= 19 * 1024 * 1024 + 24
    requires forall e :: e in copy && e.Outside? ==> External(e.event)
    requires forall e :: e in close && e.Some? ==> External(e.value)
    requires start + |Copy(info, w, [], copy, MAX_WRITE_SIZE).1| <= R.OFFSET_LIMIT - 4096
    requires
      var copied := Copy(info, w, [], copy, MAX_WRITE_SIZE).0;
      StepBatchShutdown(info, Close(info, copied, close)).poll == Ready(())
    ensures BufferSize(info) == MAX_WRITE_SIZE
    ensures
      var (copied, all) := Copy(info, w, [], copy, MAX_WRITE_SIZE);
      var end := StepBatchShutdown(info, Close(info, copied, close)).w;
      && Holds(device, start, all, R.Run(R.Target(device, []), Ops(end.client.ch.sent), max))
      && HoldsOnceAnswered(device, start, all, end.client.ch.sent, max)
  {
    LargestBuffer(info);
    var all := Copy(info, w, [], copy, MAX_WRITE_SIZE).1;
    var n, m := CopyThenClose(info, w, start, copy, close);
    var end := StepBatchShutdown(info, Close(info, Copy(info, w, [], copy, MAX_WRITE_SIZE).0, close)).w;
    var r := ClosedRun(end, start, all, n, m, device, max);
    Answered(device, start, all, end.client.ch.sent, max);
  }

  lemma CopyThenClose(info: Info, w: Writer, start: nat, copy: seq<Event>, close: seq<Option<VolumeRwRuns.Event>>)
    returns (n: nat, m: nat)
    requires w.batch == Empty && w.client.ch.sent == [] && w.client.rw.pos == start
    requires w.client.rw.state != ShuttingDown
    requires forall e :: e in copy && e.Outside? ==> External(e.event)
    requires forall e :: e in close && e.Some? ==> External(e.value)
    requires start + |Copy(info, w, [], copy, MAX_WRITE_SIZE).1| <= R.OFFSET_LIMIT - 4096
    ensures
      var (copied, all) := Copy(info, w, [], copy, MAX_WRITE_SIZE);
      var s := StepBatchShutdown(info, Close(info, copied, close));
      && Closing(s.w, start, all, MAX_WRITE_SIZE, n, m)
      && (s.poll.Ready? ==> s.w.batch == Empty && m < |s.w.client.ch.sent|)
  {
    assert forall e :: e in copy ==> Modest(e, MAX_WRITE_SIZE);
    CopyKeeps(info, w, start, [], copy, MAX_WRITE_SIZE);
    var (copied, all) := Copy(info, w, [], copy, MAX_WRITE_SIZE);
    n := |copied.client.ch.sent|;
    assert copied.client.ch.sent[..n] == copied.client.ch.sent;
    m := CloseKeeps(info, copied, start, all, close, MAX_WRITE_SIZE, n, n);
    m := CloseStep(info, Close(info, copied, close), start, all, MAX_WRITE_SIZE, n, m);
  }

  /** Full buffers, one shorter write, shutdowns. */
  lemma ShortTail(sent: seq<Request>, start: nat, n: nat, device: Image, max: nat) returns (r: Option<R.Target>)
    requires n + 1 < |sent| && FullWrites(sent[..n], MAX_WRITE_SIZE) && Sequential(sent, start)
    requires sent[n].Write? && |sent[n].data| < MAX_WRITE_SIZE
    requires ShutdownsFrom(sent, n + 1)
    requires Aligned(start) && max >= 19 * 1024 * 1024 + 24
    requires start + |Stream(sent[..n + 1])| <= R.OFFSET_LIMIT - 4096
    ensures r == R.Run(R.Target(device, []), Ops(sent), max)
    ensures Holds(device, start, Stream(sent[..n + 1]), r)
  {
    var ops, stream, flushes := TailFacts(sent, start, n);
    var u := WholeRun(sent[..n], start, device, max) by { SequentialPrefix(sent, start, n); }
    r := LastWritten(R.Target(device, []), ops, u, device, start, stream, sent[n].data, flushes, max);
  }

  lemma TailFacts(sent: seq<Request>, start: nat, n: nat)
    returns (ops: seq<R.Op>, stream: seq<byte>, flushes: seq<R.Op>)
    requires n + 1 < |sent| && Sequential(sent, start) && sent[n].Write?
    requires ShutdownsFrom(sent, n + 1)
    ensures ops == Ops(sent[..n]) && stream == Stream(sent[..n])
    ensures flushes != [] && AllFlush(flushes) && sent[n].offset == start + |stream|
    ensures Ops(sent) == ops + ([R.Write(start + |stream|, sent[n].data)] + flushes)
    ensures Stream(sent[..n + 1]) == stream + sent[n].data
  {
    ops, stream, flushes := Ops(sent[..n]), Stream(sent[..n]), Ops(sent[n + 1..]);
    ShutdownOps(sent[n + 1..]);
    LastWrite(sent, n);
    assert sent[n].offset == start + |Stream(sent[..n])|;
    TailOps(sent, n);
  }

  /** Full buffers and shutdowns. */
  lemma WholeTail(sent: seq<Request>, start: nat, n: nat, device: Image, max: nat) returns (r: Option<R.Target>)
    requires n < |sent| && FullWrites(sent[..n], MAX_WRITE_SIZE) && Sequential(sent, start)
    requires ShutdownsFrom(sent, n)
    requires Aligned(start) && max >= 19 * 1024 * 1024 + 24
    requires start + |Stream(sent[..n])| <= R.OFFSET_LIMIT - 4096
    ensures r == R.Run(R.Target(device, []), Ops(sent), max)
    ensures Holds(device, start, Stream(sent[..n]), r)
  {
    var ops, stream, flushes := Ops(sent[..n]), Stream(sent[..n]), Ops(sent[n..]);
    assert flushes != [] && AllFlush(flushes) by { ShutdownOps(sent[n..]); }
    var u := WholeRun(sent[..n], start, device, max) by { SequentialPrefix(sent, start, n); }
    assert Ops(sent) == ops + flushes by {
      assert sent == sent[..n] + sent[n..];
      OpsConcat(sent[..n], sent[n..]);
    }
    r := OnlyFlushed(R.Target(device, []), ops, u, device, start, stream, flushes, max);
  }

  lemma ClosedRun(w: Writer, start: nat, all: seq<byte>, n: nat, m: nat, device: Image, max: nat)
    returns (r: Option<R.Target>)
    requires Closing(w, start, all, MAX_WRITE_SIZE, n, m) && w.batch == Empty && m < |w.client.ch.sent|
    requires Aligned(start) && max >= 19 * 1024 * 1024 + 24
    requires start + |all| <= R.OFFSET_LIMIT - 4096
    ensures r == R.Run(R.Target(device, []), Ops(w.client.ch.sent), max)
    ensures Holds(device, start, all, r)
  {
    var sent := w.client.ch.sent;
    assert all == Stream(sent[..m]) by {
      ShutdownStream(sent, m);
      assert Stream(sent) + [] == Stream(sent);
    }
    if n < m {
      r := ShortTail(sent, start, n, device, max);
    } else {
      r := WholeTail(sent, start, n, device, max);
    }
  }

  lemma TailOps(sent: seq<Request>, n: nat)
    requires n < |sent| && sent[n].Write?
    ensures Ops(sent) == Ops(sent[..n]) + ([R.Write(sent[n].offset, sent[n].data)] + Ops(sent[n + 1..]))
  {
    assert sent == sent[..n + 1] + sent[n + 1..];
    OpsConcat(sent[..n + 1], sent[n + 1..]);
    LastWrite(sent, n);
    ConcatAssoc(Ops(sent[..n]), [R.Write(sent[n].offset, sent[n].data)], Ops(sent[n + 1..]));
  }

  lemma LastWrite(sent: seq<Request>, n: nat)
    requires n < |sent| && sent[n].Write?
    ensures Stream(sent[..n + 1]) == Stream(sent[..n]) + sent[n].data
    ensures Ops(sent[..n + 1]) == Ops(sent[..n]) + [R.Write(sent[n].offset, sent[n].data)]
  {
    assert sent[..n + 1][..n] == sent[..n];
  }

  lemma {:induction false} ShutdownStream(sent: seq<Request>, m: nat)
    requires m <= |sent| && ShutdownsFrom(sent, m)
    ensures Stream(sent) == Stream(sent[..m])
    decreases |sent|
  {
    if m == |sent| {
      assert sent[..m] == sent;
    } else {
      var n := |sent| - 1;
      assert IsShutdown(sent[n]);
      ShutdownStream(sent[..n], m);
      assert sent[..n][..m] == sent[..m];
    }
  }
}
