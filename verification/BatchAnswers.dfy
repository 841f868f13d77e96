/** What each poll of a `BatchWriter` answers, given what its inner writer answers. */
module BatchAnswers {
  import opened Wrappers
  import opened Bytes
  import opened VolumeRw
  import opened VolumeRwRuns
  import opened VolumeRwAnswers
  import opened Batching

  /** The buffer holds as many blocks, of 4096 bytes if the volume names no size, as fit in 3 MiB. */
  lemma BlocksThatFit(info: Info)
    requires info.blocksize != Some(0)
    ensures
      var block, size := if info.blocksize.Some? then info.blocksize.value else 4096, BufferSize(info);
      size == (3 * 1024 * 1024 / block) * block && size <= 3 * 1024 * 1024 < size + block
  {
    var block := if info.blocksize.Some? then info.blocksize.value else 4096;
    assert 3 * 1024 * 1024 == (3 * 1024 * 1024 / block) * block + 3 * 1024 * 1024 % block;
  }

  /** The client after a write poll of the inner writer, and its answer. */
  function Inner(info: Info, c: Client, data: seq<byte>): (Client, Poll<nat>) {
    var (next, r) := Act(info, c, DoWrite(data));
    (next, r.wrote)
  }

  /** A write is batched while it leaves the buffer short of full, and taken whole. Otherwise the inner
      writer is offered the full buffer, or what was given when nothing is batched: if it is not ready, or
      fails, that is the answer and the batch stays; if it takes the buffer, in whole or in part, the bytes
      that completed the buffer are accepted, and what it did not take stays batched. */
  lemma PutAnswers(info: Info, w: Writer, buf: seq<byte>, size: nat)
    requires |Held(w.batch)| <= size
    ensures
      var s, data := StepPut(info, w, buf, size), Held(w.batch);
      if |data| + |buf| < size then s == Step(w.(batch := Batched(data + buf)), Ready(|buf|))
      else if w.batch == Empty then
        var (next, answer) := Inner(info, w.client, buf);
        s == Step(w.(client := next), answer)
      else
        var taken := size - |data|;
        var full := data + buf[..taken];
        var (next, answer) := Inner(info, w.client, full);
        && s.w.client == next && s.w.seek == w.seek
        && (match answer
            case Pending => s.poll == Pending && s.w.batch == w.batch
            case Fail(e) => s.poll == Fail(e) && s.w.batch == w.batch
            case Ready(n) =>
              s.poll == Ready(taken) && s.w.batch == if n < size then Batched(full[n..]) else Empty)
  {
    assert [] + buf == buf;
  }

  /** Draining offers the batch to the inner writer: its answer is passed on, and once it takes the batch
      nothing is left. */
  lemma DrainAnswers(info: Info, w: Writer)
    requires |Held(w.batch)| <= MAX_WRITE_SIZE
    ensures
      var s := StepDrain(info, w);
      if w.batch == Empty then s == Step(w, Ready(()))
      else
        var (next, answer) := Inner(info, w.client, w.batch.data);
        match answer
        case Pending => s == Step(w.(client := next), Pending)
        case Fail(e) => s == Step(w.(client := next), Fail(e))
        case Ready(n) => s == Step(Writer(Empty, w.seek, next), Ready(())) && n == |w.batch.data|
  {
    if w.batch != Empty {
      var k := OldestExists(w.client.rw.pending, w.client.ch.replies);
      if !info.writable || !Fails(w.client.rw.pending, w.client.ch.replies, k) {
        WriteAnswers(info, w.client, w.batch.data, k);
      }
    }
  }

  /** A flush, unless those are discarded, and a shutdown drain the batch first, and then are those of the
      inner writer. */
  lemma EndAnswers(info: Info, w: Writer, e: VolumeRwRuns.Event, discard: bool)
    requires e.DoFlush? || e.DoShutdown?
    requires |Held(w.batch)| <= MAX_WRITE_SIZE
    ensures
      var s := if e.DoFlush? then StepBatchFlush(info, w, discard) else StepBatchShutdown(info, w);
      if e.DoFlush? && discard then s == Step(w, Ready(()))
      else
        var d := StepDrain(info, w);
        if !d.poll.Ready? then s == d && s.w.batch == w.batch
        else
          var (next, r) := Act(info, d.w.client, e);
          s == Step(Writer(Empty, w.seek, next), r.drained)
  {
    DrainAnswers(info, w);
  }

  /** A flush or shutdown that completes leaves nothing batched and nothing awaited: the inner writer was
      waiting for it, and every request before was answered without an error not returned yet. */
  lemma EndCompletes(info: Info, w: Writer, e: VolumeRwRuns.Event)
    requires e.DoFlush? || e.DoShutdown?
    requires |Held(w.batch)| <= MAX_WRITE_SIZE
    ensures
      var s := if e.DoFlush? then StepBatchFlush(info, w, false) else StepBatchShutdown(info, w);
      s.poll.Ready? <==>
        && w.batch == Empty && w.client.rw.state == Waiting(e)
        && AnsweredWell(w.client.rw.pending, w.client.ch.replies)
  {
    EndAnswers(info, w, e, false);
    DrainAnswers(info, w);
    var d := StepDrain(info, w);
    if d.poll.Ready? {
      EndPolls(info, d.w.client, e);
      if w.batch != Empty {
        DrainedIdle(info, w);
      }
    }
  }

  lemma EndPolls(info: Info, c: Client, e: VolumeRwRuns.Event)
    requires e.DoFlush? || e.DoShutdown?
    ensures
      Act(info, c, e).1.drained.Ready? <==>
        c.rw.state == Waiting(e) && AnsweredWell(c.rw.pending, c.ch.replies)
  {
    if c.rw.state == Waiting(e) {
      WaitingCompletes(info, c, e);
    } else {
      var k := OldestExists(c.rw.pending, c.ch.replies);
      if Fails(c.rw.pending, c.ch.replies, k) {
        FailureIsReported(info, c, e, k);
      } else {
        WaitAnswers(info, c, e, k);
      }
    }
  }

  lemma DrainedIdle(info: Info, w: Writer)
    requires w.batch != Empty && |w.batch.data| <= MAX_WRITE_SIZE && StepDrain(info, w).poll.Ready?
    ensures StepDrain(info, w).w.client.rw.state == Idle
  {
    DrainAnswers(info, w);
    var k := OldestExists(w.client.rw.pending, w.client.ch.replies);
    if info.writable && Fails(w.client.rw.pending, w.client.ch.replies, k) {
      FailureIsReported(info, w.client, DoWrite(w.batch.data), k);
    } else {
      WriteAnswers(info, w.client, w.batch.data, k);
    }
  }

  /** With nothing batched a seek goes to the inner writer; otherwise it is kept back, one at a time. */
  lemma StartSeekAnswers(info: Info, w: Writer, position: SeekFrom)
    ensures
      var s := StepBatchStartSeek(info, w, position);
      if w.batch == Empty then
        && s.w == w.(client := Act(info, w.client, DoStartSeek(position)).0)
        && s.poll == if info.seekable then Ready(()) else Fail(Unsupported)
      else if w.seek.Some? then s == Step(w, Fail(SeekInProgress))
      else s == Step(w.(seek := Some(position)), Ready(()))
  {
  }

  /** A seek with nothing batched, as a client does that writes from an offset on: it moves the cursor of
      the inner writer, sends nothing and accepts nothing. */
  lemma SeekUnbatched(info: Info, w: Writer, position: SeekFrom)
    requires w.batch == Empty && w.seek.None? && info.seekable
    ensures
      var asked := StepBatchStartSeek(info, w, position);
      var s := StepBatchSeek(info, asked.w);
      var to := SeekTarget(info, w.client.rw.pos, position);
      && asked.poll == Ready(())
      && (to.Some? ==>
            && s.poll == Ready(Clamp(to.value))
            && s.w == w.(client := Client(w.client.rw.(seek := None, pos := Clamp(to.value)), w.client.ch)))
      && (to.None? ==>
            && s.poll == Fail(Unsupported)
            && s.w == w.(client := Client(w.client.rw.(seek := None), w.client.ch)))
      && (position.Start? ==> to == Some(position.pos))
  {
  }

  lemma {:induction false} DrainKeepsSeek(info: Info, w: Writer)
    ensures StepDrain(info, w).w.seek == w.seek
    decreases if w.batch.Empty? then 0 else 1 + |w.batch.data|
  {
    if w.batch.Batched? {
      var o := StepWrite(info, w.client.rw, w.client.ch, w.batch.data);
      if o.poll.Ready? {
        DrainKeepsSeek(info, Writer(AfterDrain(w.batch.data, o.poll), w.seek, Client(o.rw, o.ch)));
      }
    }
  }

  /** A seek whose batch cannot be drained yet is pending, or fails as the drain does, and is kept; then the
      one kept back, if there is one, is handed to the inner writer, and completed there; on a volume that
      cannot seek it fails. */
  lemma SeekWaits(info: Info, w: Writer)
    ensures
      var d, s := StepDrain(info, w), StepBatchSeek(info, w);
      && (d.poll == Pending ==> s == Step(d.w, Pending))
      && (d.poll.Fail? ==> s == Step(d.w, Fail(d.poll.error)))
      && (d.poll.Ready? ==> s.w.batch == Empty && s.w.seek == None && s.w.client.ch == d.w.client.ch)
      && (d.poll.Ready? && !info.seekable ==> s.poll == Fail(Unsupported))
      && (d.poll.Ready? && info.seekable ==>
            var c := if w.seek.Some? then Act(info, d.w.client, DoStartSeek(w.seek.value)).0 else d.w.client;
            var (next, r) := Act(info, c, DoSeek);
            s == Step(Writer(Empty, None, next), r.moved))
  {
    DrainKeepsSeek(info, w);
  }
}
