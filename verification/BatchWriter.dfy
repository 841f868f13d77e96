/** The batch writer as it is updated in place. */
module BatchWriterClient {
  import opened Wrappers
  import opened Bytes
  import opened VolumeRw
  import opened VolumeIoClient
  import opened Batching

  class BatchWriter {
    const bufferSize: nat
    const writer: VolumeIoRW
    const discardFlush: bool
    var state: Batch
    var pendingSeek: Option<SeekFrom>

    ghost function View(): Writer
      reads this, writer, writer.io
    {
      Writer(state, pendingSeek, Client(writer.View(), writer.io.View()))
    }

    /** Holds between polls: the batch never outgrows one buffer. */
    ghost predicate Valid()
      reads this, writer, writer.io
    {
      |Held(state)| <= bufferSize && writer.io.View().Valid()
    }

    constructor (writer: VolumeIoRW, discardFlush: bool)
      requires writer.info.blocksize != Some(0) && writer.io.View().Valid()
      ensures Valid() && this.writer == writer && this.discardFlush == discardFlush
      ensures bufferSize == BufferSize(writer.info)
      ensures View() == Writer(Empty, None, Client(writer.View(), writer.io.View()))
    {
      var blocksize := if writer.info.blocksize.Some? then writer.info.blocksize.value else 4096;
      bufferSize := MAX_WRITE_SIZE - MAX_WRITE_SIZE % blocksize;
      this.writer, this.discardFlush := writer, discardFlush;
      state, pendingSeek := Empty, None;
    }

    method PollFlushData() returns (poll: Poll<()>)
      requires Valid()
      modifies this, writer, writer.io
      ensures Valid() && Step(View(), poll) == StepDrain(writer.info, old(View()))
    {
      while true
        invariant Valid()
        invariant StepDrain(writer.info, View()) == StepDrain(writer.info, old(View()))
        decreases if state.Empty? then 0 else 1 + |state.data|
      {
        match state {
          case Empty => return Ready(());
          case Batched(b) =>
            WriteKeepsChannel(writer.info, writer.View(), writer.io.View(), b);
            var p := writer.PollWrite(b);
            match p {
              case Pending => return Poll.Pending;
              case Fail(e) => return Fail(e);
              case Ready(written) =>
                state := if written >= |b| then Empty else Batched(b[written..]);
            }
        }
      }
    }

    method PollWrite(buf: seq<byte>) returns (poll: Poll<nat>)
      requires Valid()
      modifies this, writer, writer.io
      ensures Valid() && Step(View(), poll) == StepPut(writer.info, old(View()), buf, bufferSize)
    {
      match state {
        case Empty =>
          if |buf| >= bufferSize {
            WriteKeepsChannel(writer.info, writer.View(), writer.io.View(), buf);
            poll := writer.PollWrite(buf);
          } else {
            assert [] + buf == buf;
            state := Batched(buf);
            poll := Ready(|buf|);
          }
        case Batched(b) =>
          var cached := |b|;
          if |buf| + cached < bufferSize {
            state := Batched(b + buf);
            poll := Ready(|buf|);
          } else {
            var remaining := bufferSize - cached;
            var full := b + buf[..remaining];
            WriteKeepsChannel(writer.info, writer.View(), writer.io.View(), full);
            var p := writer.PollWrite(full);
            match p {
              case Ready(written) =>
                state := if written >= |full| then Empty else Batched(full[written..]);
                poll := Ready(remaining);
              case _ =>
                assert full[..cached] == b;
                state := Batched(full[..cached]);
                poll := p;
            }
          }
      }
    }

    method PollFlush() returns (poll: Poll<()>)
      requires Valid()
      modifies this, writer, writer.io
      ensures Valid() && Step(View(), poll) == StepBatchFlush(writer.info, old(View()), discardFlush)
    {
      if discardFlush {
        return Ready(());
      }
      poll := PollFlushData();
      if poll.Ready? {
        DrainKeepsChannel(writer.View(), writer.io.View());
        poll := writer.PollFlush();
      }
    }

    method PollShutdown() returns (poll: Poll<()>)
      requires Valid()
      modifies this, writer, writer.io
      ensures Valid() && Step(View(), poll) == StepBatchShutdown(writer.info, old(View()))
    {
      poll := PollFlushData();
      if poll.Ready? {
        DrainKeepsChannel(writer.View(), writer.io.View());
        poll := writer.PollShutdown();
      }
    }

    method StartSeek(position: SeekFrom) returns (poll: Poll<()>)
      modifies this, writer
      ensures Step(View(), poll) == StepBatchStartSeek(writer.info, old(View()), position)
    {
      match state {
        case Empty =>
          poll := writer.StartSeek(position);
        case Batched(_) =>
          if pendingSeek.Some? {
            return Fail(SeekInProgress);
          }
          pendingSeek := Some(position);
          poll := Ready(());
      }
    }

    method PollComplete() returns (poll: Poll<u64>)
      requires Valid()
      modifies this, writer, writer.io
      ensures Valid() && Step(View(), poll) == StepBatchSeek(writer.info, old(View()))
    {
      var d := PollFlushData();
      match d {
        case Pending => return Poll.Pending;
        case Fail(e) => return Fail(e);
        case Ready(_) =>
      }
      if pendingSeek.Some? {
        var position := pendingSeek.value;
        pendingSeek := None;
        var p := writer.StartSeek(position);
        if p.Fail? {
          return Fail(p.error);
        }
      }
      poll := writer.PollComplete();
    }
  }

  lemma WriteKeepsChannel(info: Info, rw: Rw, ch: Channel, buf: seq<byte>)
    requires ch.Valid()
    ensures StepWrite(info, rw, ch, buf).ch.Valid()
  {
  }

  lemma DrainKeepsChannel(rw: Rw, ch: Channel)
    requires ch.Valid()
    ensures StepFlush(rw, ch).ch.Valid() && StepShutdown(rw, ch).ch.Valid()
  {
  }
}
