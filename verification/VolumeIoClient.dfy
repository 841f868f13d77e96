/** The request channel and the wrapper around it, as they are updated in place. */
module VolumeIoClient {
  import opened Wrappers
  import opened Bytes
  import opened VolumeRw

  class VolumeIo {
    var sent: seq<Request>
    var replies: map<nat, Reply>
    var slot: Slot

    ghost function View(): Channel
      reads this
    {
      Channel(sent, replies, slot)
    }

    constructor ()
      ensures View() == Channel([], map[], Free)
    {
      sent, replies, slot := [], map[], Free;
    }

    /** Send on a reserved slot; the request is identified by its position. */
    method Send(r: Request) returns (id: nat)
      modifies this
      ensures id == |old(sent)| && View() == old(View()).Send(r)
    {
      id := |sent|;
      sent := sent + [r];
      slot := Full;
    }
  }

  class VolumeIoRW {
    const io: VolumeIo
    const info: Info
    var pos: u64
    var state: IoState
    var pendingSeek: Option<SeekFrom>
    var pendingRequests: seq<nat>
    var bufferedRead: seq<byte>
    ghost var settled: seq<nat>
    ghost var reported: seq<nat>

    ghost function View(): Rw
      reads this
    {
      Rw(pos, state, pendingSeek, pendingRequests, bufferedRead, settled, reported)
    }

    constructor (io: VolumeIo, info: Info)
      ensures this.io == io && this.info == info
      ensures View() == Rw(0, Idle, None, [], [], [], [])
    {
      this.io, this.info := io, info;
      pos, state, pendingSeek, pendingRequests, bufferedRead := 0, Idle, None, [], [];
      settled, reported := [], [];
    }

    method CleanupPendingRequests() returns (error: Option<nat>)
      modifies this
      ensures (View(), error) == Cleanup(old(View()), io.replies)
    {
      while pendingRequests != [] && pendingRequests[0] in io.replies
        invariant Cleanup(View(), io.replies) == Cleanup(old(View()), io.replies)
        decreases |pendingRequests|
      {
        var id := pendingRequests[0];
        pendingRequests := pendingRequests[1..];
        settled := settled + [id];
        if io.replies[id].Error? {
          reported := reported + [id];
          return Some(id);
        }
      }
      error := None;
    }

    method CopyBufferedRead(room: nat) returns (copied: bool, out: seq<byte>)
      modifies this
      ensures copied == (old(bufferedRead) != [])
      ensures Outcome(View(), io.View(), Ready(out)) == HandOut(old(View()), io.View(), room)
    {
      if bufferedRead == [] {
        return false, [];
      }
      var available := Min(room, |bufferedRead|);
      out := bufferedRead[..available];
      bufferedRead := bufferedRead[available..];
      pos := SatAdd(pos, |out|);
      copied := true;
    }

    method PollWrite(buf: seq<byte>) returns (poll: Poll<nat>)
      modifies this, io
      ensures Outcome(View(), io.View(), poll) == StepWrite(info, old(View()), old(io.View()), buf)
    {
      if !info.writable {
        return Fail(Unsupported);
      }
      bufferedRead := [];
      CleanupState(View(), io.replies, Idle);
      var error := CleanupPendingRequests();
      if error.Some? {
        return Fail(RequestFailed(error.value));
      }
      while true
        invariant View() == Cleanup(old(View()).(leftover := []), io.replies).0.(state := state)
        invariant io.View() == old(io.View()) && pos == old(pos)
        decreases if state == Reserving then 0 else if state == Idle then 1 else 2
      {
        match state {
          case Idle =>
            state := Reserving;
          case Reserving =>
            match io.slot {
              case Full => return Poll.Pending;
              case Closed => return Fail(NotConnected);
              case Free =>
                var len := Min(|buf|, MAX_WRITE_SIZE);
                var id := io.Send(Write(buf[..len], pos));
                pendingRequests := pendingRequests + [id];
                pos := SatAdd(pos, len);
                state := Idle;
                return Ready(len);
            }
          case _ =>
            state := Idle;
        }
      }
    }

    method PollFlush() returns (poll: Poll<()>)
      requires io.View().Valid()
      modifies this, io
      ensures Outcome(View(), io.View(), poll) == StepFlush(old(View()), old(io.View()))
    {
      while true
        invariant io.View().Valid()
        invariant StepFlush(View(), io.View()) == StepFlush(old(View()), old(io.View()))
        decreases if state == Flushing then 0 else if state == Reserving then 1 else if state == Idle then 2 else 3
      {
        CleanupStays(View(), io.replies, [|io.sent|]);
        CleanupState(View(), io.replies, Idle);
        var error := CleanupPendingRequests();
        if error.Some? {
          state := Idle;
          return Fail(RequestFailed(error.value));
        }
        CleanupState(View(), io.replies, Idle);
        CleanupState(View(), io.replies, Reserving);
        CleanupState(View().(pending := pendingRequests + [|io.sent|]), io.replies, Flushing);
        match state {
          case Idle =>
            state := Reserving;
          case Reserving =>
            match io.slot {
              case Full => return Poll.Pending;
              case Closed => return Fail(NotConnected);
              case Free =>
                pendingRequests := pendingRequests + [|io.sent|];
                state := Flushing;
                var _ := io.Send(Flush);
            }
          case Flushing =>
            if pendingRequests == [] {
              state := Idle;
              return Ready(());
            }
            return Poll.Pending;
          case Reading(_) =>
            state := Idle;
          case ShuttingDown =>
            return Fail(InvalidInput);
        }
      }
    }

    method PollShutdown() returns (poll: Poll<()>)
      requires io.View().Valid()
      modifies this, io
      ensures Outcome(View(), io.View(), poll) == StepShutdown(old(View()), old(io.View()))
    {
      while true
        invariant io.View().Valid()
        invariant StepShutdown(View(), io.View()) == StepShutdown(old(View()), old(io.View()))
        decreases if state == ShuttingDown then 0 else if state == Reserving then 1 else if state == Idle then 2 else 3
      {
        CleanupStays(View(), io.replies, [|io.sent|]);
        CleanupState(View(), io.replies, Idle);
        var error := CleanupPendingRequests();
        if error.Some? {
          state := Idle;
          return Fail(RequestFailed(error.value));
        }
        CleanupState(View(), io.replies, Idle);
        CleanupState(View(), io.replies, Reserving);
        CleanupState(View().(pending := pendingRequests + [|io.sent|]), io.replies, ShuttingDown);
        match state {
          case Idle =>
            state := Reserving;
          case Reserving =>
            match io.slot {
              case Full => return Poll.Pending;
              case Closed => return Fail(NotConnected);
              case Free =>
                pendingRequests := pendingRequests + [|io.sent|];
                state := ShuttingDown;
                var _ := io.Send(Shutdown);
            }
          case ShuttingDown =>
            if pendingRequests == [] {
              state := Idle;
              return Ready(());
            }
            return Poll.Pending;
          case _ =>
            state := Idle;
        }
      }
    }

    method PollRead(room: nat) returns (poll: Poll<seq<byte>>)
      requires io.View().Valid()
      modifies this, io
      ensures Outcome(View(), io.View(), poll) == StepRead(info, old(View()), old(io.View()), room)
    {
      if !info.readable {
        return Fail(Unsupported);
      }
      var copied, out := CopyBufferedRead(room);
      if copied {
        return Ready(out);
      }
      while true
        invariant io.View().Valid() && bufferedRead == []
        invariant StepRead(info, View(), io.View(), room) == StepRead(info, old(View()), old(io.View()), room)
        decreases if state.Reading? then 0 else if state == Reserving then 1 else if state == Idle then 2 else 3
      {
        match state {
          case Idle =>
            state := Reserving;
          case Reserving =>
            match io.slot {
              case Full => return Poll.Pending;
              case Closed => return Fail(NotConnected);
              case Free =>
                state := Reading(|io.sent|);
                var _ := io.Send(Read(room, pos));
            }
          case Reading(id) =>
            if id !in io.replies {
              return Poll.Pending;
            }
            state := Idle;
            match io.replies[id] {
              case Data(data) =>
                bufferedRead := data;
                copied, out := CopyBufferedRead(room);
                return Ready(out);
              case _ =>
                return Fail(RequestFailed(id));
            }
          case _ =>
            state := Idle;
        }
      }
    }

    method StartSeek(position: SeekFrom) returns (poll: Poll<()>)
      modifies this
      ensures (View(), poll) == StepStartSeek(info, old(View()), position)
    {
      if !info.seekable {
        return Fail(Unsupported);
      }
      pendingSeek := Some(position);
      poll := Ready(());
    }

    method PollComplete() returns (poll: Poll<u64>)
      modifies this
      ensures (View(), poll) == StepSeek(info, old(View()))
    {
      if !info.seekable {
        return Fail(Unsupported);
      }
      if pendingSeek.Some? {
        var position := pendingSeek.value;
        pendingSeek := None;
        var base: u64, offset;
        match position {
          case Start(s) =>
            base, offset := s, 0;
          case End(e) =>
            if info.size.None? {
              return Fail(Unsupported);
            }
            base, offset := info.size.value, e;
          case Current(c) =>
            base, offset := pos, c;
        }
        if offset > 0 {
          pos := SatAdd(base, offset);
        } else {
          pos := if base < -offset then 0 else base + offset;
        }
      }
      poll := Ready(pos);
    }
  }
}
