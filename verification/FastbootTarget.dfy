/** The fastboot volume target and the command channel of its device. */
module FastbootTarget {
  import opened Wrappers
  import opened Bytes
  import opened Fastboot
  import opened FastbootWrite

  /** The command channel of a device: flashes in the order they were sent, and what became of every
      command sent, flashes and pings. */
  class FastbootDevice {
    var flashes: seq<seq<Chunk>>
    var outcomes: seq<bool>

    /** Send a flash; fails when the device task is gone. */
    method Flash(chunks: seq<Chunk>) returns (sent: bool)
      modifies this
      ensures flashes == if sent then old(flashes) + [chunks] else old(flashes)
      ensures OneMore(old(outcomes), outcomes, sent)
    {
      sent := *;
      if sent {
        flashes := flashes + [chunks];
        var ok: bool := *;
        outcomes := outcomes + [ok];
      }
    }

    /** Wait for the result of the last command sent. */
    method Result() returns (ok: bool)
      requires outcomes != []
      ensures ok == outcomes[|outcomes| - 1]
    {
      ok := outcomes[|outcomes| - 1];
    }

    /** Send a ping and wait for its answer. */
    method Ping() returns (ok: bool)
      modifies this
      ensures flashes == old(flashes)
      ensures outcomes == old(outcomes) || OneMore(old(outcomes), outcomes, true)
      ensures ok <==> outcomes == old(outcomes) + [true]
    {
      var sent := *;
      ok := *;
      if sent {
        outcomes := outcomes + [ok];
        assert outcomes[|outcomes| - 1] == ok;
      } else {
        ok := false;
      }
    }
  }

  predicate OneMore(before: seq<bool>, after: seq<bool>, sent: bool) {
    before <= after && |after| == |before| + if sent then 1 else 0
  }

  /** How a write request is answered. */
  datatype Completion =
    | Done(written: nat)
    | AfterFlashes(count: nat, written: nat)  // once the last `count` flashes succeeded
    | Failed

  /** The number of bytes a write is answered with, or none for an error, once the results of its
      flashes are in. */
  function Answer(completion: Completion, results: seq<bool>): Option<nat> {
    match completion
    case Done(written) => Some(written)
    case AfterFlashes(_, written) => if AllTrue(results) then Some(written) else None
    case Failed => None
  }

  predicate AllTrue(results: seq<bool>) {
    forall i :: 0 <= i < |results| ==> results[i]
  }

  /** What completes a write: `results` are those of its flashes, in the order they were sent. */
  method Complete(completion: Completion, results: seq<bool>) returns (answer: Option<nat>)
    requires completion.AfterFlashes? ==> |results| == completion.count
    ensures answer == Answer(completion, results)
    ensures
      answer.None? <==>
        completion.Failed? || (completion.AfterFlashes? && exists i :: 0 <= i < |results| && !results[i])
    ensures answer.Some? ==> answer.value == completion.written
  {
    match completion {
      case Done(written) => answer := Some(written);
      case AfterFlashes(_, written) =>
        for i := 0 to |results|
          invariant AllTrue(results[..i])
        {
          if !results[i] {
            return None;
          }
        }
        assert results[..|results|] == results;
        answer := Some(written);
      case Failed => answer := None;
    }
  }

  /** With what is left of a write the queue will be `all`, after `sent` flashes of `total`. */
  ghost predicate Sending(all: seq<seq<Chunk>>, last: seq<Chunk>, total: nat, queue: seq<seq<Chunk>>, sent: nat,
                          chunks: seq<Chunk>, offset: nat, rest: seq<byte>, max: nat)
    requires Ready(chunks, max)
  {
    var v := WriteLoop(chunks, offset, rest, max);
    queue + v.flashes == all && v.chunks == last && sent + |v.flashes| == total
  }

  lemma Moved<T>(queue: seq<T>, turn: seq<T>, rest: seq<T>, all: seq<T>)
    requires queue + (turn + rest) == all
    ensures (queue + turn) + rest == all && queue <= all && (turn != [] ==> queue < all)
  {
    ConcatAssoc(queue, turn, rest);
  }

  /** One turn of the loop. */
  lemma SendingTurn(all: seq<seq<Chunk>>, last: seq<Chunk>, total: nat, queue: seq<seq<Chunk>>, sent: nat,
                    chunks: seq<Chunk>, offset: nat, rest: seq<byte>, max: nat) returns (t: Turned)
    requires Ready(chunks, max) && rest != [] && Sending(all, last, total, queue, sent, chunks, offset, rest, max)
    ensures t == Turn(chunks, offset, rest, max)
    ensures Sending(all, last, total, queue + t.flashed, sent + |t.flashed|, t.chunks, offset, t.rest, max)
    ensures t.flashed != [] ==> queue < all
  {
    t := Turn(chunks, offset, rest, max);
    WriteTurn(chunks, offset, rest, max);
    Moved(queue, t.flashed, WriteLoop(t.chunks, offset, t.rest, max).flashes, all);
  }

  lemma SendingDone(all: seq<seq<Chunk>>, last: seq<Chunk>, total: nat, queue: seq<seq<Chunk>>, sent: nat,
                    chunks: seq<Chunk>, offset: nat, max: nat)
    requires Ready(chunks, max) && Sending(all, last, total, queue, sent, chunks, offset, [], max)
    ensures queue == all && chunks == last && sent == total
  {
    assert queue + [] == queue;
  }

  class FastbootVolumeTarget {
    const device: FastbootDevice
    const maxDownload: nat
    var buffered: FastbootData

    ghost predicate Valid()
      reads this, buffered
    {
      Ready(buffered.chunks, maxDownload)
    }

    constructor (device: FastbootDevice, maxDownload: nat)
      requires 8192 <= maxDownload < 0x1_0000_0000
      ensures Valid() && fresh(buffered) && buffered.chunks == []
      ensures this.device == device && this.maxDownload == maxDownload
    {
      this.device := device;
      this.maxDownload := maxDownload;
      buffered := new FastbootData();
    }

    /** Hand the buffered chunks to the device and start a new list. */
    method FlashBuffered() returns (sent: bool)
      modifies this, device
      ensures fresh(buffered) && buffered.chunks == []
      ensures device.flashes == old(device.flashes) + if sent then [old(buffered.chunks)] else []
      ensures OneMore(old(device.outcomes), device.outcomes, sent)
    {
      var buffer := buffered;
      buffered := new FastbootData();
      sent := device.Flash(buffer.chunks);
    }

    /** The body of the write loop: `flashed` counts the flashes sent, at most one. */
    method AppendOrFlash(data: seq<byte>, offset: nat) returns (rest: seq<byte>, flashed: nat, failed: bool)
      requires Valid() && data != []
      modifies this, buffered, device
      ensures Valid() && (buffered == old(buffered) || fresh(buffered))
      ensures var t := Turn(old(buffered.chunks), offset, data, maxDownload);
              && buffered.chunks == t.chunks && rest == t.rest
              && (failed ==> |t.flashed| == 1 && flashed == 0 && device.flashes == old(device.flashes))
              && (!failed ==> flashed == |t.flashed| && device.flashes == old(device.flashes) + t.flashed)
      ensures old(device.outcomes) <= device.outcomes && |device.outcomes| == |old(device.outcomes)| + flashed
    {
      AppendProgress(buffered.chunks, offset, data, maxDownload);
      var appended;
      appended, rest := buffered.Append(offset, data, maxDownload);
      flashed, failed := 0, false;
      if !appended || FlashSize(buffered.chunks) > Threshold(maxDownload) {
        var sent := FlashBuffered();
        flashed, failed := if sent then 1 else 0, !sent;
      }
    }

    method Write(data: seq<byte>, offset: nat) returns (completion: Completion)
      requires Valid()
      modifies this, buffered, device
      ensures Valid() && (buffered == old(buffered) || fresh(buffered))
      ensures var w := WriteLoop(old(buffered.chunks), offset, data, maxDownload);
              if completion.Failed? then
                buffered.chunks == [] && old(device.flashes) <= device.flashes < old(device.flashes) + w.flashes
              else
                && buffered.chunks == w.chunks && device.flashes == old(device.flashes) + w.flashes
                && completion == if w.flashes == [] then Done(|data|) else AfterFlashes(|w.flashes|, |data|)
      ensures old(device.outcomes) <= device.outcomes
      ensures |device.outcomes| - |old(device.outcomes)| == |device.flashes| - |old(device.flashes)|
    {
      var rest := data;
      var sent: nat := 0;
      ghost var w := WriteLoop(buffered.chunks, offset, data, maxDownload);
      ghost var all, last, total := device.flashes + w.flashes, w.chunks, |w.flashes|;
      while rest != []
        invariant Valid() && (buffered == old(buffered) || fresh(buffered))
        invariant Sending(all, last, total, device.flashes, sent, buffered.chunks, offset, rest, maxDownload)
        invariant old(device.flashes) <= device.flashes && old(device.outcomes) <= device.outcomes
        invariant |device.flashes| == |old(device.flashes)| + sent && |device.outcomes| == |old(device.outcomes)| + sent
        decreases |rest|, |buffered.chunks|
      {
        ghost var t :=
          SendingTurn(all, last, total, device.flashes, sent, buffered.chunks, offset, rest, maxDownload);
        var count, failed;
        rest, count, failed := AppendOrFlash(rest, offset);
        if failed {
          return Failed;
        }
        sent := sent + count;
      }
      SendingDone(all, last, total, device.flashes, sent, buffered.chunks, offset, maxDownload);
      completion := if sent == 0 then Done(|data|) else AfterFlashes(sent, |data|);
    }

    /** Flush, which is also what shutdown does: ok just when its flash, or with nothing buffered a ping, was
        sent and went well. */
    method Flush() returns (ok: bool)
      requires Valid()
      modifies this, device
      ensures Valid() && (buffered == old(buffered) || fresh(buffered)) && buffered.chunks == []
      ensures old(device.outcomes) <= device.outcomes && |device.outcomes| <= |old(device.outcomes)| + 1
      ensures ok <==> device.outcomes == old(device.outcomes) + [true]
      ensures
        device.flashes == old(device.flashes) +
          if old(buffered.chunks) != [] && device.outcomes != old(device.outcomes) then [old(buffered.chunks)] else []
    {
      if buffered.chunks != [] {
        ok := FlashBuffered();
        if ok {
          ok := device.Result();
        }
      } else {
        ok := device.Ping();
      }
    }
  }
}
