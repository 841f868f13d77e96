/** The write path across a chain of servers, from the byte stream to the partition. */
module ChainToDevice {
  import opened Wrappers
  import opened Bytes
  import opened VolumeRw
  import VolumeRwRuns
  import opened Batching
  import opened FastbootServer
  import opened EndToEnd
  import P = Protocol
  import ProtocolRuns
  import R = FastbootRuns

  // ------------------------------------------- what a ready shutdown means

  /** The last request sent was answered without an error. */
  predicate Succeeded(ch: Channel) {
    var last := |ch.sent| - 1;
    last >= 0 && last in ch.replies && !ch.replies[last].Error?
  }

  /** While shutting down, the last request sent is the last one awaited, or has succeeded. */
  ghost predicate AwaitsLast(c: Client) {
    && c.ch.Valid()
    && (c.rw.state == ShuttingDown && c.rw.pending == [] ==> Succeeded(c.ch))
    && (c.rw.state == ShuttingDown && c.rw.pending != [] ==> c.rw.pending[|c.rw.pending| - 1] == |c.ch.sent| - 1)
  }

  lemma {:induction false} CleanupLast(rw: Rw, replies: map<nat, Reply>)
    requires rw.pending != []
    ensures
      var (clean, error) := Cleanup(rw, replies);
      var last := rw.pending[|rw.pending| - 1];
      error.None? ==>
        if clean.pending == [] then last in replies && !replies[last].Error?
        else clean.pending[|clean.pending| - 1] == last
    decreases |rw.pending|
  {
    var id := rw.pending[0];
    if id in replies && !replies[id].Error? && |rw.pending| > 1 {
      CleanupLast(rw.(pending := rw.pending[1..], settled := rw.settled + [id]), replies);
    }
  }

  lemma ShutdownAwaits(c: Client)
    requires AwaitsLast(c)
    ensures
      var o := StepShutdown(c.rw, c.ch);
      AwaitsLast(Client(o.rw, o.ch)) && (o.poll.Ready? ==> Succeeded(o.ch))
  {
    CleanupState(c.rw, c.ch.replies, Idle);
    if c.rw.pending != [] {
      CleanupLast(c.rw, c.ch.replies);
    }
  }

  /** Only an empty batch lets a shutdown begin. */
  ghost predicate Settling(w: Writer) {
    AwaitsLast(w.client) && (w.batch.Batched? ==> w.client.rw.state != ShuttingDown)
  }

  lemma WriteAwaits(info: Info, c: Client, buf: seq<byte>)
    requires c.ch.Valid() && c.rw.state != ShuttingDown
    ensures
      var o := StepWrite(info, c.rw, c.ch, buf);
      o.ch.Valid() && o.rw.state != ShuttingDown
  {
    CleanupState(c.rw.(leftover := []), c.ch.replies, Idle);
  }

  lemma {:induction false} DrainAwaits(info: Info, w: Writer)
    requires Settling(w)
    ensures Settling(StepDrain(info, w).w)
    decreases if w.batch.Empty? then 0 else 1 + |w.batch.data|
  {
    if w.batch.Batched? {
      WriteAwaits(info, w.client, w.batch.data);
      var o := StepWrite(info, w.client.rw, w.client.ch, w.batch.data);
      if o.poll.Ready? {
        DrainAwaits(info, Writer(AfterDrain(w.batch.data, o.poll), w.seek, Client(o.rw, o.ch)));
      }
    }
  }

  lemma PollAwaits(info: Info, w: Writer)
    requires Settling(w)
    ensures
      var s := StepBatchShutdown(info, w);
      Settling(s.w) && (s.poll.Ready? ==> Succeeded(s.w.client.ch))
  {
    DrainAwaits(info, w);
    var d := StepDrain(info, w);
    if d.poll.Ready? {
      ShutdownAwaits(d.w.client);
    }
  }

  lemma {:induction false} CloseAwaits(info: Info, w: Writer, events: seq<Option<VolumeRwRuns.Event>>)
    requires Settling(w) && forall e :: e in events && e.Some? ==> External(e.value)
    ensures Settling(Close(info, w, events))
    decreases |events|
  {
    if events != [] {
      match events[0] {
        case None =>
          PollAwaits(info, w);
          CloseAwaits(info, StepBatchShutdown(info, w).w, events[1..]);
        case Some(e) =>
          assert External(events[0].value);
          CloseAwaits(info, OutsideStep(info, w, e), events[1..]);
      }
    }
  }

  lemma {:induction false} CopyAwaits(info: Info, w: Writer, accepted: seq<byte>, events: seq<Event>, size: nat)
    requires w.client.ch.Valid() && w.client.rw.state != ShuttingDown && |Held(w.batch)| <= size
    requires forall e :: e in events && e.Outside? ==> External(e.event)
    ensures Settling(Copy(info, w, accepted, events, size).0)
    decreases |events|
  {
    if events != [] {
      match events[0] {
        case Put(buf) =>
          var s, offer := StepPut(info, w, buf, size), Offer(w.batch, buf, size);
          PutKeepsSize(info, w, buf, size);
          if offer.Some? {
            WriteAwaits(info, w.client, offer.value);
          }
          CopyAwaits(info, s.w, accepted + Accepted(buf, s.poll), events[1..], size);
        case Outside(e) =>
          assert External(events[0].event);
          CopyAwaits(info, OutsideStep(info, w, e), accepted, events[1..], size);
      }
    }
  }

  /** A shutdown that polls ready has succeeded, and was the last request. */
  lemma ReadySucceeded(info: Info, w: Writer, copy: seq<Event>, close: seq<Option<VolumeRwRuns.Event>>, size: nat)
    requires w.client.ch.Valid() && w.client.rw.state != ShuttingDown && |Held(w.batch)| <= size
    requires forall e :: e in copy && e.Outside? ==> External(e.event)
    requires forall e :: e in close && e.Some? ==> External(e.value)
    ensures
      var done := StepBatchShutdown(info, Close(info, Copy(info, w, [], copy, size).0, close));
      done.poll.Ready? ==> Succeeded(done.w.client.ch)
  {
    CopyAwaits(info, w, [], copy, size);
    var copied := Copy(info, w, [], copy, size).0;
    CloseAwaits(info, copied, close);
    PollAwaits(info, Close(info, copied, close));
  }

  // ------------------------------------------------------------ the chain

  /** The replies polled so far are among the chain's results, errors as errors. */
  ghost predicate Coupled(replies: map<nat, Reply>, answers: map<nat, P.Result>) {
    forall id :: id in replies ==> id in answers && (replies[id].Error? <==> answers[id].Err?)
  }

  /** The target answered every request it got without an error. */
  ghost predicate AllAnswered(target: P.Chain)
    requires target.Target?
  {
    forall i: nat :: i < |target.requests| ==> i in target.results && target.results[i].Ok?
  }

  lemma LastDelivered(hops: nat, events: seq<P.Event>)
    requires
      var answers, last := P.Answers(P.Run(P.NewChain(hops), events)), |ProtocolRuns.Sent(events)| - 1;
      last >= 0 && last in answers && answers[last].Ok?
    ensures ProtocolRuns.Final(P.Run(P.NewChain(hops), events)).requests == ProtocolRuns.Sent(events)
  {
    var c := P.Run(P.NewChain(hops), events);
    ProtocolRuns.EveryRunIsPaired(hops, events, []);
    ProtocolRuns.NewInvariant(hops);
    ProtocolRuns.RunInvariant(P.NewChain(hops), events);
    ProtocolRuns.FinalTyped(c);
  }

  lemma LastIsAll(hops: nat, events: seq<P.Event>, last: nat, target: P.Chain)
    requires hops > 0 && target == ProtocolRuns.Final(P.Run(P.NewChain(hops), events))
    requires |target.requests| == last + 1
    requires last in P.Answers(P.Run(P.NewChain(hops), events))
    requires P.Answers(P.Run(P.NewChain(hops), events))[last].Ok?
    ensures AllAnswered(target)
  {
    ProtocolRuns.SuccessIsPrefix(hops, events, last);
  }

  /** When the last request sent succeeded, the target got all of them, in order, and, through at least one
      server, answered each of them without an error. */
  lemma LastSucceeded(hops: nat, events: seq<P.Event>)
    requires
      var answers, last := P.Answers(P.Run(P.NewChain(hops), events)), |ProtocolRuns.Sent(events)| - 1;
      last >= 0 && last in answers && answers[last].Ok?
    ensures ProtocolRuns.Final(P.Run(P.NewChain(hops), events)).requests == ProtocolRuns.Sent(events)
    ensures hops > 0 ==> AllAnswered(ProtocolRuns.Final(P.Run(P.NewChain(hops), events)))
  {
    LastDelivered(hops, events);
    if hops > 0 {
      LastIsAll(hops, events, |ProtocolRuns.Sent(events)| - 1, ProtocolRuns.Final(P.Run(P.NewChain(hops), events)));
    }
  }

  /** The target answers without an error only where the request was served well. */
  ghost predicate Honest(results: map<nat, P.Result>, answers: seq<bool>) {
    forall id :: id in results && results[id].Ok? ==> id < |answers| && answers[id]
  }

  /** The partition of an honest target whose flashes may fail. */
  ghost predicate HoldsAsServed(device: Image, start: nat, all: seq<byte>, target: P.Chain, max: nat)
    requires target.Target? && max >= 8192
  {
    forall attempts: seq<seq<Attempt>> :: |attempts| == |target.requests| ==>
      var s := Serve(R.Target(device, []), target.requests, attempts, max);
      Honest(target.results, s.answers) ==> Holds(device, start, all, Some(s.target))
  }

  lemma ServedHonestly(device: Image, start: nat, all: seq<byte>, target: P.Chain, max: nat)
    requires target.Target? && max >= 8192 && AllAnswered(target)
    requires HoldsOnceAnswered(device, start, all, target.requests, max)
    ensures HoldsAsServed(device, start, all, target, max)
  {
    forall attempts: seq<seq<Attempt>> | |attempts| == |target.requests|
      ensures
        var s := Serve(R.Target(device, []), target.requests, attempts, max);
        Honest(target.results, s.answers) ==> Holds(device, start, all, Some(s.target))
    {
      var answers := Serve(R.Target(device, []), target.requests, attempts, max).answers;
      assert Honest(target.results, answers) ==> forall i: nat :: i < |answers| ==> answers[i];
    }
  }

  /** A byte stream written through a batch writer in pieces of any length and shut down, over any chain
      of servers and in any interleaving of their steps: once the shutdown polls ready, the fastboot
      target at the end of the chain has got exactly the requests sent and holds exactly the accepted
      bytes at their place. Through at least one server it has answered all of them without an error, and
      the partition holds the bytes whatever flashes might have failed. */
  lemma StreamThroughChain(info: Info, w: Writer, start: nat, copy: seq<Event>,
                           close: seq<Option<VolumeRwRuns.Event>>, device: Image, max: nat,
                           hops: nat, events: seq<P.Event>)
    requires info.blocksize == Some(4096)
    requires w.batch == Empty && w.client.ch.sent == [] && w.client.ch.Valid() && w.client.rw.pos == start
    requires w.client.rw.state != ShuttingDown
    requires Aligned(start) && max >= 19 * 1024 * 1024 + 24
    requires forall e :: e in copy && e.Outside? ==> External(e.event)
    requires forall e :: e in close && e.Some? ==> External(e.value)
    requires start + |Copy(info, w, [], copy, MAX_WRITE_SIZE).1| <= R.OFFSET_LIMIT - 4096
    requires
      var copied := Copy(info, w, [], copy, MAX_WRITE_SIZE).0;
      var done := StepBatchShutdown(info, Close(info, copied, close));
      && done.poll == Ready(())
      && ProtocolRuns.Sent(events) == done.w.client.ch.sent
      && Coupled(done.w.client.ch.replies, P.Answers(P.Run(P.NewChain(hops), events)))
    ensures
      var all := Copy(info, w, [], copy, MAX_WRITE_SIZE).1;
      var target := ProtocolRuns.Final(P.Run(P.NewChain(hops), events));
      && target.requests == ProtocolRuns.Sent(events)
      && Holds(device, start, all, R.Run(R.Target(device, []), Ops(target.requests), max))
      && (hops > 0 ==> AllAnswered(target) && HoldsAsServed(device, start, all, target, max))
  {
    ReadySucceeded(info, w, copy, close, MAX_WRITE_SIZE);
    LastSucceeded(hops, events);
    StreamReachesDevice(info, w, start, copy, close, device, max);
    if hops > 0 {
      var target := ProtocolRuns.Final(P.Run(P.NewChain(hops), events));
      ServedHonestly(device, start, Copy(info, w, [], copy, MAX_WRITE_SIZE).1, target, max);
    }
  }
}
