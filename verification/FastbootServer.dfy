/** A fastboot target as a server: what it does for each request and how it answers when flashes may
    fail. */
module FastbootServer {
  import opened Wrappers
  import opened Bytes
  import opened VolumeRw
  import F = Fastboot
  import W = FastbootWrite
  import R = FastbootRuns
  import opened FastbootTarget

  /** The operations of the fastboot target for a list of requests, executed in order. */
  function Ops(sent: seq<Request>): seq<R.Op> {
    if sent == [] then []
    else
      var n := |sent| - 1;
      Ops(sent[..n]) +
      match sent[n]
      case Write(data, offset) => [R.Write(offset, data)]
      case Read(_, _) => []
      case _ => [R.Flush]
  }

  lemma {:induction false} OpsConcat(a: seq<Request>, b: seq<Request>)
    ensures Ops(a + b) == Ops(a) + Ops(b)
  {
    if b == [] {
      assert a + b == a;
    } else {
      var n := |b| - 1;
      assert (a + b)[..|a + b| - 1] == a + b[..n];
      OpsConcat(a, b[..n]);
    }
  }

  // --------------------------------------------------- flashes that fail

  /** What becomes of a flash: a failed one may leave anything on the partition. */
  datatype Attempt = Attempt(well: bool, left: Image)

  function TryFlash(device: Image, chunks: seq<F.Chunk>, a: Attempt): (Image, bool) {
    var d := R.Flash(device, chunks);
    if a.well && d.Some? then (d.value, true)
    else if chunks == [] then (device, false)
    else (a.left, false)
  }

  /** A flash that fails may leave anything; a ping leaves the partition alone. */
  lemma FlashAnswers(device: Image, chunks: seq<F.Chunk>, a: Attempt)
    ensures
      var (after, ok) := TryFlash(device, chunks, a);
      && (ok <==> a.well && R.Flash(device, chunks).Some?)
      && (ok ==> R.Flash(device, chunks) == Some(after))
      && (!ok ==> after == if chunks == [] then device else a.left)
  {
  }

  /** The partition, and the results of the flashes that were sent. */
  datatype Tried = Tried(device: Image, results: seq<bool>)

  /** Flashes in order, as long as the device takes them: one without an attempt cannot be sent. */
  function TryAll(device: Image, flashes: seq<seq<F.Chunk>>, attempts: seq<Attempt>): (t: Tried)
    ensures |t.results| == Min(|flashes|, |attempts|)
    decreases |flashes|
  {
    if flashes == [] || attempts == [] then Tried(device, [])
    else
      var (d, ok) := TryFlash(device, flashes[0], attempts[0]);
      var rest := TryAll(d, flashes[1..], attempts[1..]);
      Tried(rest.device, [ok] + rest.results)
  }

  /** The target after some requests, and which of them it answered without an error. */
  datatype Served = Served(target: R.Target, answers: seq<bool>)

  /** How the write loop completes the request. */
  function Completed(flashes: nat, sent: nat, written: nat): Completion {
    if sent < flashes then Failed
    else if flashes == 0 then Completion.Done(written)
    else AfterFlashes(flashes, written)
  }

  /** One request. A write that cannot send a flash ends there, with nothing buffered; the answer of one
      that can waits for its own flashes. A flush waits for its flash, and without one for a ping. A
      shutdown is a flush, and the target is not readable. */
  function ServeOne(t: R.Target, r: Request, attempts: seq<Attempt>, max: nat): (s: (R.Target, bool))
    requires F.Ready(t.buffered, max)
    ensures F.Ready(s.0.buffered, max)
  {
    match r
    case Write(data, offset) =>
      var w := W.WriteLoop(t.buffered, offset, data, max);
      var d := TryAll(t.device, w.flashes, attempts);
      var completion := Completed(|w.flashes|, |d.results|, |data|);
      (R.Target(d.device, if completion.Failed? then [] else w.chunks), Answer(completion, d.results).Some?)
    case Read(_, _) => (t, false)
    case _ =>
      var d := TryAll(t.device, [t.buffered], attempts);
      (R.Target(d.device, []), d.results == [true])
  }

  function Serve(t: R.Target, requests: seq<Request>, attempts: seq<seq<Attempt>>, max: nat): (s: Served)
    requires F.Ready(t.buffered, max) && |attempts| == |requests|
    ensures |s.answers| == |requests|
    decreases |requests|
  {
    if requests == [] then Served(t, [])
    else
      var (next, ok) := ServeOne(t, requests[0], attempts[0], max);
      var rest := Serve(next, requests[1..], attempts[1..], max);
      Served(rest.target, [ok] + rest.answers)
  }

  /** The flashes a request asks for; an empty one is a ping. */
  function Asked(chunks: seq<F.Chunk>, r: Request, max: nat): seq<seq<F.Chunk>>
    requires F.Ready(chunks, max)
  {
    match r
    case Write(data, offset) => W.WriteLoop(chunks, offset, data, max).flashes
    case Read(_, _) => []
    case _ => [chunks]
  }

  /** On a partition for which the flashes that were sent have these results, this is how the request is
      served. */
  ghost predicate ServedAs(chunks: seq<F.Chunk>, r: Request, max: nat, results: seq<bool>, after: seq<F.Chunk>,
                           ok: bool)
    requires F.Ready(chunks, max)
  {
    forall device: Image, attempts: seq<Attempt> ::
      var d := TryAll(device, Asked(chunks, r, max), attempts);
      |attempts| == |results| && d.results == results ==>
        ServeOne(R.Target(device, chunks), r, attempts, max) == (R.Target(d.device, after), ok)
  }

  lemma WriteServedAs(chunks: seq<F.Chunk>, data: seq<byte>, offset: nat, max: nat, results: seq<bool>,
                      after: seq<F.Chunk>, completion: Completion)
    requires F.Ready(chunks, max)
    requires
      var w := W.WriteLoop(chunks, offset, data, max);
      && completion == Completed(|w.flashes|, |results|, |data|)
      && after == if completion.Failed? then [] else w.chunks
    ensures ServedAs(chunks, Write(data, offset), max, results, after, Answer(completion, results).Some?)
  {
  }

  lemma FlushServedAs(chunks: seq<F.Chunk>, r: Request, max: nat, results: seq<bool>)
    requires F.Ready(chunks, max) && (r.Flush? || r.Shutdown?)
    ensures ServedAs(chunks, r, max, results, [], results == [true])
  {
  }

  /** A write is answered without an error just when all its flashes were sent and went well, a flush or
      shutdown just when its flash or ping was, and a read never; a write that cannot send a flash leaves
      nothing buffered, and neither does a flush. */
  lemma ServeAnswers(t: R.Target, r: Request, attempts: seq<Attempt>, max: nat)
    requires F.Ready(t.buffered, max)
    ensures
      var (next, ok) := ServeOne(t, r, attempts, max);
      var asked := Asked(t.buffered, r, max);
      var d := TryAll(t.device, asked, attempts);
      && next.device == d.device
      && (ok <==> !r.Read? && |attempts| >= |asked| && forall i :: 0 <= i < |d.results| ==> d.results[i])
      && (r.Write? && |attempts| < |asked| ==> next.buffered == [])
      && (r.Flush? || r.Shutdown? ==> next.buffered == [])
      && (r.Read? ==> next == t)
  {
  }

  /** One turn of the server loop with a fastboot target: it serves the request as `ServeOne` says, given
      what became of its own flashes. */
  method ServeRequest(target: FastbootVolumeTarget, r: Request) returns (ok: bool)
    requires target.Valid()
    modifies target, target.buffered, target.device
    ensures target.Valid() && old(target.device.outcomes) <= target.device.outcomes
    ensures
      ServedAs(old(target.buffered.chunks), r, target.maxDownload,
               target.device.outcomes[|old(target.device.outcomes)|..], target.buffered.chunks, ok)
  {
    var n := |target.device.outcomes|;
    ghost var chunks := target.buffered.chunks;
    match r {
      case Write(data, offset) =>
        ghost var w := W.WriteLoop(chunks, offset, data, target.maxDownload);
        var completion := target.Write(data, offset);
        var results := target.device.outcomes[n..];
        var answer := Complete(completion, results);
        ok := answer.Some?;
        assert completion == Completed(|w.flashes|, |results|, |data|);
        WriteServedAs(chunks, data, offset, target.maxDownload, results, target.buffered.chunks, completion);
      case Read(_, _) =>
        ok := false;
      case _ =>
        ok := target.Flush();
        assert ok <==> target.device.outcomes[n..] == [true];
        FlushServedAs(chunks, r, target.maxDownload, target.device.outcomes[n..]);
    }
  }

  lemma {:induction false} TriedWell(device: Image, flashes: seq<seq<F.Chunk>>, attempts: seq<Attempt>)
    requires |attempts| >= |flashes| && AllTrue(TryAll(device, flashes, attempts).results)
    ensures R.FlashAll(device, flashes) == Some(TryAll(device, flashes, attempts).device)
    decreases |flashes|
  {
    if flashes != [] {
      var (d, ok) := TryFlash(device, flashes[0], attempts[0]);
      var rest := TryAll(d, flashes[1..], attempts[1..]);
      HeadTrue(ok, rest.results);
      TriedWell(d, flashes[1..], attempts[1..]);
    }
  }

  lemma HeadTrue(ok: bool, rest: seq<bool>)
    ensures AllTrue([ok] + rest) <==> ok && AllTrue(rest)
  {
    var all := [ok] + rest;
    assert all[0] == ok && all[1..] == rest;
    assert AllTrue(all) ==> forall i :: 0 <= i < |rest| ==> rest[i] == all[i + 1];
  }

  function OpOf(r: Request): seq<R.Op> {
    match r
    case Write(data, offset) => [R.Write(offset, data)]
    case Read(_, _) => []
    case _ => [R.Flush]
  }

  lemma OpsFirst(requests: seq<Request>)
    requires requests != []
    ensures Ops(requests) == OpOf(requests[0]) + Ops(requests[1..])
  {
    var one := [requests[0]];
    assert requests == one + requests[1..];
    OpsConcat(one, requests[1..]);
    assert one[..0] == [] && Ops(one) == Ops([]) + OpOf(requests[0]);
  }

  /** A request answered without an error was executed as if nothing could fail. */
  lemma ServedWell(t: R.Target, r: Request, attempts: seq<Attempt>, max: nat)
    requires F.Ready(t.buffered, max) && ServeOne(t, r, attempts, max).1
    ensures |OpOf(r)| == 1 && R.Step(t, OpOf(r)[0], max) == Some(ServeOne(t, r, attempts, max).0)
  {
    match r
    case Write(data, offset) =>
      var w := W.WriteLoop(t.buffered, offset, data, max);
      TriedWell(t.device, w.flashes, attempts);
    case Read(_, _) =>
    case _ =>
      TriedWell(t.device, [t.buffered], attempts);
      R.FlashAllOne(t.device, t.buffered);
  }

  /** Whatever fails: when every request was answered without an error, the partition is the one that a
      target whose flashes cannot fail leaves. */
  lemma {:induction false} AllServed(t: R.Target, requests: seq<Request>, attempts: seq<seq<Attempt>>, max: nat)
    requires F.Ready(t.buffered, max) && |attempts| == |requests|
    requires AllTrue(Serve(t, requests, attempts, max).answers)
    ensures R.Run(t, Ops(requests), max) == Some(Serve(t, requests, attempts, max).target)
    decreases |requests|
  {
    if requests != [] {
      var (next, ok) := ServeOne(t, requests[0], attempts[0], max);
      HeadTrue(ok, Serve(next, requests[1..], attempts[1..], max).answers);
      ServedWell(t, requests[0], attempts[0], max);
      AllServed(next, requests[1..], attempts[1..], max);
      OpsFirst(requests);
      assert Ops(requests)[1..] == Ops(requests[1..]);
    }
  }

  /** Nothing needs to fail. */
  lemma TriedAllWell(device: Image, flashes: seq<seq<F.Chunk>>, attempts: seq<Attempt>)
    requires R.FlashAll(device, flashes).Some? && |attempts| == |flashes|
    requires forall i :: 0 <= i < |attempts| ==> attempts[i].well
    ensures AllTrue(TryAll(device, flashes, attempts).results)
    ensures TryAll(device, flashes, attempts).device == R.FlashAll(device, flashes).value
    decreases |flashes|
  {
    if flashes != [] {
      var (d, ok) := TryFlash(device, flashes[0], attempts[0]);
      TriedAllWell(d, flashes[1..], attempts[1..]);
      HeadTrue(ok, TryAll(d, flashes[1..], attempts[1..]).results);
    }
  }

  lemma StepServed(t: R.Target, r: Request, max: nat) returns (attempts: seq<Attempt>)
    requires F.Ready(t.buffered, max) && !r.Read? && R.Step(t, OpOf(r)[0], max).Some?
    ensures ServeOne(t, r, attempts, max) == (R.Step(t, OpOf(r)[0], max).value, true)
  {
    if r.Write? {
      var w := W.WriteLoop(t.buffered, r.offset, r.data, max);
      attempts := seq(|w.flashes|, _ => Attempt(true, map[]));
      TriedAllWell(t.device, w.flashes, attempts);
    } else {
      attempts := [Attempt(true, map[])];
      R.FlashAllOne(t.device, t.buffered);
      TriedAllWell(t.device, [t.buffered], attempts);
      var results := TryAll(t.device, [t.buffered], attempts).results;
      assert results == [results[0]];
    }
  }

  /** A run that can succeed does when every flash does: each request is answered without an error. */
  lemma {:induction false} RunServed(t: R.Target, requests: seq<Request>, max: nat)
    returns (attempts: seq<seq<Attempt>>)
    requires F.Ready(t.buffered, max) && R.Run(t, Ops(requests), max).Some?
    requires forall r :: r in requests ==> !r.Read?
    ensures |attempts| == |requests|
    ensures Serve(t, requests, attempts, max) ==
            Served(R.Run(t, Ops(requests), max).value, seq(|requests|, _ => true))
    decreases |requests|
  {
    if requests == [] {
      attempts := [];
    } else {
      OpsFirst(requests);
      assert Ops(requests)[1..] == Ops(requests[1..]) && Ops(requests)[0] == OpOf(requests[0])[0];
      assert requests[0] in requests;
      var first := StepServed(t, requests[0], max);
      var next := ServeOne(t, requests[0], first, max).0;
      var rest := RunServed(next, requests[1..], max);
      attempts := [first] + rest;
      assert attempts[1..] == rest;
    }
  }

  /** With the smallest usable budget: the flash of a write fails, and the flush after it succeeds. So the
      last answer alone says nothing at the target. */
  lemma LaterFlushSucceeds(data: seq<byte>)
    requires |data| == 4096
    ensures
      var requests := [Write(data, 0), Request.Flush];
      var attempts := [[Attempt(false, map[])], [Attempt(true, map[])]];
      Serve(R.Target(map[], []), requests, attempts, 8192) == Served(R.Target(map[], []), [false, true])
  {
    var idle := R.Target(map[], []);
    var failing, working := [Attempt(false, map[])], [Attempt(true, map[])];
    var c := F.Extended([], 0, data);
    W.OneShotWrite([], 0, data, 8192);
    assert W.WriteLoop([], 0, data, 8192) == W.Written([c], []);
    var d := TryAll(map[], [c], failing);
    assert TryFlash(map[], c, failing[0]) == (map[], false);
    assert [c][1..] == [] && failing[1..] == [];
    assert TryAll(map[], [c][1..], failing[1..]) == Tried(map[], []);
    assert d.results[0] == false;
    assert ServeOne(idle, Write(data, 0), failing, 8192) == (idle, false);
    assert ServeOne(idle, Request.Flush, working, 8192) == (idle, true);
    var requests, attempts := [Write(data, 0), Request.Flush], [failing, working];
    assert requests[1..] == [Request.Flush] && attempts[1..] == [working];
    assert Serve(idle, [], [], 8192) == Served(idle, []);
    assert [Request.Flush][1..] == [] && [working][1..] == [];
    assert Serve(idle, [Request.Flush], [working], 8192) == Served(idle, [true]);
  }
}
