/** What writes and flushes of a fastboot target do to the partition, over whole runs. */
module FastbootRuns {
  import opened Wrappers
  import opened Bytes
  import opened Fastboot
  import opened FastbootWrite
  import opened SparseImage

  /** What flashing a chunk list does to the partition; `None` when no valid image comes out of it. */
  function Flash(device: Image, chunks: seq<Chunk>): Option<Image> {
    if chunks == [] then Some(device)
    else if CanWriteRaw(chunks) then Some(device + Place(0, Flat(chunks[0].data)))
    else if !Disjoint(chunks) then None
    else
      var r := Decode(Encode(chunks), device);
      if r.Reader? then Some(r.image) else None
  }

  function FlashAll(device: Image, flashes: seq<seq<Chunk>>): Option<Image>
    decreases |flashes|
  {
    if flashes == [] then Some(device)
    else
      var d := Flash(device, flashes[0]);
      if d.None? then None else FlashAll(d.value, flashes[1..])
  }

  /** A list whose image is announced exactly. */
  predicate Sound(chunks: seq<Chunk>) {
    && NonEmpty(chunks)
    && Gapped(chunks)
    && forall i {:trigger PiecesWhole(chunks[i])} :: 0 <= i < |chunks| ==> PiecesWhole(chunks[i])
  }

  /** A sound list that also ends every chunk on a block boundary. */
  predicate Whole(chunks: seq<Chunk>) {
    && Sound(chunks)
    && forall i {:trigger chunks[i].DataBytes()} :: 0 <= i < |chunks| ==> Aligned(chunks[i].DataBytes())
  }

  /** The largest end offset for which no block number wraps around. */
  const OFFSET_LIMIT := 4096 * 0x1_0000_0000

  lemma GrownImage(c: Chunk, data: seq<byte>)
    requires Aligned(c.DataBytes())
    ensures ChunkImage(Grown(c, data)) == ChunkImage(c) + Place(c.EndBytes(), Padded(data))
  {
    var flat := Flat(c.data);
    GrownData(c, data);
    PaddedConcat(flat, data);
    PlaceConcat(c.OffsetBytes(), flat, Padded(data));
  }

  lemma FreshImage(offset: nat, data: seq<byte>)
    requires Aligned(offset) && offset < OFFSET_LIMIT
    ensures Flat(Fresh(offset, data).data) == data && Fresh(offset, data).OffsetBytes() == offset
    ensures ChunkImage(Fresh(offset, data)) == Place(offset, Padded(data))
  {
    FreshData(offset, data);
  }

  lemma ExtendedImage(image: Image, chunks: seq<Chunk>, offset: nat, data: seq<byte>)
    requires Aligned(offset) && offset < OFFSET_LIMIT
    ensures Apply(image, Extended(chunks, offset, data)) == Apply(image, chunks) + Place(offset, Padded(data))
  {
    if Continues(chunks, offset) {
      var init, last := chunks[..|chunks| - 1], chunks[|chunks| - 1];
      assert chunks == init + [last];
      ApplySnoc(image, init, last);
      ApplySnoc(image, init, Grown(last, data));
      GrownImage(last, data);
      OverlayAssoc(Apply(image, init), ChunkImage(last), Place(offset, Padded(data)));
    } else {
      ApplySnoc(image, chunks, Fresh(offset, data));
      FreshImage(offset, data);
    }
  }

  /** A list in front of a chunk with whole pieces that lies apart from it. */
  lemma SoundSnoc(chunks: seq<Chunk>, c: Chunk)
    requires Whole(chunks) && PiecesWhole(c) && c.DataBytes() > 0
    requires chunks != [] ==> chunks[|chunks| - 1].EndBlocks() < c.offset
    ensures Sound(chunks + [c]) && (Aligned(c.DataBytes()) ==> Whole(chunks + [c]))
  {
    NeighbourSnoc(chunks, c);
    assert forall d :: d in chunks + [c] ==> d in chunks || d == c;
  }

  /** The list without its last chunk, and how that one lies behind it. */
  lemma WholeInit(chunks: seq<Chunk>)
    requires Whole(chunks) && chunks != []
    ensures
      var init, last := chunks[..|chunks| - 1], chunks[|chunks| - 1];
      Whole(init) && (init != [] ==> init[|init| - 1].EndBlocks() < last.offset)
  {
    var init, last := chunks[..|chunks| - 1], chunks[|chunks| - 1];
    assert chunks == init + [last];
    NeighbourSnoc(init, last);
  }

  lemma GrownPieces(c: Chunk, data: seq<byte>)
    requires PiecesWhole(c) && Aligned(c.DataBytes())
    ensures
      var grown := Grown(c, data);
      && PiecesWhole(grown) && grown.offset == c.offset && grown.DataBytes() == c.DataBytes() + |data|
      && (Aligned(|data|) ==> Aligned(grown.DataBytes()))
  {
    GrownData(c, data);
    RoundUpSum(c.DataBytes(), |data|);
  }

  lemma GrownWhole(chunks: seq<Chunk>, data: seq<byte>)
    requires Whole(chunks) && chunks != []
    ensures
      var c := chunks[..|chunks| - 1] + [Grown(chunks[|chunks| - 1], data)];
      Sound(c) && (Aligned(|data|) ==> Whole(c))
  {
    WholeInit(chunks);
    GrownPieces(chunks[|chunks| - 1], data);
    SoundSnoc(chunks[..|chunks| - 1], Grown(chunks[|chunks| - 1], data));
  }

  lemma FreshWhole(chunks: seq<Chunk>, offset: nat, data: seq<byte>)
    requires Whole(chunks) && Aligned(offset) && offset < OFFSET_LIMIT && data != []
    requires !Behind(chunks, offset) && !Continues(chunks, offset)
    ensures
      var c := chunks + [Fresh(offset, data)];
      Sound(c) && (Aligned(|data|) ==> Whole(c))
  {
    FreshImage(offset, data);
    FreshData(offset, data);
    if chunks != [] {
      var last := chunks[|chunks| - 1];
      assert last.EndBlocks() * 4096 == last.EndBytes() < offset;
    }
    SoundSnoc(chunks, Fresh(offset, data));
  }

  /** Extending a whole list at an aligned offset keeps its neighbours apart, and keeps it whole
      when the data ends on a block boundary. */
  lemma ExtendedWhole(chunks: seq<Chunk>, offset: nat, data: seq<byte>)
    requires Whole(chunks) && Aligned(offset) && offset < OFFSET_LIMIT && data != []
    requires !Behind(chunks, offset)
    ensures Sound(Extended(chunks, offset, data))
    ensures Aligned(|data|) ==> Whole(Extended(chunks, offset, data))
  {
    if Continues(chunks, offset) {
      GrownWhole(chunks, data);
    } else {
      FreshWhole(chunks, offset, data);
    }
  }

  /** A whole list reaches the partition exactly as its chunks say. */
  lemma FlashWhole(device: Image, chunks: seq<Chunk>)
    requires Whole(chunks)
    ensures Flash(device, chunks) == Some(Apply(device, chunks))
  {
    if CanWriteRaw(chunks) {
      var flat := Flat(chunks[0].data);
      assert Aligned(chunks[0].DataBytes()) && Padded(flat) == flat;
      assert Apply(device, chunks) == Apply(device + ChunkImage(chunks[0]), chunks[1..]);
    } else {
      GappedDisjoint(chunks);
      RoundTrip(chunks, device);
    }
  }

  /** `data` as one flash may leave it: completed with zeros, or bare when written as a raw image. */
  predicate Finish(data: seq<byte>, placed: seq<byte>) {
    placed == data || placed == Padded(data)
  }

  lemma RawGrown(device: Image, c: Chunk, data: seq<byte>)
    requires Aligned(c.DataBytes())
    ensures device + Place(c.OffsetBytes(), Flat(Grown(c, data).data))
         == (device + ChunkImage(c)) + Place(c.EndBytes(), data)
  {
    var flat := Flat(c.data);
    var a, b := Place(c.OffsetBytes(), flat), Place(c.EndBytes(), data);
    assert ChunkImage(c) == a by { PaddedConcat(flat, data); }
    assert Place(c.OffsetBytes(), Flat(Grown(c, data).data)) == a + b by {
      GrownData(c, data);
      PlaceConcat(c.OffsetBytes(), flat, data);
    }
    OverlayAssoc(device, a, b);
  }

  lemma ApplyOne(device: Image, c: Chunk)
    ensures Apply(device, [c]) == device + ChunkImage(c)
  {
    assert [c][1..] == [];
  }

  lemma RawExtended(device: Image, chunks: seq<Chunk>, offset: nat, data: seq<byte>)
    requires Whole(chunks) && Aligned(offset) && offset < OFFSET_LIMIT
    requires CanWriteRaw(Extended(chunks, offset, data))
    ensures device + Place(0, Flat(Extended(chunks, offset, data)[0].data))
         == Apply(device, chunks) + Place(offset, data)
  {
    if Continues(chunks, offset) {
      assert chunks == [chunks[0]];
      ApplyOne(device, chunks[0]);
      RawGrown(device, chunks[0], data);
    } else {
      assert chunks == [];
      FreshImage(offset, data);
    }
  }

  /** Flashing a whole list extended by one aligned write adds that write to what the list holds. */
  lemma FlashExtended(device: Image, chunks: seq<Chunk>, offset: nat, data: seq<byte>)
    requires Whole(chunks) && Aligned(offset) && offset < OFFSET_LIMIT && data != []
    requires !Behind(chunks, offset)
    ensures var c := Extended(chunks, offset, data);
            Flash(device, c) ==
            Some(Apply(device, chunks) + Place(offset, if CanWriteRaw(c) then data else Padded(data)))
  {
    var c := Extended(chunks, offset, data);
    ExtendedWhole(chunks, offset, data);
    if CanWriteRaw(c) {
      RawExtended(device, chunks, offset, data);
    } else {
      GappedDisjoint(c);
      RoundTrip(c, device);
      ExtendedImage(device, chunks, offset, data);
    }
  }

  lemma {:induction false} FlashAllConcat(device: Image, a: seq<seq<Chunk>>, b: seq<seq<Chunk>>)
    ensures FlashAll(device, a + b) ==
            var d := FlashAll(device, a); if d.None? then None else FlashAll(d.value, b)
    decreases |a|
  {
    if a == [] {
      assert a + b == b;
    } else {
      assert (a + b)[1..] == a[1..] + b;
      var d := Flash(device, a[0]);
      if d.Some? {
        FlashAllConcat(d.value, a[1..], b);
      }
    }
  }

  lemma FlashAllOne(device: Image, f: seq<Chunk>)
    ensures FlashAll(device, [f]) == Flash(device, f)
  {
    assert [f][1..] == [];
  }

  // ---------------------------------------------------------------- runs

  /** The partition and the chunk list not yet flashed to it. */
  datatype Target = Target(device: Image, buffered: seq<Chunk>)

  /** A shutdown is a flush for this target. */
  datatype Op = Write(offset: nat, data: seq<byte>) | Flush

  function Step(t: Target, op: Op, max: nat): (r: Option<Target>)
    requires Ready(t.buffered, max)
    ensures r.Some? ==> Ready(r.value.buffered, max)
  {
    match op
    case Write(offset, data) =>
      var w := WriteLoop(t.buffered, offset, data, max);
      var d := FlashAll(t.device, w.flashes);
      if d.None? then None else Some(Target(d.value, w.chunks))
    case Flush =>
      var d := Flash(t.device, t.buffered);
      if d.None? then None else Some(Target(d.value, []))
  }

  function Run(t: Target, ops: seq<Op>, max: nat): (r: Option<Target>)
    requires Ready(t.buffered, max)
    ensures r.Some? ==> Ready(r.value.buffered, max)
    decreases |ops|
  {
    if ops == [] then Some(t)
    else
      var n := Step(t, ops[0], max);
      if n.None? then None else Run(n.value, ops[1..], max)
  }

  /** Every write of the run is taken by a single append when its turn comes. */
  predicate OneShotRun(t: Target, ops: seq<Op>, max: nat)
    requires Ready(t.buffered, max)
    decreases |ops|
  {
    ops == [] ||
    (&& (ops[0].Write? ==> OneShot(t.buffered, ops[0].offset, |ops[0].data|, max))
     && var n := Step(t, ops[0], max);
        n.Some? ==> OneShotRun(n.value, ops[1..], max))
  }

  /** The bytes the writes of a run ask for: later ones win. */
  function Overlay(image: Image, ops: seq<Op>): Image
    decreases |ops|
  {
    if ops == [] then image
    else Overlay(if ops[0].Write? then image + Place(ops[0].offset, ops[0].data) else image, ops[1..])
  }

  predicate InRange(op: Op) {
    op.Write? ==> Aligned(op.offset) && op.offset < OFFSET_LIMIT
  }

  predicate WholeOp(op: Op) {
    InRange(op) && (op.Write? ==> Aligned(|op.data|))
  }

  /** What a target stands for: its partition once everything buffered has been flashed. */
  function Meaning(t: Target): Image {
    Apply(t.device, t.buffered)
  }

  /** The partition once what lies behind a write has been flashed. */
  function Cleared(t: Target, offset: nat): Image {
    if Behind(t.buffered, offset) then Meaning(t) else t.device
  }

  /** A whole-block write extends the list by its data. */
  lemma WriteMeaning(t: Target, offset: nat, data: seq<byte>)
    requires Whole(t.buffered) && Aligned(offset) && offset < OFFSET_LIMIT && Aligned(|data|) && data != []
    ensures
      var c := Extended(Base(t.buffered, offset), offset, data);
      Whole(c) && Apply(Cleared(t, offset), c) == Meaning(t) + Place(offset, data)
  {
    var base, device := Base(t.buffered, offset), Cleared(t, offset);
    assert Apply(device, base) == Meaning(t);
    assert Padded(data) == data by { PaddedConcat(data, []); }
    ExtendedWhole(base, offset, data);
    ExtendedImage(device, base, offset, data);
  }

  lemma FlashCleared(t: Target, offset: nat)
    requires Whole(t.buffered)
    ensures FlashAll(t.device, if Behind(t.buffered, offset) then [t.buffered] else []) == Some(Cleared(t, offset))
  {
    FlashWhole(t.device, t.buffered);
    FlashAllOne(t.device, t.buffered);
  }

  lemma WriteWhole(t: Target, offset: nat, data: seq<byte>, max: nat) returns (r: Target)
    requires Ready(t.buffered, max) && Whole(t.buffered)
    requires Aligned(offset) && offset < OFFSET_LIMIT && Aligned(|data|) && data != []
    requires OneShot(t.buffered, offset, |data|, max)
    ensures Step(t, Write(offset, data), max) == Some(r)
    ensures Whole(r.buffered) && Meaning(r) == Meaning(t) + Place(offset, data)
  {
    var c, device := Extended(Base(t.buffered, offset), offset, data), Cleared(t, offset);
    var before := if Behind(t.buffered, offset) then [t.buffered] else [];
    WriteMeaning(t, offset, data);
    FlashCleared(t, offset);
    OneShotWrite(t.buffered, offset, data, max);
    if FlashSize(c) > Threshold(max) {
      r := Target(Apply(device, c), []);
      FlashAllConcat(t.device, before, [c]);
      FlashAllOne(device, c);
      FlashWhole(device, c);
    } else {
      r := Target(device, c);
    }
  }

  lemma StepWhole(t: Target, op: Op, max: nat) returns (r: Target)
    requires Ready(t.buffered, max) && Whole(t.buffered) && WholeOp(op)
    requires op.Write? ==> OneShot(t.buffered, op.offset, |op.data|, max)
    ensures Step(t, op, max) == Some(r)
    ensures Whole(r.buffered) && Meaning(r) == Overlay(Meaning(t), [op])
  {
    assert [op][1..] == [];
    match op
    case Flush =>
      FlashWhole(t.device, t.buffered);
      r := Target(Meaning(t), []);
    case Write(offset, data) =>
      if data == [] {
        assert Meaning(t) + Place(offset, []) == Meaning(t);
        r := t;
      } else {
        r := WriteWhole(t, offset, data, max);
      }
  }

  /** Any run of block-aligned whole-block writes and flushes, in any order and overlapping at will,
      leaves the target standing for the writes laid over each other in order. */
  lemma {:induction false} RunWhole(t: Target, ops: seq<Op>, max: nat)
    requires Ready(t.buffered, max) && Whole(t.buffered)
    requires forall op :: op in ops ==> WholeOp(op)
    requires OneShotRun(t, ops, max)
    ensures var r := Run(t, ops, max);
            && r.Some? && Whole(r.value.buffered)
            && Meaning(r.value) == Overlay(Meaning(t), ops)
    decreases |ops|
  {
    if ops != [] {
      var next := StepWhole(t, ops[0], max);
      RunWhole(next, ops[1..], max);
      assert [ops[0]][1..] == [];
    }
  }

  /** What a flush right after a last write of any length leaves on the partition. */
  lemma FinishWrite(t: Target, offset: nat, data: seq<byte>, max: nat)
    requires Ready(t.buffered, max) && Whole(t.buffered)
    requires Aligned(offset) && offset < OFFSET_LIMIT && data != []
    requires OneShot(t.buffered, offset, |data|, max)
    ensures var w := WriteLoop(t.buffered, offset, data, max);
            FlashAll(t.device, w.flashes + [w.chunks]) ==
            Some(Meaning(t) + Place(offset, Placed(t.buffered, offset, data)))
  {
    var base := Base(t.buffered, offset);
    var device := if Behind(t.buffered, offset) then Meaning(t) else t.device;
    var c := Extended(base, offset, data);
    var before := if Behind(t.buffered, offset) then [t.buffered] else [];
    FlashWhole(t.device, t.buffered);
    assert FlashAll(t.device, before) == Some(device) by { FlashAllOne(t.device, t.buffered); }
    FlashExtended(device, base, offset, data);
    FlashAllConcat(t.device, before, [c]);
    FlashAllOne(device, c);
    OneShotWrite(t.buffered, offset, data, max);
    var placed := Meaning(t) + Place(offset, Placed(t.buffered, offset, data));
    assert FlashAll(t.device, before + [c]) == Some(placed);
    FlashAllConcat(t.device, before + [c], [[]]);
    FlashAllOne(placed, []);
  }

  /** The bytes an aligned write places: zeros complete the last block unless the list is flashed raw. */
  function Placed(buffered: seq<Chunk>, offset: nat, data: seq<byte>): (placed: seq<byte>)
    ensures Finish(data, placed)
  {
    if data == [] || CanWriteRaw(Extended(Base(buffered, offset), offset, data)) then data else Padded(data)
  }

  lemma FinishRun(t: Target, offset: nat, data: seq<byte>, max: nat)
    requires Ready(t.buffered, max) && Whole(t.buffered)
    requires Aligned(offset) && offset < OFFSET_LIMIT
    requires OneShot(t.buffered, offset, |data|, max)
    ensures Run(t, [Write(offset, data), Flush], max)
         == Some(Target(Meaning(t) + Place(offset, Placed(t.buffered, offset, data)), []))
  {
    var ops := [Write(offset, data), Flush];
    assert ops[1..] == [Flush] && [Flush][1..] == [];
    FlashWhole(t.device, t.buffered);
    if data == [] {
      assert Meaning(t) + Place(offset, []) == Meaning(t);
    } else {
      var w := WriteLoop(t.buffered, offset, data, max);
      FinishWrite(t, offset, data, max);
      FlashAllConcat(t.device, w.flashes, [w.chunks]);
      FlashAllOne(FlashAll(t.device, w.flashes).value, w.chunks);
    }
  }

  /** With the budget of a single append, whatever is buffered. */
  lemma FinishFits(t: Target, offset: nat, data: seq<byte>, max: nat) returns (placed: seq<byte>)
    requires Ready(t.buffered, max) && Whole(t.buffered)
    requires Aligned(offset) && offset < OFFSET_LIMIT
    requires max >= FLASH_THRESHOLD + RoundUp(|data|) + 24
    ensures Finish(data, placed)
    ensures Run(t, [Write(offset, data), Flush], max) == Some(Target(Meaning(t) + Place(offset, placed), []))
  {
    AmpleBudget(t.buffered, offset, |data|, max);
    FinishRun(t, offset, data, max);
    placed := Placed(t.buffered, offset, data);
  }

  lemma {:induction false} RunConcat(t: Target, a: seq<Op>, b: seq<Op>, max: nat)
    requires Ready(t.buffered, max)
    ensures Run(t, a + b, max) == var r := Run(t, a, max); if r.None? then None else Run(r.value, b, max)
    decreases |a|
  {
    if a == [] {
      assert a + b == b;
    } else {
      assert (a + b)[1..] == a[1..] + b;
      var n := Step(t, a[0], max);
      if n.Some? {
        RunConcat(n.value, a[1..], b, max);
      }
    }
  }

  /** Budget and range that a client can check before a run starts. */
  predicate Affordable(ops: seq<Op>, max: nat) {
    && max >= 8192
    && forall op :: op in ops && op.Write? ==> max >= FLASH_THRESHOLD + RoundUp(|op.data|) + 24
  }

  lemma {:induction false} AffordableRun(t: Target, ops: seq<Op>, max: nat)
    requires Ready(t.buffered, max) && Affordable(ops, max)
    requires forall op :: op in ops ==> InRange(op)
    ensures OneShotRun(t, ops, max)
    decreases |ops|
  {
    if ops != [] {
      if ops[0].Write? {
        AmpleBudget(t.buffered, ops[0].offset, |ops[0].data|, max);
      }
      var n := Step(t, ops[0], max);
      if n.Some? {
        AffordableRun(n.value, ops[1..], max);
      }
    }
  }

  /** Whole-block aligned writes in any order, a last write that may be short, and a flush: the
      partition holds the ordered overlay of all writes, with at most zeros completing the last block
      of the last write, and nothing else is touched. */
  lemma RunOverlay(device: Image, ops: seq<Op>, offset: nat, data: seq<byte>, max: nat)
    requires forall op :: op in ops ==> WholeOp(op)
    requires Aligned(offset) && offset < OFFSET_LIMIT
    requires Affordable(ops + [Write(offset, data)], max)
    ensures var r := Run(Target(device, []), ops + [Write(offset, data), Flush], max);
            && r.Some? && r.value.buffered == []
            && exists placed :: Finish(data, placed)
                             && r.value.device == Overlay(device, ops) + Place(offset, placed)
  {
    var t := Target(device, []);
    assert forall op :: op in ops ==> op in ops + [Write(offset, data)];
    assert Write(offset, data) in ops + [Write(offset, data)];
    AffordableRun(t, ops, max);
    RunWhole(t, ops, max);
    RunConcat(t, ops, [Write(offset, data), Flush], max);
    var u := Run(t, ops, max).value;
    var placed := FinishFits(u, offset, data, max);
  }
}
