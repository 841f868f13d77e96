/** Exactly when a fastboot write reaches its place: limits of the single offset, of neighbours that
    touch and of padding. */
module FastbootPlacement {
  import opened Wrappers
  import opened Bytes
  import opened Fastboot
  import opened FastbootWrite
  import opened FastbootRuns
  import opened SparseImage

  // ------------------------------------------------------- any chunk list

  /** A list reaches the device exactly when no two neighbours touch. */
  lemma Flashes(device: Image, chunks: seq<Chunk>)
    requires NonEmpty(chunks)
    ensures Flash(device, chunks).Some? <==> Gapped(chunks)
    ensures Gapped(chunks) && !CanWriteRaw(chunks) ==> Flash(device, chunks) == Some(Apply(device, chunks))
  {
    if !CanWriteRaw(chunks) {
      if Gapped(chunks) {
        GappedDisjoint(chunks);
      }
      if Disjoint(chunks) {
        RoundTrip(chunks, device);
      }
    }
  }

  /** A new chunk starts at its block, with zeros up to its offset. */
  lemma FreshFront(offset: nat, data: seq<byte>)
    requires offset < OFFSET_LIMIT && data != []
    ensures
      var c := Fresh(offset, data);
      && c.offset == offset / 4096 && c.DataBytes() > 0
      && c.OffsetBytes() == RoundDown(offset) && Flat(c.data) == Zeros(offset % 4096) + data
  {
    FreshData(offset, data);
  }

  lemma GrownNeighbours(chunks: seq<Chunk>, data: seq<byte>)
    requires NonEmpty(chunks) && chunks != []
    ensures
      var c := chunks[..|chunks| - 1] + [Grown(chunks[|chunks| - 1], data)];
      NonEmpty(c) && (Disjoint(c) <==> Disjoint(chunks)) && (Gapped(c) <==> Gapped(chunks))
  {
    var init, last := chunks[..|chunks| - 1], chunks[|chunks| - 1];
    assert chunks == init + [last];
    GrownData(last, data);
    assert Grown(last, data).DataBytes() >= last.DataBytes() > 0;
    forall i | 0 <= i < |init|
      ensures init[i].DataBytes() > 0
    {
      assert init[i] == chunks[i] && chunks[i].DataBytes() > 0;
    }
    NeighbourSnoc(init, last);
    NeighbourSnoc(init, Grown(last, data));
  }

  /** How a list fares when an append at any offset extends it. */
  lemma ExtendedNeighbours(chunks: seq<Chunk>, offset: nat, data: seq<byte>)
    requires NonEmpty(chunks) && offset < OFFSET_LIMIT && data != []
    ensures
      var c := Extended(chunks, offset, data);
      var starts := chunks != [] && !Continues(chunks, offset);
      && c != [] && NonEmpty(c)
      && (Disjoint(c) <==> Disjoint(chunks) && (starts ==> chunks[|chunks| - 1].EndBlocks() <= offset / 4096))
      && (Gapped(c) <==> Gapped(chunks) && (starts ==> chunks[|chunks| - 1].EndBlocks() < offset / 4096))
  {
    if Continues(chunks, offset) {
      GrownNeighbours(chunks, data);
    } else {
      FreshFront(offset, data);
      NeighbourSnoc(chunks, Fresh(offset, data));
    }
  }

  /** A new chunk behind the last one of any list, at any offset: the encoder goes back over a block they
      share, unless the chunk starts at or behind the end block; and the device accepts the image exactly
      when a free block lies between, and between all before. */
  lemma PartialNeighbour(device: Image, chunks: seq<Chunk>, offset: nat, data: seq<byte>)
    requires NonEmpty(chunks) && chunks != [] && offset < OFFSET_LIMIT && data != []
    requires chunks[|chunks| - 1].EndBytes() < offset
    ensures
      Disjoint(Extended(chunks, offset, data)) <==>
        Disjoint(chunks) && chunks[|chunks| - 1].EndBlocks() <= offset / 4096
    ensures
      Flash(device, Extended(chunks, offset, data)).Some? <==>
        Gapped(chunks) && chunks[|chunks| - 1].EndBlocks() < offset / 4096
  {
    ExtendedNeighbours(chunks, offset, data);
    Flashes(device, Extended(chunks, offset, data));
  }

  /** No two chunks touch, neither those buffered nor, where the write starts one, the last and the new
      one. */
  predicate Clear(buffered: seq<Chunk>, offset: nat) {
    var base := Base(buffered, offset);
    && Gapped(buffered)
    && (base != [] && !Continues(base, offset) ==> base[|base| - 1].EndBlocks() < offset / 4096)
  }

  /** The partition once what lies behind a write has been flashed. */
  function Before(device: Image, chunks: seq<Chunk>, offset: nat): Image
    requires Behind(chunks, offset) ==> Flash(device, chunks).Some?
  {
    if Behind(chunks, offset) then Flash(device, chunks).value else device
  }

  /** A write taken by one append, and a flush: after what lies behind, the extended list is flashed, at
      once or then. */
  lemma FlushedOnce(device: Image, chunks: seq<Chunk>, offset: nat, data: seq<byte>, max: nat)
    requires Ready(chunks, max) && data != [] && OneShot(chunks, offset, |data|, max)
    requires Behind(chunks, offset) ==> Flash(device, chunks).Some?
    ensures
      var w := WriteLoop(chunks, offset, data, max);
      FlashAll(device, w.flashes + [w.chunks]) ==
      Flash(Before(device, chunks, offset), Extended(Base(chunks, offset), offset, data))
  {
    var w, c := WriteLoop(chunks, offset, data, max), Extended(Base(chunks, offset), offset, data);
    OneShotWrite(chunks, offset, data, max);
    var first: seq<seq<Chunk>> := if Behind(chunks, offset) then [chunks] else [];
    var before := Before(device, chunks, offset);
    assert FlashAll(device, first) == Some(before) by { FlashAllOne(device, chunks); }
    if w.chunks == [] {
      assert w.flashes + [w.chunks] == first + [c, []];
      FlashAllConcat(device, first, [c, []]);
      FlashEmptyLast(before, c);
    } else {
      assert w.flashes + [w.chunks] == first + [c];
      FlashAllConcat(device, first, [c]);
      FlashAllOne(before, c);
    }
  }

  lemma FlashEmptyLast(device: Image, c: seq<Chunk>)
    ensures FlashAll(device, [c, []]) == Flash(device, c)
  {
    assert [c, []] == [c] + [[]];
    FlashAllConcat(device, [c], [[]]);
    FlashAllOne(device, c);
    if Flash(device, c).Some? {
      FlashAllOne(Flash(device, c).value, []);
    }
  }
  lemma BehindFails(device: Image, chunks: seq<Chunk>, offset: nat, data: seq<byte>, max: nat)
    requires Ready(chunks, max) && data != [] && OneShot(chunks, offset, |data|, max)
    requires Behind(chunks, offset) && Flash(device, chunks) == None
    ensures var w := WriteLoop(chunks, offset, data, max); FlashAll(device, w.flashes + [w.chunks]) == None
  {
    var w := WriteLoop(chunks, offset, data, max);
    OneShotWrite(chunks, offset, data, max);
    assert (w.flashes + [w.chunks])[0] == chunks;
  }

  /** A write taken by one append, and a flush, reach the device exactly when no chunks touch. */
  lemma FlushedClear(device: Image, chunks: seq<Chunk>, offset: nat, data: seq<byte>, max: nat)
    requires Ready(chunks, max) && NonEmpty(chunks) && offset < OFFSET_LIMIT && data != []
    requires OneShot(chunks, offset, |data|, max)
    ensures Clear(chunks, offset) && Behind(chunks, offset) ==> Flash(device, chunks).Some?
    ensures
      var w, c := WriteLoop(chunks, offset, data, max), Extended(Base(chunks, offset), offset, data);
      var d := FlashAll(device, w.flashes + [w.chunks]);
      && NonEmpty(c)
      && (Clear(chunks, offset) ==>
            Gapped(c) && d == Flash(Before(device, chunks, offset), c) && d.Some?)
      && (!Clear(chunks, offset) ==> d == None)
  {
    var base := Base(chunks, offset);
    Flashes(device, chunks);
    ExtendedNeighbours(base, offset, data);
    if Behind(chunks, offset) && Flash(device, chunks).None? {
      BehindFails(device, chunks, offset, data, max);
    } else {
      FlushedOnce(device, chunks, offset, data, max);
      Flashes(Before(device, chunks, offset), Extended(base, offset, data));
    }
  }

  // ------------------------------------------------------------ placement

  /** The bytes of `image` at `offset` are `data`. */
  ghost predicate Shows(image: Image, offset: nat, data: seq<byte>) {
    forall i :: 0 <= i < |data| ==> offset + i in image && image[offset + i] == data[i]
  }

  /** A write followed by a flush leaves every written byte at its place. */
  ghost predicate Places(device: Image, buffered: seq<Chunk>, offset: nat, data: seq<byte>, max: nat)
    requires Ready(buffered, max)
  {
    var w := WriteLoop(buffered, offset, data, max);
    var d := FlashAll(device, w.flashes + [w.chunks]);
    d.Some? && Shows(d.value, offset, data)
  }

  predicate Avoids(image: Image, q: nat, v: byte) {
    q in image ==> image[q] != v
  }

  predicate Harmless(chunks: seq<Chunk>, q: nat, v: byte) {
    NonEmpty(chunks) && Avoids(Apply(map[], chunks), q, v)
  }

  lemma FlashHarmless(device: Image, chunks: seq<Chunk>, q: nat, v: byte)
    requires Harmless(chunks, q, v) && Avoids(device, q, v)
    ensures var d := Flash(device, chunks); d.Some? ==> Avoids(d.value, q, v)
  {
    ApplyOverlay(device, chunks);
    if CanWriteRaw(chunks) {
      assert chunks == [chunks[0]];
      ApplyOne(map[], chunks[0]);
    } else if Disjoint(chunks) {
      RoundTrip(chunks, device);
    }
  }

  lemma {:induction false} FlashAllHarmless(device: Image, flashes: seq<seq<Chunk>>, q: nat, v: byte)
    requires Avoids(device, q, v) && forall f :: f in flashes ==> Harmless(f, q, v)
    ensures var d := FlashAll(device, flashes); d.Some? ==> Avoids(d.value, q, v)
    decreases |flashes|
  {
    if flashes != [] {
      FlashHarmless(device, flashes[0], q, v);
      var d := Flash(device, flashes[0]);
      if d.Some? {
        FlashAllHarmless(d.value, flashes[1..], q, v);
      }
    }
  }

  /** Past its data a chunk holds nothing but zeros. */
  lemma PastEnd(c: Chunk, q: nat, v: byte)
    requires c.EndBytes() <= q && v != 0
    ensures Avoids(ChunkImage(c), q, v)
  {
    if q in ChunkImage(c) {
      assert ChunkImage(c)[q] == Padded(Flat(c.data))[q - c.OffsetBytes()];
    }
  }

  /** A chunk that grows covers what it covered. */
  lemma GrownCovers(c: Chunk, piece: seq<byte>, q: nat)
    requires q in ChunkImage(c)
    ensures q in ChunkImage(Grown(c, piece))
  {
    GrownData(c, piece);
    assert RoundUp(c.DataBytes()) <= RoundUp(Grown(c, piece).DataBytes());
  }

  lemma ReplacedAvoids(base: Image, was: Image, grown: Image, q: nat, v: byte)
    requires Avoids(base + was, q, v) && Avoids(grown, q, v) && (q in was ==> q in grown)
    ensures Avoids(base + grown, q, v)
  {
  }

  lemma GrownHarmless(chunks: seq<Chunk>, piece: seq<byte>, q: nat, v: byte)
    requires Harmless(chunks, q, v) && v != 0 && chunks != []
    requires chunks[|chunks| - 1].EndBytes() + |piece| <= q
    ensures Harmless(chunks[..|chunks| - 1] + [Grown(chunks[|chunks| - 1], piece)], q, v)
  {
    var init, last := chunks[..|chunks| - 1], chunks[|chunks| - 1];
    var grown := Grown(last, piece);
    assert chunks == init + [last];
    ApplySnoc(map[], init, last);
    ApplySnoc(map[], init, grown);
    assert grown.EndBytes() == last.EndBytes() + |piece| by { GrownData(last, piece); }
    PastEnd(grown, q, v);
    if q in ChunkImage(last) {
      GrownCovers(last, piece, q);
    }
    ReplacedAvoids(Apply(map[], init), ChunkImage(last), ChunkImage(grown), q, v);
  }

  lemma ExtendedHarmless(chunks: seq<Chunk>, offset: nat, piece: seq<byte>, q: nat, v: byte)
    requires Harmless(chunks, q, v) && v != 0
    requires offset < OFFSET_LIMIT && piece != [] && offset + |piece| <= q
    ensures Harmless(Extended(chunks, offset, piece), q, v)
  {
    if Continues(chunks, offset) {
      GrownHarmless(chunks, piece, q, v);
    } else {
      FreshFront(offset, piece);
      PastEnd(Fresh(offset, piece), q, v);
      ApplySnoc(map[], chunks, Fresh(offset, piece));
    }
  }

  /** A write that needs more than one append never brings its last byte to its place. */
  lemma {:induction false} WriteHarmless(chunks: seq<Chunk>, offset: nat, data: seq<byte>, max: nat, q: nat, v: byte)
    requires Ready(chunks, max) && Harmless(chunks, q, v) && v != 0
    requires offset < OFFSET_LIMIT && offset + |data| <= q + 1
    requires offset + |data| == q + 1 ==> !OneShot(chunks, offset, |data|, max)
    ensures var w := WriteLoop(chunks, offset, data, max);
            forall f :: f in w.flashes + [w.chunks] ==> Harmless(f, q, v)
    decreases |data|, |chunks|
  {
    if data != [] {
      var t := Turn(chunks, offset, data, max);
      AppendProgress(chunks, offset, data, max);
      if !Behind(chunks, offset) {
        var n := Min(|data|, Room(chunks, offset, max));
        ExtendedHarmless(chunks, offset, data[..n], q, v);
      }
      assert Harmless([], q, v);
      WriteHarmless(t.chunks, offset, t.rest, max, q, v);
    }
  }

  /** A device without the last byte does not have the write in place. */
  lemma LastByteMissing(device: Image, buffered: seq<Chunk>, offset: nat, data: seq<byte>, max: nat, q: nat, v: byte)
    requires Ready(buffered, max) && data != [] && q == offset + (|data| - 1) && data[|data| - 1] == v
    requires
      var w := WriteLoop(buffered, offset, data, max);
      var d := FlashAll(device, w.flashes + [w.chunks]);
      d.Some? ==> Avoids(d.value, q, v)
    ensures !Places(device, buffered, offset, data, max)
  {
    var w := WriteLoop(buffered, offset, data, max);
    var d := FlashAll(device, w.flashes + [w.chunks]);
    if d.Some? {
      assert !(offset + (|data| - 1) in d.value && d.value[offset + (|data| - 1)] == data[|data| - 1]);
    }
  }

  /** A value that position `q` does not get from what is buffered. */
  lemma OtherValue(buffered: seq<Chunk>, q: nat) returns (v: byte)
    ensures v != 0 && Avoids(Apply(map[], buffered), q, v)
  {
    var held := Apply(map[], buffered);
    v := if q in held && held[q] == 1 then 2 else 1;
  }

  lemma StrayWrite(buffered: seq<Chunk>, offset: nat, len: nat, max: nat) returns (data: seq<byte>)
    requires Ready(buffered, max) && NonEmpty(buffered)
    requires offset < OFFSET_LIMIT && len > 0
    requires !OneShot(buffered, offset, len, max)
    ensures |data| == len && !Places(map[], buffered, offset, data, max)
  {
    var q := offset + len - 1;
    var v := OtherValue(buffered, q);
    data := seq(len, _ => v);
    var w := WriteLoop(buffered, offset, data, max);
    assert forall f :: f in w.flashes + [w.chunks] ==> Harmless(f, q, v) by {
      WriteHarmless(buffered, offset, data, max, q, v);
    }
    FlashAllHarmless(map[], w.flashes + [w.chunks], q, v);
    LastByteMissing(map[], buffered, offset, data, max, q, v);
  }

  /** The last chunk after an append ends with what was appended, at its place. */
  lemma ExtendedLast(chunks: seq<Chunk>, offset: nat, data: seq<byte>)
    returns (init: seq<Chunk>, last: Chunk, front: seq<byte>)
    requires offset < OFFSET_LIMIT && data != []
    ensures Extended(chunks, offset, data) == init + [last]
    ensures Flat(last.data) == front + data && last.OffsetBytes() + |front| == offset
  {
    if Continues(chunks, offset) {
      init, last := chunks[..|chunks| - 1], Grown(chunks[|chunks| - 1], data);
      front := Flat(chunks[|chunks| - 1].data);
      GrownData(chunks[|chunks| - 1], data);
    } else {
      init, last, front := chunks, Fresh(offset, data), Zeros(offset % 4096);
      FreshFront(offset, data);
    }
  }

  lemma ShowsWithin(image: Image, start: nat, front: seq<byte>, data: seq<byte>, pad: seq<byte>)
    ensures Shows(image + Place(start, (front + data) + pad), start + |front|, data)
  {
    var placed := (front + data) + pad;
    forall i | 0 <= i < |data|
      ensures
        var q := start + |front| + i;
        q in Place(start, placed) && Place(start, placed)[q] == data[i]
    {
      assert placed[|front| + i] == data[i];
    }
  }

  /** The last chunk of a list is laid over what the others leave, with its zeros or without. */
  lemma LastChunk(device: Image, c: seq<Chunk>, init: seq<Chunk>, last: Chunk) returns (base: Image, pad: seq<byte>)
    requires c == init + [last] && NonEmpty(c) && Gapped(c)
    ensures Flash(device, c) == Some(base + Place(last.OffsetBytes(), Flat(last.data) + pad))
  {
    if CanWriteRaw(c) {
      assert c[0] == last;
      base, pad := device, [];
      assert Flat(last.data) + [] == Flat(last.data);
    } else {
      base, pad := Apply(device, init), Zeros(RoundUp(last.DataBytes()) - last.DataBytes());
      Flashes(device, c);
      ApplySnoc(device, init, last);
    }
  }

  lemma AppendedBytes(device: Image, chunks: seq<Chunk>, offset: nat, data: seq<byte>) returns (d: Image)
    requires offset < OFFSET_LIMIT && data != []
    requires NonEmpty(Extended(chunks, offset, data)) && Gapped(Extended(chunks, offset, data))
    ensures Flash(device, Extended(chunks, offset, data)) == Some(d) && Shows(d, offset, data)
  {
    var init, last, front := ExtendedLast(chunks, offset, data);
    var base, pad := LastChunk(device, Extended(chunks, offset, data), init, last);
    d := base + Place(last.OffsetBytes(), (front + data) + pad);
    ShowsWithin(base, last.OffsetBytes(), front, data, pad);
  }

  lemma PlacedWrite(device: Image, buffered: seq<Chunk>, offset: nat, data: seq<byte>, max: nat)
    requires Ready(buffered, max) && NonEmpty(buffered) && offset < OFFSET_LIMIT && data != []
    requires OneShot(buffered, offset, |data|, max) && Clear(buffered, offset)
    ensures Places(device, buffered, offset, data, max)
  {
    FlushedClear(device, buffered, offset, data, max);
    var d := AppendedBytes(Before(device, buffered, offset), Base(buffered, offset), offset, data);
  }

  lemma NotPlaced(device: Image, buffered: seq<Chunk>, offset: nat, data: seq<byte>, max: nat)
    requires Ready(buffered, max) && NonEmpty(buffered) && offset < OFFSET_LIMIT && data != []
    requires OneShot(buffered, offset, |data|, max) && !Clear(buffered, offset)
    ensures !Places(device, buffered, offset, data, max)
  {
    FlushedClear(device, buffered, offset, data, max);
  }

  /** A write at any offset, to any list, puts its bytes in place for every device content and every data
      of its length exactly when one append takes it, because every turn of the loop starts at the same
      offset, and no chunks touch. */
  lemma PlacementExact(buffered: seq<Chunk>, offset: nat, len: nat, max: nat)
    requires Ready(buffered, max) && NonEmpty(buffered) && offset < OFFSET_LIMIT && len > 0
    ensures OneShot(buffered, offset, len, max) && Clear(buffered, offset) <==>
            forall device, data | |data| == len :: Places(device, buffered, offset, data, max)
  {
    if !OneShot(buffered, offset, len, max) {
      var data := StrayWrite(buffered, offset, len, max);
    } else if Clear(buffered, offset) {
      forall device, data | |data| == len
        ensures Places(device, buffered, offset, data, max)
      {
        PlacedWrite(device, buffered, offset, data, max);
      }
    } else {
      NotPlaced(map[], buffered, offset, Zeros(len), max);
    }
  }

  /** With the smallest usable budget a write of one block and one byte is not placed. */
  lemma MisplacedWrite() returns (data: seq<byte>)
    ensures |data| == 4097 && !Places(map[], [], 0, data, 8192)
  {
    data := StrayWrite([], 0, 4097, 8192);
  }

  /** What an append that fits adds to the size of any list. */
  lemma ExtendedSizeExact(chunks: seq<Chunk>, offset: nat, data: seq<byte>)
    requires offset < OFFSET_LIMIT
    ensures
      FlashSize(Extended(chunks, offset, data)) ==
        FlashSize(chunks) + RoundUp(|data|)
        + if Continues(chunks, offset) then 0
          else (if offset < 4096 then 1 else 2) * CHUNK_HEADER + if Aligned(offset) then 0 else 4096
  {
    if Continues(chunks, offset) {
      var init, last := chunks[..|chunks| - 1], chunks[|chunks| - 1];
      assert chunks == init + [last];
      SizesSnoc(init, last);
      SizesSnoc(init, Grown(last, data));
      GrownData(last, data);
    } else {
      SizesSnoc(chunks, Fresh(offset, data));
      FreshData(offset, data);
    }
  }

  /** An append to any list stays within the download budget exactly when it continues the last chunk,
      is block-aligned, or leaves room for the block of zeros put in front of it. */
  lemma UnalignedBudget(chunks: seq<Chunk>, offset: nat, data: seq<byte>, max: nat)
    requires Ready(chunks, max) && offset < OFFSET_LIMIT && data != []
    requires !Behind(chunks, offset) && |data| <= Room(chunks, offset, max)
    ensures
      FlashSize(Extended(chunks, offset, data)) <= max <==>
        || Continues(chunks, offset)
        || Aligned(offset)
        || FlashSize(chunks) + (if offset < 4096 then 1 else 2) * CHUNK_HEADER + 4096 + RoundUp(|data|) <= max
  {
    ExtendedSizeExact(chunks, offset, data);
    RoomFits(chunks, offset, |data|, max);
  }

  /** With the smallest usable budget, the rest of a block written from its second byte is flashed as
      an image that exceeds the budget. */
  lemma OverBudget(data: seq<byte>)
    requires |data| == 4095
    ensures
      var w := WriteLoop([], 1, data, 8192);
      w.flashes == [[Fresh(1, data)]] && FlashSize(w.flashes[0]) > 8192
  {
    OneShotWrite([], 1, data, 8192);
    UnalignedBudget([], 1, data, 8192);
    assert Extended([], 1, data) == [Fresh(1, data)];
  }

  /** A write into an empty list far from its budget stays buffered as one chunk, and so does a second
      one that starts a chunk behind it. */
  lemma SmallWrite(chunks: seq<Chunk>, offset: nat, data: seq<byte>, max: nat)
    requires 32 * 1024 * 1024 <= max && FlashSize(chunks) <= 8192 && offset < OFFSET_LIMIT && 0 < |data| <= 4096
    requires !Behind(chunks, offset) && !Continues(chunks, offset)
    ensures WriteLoop(chunks, offset, data, max) == Written([], chunks + [Fresh(offset, data)])
  {
    ExtendedSizeExact(chunks, offset, data);
    OneShotWrite(chunks, offset, data, max);
  }

  /** Block numbers have 32 bits: from 16 TiB on a chunk lies at the start of the volume again. */
  lemma BlockNumberWraps(offset: nat, data: seq<byte>)
    requires offset < OFFSET_LIMIT
    ensures OFFSET_LIMIT == 16 * 1024 * 1024 * 1024 * 1024
    ensures Fresh(OFFSET_LIMIT + offset, data) == Fresh(offset, data)
  {
    var blocks := offset / 4096;
    assert (OFFSET_LIMIT + offset) / 4096 == 0x1_0000_0000 + blocks;
    assert (OFFSET_LIMIT + offset) % 4096 == offset % 4096;
    assert (0x1_0000_0000 + blocks) % 0x1_0000_0000 == blocks;
  }

  /** A hundred bytes at 0 stay buffered as one chunk. */
  lemma HundredBuffered(first: seq<byte>, max: nat) returns (c: Chunk)
    requires |first| == 100 && max == 32 * 1024 * 1024
    ensures c == Fresh(0, first) && WriteLoop([], 0, first, max) == Written([], [c])
    ensures FlashSize([c]) <= 8192 && c.EndBytes() == 100 && c.EndBlocks() == 1 && NonEmpty([c])
  {
    c := Fresh(0, first);
    FreshFront(0, first);
    SmallWrite([], 0, first, max);
    ExtendedSizeExact([], 0, first);
    assert [] + [c] == [c] && Extended([], 0, first) == [c];
  }

  /** A hundred bytes at 0 and a hundred at 200: two chunks in one block. The second one is encoded with
      a skip of one block back, as a 32-bit number, and no image comes out of it. */
  lemma SharedBlock(first: seq<byte>, second: seq<byte>, device: Image)
    requires |first| == 100 && |second| == 100
    ensures
      var max := 32 * 1024 * 1024;
      var w := WriteLoop(WriteLoop([], 0, first, max).chunks, 200, second, max);
      && w == Written([], [Fresh(0, first), Fresh(200, second)])
      && Segment(w.chunks[1], w.chunks[0].EndBlocks())[0] == Head(NewDontCare(0xFFFF_FFFF))
      && Flash(device, w.chunks) == None
  {
    var max := 32 * 1024 * 1024;
    var c := HundredBuffered(first, max);
    assert WriteLoop([c], 200, second, max) == Written([], [c, Fresh(200, second)]) by {
      SmallWrite([c], 200, second, max);
      assert [c] + [Fresh(200, second)] == [c, Fresh(200, second)];
    }
    SharedSkip(c, 200, second);
    NoImage(device, c, 200, second);
  }

  lemma SharedSkip(c: Chunk, offset: nat, data: seq<byte>)
    requires c.EndBlocks() == 1 && offset < 4096 && data != []
    ensures Segment(Fresh(offset, data), 1)[0] == Head(NewDontCare(0xFFFF_FFFF))
  {
    FreshFront(offset, data);
  }

  lemma NoImage(device: Image, c: Chunk, offset: nat, data: seq<byte>)
    requires c.EndBlocks() == 1 && offset < 4096 && data != []
    ensures Flash(device, [c, Fresh(offset, data)]) == None
  {
    FreshFront(offset, data);
    var f := [c, Fresh(offset, data)];
    assert !After(f, 1);
  }

  /** A hundred bytes at 0 and a hundred at 4096: both writes are block-aligned, each is taken by one
      append, and the chunks touch; the flush fails. */
  lemma TouchingNeighbour(first: seq<byte>, second: seq<byte>, device: Image)
    requires |first| == 100 && |second| == 100
    ensures
      var max, b := 32 * 1024 * 1024, [Fresh(0, first)];
      && WriteLoop([], 0, first, max) == Written([], b) && OneShot(b, 4096, 100, max)
      && !Clear(b, 4096) && !Places(device, b, 4096, second, max)
      && Run(Target(device, []), [Write(0, first), Write(4096, second), Flush], max) == None
  {
    var max := 32 * 1024 * 1024;
    var c := HundredBuffered(first, max);
    var two := TouchingPair(device, c, second, max);
    NotPlaced(device, [c], 4096, second, max);
    TwoWrites(device, first, [c], second, two, max);
  }

  lemma TouchingPair(device: Image, c: Chunk, second: seq<byte>, max: nat) returns (two: seq<Chunk>)
    requires |second| == 100 && max == 32 * 1024 * 1024
    requires FlashSize([c]) <= 8192 && c.EndBytes() == 100 && c.EndBlocks() == 1 && NonEmpty([c])
    ensures OneShot([c], 4096, 100, max) && !Clear([c], 4096)
    ensures WriteLoop([c], 4096, second, max) == Written([], two) && Ready(two, max) && Flash(device, two) == None
  {
    two := Extended([c], 4096, second);
    SmallWrite([c], 4096, second, max);
    ExtendedNeighbours([c], 4096, second);
    Flashes(device, two);
  }

  lemma RunOne(t: Target, op: Op, rest: seq<Op>, max: nat)
    requires Ready(t.buffered, max)
    ensures Run(t, [op] + rest, max) == var n := Step(t, op, max); if n.None? then None else Run(n.value, rest, max)
  {
    assert ([op] + rest)[1..] == rest;
  }

  lemma TwoWrites(device: Image, first: seq<byte>, one: seq<Chunk>, second: seq<byte>, two: seq<Chunk>, max: nat)
    requires Ready([], max) && Ready(one, max) && Ready(two, max) && Flash(device, two) == None
    requires WriteLoop([], 0, first, max) == Written([], one)
    requires WriteLoop(one, 4096, second, max) == Written([], two)
    ensures Run(Target(device, []), [Write(0, first), Write(4096, second), Flush], max) == None
  {
    RunOne(Target(device, []), Write(0, first), [Write(4096, second), Flush], max);
    RunOne(Target(device, one), Write(4096, second), [Flush], max);
    RunOne(Target(device, two), Flush, [], max);
    assert [Write(0, first)] + [Write(4096, second), Flush] == [Write(0, first), Write(4096, second), Flush];
    assert [Write(4096, second)] + [Flush] == [Write(4096, second), Flush];
    assert [Flush] + [] == [Flush];
  }

  // --------------------------------------------------------- front padding

  /** The bytes a new chunk places from the start of its block on. */
  function Front(chunks: seq<Chunk>, offset: nat, data: seq<byte>): seq<byte> {
    var front := Zeros(offset % 4096) + data;
    if chunks == [] && offset < 4096 then front else Padded(front)
  }

  lemma FlashSparse(device: Image, c: Chunk)
    requires c.DataBytes() > 0 && c.offset > 0
    ensures Flash(device, [c]) == Some(device + ChunkImage(c))
  {
    ApplyOne(device, c);
    RoundTrip([c], device);
  }

  lemma FlashRaw(device: Image, c: Chunk)
    requires c.offset == 0
    ensures Flash(device, [c]) == Some(device + Place(0, Flat(c.data)))
  {
  }

  /** A fresh chunk flashed on its own. */
  lemma FlashFresh(device: Image, offset: nat, data: seq<byte>)
    requires offset < OFFSET_LIMIT && data != []
    ensures Flash(device, [Fresh(offset, data)]) == Some(device + Place(RoundDown(offset), Front([], offset, data)))
  {
    var c := Fresh(offset, data);
    FreshFront(offset, data);
    if offset < 4096 {
      FlashRaw(device, c);
    } else {
      FlashSparse(device, c);
      assert ChunkImage(c) == Place(RoundDown(offset), Front([], offset, data));
    }
  }

  /** A fresh chunk flashed at the end of a list, or on its own. */
  lemma FlashStarted(device: Image, chunks: seq<Chunk>, offset: nat, data: seq<byte>)
    requires NonEmpty(chunks) && Gapped(chunks) && offset < OFFSET_LIMIT && data != [] && !Continues(chunks, offset)
    requires chunks != [] ==> chunks[|chunks| - 1].EndBlocks() < offset / 4096
    ensures
      Flash(device, Extended(chunks, offset, data)) ==
      Some(Apply(device, chunks) + Place(RoundDown(offset), Front(chunks, offset, data)))
  {
    var c := Fresh(offset, data);
    if chunks == [] {
      assert [] + [c] == [c];
      FlashFresh(device, offset, data);
    } else {
      ExtendedNeighbours(chunks, offset, data);
      Flashes(device, chunks + [c]);
      FreshFront(offset, data);
      ApplySnoc(device, chunks, c);
    }
  }

  /** A write at any offset that starts a chunk zeroes the bytes in front of it in its first block,
      whatever the list holds: flushed, it leaves what the list holds, those zeros and the data, unless
      chunks touch. */
  lemma FrontPadding(device: Image, chunks: seq<Chunk>, offset: nat, data: seq<byte>, max: nat)
    requires Ready(chunks, max) && NonEmpty(chunks) && offset < OFFSET_LIMIT && data != []
    requires OneShot(chunks, offset, |data|, max) && !Continues(chunks, offset)
    ensures Clear(chunks, offset) && Behind(chunks, offset) ==> Flash(device, chunks).Some?
    ensures
      var w, base := WriteLoop(chunks, offset, data, max), Base(chunks, offset);
      FlashAll(device, w.flashes + [w.chunks]) ==
      if Clear(chunks, offset) then
        Some(Apply(Before(device, chunks, offset), base) + Place(RoundDown(offset), Front(base, offset, data)))
      else None
  {
    FlushedClear(device, chunks, offset, data, max);
    if Clear(chunks, offset) {
      FlashStarted(Before(device, chunks, offset), Base(chunks, offset), offset, data);
    }
  }
}
