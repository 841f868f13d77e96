/** Every image a fastboot target hands to its device, over runs of aligned writes of any length. */
module FastbootImages {
  import opened Wrappers
  import opened Bytes
  import opened Fastboot
  import opened FastbootWrite
  import opened FastbootRuns
  import opened SparseImage

  /** No piece but the last of any chunk leaves a partial block. */
  predicate AllPiecesWhole(chunks: seq<Chunk>) {
    forall i {:trigger PiecesWhole(chunks[i])} :: 0 <= i < |chunks| ==> PiecesWhole(chunks[i])
  }

  /** Chunks are in order, share no block, hold whole pieces of data, and end within 32-bit block
      numbers. */
  predicate Encodable(chunks: seq<Chunk>) {
    && Disjoint(chunks) && NonEmpty(chunks) && AllPiecesWhole(chunks)
    && forall i {:trigger chunks[i].EndBlocks()} :: 0 <= i < |chunks| ==> chunks[i].EndBlocks() < 0x1_0000_0000
  }

  lemma EndInRange(c: Chunk, end: nat)
    requires c.EndBytes() == end <= OFFSET_LIMIT - 4096
    ensures c.EndBlocks() < 0x1_0000_0000
  {
  }

  lemma GrownEncodable(chunks: seq<Chunk>, piece: seq<byte>)
    requires Encodable(chunks) && chunks != [] && piece != [] && Aligned(chunks[|chunks| - 1].EndBytes())
    requires chunks[|chunks| - 1].EndBytes() + |piece| <= OFFSET_LIMIT - 4096
    ensures Encodable(chunks[..|chunks| - 1] + [Grown(chunks[|chunks| - 1], piece)])
  {
    var last := chunks[|chunks| - 1];
    var grown := Grown(last, piece);
    GrownPieces(last, piece);
    EndInRange(grown, last.EndBytes() + |piece|);
    var init := chunks[..|chunks| - 1];
    assert chunks == init + [last];
    NeighbourSnoc(init, last);
    NeighbourSnoc(init, grown);
  }

  lemma FreshEncodable(chunks: seq<Chunk>, offset: nat, piece: seq<byte>)
    requires Encodable(chunks) && Aligned(offset) && piece != []
    requires offset + |piece| <= OFFSET_LIMIT - 4096 && !Behind(chunks, offset)
    ensures Encodable(chunks + [Fresh(offset, piece)])
  {
    FreshImage(offset, piece);
    FreshData(offset, piece);
    var c := Fresh(offset, piece);
    assert c.EndBytes() == offset + |piece| && c.EndBlocks() < 0x1_0000_0000;
    if chunks != [] {
      assert chunks[|chunks| - 1].EndBytes() <= offset;
    }
    NeighbourSnoc(chunks, c);
  }

  lemma ExtendedEncodable(chunks: seq<Chunk>, offset: nat, piece: seq<byte>)
    requires Encodable(chunks) && Aligned(offset) && piece != []
    requires offset + |piece| <= OFFSET_LIMIT - 4096 && !Behind(chunks, offset)
    ensures Encodable(Extended(chunks, offset, piece))
  {
    if Continues(chunks, offset) {
      GrownEncodable(chunks, piece);
    } else {
      FreshEncodable(chunks, offset, piece);
    }
  }

  /** An image that can be encoded and meets the download budget. */
  predicate Fine(chunks: seq<Chunk>, max: nat) {
    chunks != [] && Encodable(chunks) && FlashSize(chunks) <= max
  }

  lemma TurnFine(chunks: seq<Chunk>, offset: nat, data: seq<byte>, max: nat)
    requires Ready(chunks, max) && Encodable(chunks) && data != []
    requires Aligned(offset) && offset + |data| <= OFFSET_LIMIT - 4096
    ensures
      var t := Turn(chunks, offset, data, max);
      && Encodable(t.chunks) && |t.rest| <= |data|
      && forall f :: f in t.flashed ==> Fine(f, max)
  {
    AppendProgress(chunks, offset, data, max);
    if !Behind(chunks, offset) {
      var n := Min(|data|, Room(chunks, offset, max));
      RoomFits(chunks, offset, |data|, max);
      ExtendedEncodable(chunks, offset, data[..n]);
    }
  }

  /** Every list a write flashes, and the one it leaves, can be encoded. */
  lemma {:induction false} WriteFine(chunks: seq<Chunk>, offset: nat, data: seq<byte>, max: nat)
    requires Ready(chunks, max) && Encodable(chunks)
    requires Aligned(offset) && offset + |data| <= OFFSET_LIMIT - 4096
    ensures
      var w := WriteLoop(chunks, offset, data, max);
      Encodable(w.chunks) && forall f :: f in w.flashes ==> Fine(f, max)
    decreases |data|, |chunks|
  {
    if data != [] {
      var t := Turn(chunks, offset, data, max);
      TurnFine(chunks, offset, data, max);
      WriteFine(t.chunks, offset, t.rest, max);
    }
  }

  /** All lists handed to the device over a run, and the list left, whatever the device makes of them. */
  function Handed(chunks: seq<Chunk>, ops: seq<Op>, max: nat): (w: Written)
    requires Ready(chunks, max)
    ensures Ready(w.chunks, max)
    decreases |ops|
  {
    if ops == [] then Written([], chunks)
    else
      var first :=
        match ops[0]
        case Write(offset, data) => WriteLoop(chunks, offset, data, max)
        case Flush => Written(if chunks == [] then [] else [chunks], []);
      var rest := Handed(first.chunks, ops[1..], max);
      Written(first.flashes + rest.flashes, rest.chunks)
  }

  /** A write at a block-aligned offset, of any length, within 32-bit block numbers. */
  predicate AlignedOp(op: Op) {
    op.Write? ==> Aligned(op.offset) && op.offset + |op.data| <= OFFSET_LIMIT - 4096
  }

  lemma ReadyFits(chunks: seq<Chunk>, max: nat)
    requires Ready(chunks, max) && chunks != [] && Encodable(chunks)
    ensures Fine(chunks, max)
  {
  }

  /** Over any run of aligned writes of any length and flushes, overlapping and in any order. */
  lemma {:induction false} EveryImageFine(chunks: seq<Chunk>, ops: seq<Op>, max: nat)
    requires Ready(chunks, max) && Encodable(chunks)
    requires forall op :: op in ops ==> AlignedOp(op)
    ensures
      var w := Handed(chunks, ops, max);
      Encodable(w.chunks) && forall f :: f in w.flashes ==> Fine(f, max)
    decreases |ops|
  {
    if ops != [] {
      match ops[0] {
        case Write(offset, data) =>
          assert AlignedOp(ops[0]);
          WriteFine(chunks, offset, data, max);
          EveryImageFine(WriteLoop(chunks, offset, data, max).chunks, ops[1..], max);
        case Flush =>
          if chunks != [] {
            ReadyFits(chunks, max);
          }
          EveryImageFine([], ops[1..], max);
      }
    }
  }

  /** The skip in front of a chunk goes on from the chunk before it: the subtraction does not wrap. */
  predicate SkipsOn(chunks: seq<Chunk>, i: nat)
    requires 0 < i < |chunks|
  {
    Skip(chunks[i - 1].EndBlocks(), chunks[i].offset) == chunks[i].offset - chunks[i - 1].EndBlocks()
  }

  /** Download size and chunk count are announced as they are. */
  predicate Announced(f: seq<Chunk>) {
    FILE_HEADER + Size(Encode(f).body) == FlashSize(f) && Emitted(f, 0) == Encode(f).header.chunks
  }

  /** What the device gets for such a list: an image within the budget whose skips never go back, and
      which is announced exactly, and decodes to the list's meaning, if and only if no neighbours touch. */
  lemma FineImage(f: seq<Chunk>, max: nat, device: Image)
    requires Fine(f, max)
    ensures FILE_HEADER + Size(Encode(f).body) <= FlashSize(f) <= max
    ensures Emitted(f, 0) <= Encode(f).header.chunks
    ensures FILE_HEADER + Size(Encode(f).body) == FlashSize(f) <==> Gapped(f)
    ensures Emitted(f, 0) == Encode(f).header.chunks <==> Gapped(f)
    ensures forall i {:trigger SkipsOn(f, i)} :: 0 < i < |f| ==> SkipsOn(f, i)
    ensures
      Decode(Encode(f), device) ==
        if Gapped(f) then Reader([], Apply(device, f), ExpandedBlocks(f) * 4096) else Broken
    ensures Flash(device, f).Some? <==> Gapped(f)
  {
    HeaderExact(f);
    ChunkCount(f);
    RoundTrip(f, device);
    forall i | 0 < i < |f|
      ensures SkipsOn(f, i)
    {
      assert After(f, i);
    }
  }

  /** For every run from an idle target and every list it hands to the device: all of that. */
  lemma RunImages(ops: seq<Op>, max: nat, f: seq<Chunk>, device: Image)
    requires max >= 8192 && forall op :: op in ops ==> AlignedOp(op)
    requires f in Handed([], ops, max).flashes
    ensures Fine(f, max)
    ensures FILE_HEADER + Size(Encode(f).body) <= max
    ensures Announced(f) <==> Gapped(f)
    ensures forall i {:trigger SkipsOn(f, i)} :: 0 < i < |f| ==> SkipsOn(f, i)
    ensures
      Decode(Encode(f), device) ==
        if Gapped(f) then Reader([], Apply(device, f), ExpandedBlocks(f) * 4096) else Broken
  {
    EveryImageFine([], ops, max);
    FineImage(f, max, device);
  }

  /** The device side of a run succeeds step by step on exactly these lists. */
  lemma {:induction false} RunHands(t: Target, ops: seq<Op>, max: nat)
    requires Ready(t.buffered, max)
    ensures
      var w, r := Handed(t.buffered, ops, max), Run(t, ops, max);
      var d := FlashAll(t.device, w.flashes);
      && (r.Some? <==> d.Some?)
      && (r.Some? ==> r.value == Target(d.value, w.chunks))
    decreases |ops|
  {
    if ops != [] {
      var first :=
        match ops[0]
        case Write(offset, data) => WriteLoop(t.buffered, offset, data, max)
        case Flush => Written(if t.buffered == [] then [] else [t.buffered], []);
      var d := FlashAll(t.device, first.flashes);
      assert ops[0].Flush? ==> d == Flash(t.device, t.buffered) by {
        FlashAllOne(t.device, t.buffered);
      }
      FlashAllConcat(t.device, first.flashes, Handed(first.chunks, ops[1..], max).flashes);
      if d.Some? {
        RunHands(Target(d.value, first.chunks), ops[1..], max);
      }
    }
  }

  lemma {:induction false} AllGapped(device: Image, flashes: seq<seq<Chunk>>, max: nat)
    requires forall f :: f in flashes ==> Fine(f, max)
    ensures FlashAll(device, flashes).Some? <==> forall f :: f in flashes ==> Gapped(f)
    decreases |flashes|
  {
    if flashes != [] {
      FineImage(flashes[0], max, device);
      var d := Flash(device, flashes[0]);
      if d.Some? {
        AllGapped(d.value, flashes[1..], max);
        assert forall f :: f in flashes <==> f == flashes[0] || f in flashes[1..];
      }
    }
  }

  /** A run of aligned writes of any length succeeds on the device if and only if, in every list it
      hands over, no two neighbours touch; that is, if and only if every image is announced exactly. */
  lemma RunSucceeds(device: Image, ops: seq<Op>, max: nat)
    requires max >= 8192 && forall op :: op in ops ==> AlignedOp(op)
    ensures
      var flashes := Handed([], ops, max).flashes;
      && (Run(Target(device, []), ops, max).Some? <==> forall f :: f in flashes ==> Gapped(f))
      && (Run(Target(device, []), ops, max).Some? <==> forall f :: f in flashes ==> Announced(f))
  {
    var flashes := Handed([], ops, max).flashes;
    EveryImageFine([], ops, max);
    RunHands(Target(device, []), ops, max);
    AllGapped(device, flashes, max);
    forall f | f in flashes
      ensures Announced(f) <==> Gapped(f)
    {
      FineImage(f, max, device);
    }
  }

  // ------------------------------------------------- whole-block writes

  lemma WholeAnnounced(f: seq<Chunk>)
    requires Whole(f)
    ensures Announced(f)
  {
    GappedDisjoint(f);
    HeaderExact(f);
    ChunkCount(f);
  }

  lemma WholeRoom(chunks: seq<Chunk>, offset: nat, len: nat, max: nat) returns (n: nat)
    requires Ready(chunks, max) && !Behind(chunks, offset) && Aligned(offset) && Aligned(len) && len > 0
    ensures n == Min(len, Room(chunks, offset, max)) && 0 < n <= len && Aligned(n) && Aligned(len - n)
  {
    RoomFits(chunks, offset, len, max);
    n := Min(len, Room(chunks, offset, max));
  }

  lemma TurnWhole(chunks: seq<Chunk>, offset: nat, data: seq<byte>, max: nat)
    requires Ready(chunks, max) && Whole(chunks) && data != []
    requires Aligned(offset) && offset < OFFSET_LIMIT && Aligned(|data|)
    ensures
      var t := Turn(chunks, offset, data, max);
      && Whole(t.chunks) && Aligned(|t.rest|)
      && forall f :: f in t.flashed ==> Whole(f)
  {
    AppendProgress(chunks, offset, data, max);
    if !Behind(chunks, offset) {
      var n := WholeRoom(chunks, offset, |data|, max);
      ExtendedWhole(chunks, offset, data[..n]);
    }
  }

  lemma {:induction false} LoopWhole(chunks: seq<Chunk>, offset: nat, data: seq<byte>, max: nat)
    requires Ready(chunks, max) && Whole(chunks)
    requires Aligned(offset) && offset < OFFSET_LIMIT && Aligned(|data|)
    ensures
      var w := WriteLoop(chunks, offset, data, max);
      Whole(w.chunks) && forall f :: f in w.flashes ==> Whole(f)
    decreases |data|, |chunks|
  {
    if data != [] {
      var t := Turn(chunks, offset, data, max);
      TurnWhole(chunks, offset, data, max);
      LoopWhole(t.chunks, offset, t.rest, max);
    }
  }

  /** Over any run of whole-block writes and flushes, with any budget. */
  lemma {:induction false} EveryListWhole(chunks: seq<Chunk>, ops: seq<Op>, max: nat)
    requires Ready(chunks, max) && Whole(chunks)
    requires forall op :: op in ops ==> WholeOp(op)
    ensures
      var w := Handed(chunks, ops, max);
      Whole(w.chunks) && forall f :: f in w.flashes ==> Whole(f)
    decreases |ops|
  {
    if ops != [] {
      match ops[0] {
        case Write(offset, data) =>
          assert WholeOp(ops[0]);
          LoopWhole(chunks, offset, data, max);
          EveryListWhole(WriteLoop(chunks, offset, data, max).chunks, ops[1..], max);
        case Flush => EveryListWhole([], ops[1..], max);
      }
    }
  }

  lemma {:induction false} AllWhole(device: Image, flashes: seq<seq<Chunk>>)
    requires forall f :: f in flashes ==> Whole(f)
    ensures FlashAll(device, flashes).Some?
    decreases |flashes|
  {
    if flashes != [] {
      FlashWhole(device, flashes[0]);
      AllWhole(Apply(device, flashes[0]), flashes[1..]);
    }
  }

  /** What a caller can check beforehand: a run of whole-block writes, in any order and overlapping at
      will, is announced exactly throughout and succeeds on the device, whatever the budget. */
  lemma WholeRunSucceeds(device: Image, ops: seq<Op>, max: nat)
    requires max >= 8192 && forall op :: op in ops ==> WholeOp(op)
    ensures Run(Target(device, []), ops, max).Some?
    ensures forall f :: f in Handed([], ops, max).flashes ==> Whole(f) && Announced(f)
  {
    var flashes := Handed([], ops, max).flashes;
    EveryListWhole([], ops, max);
    RunHands(Target(device, []), ops, max);
    AllWhole(device, flashes);
    forall f | f in flashes
      ensures Announced(f)
    {
      WholeAnnounced(f);
    }
  }

  // ------------------------------------------------------- any run at all

  lemma ExtendedNonEmpty(chunks: seq<Chunk>, offset: nat, data: seq<byte>)
    requires NonEmpty(chunks) && data != []
    ensures NonEmpty(Extended(chunks, offset, data))
  {
    if Continues(chunks, offset) {
      GrownData(chunks[|chunks| - 1], data);
    } else {
      FreshData(offset, data);
    }
  }

  lemma {:induction false} LoopNonEmpty(chunks: seq<Chunk>, offset: nat, data: seq<byte>, max: nat)
    requires Ready(chunks, max) && NonEmpty(chunks)
    ensures
      var w := WriteLoop(chunks, offset, data, max);
      NonEmpty(w.chunks) && forall f :: f in w.flashes ==> NonEmpty(f)
    decreases |data|, |chunks|
  {
    if data != [] {
      var t := Turn(chunks, offset, data, max);
      AppendProgress(chunks, offset, data, max);
      if !Behind(chunks, offset) {
        ExtendedNonEmpty(chunks, offset, data[..Min(|data|, Room(chunks, offset, max))]);
      }
      LoopNonEmpty(t.chunks, offset, t.rest, max);
    }
  }

  /** Writes at any offset, flushes: no list ever holds an empty chunk. */
  lemma {:induction false} EveryChunkFilled(chunks: seq<Chunk>, ops: seq<Op>, max: nat)
    requires Ready(chunks, max) && NonEmpty(chunks)
    ensures
      var w := Handed(chunks, ops, max);
      NonEmpty(w.chunks) && forall f :: f in w.flashes ==> NonEmpty(f)
    decreases |ops|
  {
    if ops != [] {
      match ops[0] {
        case Write(offset, data) =>
          LoopNonEmpty(chunks, offset, data, max);
          EveryChunkFilled(WriteLoop(chunks, offset, data, max).chunks, ops[1..], max);
        case Flush => EveryChunkFilled([], ops[1..], max);
      }
    }
  }
}
