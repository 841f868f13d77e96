/** The loop of a fastboot write: appends to the chunk list and flashes when it is full. */
module FastbootWrite {
  import opened Bytes
  import opened Fastboot

  /** What one write leaves: the chunk lists flashed on the way and the one still buffered. */
  datatype Written = Written(flashes: seq<seq<Chunk>>, chunks: seq<Chunk>)

  /** One turn of the loop: what it flashes, what stays buffered and the bytes still to take. */
  datatype Turned = Turned(flashed: seq<seq<Chunk>>, chunks: seq<Chunk>, rest: seq<byte>)

  function Turn(chunks: seq<Chunk>, offset: nat, data: seq<byte>, max: nat): (t: Turned)
    requires Ready(chunks, max) && data != []
    ensures Ready(t.chunks, max)
    ensures |t.rest| < |data| || (|t.rest| == |data| && |t.chunks| < |chunks|)
  {
    AppendProgress(chunks, offset, data, max);
    var a := AppendSpec(chunks, offset, data, max);
    if !a.taken || FlashSize(a.chunks) > Threshold(max) then Turned([a.chunks], [], a.rest)
    else Turned([], a.chunks, a.rest)
  }

  function WriteLoop(chunks: seq<Chunk>, offset: nat, data: seq<byte>, max: nat): (w: Written)
    requires Ready(chunks, max)
    ensures Ready(w.chunks, max)
    decreases |data|, |chunks|
  {
    if data == [] then Written([], chunks)
    else
      var t := Turn(chunks, offset, data, max);
      var w := WriteLoop(t.chunks, offset, t.rest, max);
      Written(t.flashed + w.flashes, w.chunks)
  }

  /** Every image a block-aligned write flashes fits the download budget. */
  lemma {:induction false} FlashBudget(chunks: seq<Chunk>, offset: nat, data: seq<byte>, max: nat)
    requires Ready(chunks, max) && Aligned(offset)
    ensures forall f :: f in WriteLoop(chunks, offset, data, max).flashes ==> FlashSize(f) <= max
    decreases |data|, |chunks|
  {
    if data != [] {
      AppendProgress(chunks, offset, data, max);
      var t := Turn(chunks, offset, data, max);
      FlashBudget(t.chunks, offset, t.rest, max);
    }
  }

  /** All data bytes of a chunk list in order. */
  function Contents(chunks: seq<Chunk>): seq<byte> {
    if chunks == [] then [] else Flat(chunks[0].data) + Contents(chunks[1..])
  }

  lemma {:induction false} ContentsConcat(a: seq<Chunk>, b: seq<Chunk>)
    ensures Contents(a + b) == Contents(a) + Contents(b)
  {
    if a == [] {
      assert a + b == b;
    } else {
      assert (a + b)[1..] == a[1..] + b;
      ContentsConcat(a[1..], b);
    }
  }

  lemma ExtendedContents(chunks: seq<Chunk>, offset: nat, piece: seq<byte>)
    requires Aligned(offset)
    ensures Contents(Extended(chunks, offset, piece)) == Contents(chunks) + piece
  {
    if Continues(chunks, offset) {
      var init, last := chunks[..|chunks| - 1], chunks[|chunks| - 1];
      assert chunks == init + [last];
      ContentsConcat(init, [last]);
      ContentsConcat(init, [Grown(last, piece)]);
      GrownData(last, piece);
      assert Contents([last]) == Flat(last.data) + Contents([]);
      assert Contents([Grown(last, piece)]) == Flat(last.data) + piece + Contents([]);
    } else {
      ContentsConcat(chunks, [Fresh(offset, piece)]);
      FreshData(offset, piece);
      assert Contents([Fresh(offset, piece)]) == Flat(Fresh(offset, piece).data) + Contents([]);
    }
  }

  lemma AppendContents(chunks: seq<Chunk>, offset: nat, data: seq<byte>, max: nat)
    requires FlashSize(chunks) <= max && Aligned(offset)
    ensures var a := AppendSpec(chunks, offset, data, max);
            Contents(a.chunks) + a.rest == Contents(chunks) + data
  {
    var a := AppendSpec(chunks, offset, data, max);
    if a.taken {
      var n := Min(|data|, Room(chunks, offset, max));
      ExtendedContents(chunks, offset, data[..n]);
      assert data == data[..n] + a.rest;
    }
  }

  lemma TurnContents(chunks: seq<Chunk>, offset: nat, data: seq<byte>, max: nat)
    requires Ready(chunks, max) && Aligned(offset) && data != []
    ensures var t := Turn(chunks, offset, data, max);
            Contents(Flat(t.flashed)) + (Contents(t.chunks) + t.rest) == Contents(chunks) + data
  {
    AppendContents(chunks, offset, data, max);
    var a := AppendSpec(chunks, offset, data, max);
    var t := Turn(chunks, offset, data, max);
    if t.flashed == [] {
      assert Flat(t.flashed) == [];
    } else {
      FlatSnoc([], a.chunks);
      assert [] + [a.chunks] == [a.chunks];
      assert Flat(t.flashed) == a.chunks && Contents(t.chunks) + t.rest == a.rest;
    }
  }

  /** No byte of an aligned write is lost or taken twice: what is flashed followed by what stays
      buffered is what was buffered followed by the written bytes. */
  lemma {:induction false} WriteConserves(chunks: seq<Chunk>, offset: nat, data: seq<byte>, max: nat)
    requires Ready(chunks, max) && Aligned(offset)
    ensures var w := WriteLoop(chunks, offset, data, max);
            Contents(Flat(w.flashes)) + Contents(w.chunks) == Contents(chunks) + data
    decreases |data|, |chunks|
  {
    if data != [] {
      var t := Turn(chunks, offset, data, max);
      var w := WriteLoop(t.chunks, offset, t.rest, max);
      TurnContents(chunks, offset, data, max);
      WriteConserves(t.chunks, offset, t.rest, max);
      FlatConcat(t.flashed, w.flashes);
      ContentsConcat(Flat(t.flashed), Flat(w.flashes));
      ConcatAssoc(Contents(Flat(t.flashed)), Contents(Flat(w.flashes)), Contents(w.chunks));
    }
  }

  // ------------------------------------------------- one append per write

  /** Behind the buffered data only a flash makes room, and the write starts a fresh list. */
  function Base(chunks: seq<Chunk>, offset: nat): seq<Chunk> {
    if Behind(chunks, offset) then [] else chunks
  }

  /** A write of `len` bytes is taken by a single append, after a flash where it lies behind. */
  predicate OneShot(chunks: seq<Chunk>, offset: nat, len: nat, max: nat)
    requires Ready(chunks, max)
  {
    len <= Room(Base(chunks, offset), offset, max)
  }

  /** A download budget that makes every write of `len` bytes one append, whatever is buffered. */
  lemma AmpleBudget(chunks: seq<Chunk>, offset: nat, len: nat, max: nat)
    requires Ready(chunks, max) && Aligned(offset)
    requires max >= FLASH_THRESHOLD + RoundUp(len) + 24
    ensures OneShot(chunks, offset, len, max)
  {
  }

  lemma OneShotWrite(chunks: seq<Chunk>, offset: nat, data: seq<byte>, max: nat)
    requires Ready(chunks, max) && data != []
    requires OneShot(chunks, offset, |data|, max)
    ensures var c := Extended(Base(chunks, offset), offset, data);
            var before := if Behind(chunks, offset) then [chunks] else [];
            WriteLoop(chunks, offset, data, max) ==
            if FlashSize(c) > Threshold(max) then Written(before + [c], []) else Written(before, c)
  {
    var b := Base(chunks, offset);
    AppendProgress(chunks, offset, data, max);
    AppendProgress(b, offset, data, max);
    var a := AppendSpec(b, offset, data, max);
    assert data[..|data|] == data && a.chunks == Extended(b, offset, data) && a.rest == [];
    var t := Turn(b, offset, data, max);
    assert WriteLoop(t.chunks, offset, [], max) == Written([], t.chunks);
    assert WriteLoop(b, offset, data, max) == Written(t.flashed + [], t.chunks);
    if Behind(chunks, offset) {
      assert Turn(chunks, offset, data, max) == Turned([chunks], [], data);
    }
  }

  /** A write taken by one append is flashed at once just when the list then exceeds 16 MiB, or the download
      limit less two blocks; otherwise it stays buffered. */
  lemma FlashedAbove(chunks: seq<Chunk>, offset: nat, data: seq<byte>, max: nat)
    requires Ready(chunks, max) && data != [] && OneShot(chunks, offset, |data|, max)
    ensures
      var w, c := WriteLoop(chunks, offset, data, max), Extended(Base(chunks, offset), offset, data);
      var before := if Behind(chunks, offset) then [chunks] else [];
      if FlashSize(c) > 16 * 1024 * 1024 || FlashSize(c) > max - 2 * 4096 then w == Written(before + [c], [])
      else w == Written(before, c)
  {
    OneShotWrite(chunks, offset, data, max);
  }

  lemma WriteTurn(chunks: seq<Chunk>, offset: nat, data: seq<byte>, max: nat)
    requires Ready(chunks, max) && data != []
    ensures var t := Turn(chunks, offset, data, max);
            var v := WriteLoop(t.chunks, offset, t.rest, max);
            WriteLoop(chunks, offset, data, max) == Written(t.flashed + v.flashes, v.chunks)
  {
  }
}
