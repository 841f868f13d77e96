/** The chunk list a fastboot target collects before it flashes. */
module Fastboot {
  import opened Bytes

  const FILE_HEADER := 28
  const CHUNK_HEADER := 12
  const FLASH_THRESHOLD := 16 * 1024 * 1024

  /** Consecutive data, `offset` counted in blocks. */
  datatype Chunk = Chunk(offset: nat, data: seq<seq<byte>>) {

    function OffsetBytes(): nat { offset * 4096 }

    function DataBytes(): nat { |Flat(data)| }

    function EndBytes(): nat { OffsetBytes() + DataBytes() }

    function Blocks(): nat { Bytes.Blocks(DataBytes()) }

    function EndBlocks(): nat { offset + Blocks() }

    function EndPadding(): (p: nat)
      ensures p < 4096
      ensures DataBytes() + p == RoundUp(DataBytes())
    {
      var rem := DataBytes() % 4096;
      if rem > 0 then 4096 - rem else 0
    }
  }

  /** Sum of the piece lengths, each rounded up to whole blocks on its own. */
  function RoundedPieces(pieces: seq<seq<byte>>): nat {
    if pieces == [] then 0 else RoundUp(|pieces[0]|) + RoundedPieces(pieces[1..])
  }

  function ChunkSize(c: Chunk): nat {
    (if c.offset > 0 then 24 else 12) + RoundedPieces(c.data)
  }

  function ChunkSizes(chunks: seq<Chunk>): nat {
    if chunks == [] then 0 else ChunkSize(chunks[0]) + ChunkSizes(chunks[1..])
  }

  /** Download budget used by a chunk list: `flash_size`. */
  function FlashSize(chunks: seq<Chunk>): nat {
    28 + ChunkSizes(chunks)
  }

  /** Chunk count announced in the image header: `flash_chunks`. */
  function FlashChunks(chunks: seq<Chunk>): nat {
    if chunks != [] && chunks[0].offset == 0 then |chunks| * 2 - 1 else |chunks| * 2
  }

  function ExpandedBlocks(chunks: seq<Chunk>): nat {
    if chunks == [] then 0 else chunks[|chunks| - 1].EndBlocks()
  }

  predicate CanWriteRaw(chunks: seq<Chunk>) {
    |chunks| == 1 && chunks[0].offset == 0
  }

  lemma {:induction false} RoundedSnoc(pieces: seq<seq<byte>>, p: seq<byte>)
    ensures RoundedPieces(pieces + [p]) == RoundedPieces(pieces) + RoundUp(|p|)
  {
    if pieces == [] {
      assert RoundedPieces([p]) == RoundUp(|p|) + RoundedPieces([]);
    } else {
      assert (pieces + [p])[1..] == pieces[1..] + [p];
      RoundedSnoc(pieces[1..], p);
    }
  }

  lemma {:induction false} SizesSnoc(chunks: seq<Chunk>, c: Chunk)
    ensures ChunkSizes(chunks + [c]) == ChunkSizes(chunks) + ChunkSize(c)
  {
    if chunks == [] {
      assert ChunkSizes([c]) == ChunkSize(c) + ChunkSizes([]);
    } else {
      assert (chunks + [c])[1..] == chunks[1..] + [c];
      SizesSnoc(chunks[1..], c);
    }
  }

  // ---------------------------------------------------------------- append

  /** Outcome of one append: the new list, the bytes not taken, and whether anything was taken. */
  datatype Appended = Appended(chunks: seq<Chunk>, rest: seq<byte>, taken: bool)

  /** `offset` falls before the end of the last chunk, so only a flash lets it be written. */
  predicate Behind(chunks: seq<Chunk>, offset: nat) {
    chunks != [] && offset < chunks[|chunks| - 1].EndBytes()
  }

  predicate Continues(chunks: seq<Chunk>, offset: nat) {
    chunks != [] && offset == chunks[|chunks| - 1].EndBytes()
  }

  /** How many bytes one append at `offset` can take. */
  function Room(chunks: seq<Chunk>, offset: nat, max: nat): nat
    requires FlashSize(chunks) <= max
  {
    var remaining := max - FlashSize(chunks);
    if Behind(chunks, offset) then 0
    else if Continues(chunks, offset) then RoundDown(remaining)
    else if remaining < 24 + 4096 then 0
    else RoundDown(remaining - 24) - offset % 4096
  }

  function Grown(c: Chunk, piece: seq<byte>): Chunk {
    c.(data := c.data + [piece])
  }

  /** A new chunk; the block number is cut to 32 bits, an offset inside a block is filled with zeros. */
  function Fresh(offset: nat, piece: seq<byte>): Chunk {
    var rem := offset % 4096;
    Chunk((offset / 4096) % 0x1_0000_0000, if rem > 0 then [Zeros(rem), piece] else [piece])
  }

  /** The list after one append of `piece` that fits. */
  function Extended(chunks: seq<Chunk>, offset: nat, piece: seq<byte>): seq<Chunk> {
    if Continues(chunks, offset) then chunks[..|chunks| - 1] + [Grown(chunks[|chunks| - 1], piece)]
    else chunks + [Fresh(offset, piece)]
  }

  lemma GrownData(c: Chunk, piece: seq<byte>)
    ensures Flat(Grown(c, piece).data) == Flat(c.data) + piece
    ensures RoundedPieces(Grown(c, piece).data) == RoundedPieces(c.data) + RoundUp(|piece|)
  {
    FlatSnoc(c.data, piece);
    RoundedSnoc(c.data, piece);
  }

  lemma FreshData(offset: nat, piece: seq<byte>)
    ensures Flat(Fresh(offset, piece).data) == Zeros(offset % 4096) + piece
    ensures RoundedPieces(Fresh(offset, piece).data)
         == RoundUp(|piece|) + (if Aligned(offset) then 0 else 4096)
  {
    var rem := offset % 4096;
    assert Flat([piece]) == piece + Flat<byte>([]);
    assert RoundedPieces([piece]) == RoundUp(|piece|) + RoundedPieces([]);
    if rem > 0 {
      assert [Zeros(rem), piece][1..] == [piece];
    }
  }

  function AppendSpec(chunks: seq<Chunk>, offset: nat, data: seq<byte>, max: nat): Appended
    requires FlashSize(chunks) <= max
  {
    if Continues(chunks, offset) || Room(chunks, offset, max) > 0 then
      var n := Min(|data|, Room(chunks, offset, max));
      Appended(Extended(chunks, offset, data[..n]), data[n..], true)
    else
      Appended(chunks, data, false)
  }

  class FastbootData {
    var chunks: seq<Chunk>

    constructor ()
      ensures chunks == []
    {
      chunks := [];
    }

    /** Take as much of `data` at `offset` as the budget allows; `rest` is what `data` is left with. */
    method Append(offset: nat, data: seq<byte>, max: nat) returns (appended: bool, rest: seq<byte>)
      requires FlashSize(chunks) <= max
      modifies this
      ensures Appended(chunks, rest, appended) == AppendSpec(old(chunks), offset, data, max)
    {
      var remaining := max - FlashSize(chunks);
      if chunks != [] {
        var last := chunks[|chunks| - 1];
        var end := last.EndBytes();
        if end == offset {
          remaining := (remaining / 4096) * 4096;
          var n := Min(|data|, remaining);
          chunks := chunks[|chunks| - 1 := last.(data := last.data + [data[..n]])];
          assert chunks == Extended(old(chunks), offset, data[..n]);
          return true, data[n..];
        }
        if last.EndBytes() > offset {
          return false, data;
        }
      }
      remaining := if remaining < 24 then 0 else remaining - 24;
      if remaining < 4096 {
        return false, data;
      }
      var blockOffset := offset / 4096;
      remaining := (remaining / 4096) * 4096;
      var rem := offset % 4096;
      var n, pieces;
      if rem > 0 {
        n := Min(|data|, remaining - rem);
        pieces := [Zeros(rem), data[..n]];
      } else {
        n := Min(|data|, remaining);
        pieces := [data[..n]];
      }
      rest := data[n..];
      chunks := chunks + [Chunk(blockOffset % 0x1_0000_0000, pieces)];
      appended := true;
    }
  }

  // ---------------------------------------------------------------- budget

  function Threshold(max: nat): nat
    requires max >= 8192
  {
    Min(FLASH_THRESHOLD, max - 8192)
  }

  /** What holds of the buffered chunks whenever `write` is entered or its loop starts over. */
  predicate Ready(chunks: seq<Chunk>, max: nat) {
    max >= 8192 && (chunks == [] || FlashSize(chunks) <= Threshold(max))
  }

  lemma ExtendedSize(chunks: seq<Chunk>, offset: nat, piece: seq<byte>)
    ensures FlashSize(Extended(chunks, offset, piece)) <=
            FlashSize(chunks) + RoundUp(|piece|)
            + (if Continues(chunks, offset) then 0 else 24 + (if Aligned(offset) then 0 else 4096))
  {
    if Continues(chunks, offset) {
      var init, last := chunks[..|chunks| - 1], chunks[|chunks| - 1];
      assert chunks == init + [last];
      SizesSnoc(init, last);
      SizesSnoc(init, Grown(last, piece));
      GrownData(last, piece);
    } else {
      SizesSnoc(chunks, Fresh(offset, piece));
      FreshData(offset, piece);
    }
  }

  lemma RoomFits(chunks: seq<Chunk>, offset: nat, len: nat, max: nat)
    requires Ready(chunks, max) && !Behind(chunks, offset)
    ensures Room(chunks, offset, max) > 0
    ensures FlashSize(chunks) + RoundUp(Min(len, Room(chunks, offset, max)))
            + (if Continues(chunks, offset) then 0 else 24) <= max
  {
    assert max - FlashSize(chunks) >= 8192 - 28;
    var room := Room(chunks, offset, max);
    if Continues(chunks, offset) {
      assert RoundUp(Min(len, room)) <= RoundDown(max - FlashSize(chunks));
    } else {
      assert RoundUp(Min(len, room)) <= RoundDown(max - FlashSize(chunks) - 24);
    }
  }

  /** One append of a non-empty string from a ready list: it takes something unless the offset lies
      behind the list, and only an unaligned new chunk can exceed the budget, by at most a block. */
  lemma AppendProgress(chunks: seq<Chunk>, offset: nat, data: seq<byte>, max: nat)
    requires Ready(chunks, max) && data != []
    ensures var a := AppendSpec(chunks, offset, data, max);
            && a.taken == !Behind(chunks, offset)
            && (a.taken ==> |a.rest| < |data|)
            && FlashSize(a.chunks) <= max + (if Continues(chunks, offset) || Aligned(offset) then 0 else 4096)
  {
    if !Behind(chunks, offset) {
      RoomFits(chunks, offset, |data|, max);
      ExtendedSize(chunks, offset, data[..Min(|data|, Room(chunks, offset, max))]);
    }
  }
}
