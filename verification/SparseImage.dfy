/** Android sparse images: the encoder of the fastboot provider and the decoder of the client. */
module SparseImage {
  import opened Bytes
  import opened Fastboot

  datatype ChunkType = Raw | Fill | DontCare | Crc32

  /** A 12 byte chunk header; `blocks` counts output blocks, `total` input bytes with the header. */
  datatype ChunkHeader = ChunkHeader(kind: ChunkType, blocks: nat, total: nat)

  /** The 28 byte file header. */
  datatype FileHeader = FileHeader(blockSize: nat, blocks: nat, chunks: nat)

  datatype Token = Head(header: ChunkHeader) | Octet(value: byte)

  datatype File = File(header: FileHeader, body: seq<Token>)

  function NewRaw(blocks: nat, blockSize: nat): ChunkHeader {
    ChunkHeader(Raw, blocks, CHUNK_HEADER + blocks * blockSize)
  }

  function NewDontCare(blocks: nat): ChunkHeader {
    ChunkHeader(DontCare, blocks, CHUNK_HEADER)
  }

  function Octets(data: seq<byte>): (t: seq<Token>)
    ensures |t| == |data|
  {
    seq(|data|, i requires 0 <= i < |data| => Octet(data[i]))
  }

  function TokenSize(t: Token): nat {
    if t.Head? then CHUNK_HEADER else 1
  }

  function Size(body: seq<Token>): nat {
    if body == [] then 0 else TokenSize(body[0]) + Size(body[1..])
  }

  // ------------------------------------------------------- chunk lists

  /** Every chunk holds data. */
  predicate NonEmpty(chunks: seq<Chunk>) {
    forall i {:trigger chunks[i].DataBytes()} :: 0 <= i < |chunks| ==> chunks[i].DataBytes() > 0
  }

  /** No block belongs to both a chunk and the one before it. */
  predicate After(chunks: seq<Chunk>, i: nat)
    requires 0 < i < |chunks|
  {
    chunks[i - 1].EndBlocks() <= chunks[i].offset
  }

  /** There is a free block between a chunk and the one before it. */
  predicate Apart(chunks: seq<Chunk>, i: nat)
    requires 0 < i < |chunks|
  {
    chunks[i - 1].EndBlocks() < chunks[i].offset
  }

  /** Chunks are in order and no block belongs to two of them. */
  predicate Disjoint(chunks: seq<Chunk>) {
    forall i {:trigger After(chunks, i)} :: 0 < i < |chunks| ==> After(chunks, i)
  }

  /** Chunks are in order with at least one free block between neighbours. */
  predicate Gapped(chunks: seq<Chunk>) {
    forall i {:trigger Apart(chunks, i)} :: 0 < i < |chunks| ==> Apart(chunks, i)
  }

  lemma GappedDisjoint(chunks: seq<Chunk>)
    requires Gapped(chunks)
    ensures Disjoint(chunks)
  {
    forall i | 0 < i < |chunks|
      ensures After(chunks, i)
    {
      assert Apart(chunks, i);
    }
  }

  lemma DisjointTail(chunks: seq<Chunk>)
    requires chunks != []
    ensures Disjoint(chunks) <==> Disjoint(chunks[1..]) && (|chunks| > 1 ==> After(chunks, 1))
  {
    assert forall i :: 0 < i < |chunks| - 1 ==> (After(chunks[1..], i) <==> After(chunks, i + 1));
    if Disjoint(chunks[1..]) && (|chunks| > 1 ==> After(chunks, 1)) {
      forall i | 0 < i < |chunks|
        ensures After(chunks, i)
      {
        if i > 1 {
          assert After(chunks[1..], i - 1);
        }
      }
    }
    if Disjoint(chunks) {
      forall i | 0 < i < |chunks| - 1
        ensures After(chunks[1..], i)
      {
        assert After(chunks, i + 1);
      }
    }
  }

  lemma GappedTail(chunks: seq<Chunk>)
    requires chunks != []
    ensures Gapped(chunks) <==> Gapped(chunks[1..]) && (|chunks| > 1 ==> Apart(chunks, 1))
  {
    if Gapped(chunks[1..]) && (|chunks| > 1 ==> Apart(chunks, 1)) {
      forall i | 0 < i < |chunks|
        ensures Apart(chunks, i)
      {
        if i > 1 {
          assert Apart(chunks[1..], i - 1);
        }
      }
    }
    if Gapped(chunks) {
      forall i | 0 < i < |chunks| - 1
        ensures Apart(chunks[1..], i)
      {
        assert Apart(chunks, i + 1);
      }
    }
  }

  /** How a list fares with one more chunk at its end. */
  lemma NeighbourSnoc(chunks: seq<Chunk>, c: Chunk)
    ensures
      Disjoint(chunks + [c]) <==> Disjoint(chunks) && (chunks != [] ==> chunks[|chunks| - 1].EndBlocks() <= c.offset)
    ensures
      Gapped(chunks + [c]) <==> Gapped(chunks) && (chunks != [] ==> chunks[|chunks| - 1].EndBlocks() < c.offset)
  {
    var all, n := chunks + [c], |chunks|;
    assert forall i :: 0 < i < n ==> After(all, i) == After(chunks, i) && Apart(all, i) == Apart(chunks, i);
    if n > 0 {
      assert After(all, n) == (chunks[n - 1].EndBlocks() <= c.offset);
      assert Apart(all, n) == (chunks[n - 1].EndBlocks() < c.offset);
    }
    assert Disjoint(all) ==> Disjoint(chunks) by {
      if Disjoint(all) {
        forall i | 0 < i < n
          ensures After(chunks, i)
        {
          assert After(all, i);
        }
      }
    }
    assert Gapped(all) ==> Gapped(chunks) by {
      if Gapped(all) {
        forall i | 0 < i < n
          ensures Apart(chunks, i)
        {
          assert Apart(all, i);
        }
      }
    }
  }

  /** No piece but the last of a chunk leaves a partial block. */
  predicate PiecesWhole(c: Chunk) {
    RoundedPieces(c.data) == RoundUp(c.DataBytes())
  }

  /** What a chunk means for the volume: its bytes at its offset, zeros up to the block end. */
  function ChunkImage(c: Chunk): Image {
    Place(c.OffsetBytes(), Padded(Flat(c.data)))
  }

  /** `image` with every chunk laid over it in turn. */
  function Apply(image: Image, chunks: seq<Chunk>): Image
    decreases |chunks|
  {
    if chunks == [] then image else Apply(image + ChunkImage(chunks[0]), chunks[1..])
  }

  lemma {:induction false} ApplySnoc(image: Image, chunks: seq<Chunk>, c: Chunk)
    ensures Apply(image, chunks + [c]) == Apply(image, chunks) + ChunkImage(c)
    decreases |chunks|
  {
    if chunks == [] {
      assert Apply(image, [c]) == Apply(image + ChunkImage(c), [c][1..]);
    } else {
      assert (chunks + [c])[1..] == chunks[1..] + [c];
      ApplySnoc(image + ChunkImage(chunks[0]), chunks[1..], c);
    }
  }

  lemma {:induction false} ApplyOverlay(image: Image, chunks: seq<Chunk>)
    ensures Apply(image, chunks) == image + Apply(map[], chunks)
    decreases |chunks|
  {
    if chunks != [] {
      var c := ChunkImage(chunks[0]);
      ApplyOverlay(image + c, chunks[1..]);
      ApplyOverlay(map[] + c, chunks[1..]);
      OverlayAssoc(image, c, Apply(map[], chunks[1..]));
      assert map[] + c == c;
    }
  }

  // ------------------------------------------------------------ encoder

  /** Blocks from one block to another, as 32-bit numbers: going back wraps around. */
  function Skip(from: nat, target: nat): nat {
    if from <= target then target - from else (target - from) % 0x1_0000_0000
  }

  /** Tokens of one chunk when the image has reached block `at`. */
  function Segment(c: Chunk, at: nat): seq<Token> {
    (if c.offset != at then [Head(NewDontCare(Skip(at, c.offset)))] else [])
    + [Head(NewRaw(c.Blocks(), 4096))]
    + Octets(Flat(c.data)) + Octets(Zeros(c.EndPadding()))
  }

  predicate Follows(chunks: seq<Chunk>, at: nat) {
    Disjoint(chunks) && (chunks != [] ==> at <= chunks[0].offset)
  }

  function EncodeFrom(chunks: seq<Chunk>, at: nat): seq<Token> {
    if chunks == [] then []
    else Segment(chunks[0], at) + EncodeFrom(chunks[1..], chunks[0].EndBlocks())
  }

  /** Headers spent on one chunk when the image has reached block `at`. */
  function Heads(c: Chunk, at: nat): nat {
    if c.offset != at then 2 else 1
  }

  /** Number of chunk headers `EncodeFrom` emits. */
  function Emitted(chunks: seq<Chunk>, at: nat): nat {
    if chunks == [] then 0
    else Heads(chunks[0], at) + Emitted(chunks[1..], chunks[0].EndBlocks())
  }

  function Encode(chunks: seq<Chunk>): File {
    File(FileHeader(4096, ExpandedBlocks(chunks), FlashChunks(chunks)), EncodeFrom(chunks, 0))
  }

  /** The part of the download of one chunk. */
  method EmitChunk(chunk: Chunk, offset: nat) returns (out: seq<Token>)
    ensures out == Segment(chunk, offset)
  {
    out := [];
    if chunk.offset != offset {
      out := out + [Head(NewDontCare(Skip(offset, chunk.offset)))];
    }
    out := out + [Head(NewRaw(chunk.Blocks(), 4096))];
    ghost var headers := out;
    for j := 0 to |chunk.data|
      invariant out == headers + Octets(Flat(chunk.data[..j]))
    {
      FlatSnoc(chunk.data[..j], chunk.data[j]);
      assert chunk.data[..j + 1] == chunk.data[..j] + [chunk.data[j]];
      out := out + Octets(chunk.data[j]);
    }
    assert chunk.data[..|chunk.data|] == chunk.data;
    match chunk.EndPadding() {
      case 0 => assert Octets(Zeros(0)) == [];
      case v => out := out + Octets(Zeros(v));
    }
  }

  /** `do_download_aimg`: the image handed to the device, and the announced download size. */
  method DownloadAimg(chunks: seq<Chunk>) returns (announced: nat, file: File)
    requires forall i :: 0 <= i < |chunks| ==> chunks[i].EndBlocks() < 0x1_0000_0000
    ensures announced == FlashSize(chunks) && file == Encode(chunks)
  {
    announced := FlashSize(chunks);
    var body: seq<Token> := [];
    var offset := 0;
    for i := 0 to |chunks|
      invariant body + EncodeFrom(chunks[i..], offset) == EncodeFrom(chunks, 0)
    {
      var chunk := chunks[i];
      assert chunks[i..][0] == chunk && chunks[i..][1..] == chunks[i + 1..];
      var out := EmitChunk(chunk, offset);
      ConcatAssoc(body, out, EncodeFrom(chunks[i + 1..], chunk.EndBlocks()));
      body := body + out;
      offset := chunk.EndBlocks();
    }
    file := File(FileHeader(4096, ExpandedBlocks(chunks), FlashChunks(chunks)), body);
  }

  // ------------------------------------------------------------ decoder

  /** Where decoding stands: unread tokens, image written so far and output position. */
  datatype Reader = Reader(rest: seq<Token>, image: Image, pos: nat) | Broken

  /** The data bytes at the head of `body`, at most `n` of them: a copy that may end at end of file. */
  function Available(body: seq<Token>, n: nat): (data: seq<byte>)
    ensures |data| <= |body| && |data| <= n
  {
    if n == 0 || body == [] || body[0].Head? then [] else [body[0].value] + Available(body[1..], n - 1)
  }

  /** `count` copies of a four byte pattern. */
  function Repeat(fill: seq<byte>, count: nat): seq<byte> {
    if count == 0 then [] else fill + Repeat(fill, count - 1)
  }

  /** One turn of the decoding loop. */
  function DecodeChunk(r: Reader, blockSize: nat): Reader
    requires r.Reader?
  {
    if r.rest == [] || r.rest[0].Octet? then Broken
    else
      var body := r.rest[1..];
      var outSize := r.rest[0].header.blocks * blockSize;
      match r.rest[0].header.kind
      case Raw =>
        var data := Available(body, outSize);
        Reader(body[|data|..], r.image + Place(r.pos, data), r.pos + |data|)
      case Fill =>
        var fill := Available(body, 4);
        if |fill| < 4 then Broken
        else
          var data := Repeat(fill, outSize / 4);
          Reader(body[4..], r.image + Place(r.pos, data), r.pos + |data|)
      case DontCare => Reader(body, r.image, r.pos + outSize)
      case Crc32 => Reader(body, r.image, r.pos)
  }

  function DecodeChunks(r: Reader, blockSize: nat, count: nat): Reader
    decreases count
  {
    if count == 0 || r.Broken? then r
    else DecodeChunks(DecodeChunk(r, blockSize), blockSize, count - 1)
  }

  /** The outcome of decoding a file onto a volume from position 0. */
  function Decode(file: File, image: Image): Reader {
    DecodeChunks(Reader(file.body, image, 0), file.header.blockSize, file.header.chunks)
  }

  /** The output of the decoder: a seekable writer. */
  class Volume {
    var image: Image
    var pos: nat

    constructor (image: Image)
      ensures this.image == image && pos == 0
    {
      this.image, pos := image, 0;
    }

    method Write(data: seq<byte>)
      modifies this
      ensures image == old(image) + Place(old(pos), data) && pos == old(pos) + |data|
    {
      image := image + Place(pos, data);
      pos := pos + |data|;
    }

    method Fill(fill: seq<byte>, count: nat)
      modifies this
      ensures image == old(image) + Place(old(pos), Repeat(fill, count))
      ensures pos == old(pos) + |Repeat(fill, count)|
    {
      PlaceNothing(image, pos);
      for j := 0 to count
        invariant image == old(image) + Place(old(pos), Repeat(fill, j))
        invariant pos == old(pos) + |Repeat(fill, j)|
      {
        RepeatSnoc(fill, j);
        PlaceConcat(old(pos), Repeat(fill, j), fill);
        OverlayAssoc(old(image), Place(old(pos), Repeat(fill, j)), Place(pos, fill));
        Write(fill);
      }
    }

    method SeekForward(n: nat)
      modifies this
      ensures image == old(image) && pos == old(pos) + n
    {
      pos := pos + n;
    }
  }

  lemma PlaceNothing(image: Image, offset: nat)
    ensures image + Place(offset, []) == image
  {
  }

  /** The body of the loop: one chunk of `rest` is decoded through `io`. */
  method WriteChunk(rest: seq<Token>, blockSize: nat, io: Volume) returns (ok: bool, left: seq<Token>)
    modifies io
    ensures
      var r := DecodeChunk(Reader(rest, old(io.image), old(io.pos)), blockSize);
      ok == r.Reader? && (ok ==> r == Reader(left, io.image, io.pos))
  {
    if rest == [] || rest[0].Octet? {
      return false, rest;
    }
    var chunk := rest[0].header;
    left := rest[1..];
    var outSize := chunk.blocks * blockSize;
    match chunk.kind {
      case Raw =>
        var data := Available(left, outSize);
        io.Write(data);
        left := left[|data|..];
      case Fill =>
        var fill := Available(left, 4);
        if |fill| < 4 {
          return false, left;
        }
        left := left[4..];
        io.Fill(fill, outSize / 4);
      case DontCare =>
        io.SeekForward(outSize);
      case Crc32 =>
    }
    ok := true;
  }

  /** `write_aimg`: decode `file` through `io`. */
  method WriteAimg(file: File, io: Volume) returns (ok: bool)
    requires io.pos == 0
    modifies io
    ensures var r := Decode(file, old(io.image));
            ok == r.Reader? && (ok ==> io.image == r.image && io.pos == r.pos)
  {
    var header := file.header;
    var rest := file.body;
    for i := 0 to header.chunks
      invariant DecodeChunks(Reader(rest, io.image, io.pos), header.blockSize, header.chunks - i)
             == Decode(file, old(io.image))
    {
      ok, rest := WriteChunk(rest, header.blockSize, io);
      if !ok {
        return;
      }
    }
    ok := true;
  }

  lemma {:induction false} RepeatSnoc(fill: seq<byte>, n: nat)
    ensures Repeat(fill, n + 1) == Repeat(fill, n) + fill
  {
    if n == 0 {
      assert Repeat(fill, 1) == fill + Repeat(fill, 0);
    } else {
      RepeatSnoc(fill, n - 1);
    }
  }

  // -------------------------------------------------- one chunk decoded

  lemma {:induction false} RepeatAt(fill: seq<byte>, count: nat, i: nat)
    requires |fill| == 4 && i < count * 4
    ensures |Repeat(fill, count)| == count * 4 && Repeat(fill, count)[i] == fill[i % 4]
    decreases count
  {
    RepeatLength(fill, count - 1);
    if i >= 4 {
      RepeatAt(fill, count - 1, i - 4);
    }
  }

  lemma {:induction false} RepeatLength(fill: seq<byte>, count: nat)
    requires |fill| == 4
    ensures |Repeat(fill, count)| == count * 4
    decreases count
  {
    if count > 0 {
      RepeatLength(fill, count - 1);
    }
  }

  /** `n` bytes at `pos` are those of `fill`, over and over, and nothing else has changed. */
  ghost predicate Filled(before: Image, after: Image, pos: nat, n: nat, fill: seq<byte>)
    requires |fill| == 4
  {
    && (forall i: nat :: i < n ==> pos + i in after && after[pos + i] == fill[i % 4])
    && (forall p :: p < pos || pos + n <= p ==>
          (p in after <==> p in before) && (p in after ==> after[p] == before[p]))
  }

  /** A fill chunk repeats its four bytes over whole words of its blocks, and nowhere else. */
  lemma FillDecoded(h: ChunkHeader, fill: seq<byte>, tail: seq<Token>, image: Image, pos: nat, blockSize: nat)
    requires h.kind == Fill && |fill| == 4
    ensures
      var r := DecodeChunk(Reader([Head(h)] + (Octets(fill) + tail), image, pos), blockSize);
      var n := h.blocks * blockSize / 4 * 4;
      r.Reader? && r.rest == tail && r.pos == pos + n && Filled(image, r.image, pos, n, fill)
  {
    var body := Octets(fill) + tail;
    assert ([Head(h)] + body)[1..] == body && body[4..] == tail;
    AvailableOctets(fill, tail);
    var words := h.blocks * blockSize / 4;
    RepeatLength(fill, words);
    var r := DecodeChunk(Reader([Head(h)] + body, image, pos), blockSize);
    forall i: nat | i < words * 4
      ensures pos + i in r.image && r.image[pos + i] == fill[i % 4]
    {
      RepeatAt(fill, words, i);
      assert pos + i in Place(pos, Repeat(fill, words));
    }
  }

  /** Skips move on, checksums are passed over, and a header or a fill pattern that is not there breaks
      off. */
  lemma OtherDecoded(h: ChunkHeader, tail: seq<Token>, image: Image, pos: nat, blockSize: nat)
    ensures
      var r := DecodeChunk(Reader([Head(h)] + tail, image, pos), blockSize);
      && (h.kind == DontCare ==> r == Reader(tail, image, pos + h.blocks * blockSize))
      && (h.kind == Crc32 ==> r == Reader(tail, image, pos))
      && (h.kind == Fill ==> (r.Reader? <==> 4 <= |tail| && forall i :: 0 <= i < 4 ==> tail[i].Octet?))
    ensures DecodeChunk(Reader([], image, pos), blockSize) == Broken
    ensures tail != [] && tail[0].Octet? ==> DecodeChunk(Reader(tail, image, pos), blockSize) == Broken
  {
    assert ([Head(h)] + tail)[1..] == tail;
    AvailableAll(tail, 4);
  }

  lemma {:induction false} AvailableAll(body: seq<Token>, n: nat)
    ensures |Available(body, n)| == n <==> n <= |body| && forall i :: 0 <= i < n ==> body[i].Octet?
    ensures forall i :: 0 <= i < |Available(body, n)| ==> body[i] == Octet(Available(body, n)[i])
    decreases n
  {
    if n > 0 && body != [] && body[0].Octet? {
      AvailableAll(body[1..], n - 1);
      assert forall i :: 0 < i < |body| ==> body[i] == body[1..][i - 1];
    }
  }

  /** A raw chunk lays the bytes behind its header over the image: all it asks for, or as many as there are
      up to the next header. */
  lemma RawDecoded(h: ChunkHeader, tail: seq<Token>, image: Image, pos: nat, blockSize: nat) returns (data: seq<byte>)
    requires h.kind == Raw
    ensures |data| <= |tail| && forall i :: 0 <= i < |data| ==> tail[i] == Octet(data[i])
    ensures |data| <= h.blocks * blockSize
    ensures |data| < h.blocks * blockSize ==> |data| == |tail| || tail[|data|].Head?
    ensures
      DecodeChunk(Reader([Head(h)] + tail, image, pos), blockSize) ==
        Reader(tail[|data|..], image + Place(pos, data), pos + |data|)
  {
    assert ([Head(h)] + tail)[1..] == tail;
    data := Available(tail, h.blocks * blockSize);
    AvailableAll(tail, h.blocks * blockSize);
    AvailableStops(tail, h.blocks * blockSize);
  }

  lemma {:induction false} AvailableStops(body: seq<Token>, n: nat)
    ensures
      var k := |Available(body, n)|;
      k < n ==> k == |body| || body[k].Head?
    decreases n
  {
    if n > 0 && body != [] && body[0].Octet? {
      AvailableStops(body[1..], n - 1);
      var k := |Available(body[1..], n - 1)|;
      assert k < |body| - 1 ==> body[1..][k] == body[k + 1];
    }
  }

  // ---------------------------------------------------------- round trip

  lemma {:induction false} AvailableOctets(data: seq<byte>, tail: seq<Token>)
    ensures Available(Octets(data) + tail, |data|) == data
  {
    if data != [] {
      AvailableOctets(data[1..], tail);
      assert (Octets(data) + tail)[1..] == Octets(data[1..]) + tail;
    }
  }

  lemma DecodeRaw(c: Chunk, tail: seq<Token>, image: Image)
    ensures DecodeChunk(Reader([Head(NewRaw(c.Blocks(), 4096))] + (Octets(Padded(Flat(c.data))) + tail),
                               image, c.OffsetBytes()), 4096)
         == Reader(tail, image + ChunkImage(c), c.EndBlocks() * 4096)
  {
    var data := Padded(Flat(c.data));
    AvailableOctets(data, tail);
    var body := Octets(data) + tail;
    assert ([Head(NewRaw(c.Blocks(), 4096))] + body)[1..] == body;
    assert body[|data|..] == tail;
  }

  lemma DecodeSkip(blocks: nat, rest: seq<Token>, image: Image, pos: nat)
    ensures DecodeChunk(Reader([Head(NewDontCare(blocks))] + rest, image, pos), 4096)
         == Reader(rest, image, pos + blocks * 4096)
  {
    assert ([Head(NewDontCare(blocks))] + rest)[1..] == rest;
  }

  lemma {:induction false} DecodeSplit(r: Reader, blockSize: nat, a: nat, b: nat)
    ensures DecodeChunks(r, blockSize, a + b) == DecodeChunks(DecodeChunks(r, blockSize, a), blockSize, b)
    decreases a
  {
    if a > 0 && r.Reader? {
      DecodeSplit(DecodeChunk(r, blockSize), blockSize, a - 1, b);
    }
  }

  lemma DecodeOne(r: Reader, next: Reader)
    requires r.Reader? && DecodeChunk(r, 4096) == next
    ensures DecodeChunks(r, 4096, 1) == next
  {
    assert DecodeChunks(r, 4096, 1) == DecodeChunks(next, 4096, 0);
  }

  lemma SegmentTokens(c: Chunk, at: nat, tail: seq<Token>)
    requires at <= c.offset
    ensures Segment(c, at) + tail ==
            (if c.offset != at then [Head(NewDontCare(c.offset - at))] else [])
            + ([Head(NewRaw(c.Blocks(), 4096))] + (Octets(Padded(Flat(c.data))) + tail))
  {
    assert Octets(Flat(c.data)) + Octets(Zeros(c.EndPadding())) == Octets(Padded(Flat(c.data)));
  }

  /** Decoding one encoded chunk lays it over the image and stops at its block end. */
  lemma DecodeSegment(c: Chunk, at: nat, tail: seq<Token>, image: Image)
    requires at <= c.offset
    ensures DecodeChunks(Reader(Segment(c, at) + tail, image, at * 4096), 4096, Heads(c, at))
         == Reader(tail, image + ChunkImage(c), c.EndBlocks() * 4096)
  {
    var raw := [Head(NewRaw(c.Blocks(), 4096))] + (Octets(Padded(Flat(c.data))) + tail);
    var mid := Reader(raw, image, c.OffsetBytes());
    var end := Reader(tail, image + ChunkImage(c), c.EndBlocks() * 4096);
    DecodeOne(mid, end) by {
      DecodeRaw(c, tail, image);
    }
    var start := Reader(Segment(c, at) + tail, image, at * 4096);
    SegmentTokens(c, at, tail);
    if c.offset != at {
      DecodeOne(start, mid) by {
        DecodeSkip(c.offset - at, raw, image, at * 4096);
      }
      DecodeSplit(start, 4096, 1, 1);
    } else {
      assert [] + raw == raw;
      assert start == mid;
    }
  }

  /** The reader after `chunks` have been decoded from block `at`. */
  function Decoded(chunks: seq<Chunk>, at: nat, image: Image): Reader {
    Reader([], Apply(image, chunks), (if chunks == [] then at else ExpandedBlocks(chunks)) * 4096)
  }

  lemma DecodeThen(start: Reader, mid: Reader, heads: nat, count: nat)
    requires DecodeChunks(start, 4096, heads) == mid
    ensures DecodeChunks(start, 4096, heads + count) == DecodeChunks(mid, 4096, count)
  {
    DecodeSplit(start, 4096, heads, count);
  }

  lemma DecodeFirst(c: Chunk, at: nat, body: seq<Token>, tail: seq<Token>, image: Image, count: nat)
    requires at <= c.offset && body == Segment(c, at) + tail
    ensures DecodeChunks(Reader(body, image, at * 4096), 4096, Heads(c, at) + count)
         == DecodeChunks(Reader(tail, image + ChunkImage(c), c.EndBlocks() * 4096), 4096, count)
  {
    var start := Reader(body, image, at * 4096);
    var mid := Reader(tail, image + ChunkImage(c), c.EndBlocks() * 4096);
    DecodeThen(start, mid, Heads(c, at), count) by {
      DecodeSegment(c, at, tail, image);
    }
  }

  lemma EncodeSplit(chunks: seq<Chunk>, at: nat)
    requires Follows(chunks, at) && chunks != []
    ensures
      var c, rest := chunks[0], chunks[1..];
      && at <= c.offset && Follows(rest, c.EndBlocks())
      && EncodeFrom(chunks, at) == Segment(c, at) + EncodeFrom(rest, c.EndBlocks())
      && Emitted(chunks, at) == Heads(c, at) + Emitted(rest, c.EndBlocks())
  {
    DisjointTail(chunks);
  }

  lemma {:induction false} DecodeEncoded(chunks: seq<Chunk>, at: nat, image: Image, body: seq<Token>, count: nat)
    requires Follows(chunks, at) && body == EncodeFrom(chunks, at) && count == Emitted(chunks, at)
    ensures DecodeChunks(Reader(body, image, at * 4096), 4096, count) == Decoded(chunks, at, image)
    decreases |chunks|
  {
    if chunks == [] {
      assert body == [] && count == 0;
    } else {
      var c, rest := chunks[0], chunks[1..];
      var end, next := c.EndBlocks(), image + ChunkImage(c);
      var tail, left := EncodeFrom(rest, end), Emitted(rest, end);
      EncodeSplit(chunks, at);
      DecodeEncoded(rest, end, next, tail, left);
      DecodeFirst(c, at, body, tail, image, left);
      DecodedTail(chunks, at, image);
    }
  }

  lemma DecodedTail(chunks: seq<Chunk>, at: nat, image: Image)
    requires chunks != []
    ensures Decoded(chunks[1..], chunks[0].EndBlocks(), image + ChunkImage(chunks[0])) == Decoded(chunks, at, image)
  {
  }

  lemma {:induction false} EmittedFrom(chunks: seq<Chunk>, at: nat)
    requires Follows(chunks, at)
    ensures Emitted(chunks, at) <= 2 * |chunks|
    ensures Emitted(chunks, at) == 2 * |chunks| <==>
            Gapped(chunks) && (chunks != [] ==> at < chunks[0].offset)
  {
    if chunks != [] {
      DisjointTail(chunks);
      EmittedFrom(chunks[1..], chunks[0].EndBlocks());
      GappedTail(chunks);
    }
  }

  /** The announced chunk count is an upper bound, and exact only without touching neighbours. */
  lemma ChunkCount(chunks: seq<Chunk>)
    requires Disjoint(chunks) && NonEmpty(chunks)
    ensures Emitted(chunks, 0) <= FlashChunks(chunks)
    ensures Emitted(chunks, 0) == FlashChunks(chunks) <==> Gapped(chunks)
  {
    if chunks != [] && chunks[0].offset == 0 {
      DisjointTail(chunks);
      EmittedFrom(chunks[1..], chunks[0].EndBlocks());
      GappedTail(chunks);
    } else {
      EmittedFrom(chunks, 0);
    }
  }

  lemma DecodeExhausted(image: Image, pos: nat, blockSize: nat, count: nat)
    ensures DecodeChunks(Reader([], image, pos), blockSize, count)
         == if count == 0 then Reader([], image, pos) else Broken
  {
  }

  /** Decoding what was encoded lays the chunks over the volume, skips the gaps and ends at the
      expanded size, exactly when no two neighbours touch; otherwise it fails at the end of the file. */
  lemma RoundTrip(chunks: seq<Chunk>, image: Image)
    requires Disjoint(chunks) && NonEmpty(chunks)
    ensures Decode(Encode(chunks), image) ==
            if Gapped(chunks) then Reader([], Apply(image, chunks), ExpandedBlocks(chunks) * 4096) else Broken
  {
    ChunkCount(chunks);
    var extra := FlashChunks(chunks) - Emitted(chunks, 0);
    DecodeEncoded(chunks, 0, image, EncodeFrom(chunks, 0), Emitted(chunks, 0));
    DecodeSplit(Reader(EncodeFrom(chunks, 0), image, 0), 4096, Emitted(chunks, 0), extra);
    var r := Decoded(chunks, 0, image);
    DecodeExhausted(r.image, r.pos, 4096, extra);
  }

  // -------------------------------------------------------- image size

  lemma {:induction false} SizeConcat(a: seq<Token>, b: seq<Token>)
    ensures Size(a + b) == Size(a) + Size(b)
  {
    if a == [] {
      assert a + b == b;
    } else {
      assert (a + b)[1..] == a[1..] + b;
      SizeConcat(a[1..], b);
    }
  }

  lemma {:induction false} OctetsSize(data: seq<byte>)
    ensures Size(Octets(data)) == |data|
  {
    if data != [] {
      assert Octets(data)[1..] == Octets(data[1..]);
      OctetsSize(data[1..]);
    }
  }

  lemma SegmentSize(c: Chunk, at: nat)
    requires at <= c.offset
    ensures Size(Segment(c, at)) == 12 * Heads(c, at) + RoundUp(c.DataBytes())
  {
    var skip := if c.offset != at then [Head(NewDontCare(c.offset - at))] else [];
    var raw := [Head(NewRaw(c.Blocks(), 4096))];
    var data, pad := Octets(Flat(c.data)), Octets(Zeros(c.EndPadding()));
    SizeConcat(skip + raw + data, pad);
    SizeConcat(skip + raw, data);
    SizeConcat(skip, raw);
    OctetsSize(Flat(c.data));
    OctetsSize(Zeros(c.EndPadding()));
  }

  lemma {:induction false} RoundedBound(pieces: seq<seq<byte>>)
    ensures RoundUp(|Flat(pieces)|) <= RoundedPieces(pieces)
  {
    if pieces != [] {
      RoundedBound(pieces[1..]);
    }
  }

  lemma {:induction false} EncodedSize(chunks: seq<Chunk>, at: nat)
    requires Follows(chunks, at) && NonEmpty(chunks)
    ensures Size(EncodeFrom(chunks, at)) <= ChunkSizes(chunks)
    ensures Size(EncodeFrom(chunks, at)) == ChunkSizes(chunks) <==>
            Gapped(chunks) && (forall i :: 0 <= i < |chunks| ==> PiecesWhole(chunks[i]))
            && (chunks != [] && chunks[0].offset > 0 ==> at < chunks[0].offset)
  {
    if chunks != [] {
      var c, rest := chunks[0], chunks[1..];
      DisjointTail(chunks);
      EncodedSize(rest, c.EndBlocks());
      assert Size(EncodeFrom(chunks, at)) ==
             12 * Heads(c, at) + RoundUp(c.DataBytes()) + Size(EncodeFrom(rest, c.EndBlocks())) by {
        SizeConcat(Segment(c, at), EncodeFrom(rest, c.EndBlocks()));
        SegmentSize(c, at);
      }
      RoundedBound(c.data);
      assert c.EndBlocks() > 0;
      GappedTail(chunks);
    }
  }

  /** The emitted image never exceeds the announced size, and meets it exactly when neighbours do not
      touch and every chunk was filled with whole-block pieces up to its last one. */
  lemma HeaderExact(chunks: seq<Chunk>)
    requires Disjoint(chunks) && NonEmpty(chunks)
    ensures FILE_HEADER + Size(Encode(chunks).body) <= FlashSize(chunks)
    ensures FILE_HEADER + Size(Encode(chunks).body) == FlashSize(chunks) <==>
            Gapped(chunks) && (forall i :: 0 <= i < |chunks| ==> PiecesWhole(chunks[i]))
  {
    EncodedSize(chunks, 0);
  }

  /** Output blocks announced by the headers of a body. */
  function BlockSum(body: seq<Token>): nat {
    if body == [] then 0
    else (if body[0].Head? then body[0].header.blocks else 0) + BlockSum(body[1..])
  }

  lemma {:induction false} BlockSumConcat(a: seq<Token>, b: seq<Token>)
    ensures BlockSum(a + b) == BlockSum(a) + BlockSum(b)
  {
    if a == [] {
      assert a + b == b;
    } else {
      assert (a + b)[1..] == a[1..] + b;
      BlockSumConcat(a[1..], b);
    }
  }

  lemma {:induction false} BlockSumOctets(data: seq<byte>)
    ensures BlockSum(Octets(data)) == 0
  {
    if data != [] {
      assert Octets(data)[1..] == Octets(data[1..]);
      BlockSumOctets(data[1..]);
    }
  }

  lemma SegmentBlocks(c: Chunk, at: nat)
    requires at <= c.offset
    ensures at + BlockSum(Segment(c, at)) == c.EndBlocks()
  {
    var skip := if c.offset != at then [Head(NewDontCare(c.offset - at))] else [];
    var raw := [Head(NewRaw(c.Blocks(), 4096))];
    var data, pad := Octets(Flat(c.data)), Octets(Zeros(c.EndPadding()));
    BlockSumConcat(skip + raw + data, pad);
    BlockSumConcat(skip + raw, data);
    BlockSumConcat(skip, raw);
    BlockSumOctets(Flat(c.data));
    BlockSumOctets(Zeros(c.EndPadding()));
  }

  lemma {:induction false} BlockSumFrom(chunks: seq<Chunk>, at: nat)
    requires Follows(chunks, at)
    ensures at + BlockSum(EncodeFrom(chunks, at)) == if chunks == [] then at else ExpandedBlocks(chunks)
  {
    if chunks != [] {
      var c, rest := chunks[0], chunks[1..];
      DisjointTail(chunks);
      BlockSumFrom(rest, c.EndBlocks());
      assert at + BlockSum(EncodeFrom(chunks, at)) == c.EndBlocks() + BlockSum(EncodeFrom(rest, c.EndBlocks())) by {
        BlockSumConcat(Segment(c, at), EncodeFrom(rest, c.EndBlocks()));
        SegmentBlocks(c, at);
      }
    }
  }

  /** Input bytes announced by the headers of a body. */
  function TotalSum(body: seq<Token>): nat {
    if body == [] then 0
    else (if body[0].Head? then body[0].header.total else 0) + TotalSum(body[1..])
  }

  lemma {:induction false} TotalSumConcat(a: seq<Token>, b: seq<Token>)
    ensures TotalSum(a + b) == TotalSum(a) + TotalSum(b)
  {
    if a == [] {
      assert a + b == b;
    } else {
      assert (a + b)[1..] == a[1..] + b;
      TotalSumConcat(a[1..], b);
    }
  }

  lemma {:induction false} TotalSumOctets(data: seq<byte>)
    ensures TotalSum(Octets(data)) == 0
  {
    if data != [] {
      assert Octets(data)[1..] == Octets(data[1..]);
      TotalSumOctets(data[1..]);
    }
  }

  lemma SegmentTotal(c: Chunk, at: nat)
    requires at <= c.offset
    ensures TotalSum(Segment(c, at)) == Size(Segment(c, at))
  {
    var skip := if c.offset != at then [Head(NewDontCare(c.offset - at))] else [];
    var raw := [Head(NewRaw(c.Blocks(), 4096))];
    var data, pad := Octets(Flat(c.data)), Octets(Zeros(c.EndPadding()));
    SegmentSize(c, at);
    TotalSumConcat(skip + raw + data, pad);
    TotalSumConcat(skip + raw, data);
    TotalSumConcat(skip, raw);
    TotalSumOctets(Flat(c.data));
    TotalSumOctets(Zeros(c.EndPadding()));
  }

  lemma {:induction false} TotalsFrom(chunks: seq<Chunk>, at: nat)
    requires Follows(chunks, at)
    ensures TotalSum(EncodeFrom(chunks, at)) == Size(EncodeFrom(chunks, at))
  {
    if chunks != [] {
      var c, rest := chunks[0], chunks[1..];
      DisjointTail(chunks);
      TotalsFrom(rest, c.EndBlocks());
      SegmentTotal(c, at);
      TotalSumConcat(Segment(c, at), EncodeFrom(rest, c.EndBlocks()));
      SizeConcat(Segment(c, at), EncodeFrom(rest, c.EndBlocks()));
    }
  }

  /** The sizes in the chunk headers add up to the body of the image. */
  lemma TotalsExact(chunks: seq<Chunk>)
    requires Disjoint(chunks)
    ensures TotalSum(Encode(chunks).body) == Size(Encode(chunks).body)
  {
    TotalsFrom(chunks, 0);
  }

  /** The expanded size in the file header is the sum of the block counts in the chunk headers. */
  lemma ExpandedExact(chunks: seq<Chunk>)
    requires Disjoint(chunks)
    ensures Encode(chunks).header.blocks == BlockSum(Encode(chunks).body)
  {
    BlockSumFrom(chunks, 0);
  }
}
