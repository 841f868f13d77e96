/** Byte strings, block rounding and volume images shared by the whole write path. */
module Bytes {

  newtype byte = b: int | 0 <= b < 0x100

  /** The bytes of a volume that are known, by position. `m + n` is `n` laid over `m`. */
  type Image = map<nat, byte>

  /** `len.div_ceil(4096)` */
  function Blocks(len: nat): nat {
    (len + 4095) / 4096
  }

  /** `len.next_multiple_of(4096)` */
  function RoundUp(len: nat): nat {
    Blocks(len) * 4096
  }

  /** `(len / 4096) * 4096` */
  function RoundDown(len: nat): nat {
    (len / 4096) * 4096
  }

  predicate Aligned(n: nat) {
    n % 4096 == 0
  }

  lemma RoundUpSum(a: nat, b: nat)
    requires Aligned(a)
    ensures RoundUp(a) == a && RoundUp(a + b) == a + RoundUp(b)
    ensures Aligned(b) ==> Aligned(a + b)
  {
  }

  function Zeros(n: nat): (z: seq<byte>)
    ensures |z| == n
  {
    seq(n, _ => 0)
  }

  function Min(a: nat, b: nat): nat {
    if a < b then a else b
  }

  function ByteAt(offset: nat, data: seq<byte>, i: nat): byte
    requires offset <= i < offset + |data|
  {
    data[i - offset]
  }

  /** The image that holds exactly `data` at `offset`. */
  function Place(offset: nat, data: seq<byte>): Image {
    map i: nat | offset <= i < offset + |data| :: ByteAt(offset, data, i)
  }

  /** `data` followed by the zeros that complete its last block. */
  function Padded(data: seq<byte>): (p: seq<byte>) {
    data + Zeros(RoundUp(|data|) - |data|)
  }

  /** Concatenation of a list of pieces. */
  function Flat<T>(pieces: seq<seq<T>>): seq<T> {
    if pieces == [] then [] else pieces[0] + Flat(pieces[1..])
  }

  lemma {:induction false} FlatConcat<T>(a: seq<seq<T>>, b: seq<seq<T>>)
    ensures Flat(a + b) == Flat(a) + Flat(b)
  {
    if a == [] {
      assert a + b == b;
    } else {
      assert (a + b)[1..] == a[1..] + b;
      FlatConcat(a[1..], b);
    }
  }

  lemma FlatSnoc<T>(a: seq<seq<T>>, p: seq<T>)
    ensures Flat(a + [p]) == Flat(a) + p
  {
    FlatConcat(a, [p]);
    assert Flat([p]) == p + Flat<T>([]);
  }

  lemma ConcatAssoc<T>(a: seq<T>, b: seq<T>, c: seq<T>)
    ensures (a + b) + c == a + (b + c)
  {
  }

  lemma PlaceConcat(offset: nat, a: seq<byte>, b: seq<byte>)
    ensures Place(offset, a + b) == Place(offset, a) + Place(offset + |a|, b)
  {
  }

  lemma PaddedConcat(a: seq<byte>, b: seq<byte>)
    requires Aligned(|a|)
    ensures Padded(a) == a
    ensures Padded(a + b) == a + Padded(b)
  {
    assert a + Zeros(0) == a;
    assert (a + b) + Zeros(RoundUp(|b|) - |b|) == a + (b + Zeros(RoundUp(|b|) - |b|));
  }

  lemma OverlayAssoc(a: Image, b: Image, c: Image)
    ensures (a + b) + c == a + (b + c)
  {
  }
}
