/**
 Machine data as it is laid out in memory and on disk: bytes, 32-bit words, and 32-bit
 two's-complement integers, stored little-endian (the byte order of the hosts that Nachos
 calls DEC and Intel).
 */
module Bytes {

  type Byte = b: int | 0 <= b < 256
  type Word = w: int | 0 <= w < 0x1_0000_0000
  type Int32 = x: int | -0x8000_0000 <= x < 0x8000_0000

  const INT_MAX: int := 0x7FFF_FFFF

  /** divRoundUp of utility.h, for non-negative n. */
  function DivRoundUp(n: nat, s: nat): (r: nat)
    requires s > 0
    ensures (r - 1) * s < n <= r * s
  {
    n / s + (if n % s > 0 then 1 else 0)
  }

  /*** Unsigned words ***/

  function WordBytes(u: Word): (b: seq<Byte>)
    ensures |b| == 4
  {
    var v := u / 256;
    var w := v / 256;
    [u % 256, v % 256, w % 256, w / 256]
  }

  function BytesWord(b: seq<Byte>): Word
    requires |b| == 4
  {
    b[0] as int + 256 * (b[1] as int + 256 * (b[2] as int + 256 * b[3] as int))
  }

  /** The byte at offset i stands for its multiple of 256 to the power i. */
  lemma LowByteFirst(w: Word)
    ensures var b := WordBytes(w);
      w == b[0] as int + 0x100 * b[1] as int + 0x1_0000 * b[2] as int + 0x100_0000 * b[3] as int
  {
  }

  lemma WordRoundTrip(w: Word)
    ensures BytesWord(WordBytes(w)) == w
  {
  }

  function EncodeWords(ws: seq<Word>): (bs: seq<Byte>)
    ensures |bs| == 4 * |ws|
  {
    seq(4 * |ws|, i requires 0 <= i < 4 * |ws| => WordBytes(ws[i / 4])[i % 4])
  }

  function DecodeWords(bs: seq<Byte>): (ws: seq<Word>)
    ensures |ws| == |bs| / 4
  {
    seq(|bs| / 4, i requires 0 <= i < |bs| / 4 => BytesWord(bs[4 * i..4 * i + 4]))
  }

  lemma EncodedWord(ws: seq<Word>, i: nat)
    requires i < |ws|
    ensures EncodeWords(ws)[4 * i..4 * i + 4] == WordBytes(ws[i])
  {
    var bs := EncodeWords(ws);
    forall j | 0 <= j < 4 ensures bs[4 * i..4 * i + 4][j] == WordBytes(ws[i])[j] {
      assert bs[4 * i..4 * i + 4][j] == bs[4 * i + j];
    }
  }

  lemma WordsRoundTrip(ws: seq<Word>)
    ensures DecodeWords(EncodeWords(ws)) == ws
  {
    forall i | 0 <= i < |ws| ensures DecodeWords(EncodeWords(ws))[i] == ws[i] {
      EncodedWord(ws, i);
      WordRoundTrip(ws[i]);
    }
  }

  /*** Signed integers ***/

  /** A signed word's bits read as an unsigned number, and back. */
  function Unsigned(x: Int32): Word {
    if x < 0 then x + 0x1_0000_0000 else x
  }

  function Signed(x: Word): (r: Int32)
    ensures Unsigned(r) == x
  {
    if x < 0x8000_0000 then x else x - 0x1_0000_0000
  }

  function IntBytes(x: Int32): (b: seq<Byte>)
    ensures |b| == 4
  {
    WordBytes(x % 0x1_0000_0000)
  }

  function BytesInt(b: seq<Byte>): Int32
    requires |b| == 4
  {
    var u := BytesWord(b);
    if u < 0x8000_0000 then u else u - 0x1_0000_0000
  }

  /** Two's complement. */
  lemma IntMeans(x: Int32)
    ensures IntBytes(x) == WordBytes(if x >= 0 then x else x + 0x1_0000_0000)
  {
  }

  lemma IntRoundTrip(x: Int32)
    ensures BytesInt(IntBytes(x)) == x
  {
  }

  function EncodeInts(xs: seq<Int32>): (bs: seq<Byte>)
    ensures |bs| == 4 * |xs|
  {
    seq(4 * |xs|, i requires 0 <= i < 4 * |xs| => IntBytes(xs[i / 4])[i % 4])
  }

  function DecodeInts(bs: seq<Byte>): (xs: seq<Int32>)
    ensures |xs| == |bs| / 4
  {
    seq(|bs| / 4, i requires 0 <= i < |bs| / 4 => BytesInt(bs[4 * i..4 * i + 4]))
  }

  lemma EncodedInt(xs: seq<Int32>, i: nat)
    requires i < |xs|
    ensures EncodeInts(xs)[4 * i..4 * i + 4] == IntBytes(xs[i])
  {
    var bs := EncodeInts(xs);
    forall j | 0 <= j < 4 ensures bs[4 * i..4 * i + 4][j] == IntBytes(xs[i])[j] {
      assert bs[4 * i..4 * i + 4][j] == bs[4 * i + j];
    }
  }

  lemma IntsRoundTrip(xs: seq<Int32>)
    ensures DecodeInts(EncodeInts(xs)) == xs
  {
    forall i | 0 <= i < |xs| ensures DecodeInts(EncodeInts(xs))[i] == xs[i] {
      EncodedInt(xs, i);
      IntRoundTrip(xs[i]);
    }
  }
}
