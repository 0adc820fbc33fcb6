/** BitMap::FetchFrom and BitMap::WriteBack: the free map as the contents of a file. */
module MapFile {
  import opened Bits
  import opened Bytes
  import opened Sectors
  import opened BitMaps
  import opened FileHeaders
  import opened OpenFiles

  /** Which bit of which byte of the file stands for sector k: the bytes in order, each from its low bit up. */
  lemma MapLayout(contents: seq<Byte>, n: nat, k: nat)
    requires k < n <= BITS_IN_WORD * (|contents| / 4)
    ensures BitsOf(DecodeWords(contents), n)[k] <==> (contents[k / 8] / Pow2(k % 8)) % 2 == 1
  {
    var i, r := k / BITS_IN_WORD, k % BITS_IN_WORD;
    var b := contents[4 * i..4 * i + 4];
    assert k / 8 == 4 * i + r / 8 && k % 8 == r % 8;
    WordBit(b, r);
    BitMeans(b[r / 8], r % 8);
  }

  lemma WordBit(b: seq<Byte>, r: nat)
    requires |b| == 4 && r < 32
    ensures Bit(BytesWord(b), r) <==> Bit(b[r / 8], r % 8)
  {
    assert Pow2(8) == 256 by { assert Pow2(4) == 16; }
    var high := b[2] as int + 256 * b[3] as int;
    BitOfSum(b[0], b[1] as int + 256 * high, 8, r);
    if r >= 8 { BitOfSum(b[1], high, 8, r - 8); }
    if r >= 16 { BitOfSum(b[2], b[3], 8, r - 16); }
  }

  /** Reads the map from a file; a file that holds the whole map replaces every word, a shorter one its first bytes. */
  method FetchFrom(freeMap: BitMap, file: OpenFile)
    requires freeMap.Valid() && file.Valid() && 4 * freeMap.numWords <= INT_MAX
    requires freeMap.numBits <= BITS_IN_WORD * freeMap.numWords
    modifies freeMap.words
    ensures freeMap.words[..] == DecodeWords(
        Overlay(EncodeWords(old(freeMap.words[..])), 0,
                Window(old(file.Stored()), 0, Transferred(4 * freeMap.numWords, 0, file.hdr.numBytes))))
    ensures file.hdr.numBytes >= 4 * freeMap.numWords ==>
              freeMap.Marked() == BitsOf(DecodeWords(old(file.Stored())[..4 * freeMap.numWords]), freeMap.numBits)
  {
    var bytes := file.ReadOver(EncodeWords(freeMap.words[..]));
    var words := DecodeWords(bytes);
    forall i | 0 <= i < freeMap.numWords {
      freeMap.words[i] := words[i];
    }
    assert freeMap.words[..] == words;
  }

  /** Writes as much of the map as the file holds; from a file of exactly its size FetchFrom recovers it. */
  method WriteBack(freeMap: BitMap, file: OpenFile)
    requires freeMap.Valid() && file.Valid() && 4 * freeMap.numWords <= INT_MAX
    modifies file.disk
    ensures file.Valid() && file.hdr.View() == old(file.hdr.View())
    ensures file.Stored() == Overlay(old(file.Stored()), 0,
        EncodeWords(freeMap.words[..])[..Transferred(4 * freeMap.numWords, 0, file.hdr.numBytes)])
    ensures file.hdr.numBytes == 4 * freeMap.numWords ==>
              BitsOf(DecodeWords(file.Stored()), freeMap.numBits) == freeMap.Marked()
    ensures forall s | 0 <= s < NUM_SECTORS && s !in Data(file.hdr.View()) ::
              file.disk.sectors[s] == old(file.disk.sectors)[s]
  {
    file.WriteOver(EncodeWords(freeMap.words[..]));
    WordsRoundTrip(freeMap.words[..]);
  }
}
