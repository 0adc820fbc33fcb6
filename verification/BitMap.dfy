/**
 The map of free sectors: an array of words on whose bits Mark, Clear, Test, Find and
 NumClear work by masking.
 */
module BitMaps {
  import opened Bytes
  import opened Bits

  const BITS_IN_WORD: nat := 32

  /** The first n bits of a word array. */
  function BitsOf(words: seq<Word>, n: nat): (bits: seq<bool>)
    requires n <= BITS_IN_WORD * |words|
    ensures |bits| == n
  {
    seq(n, i requires 0 <= i < n => Bit(words[i / BITS_IN_WORD], i % BITS_IN_WORD))
  }

  /** How many bits are clear. */
  function CountClear(bits: seq<bool>): nat {
    if bits == [] then 0 else (if bits[0] then 0 else 1) + CountClear(bits[1..])
  }

  lemma {:induction false} CountClearAppend(bits: seq<bool>, b: bool)
    ensures CountClear(bits + [b]) == CountClear(bits) + (if b then 0 else 1)
  {
    if bits == [] {
      assert [b] == [b] + [];
    } else {
      assert (bits + [b])[1..] == bits[1..] + [b];
      CountClearAppend(bits[1..], b);
    }
  }

  lemma {:induction false} CountClearMark(bits: seq<bool>, i: nat)
    requires i < |bits| && !bits[i]
    ensures CountClear(bits[i := true]) == CountClear(bits) - 1
  {
    if i == 0 {
      assert bits[0 := true][1..] == bits[1..];
    } else {
      assert bits[i := true][1..] == bits[1..][i - 1 := true];
      CountClearMark(bits[1..], i - 1);
    }
  }

  lemma {:induction false} CountClearZero(bits: seq<bool>)
    requires forall i | 0 <= i < |bits| :: bits[i]
    ensures CountClear(bits) == 0
  {
    if bits != [] { CountClearZero(bits[1..]); }
  }

  /** The lowest clear bit, or -1. */
  function FirstClear(bits: seq<bool>): (r: int)
    ensures -1 <= r < |bits|
  {
    if bits == [] then -1
    else if !bits[0] then 0
    else var r := FirstClear(bits[1..]); if r == -1 then -1 else r + 1
  }

  lemma {:induction false} FirstClearIs(bits: seq<bool>, r: int)
    requires -1 <= r < |bits|
    requires forall i | 0 <= i < (if r == -1 then |bits| else r) :: bits[i]
    requires r != -1 ==> !bits[r]
    ensures FirstClear(bits) == r
  {
    if bits != [] && r != 0 {
      FirstClearIs(bits[1..], if r == -1 then -1 else r - 1);
    }
  }

  lemma {:induction false} FirstClearMeans(bits: seq<bool>)
    ensures FirstClear(bits) != -1 ==> !bits[FirstClear(bits)]
    ensures forall i | 0 <= i < (if FirstClear(bits) == -1 then |bits| else FirstClear(bits)) :: bits[i]
  {
    if bits != [] && bits[0] {
      FirstClearMeans(bits[1..]);
      forall i | 0 <= i < (if FirstClear(bits) == -1 then |bits| else FirstClear(bits)) ensures bits[i] {
        if i > 0 { assert bits[i] == bits[1..][i - 1]; }
      }
    }
  }

  class BitMap {
    const numBits: nat
    const numWords: nat
    const words: array<Word>

    ghost predicate Valid() {
      numWords == DivRoundUp(numBits, BITS_IN_WORD) && words.Length == numWords
    }

    /** Which bits are set. */
    ghost function Marked(): (bits: seq<bool>)
      requires Valid()
      reads words
      ensures |bits| == numBits
    {
      BitsOf(words[..], numBits)
    }

    constructor (nitems: nat)
      ensures Valid() && fresh(words) && numBits == nitems
      ensures forall i | 0 <= i < nitems :: !Marked()[i]
    {
      numBits := nitems;
      numWords := DivRoundUp(nitems, BITS_IN_WORD);
      words := new Word[DivRoundUp(nitems, BITS_IN_WORD)];
      new;
      var i := 0;
      while i < numBits
        invariant i <= numBits
        invariant forall j | 0 <= j < i :: !Marked()[j]
      {
        Clear(i);
        i := i + 1;
      }
    }

    method Mark(which: int)
      requires Valid() && 0 <= which < numBits
      modifies words
      ensures Marked() == old(Marked())[which := true]
    {
      var w, k := which / BITS_IN_WORD, which % BITS_IN_WORD;
      Pow2Word();
      Pow2Below(k, 32);
      OrBound(words[w], Pow2(k), 32);
      ghost var before := words[..];
      words[w] := BitOr(words[w], Pow2(k));
      forall i | 0 <= i < numBits
        ensures Marked()[i] == (i == which || BitsOf(before, numBits)[i])
      {
        if i / BITS_IN_WORD == w {
          OrBit(before[w], Pow2(k), i % BITS_IN_WORD);
          Pow2Bit(k, i % BITS_IN_WORD);
        }
      }
    }

    method Clear(which: int)
      requires Valid() && 0 <= which < numBits
      modifies words
      ensures Marked() == old(Marked())[which := false]
    {
      var w, k := which / BITS_IN_WORD, which % BITS_IN_WORD;
      Pow2Word();
      Pow2Below(k, 32);
      AndBound(words[w], BitNot(Pow2(k), 32), 32);
      ghost var before := words[..];
      words[w] := BitAnd(words[w], BitNot(Pow2(k), 32));
      forall i | 0 <= i < numBits
        ensures Marked()[i] == (i != which && BitsOf(before, numBits)[i])
      {
        if i / BITS_IN_WORD == w {
          AndBit(before[w], BitNot(Pow2(k), 32), i % BITS_IN_WORD);
          NotBit(Pow2(k), 32, i % BITS_IN_WORD);
          Pow2Bit(k, i % BITS_IN_WORD);
        }
      }
    }

    method Test(which: int) returns (marked: bool)
      requires Valid() && 0 <= which < numBits
      ensures marked == Marked()[which]
    {
      MaskTest(words[which / BITS_IN_WORD], which % BITS_IN_WORD);
      marked := BitAnd(words[which / BITS_IN_WORD], Pow2(which % BITS_IN_WORD)) != 0;
    }

    /** Marks and returns the first clear bit, or returns -1 when every bit is set. */
    method Find() returns (r: int)
      requires Valid()
      modifies words
      ensures r == FirstClear(old(Marked()))
      ensures Marked() == if r == -1 then old(Marked()) else old(Marked())[r := true]
    {
      var i := 0;
      while i < numBits
        invariant i <= numBits
        invariant Marked() == old(Marked())
        invariant forall j | 0 <= j < i :: Marked()[j]
      {
        var marked := Test(i);
        if !marked {
          FirstClearIs(Marked(), i);
          Mark(i);
          return i;
        }
        i := i + 1;
      }
      FirstClearIs(Marked(), -1);
      return -1;
    }

    method NumClear() returns (count: nat)
      requires Valid()
      ensures count == CountClear(Marked())
    {
      count := 0;
      var i := 0;
      while i < numBits
        invariant i <= numBits
        invariant count == CountClear(Marked()[..i])
      {
        var marked := Test(i);
        CountClearAppend(Marked()[..i], Marked()[i]);
        assert Marked()[..i] + [Marked()[i]] == Marked()[..i + 1];
        if !marked { count := count + 1; }
        i := i + 1;
      }
      assert Marked()[..numBits] == Marked();
    }
  }
}
