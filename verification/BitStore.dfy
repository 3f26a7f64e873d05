/** A row of fixed-width words used as a bitmap, addressed by word index and bit number. */
module BitStore {
  import opened Bits

  datatype Cell = Cell(word: nat, bit: nat)

  /** `(words[i] >> b) & 1` */
  function Read(words: seq<nat>, c: Cell): nat
    requires c.word < |words|
  {
    And(Shr(words[c.word], c.bit), 1)
  }

  /** `words[i] |= 1 << b` or `words[i] &= ~(1 << b)` in words of `width` bits. */
  function Put(words: seq<nat>, width: nat, c: Cell, on: bool): (r: seq<nat>)
    requires c.word < |words|
    ensures |r| == |words|
  {
    var w := words[c.word];
    words[c.word := if on then Or(w, Shl(1, c.bit)) else And(w, Not(Shl(1, c.bit), width))]
  }

  lemma ReadIsBit(words: seq<nat>, c: Cell)
    requires c.word < |words|
    ensures Read(words, c) == if Bit(words[c.word], c.bit) then 1 else 0
  {
    hide Bit, And, Shr;
    var r := Read(words, c);
    forall i: nat
      ensures Bit(r, i) <==> i == 0 && Bit(words[c.word], c.bit)
    {
      BitOfOne(i);
    }
    if Bit(words[c.word], c.bit) {
      forall i: nat
        ensures Bit(r, i) == Bit(1, i)
      {
        BitOfOne(i);
      }
      SameBits(r, 1);
    } else {
      ZeroBits();
      SameBits(r, 0);
    }
  }

  lemma BitOfShiftedOne(k: nat, i: nat)
    ensures Bit(Shl(1, k), i) <==> i == k
  {
    hide Bit, Shl;
    if i >= k {
      BitOfOne(i - k);
    }
  }

  /** Writing one cell changes that cell and no other. */
  lemma PutRead(words: seq<nat>, width: nat, c: Cell, on: bool, d: Cell)
    requires c.word < |words| && d.word < |words| && d.bit < width
    ensures Read(Put(words, width, c, on), d) == if d == c then (if on then 1 else 0) else Read(words, d)
  {
    hide Bit, Shl, Or, And, Not, Read;
    ReadIsBit(words, d);
    ReadIsBit(Put(words, width, c, on), d);
    BitOfShiftedOne(c.bit, d.bit);
  }
}
