/** Bytes, little-endian integers and the Option type of the parsers. */
module Bytes {

  type Byte = x: nat | x < 256

  datatype Option<+T> = None | Some(value: T)

  /** 256^n */
  function Pow256(n: nat): (r: nat)
    ensures r > 0
  {
    if n == 0 then 1 else 256 * Pow256(n - 1)
  }

  /** The n low bytes of v, least significant first. */
  function ToLE(v: nat, n: nat): (r: seq<Byte>)
    ensures |r| == n
    decreases n, v
  {
    if n == 0 then [] else [v % 256] + ToLE(v / 256, n - 1)
  }

  function FromLE(bs: seq<Byte>): nat {
    if bs == [] then 0 else bs[0] + 256 * FromLE(bs[1..])
  }

  /** A value reads back exactly when it fits the field. */
  lemma {:induction false} ReadWritten(v: nat, n: nat)
    ensures FromLE(ToLE(v, n)) == v <==> v < Pow256(n)
    decreases n
  {
    if n > 0 {
      ReadWritten(v / 256, n - 1);
      assert ToLE(v, n)[1..] == ToLE(v / 256, n - 1);
    }
  }

  lemma {:induction false} WriteRead(bs: seq<Byte>)
    ensures ToLE(FromLE(bs), |bs|) == bs
    ensures FromLE(bs) < Pow256(|bs|)
    decreases |bs|
  {
    if bs != [] {
      WriteRead(bs[1..]);
      assert bs == [bs[0]] + bs[1..];
    }
  }

  lemma Carry(b: nat, lo: nat, p: nat, hi: nat)
    ensures b + 256 * (lo + p * hi) == (b + 256 * lo) + (256 * p) * hi
  {
  }

  /** The first bytes of an integer are the less significant ones. */
  lemma {:induction false} LowBytesFirst(low: seq<Byte>, high: seq<Byte>)
    ensures FromLE(low + high) == FromLE(low) + Pow256(|low|) * FromLE(high)
    ensures |low| == 1 ==> FromLE(low) == low[0]
    decreases |low|
  {
    if low == [] {
      assert low + high == high;
    } else {
      LowBytesFirst(low[1..], high);
      assert (low + high)[1..] == low[1..] + high;
      Carry(low[0], FromLE(low[1..]), Pow256(|low| - 1), FromLE(high));
    }
  }

  lemma FieldSizes()
    ensures Pow256(2) == 0x1_0000 && Pow256(4) == 0x1_0000_0000
  {
    assert Pow256(3) == 0x100_0000;
  }

  function Zeros(n: nat): (r: seq<Byte>)
    ensures |r| == n && forall i :: 0 <= i < n ==> r[i] == 0
  {
    seq(n, _ => 0)
  }

  /** Every byte from position n on is zero. */
  predicate ZeroFrom(bs: seq<Byte>, n: nat) {
    forall i :: n <= i < |bs| ==> bs[i] == 0
  }
}
