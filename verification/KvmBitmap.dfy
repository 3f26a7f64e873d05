/** The multi-word extension bitmaps of asm/kvm.h.  ISA and SBI extensions use the same
    macros; the word width (__BITS_PER_LONG) and the number of ids are parameters. */
module KvmBitmap {
  import opened Bits
  import opened BitStore

  const ISA_EXT_MAX: nat := 71
  const SBI_EXT_MAX: nat := 12

  /** KVM_REG_RISCV_ISA_MULTI_REG(id) and KVM_REG_RISCV_SBI_MULTI_REG(id) */
  function MultiReg(id: nat, bits: nat): nat
    requires bits > 0
  {
    id / bits
  }

  /** KVM_REG_RISCV_ISA_MULTI_MASK(id) and KVM_REG_RISCV_SBI_MULTI_MASK(id) */
  function MultiMask(id: nat, bits: nat): nat
    requires bits > 0
  {
    Shl(1, id % bits)
  }

  /** KVM_REG_RISCV_ISA_MULTI_REG_LAST for `max` ids */
  function MultiRegLast(max: nat, bits: nat): nat
    requires bits > 0 && max > 0
  {
    MultiReg(max - 1, bits)
  }

  datatype Op = Op(id: nat, enable: bool)

  /** One enable or disable, addressed by MULTI_REG and MULTI_MASK. */
  function Apply(words: seq<nat>, bits: nat, op: Op): (r: seq<nat>)
    requires bits > 0 && MultiReg(op.id, bits) < |words|
    ensures |r| == |words|
  {
    var reg, mask := MultiReg(op.id, bits), MultiMask(op.id, bits);
    words[reg := if op.enable then Or(words[reg], mask) else And(words[reg], Not(mask, bits))]
  }

  predicate IdsBelow(ops: seq<Op>, max: nat) {
    forall n :: 0 <= n < |ops| ==> ops[n].id < max
  }

  /** No id below the maximum addresses a register beyond the last one, and the last register
      is needed. */
  lemma RegInBounds(id: nat, max: nat, bits: nat)
    requires bits > 0 && id < max
    ensures MultiReg(id, bits) <= MultiRegLast(max, bits)
    ensures exists i: nat :: i < max && MultiReg(i, bits) == MultiRegLast(max, bits)
  {
    DivMonotone(id, max - 1, bits);
    assert MultiReg(max - 1, bits) == MultiRegLast(max, bits);
  }

  /** The registers the two enumerations need with 64-bit and with 32-bit longs, and the place of
      their last ids, ZALRSC (70) and SUSP (11). */
  lemma RegisterCounts()
    ensures MultiRegLast(ISA_EXT_MAX, 64) == 1 && MultiRegLast(ISA_EXT_MAX, 32) == 2
    ensures MultiRegLast(SBI_EXT_MAX, 64) == 0 && MultiRegLast(SBI_EXT_MAX, 32) == 0
    ensures MultiMask(ISA_EXT_MAX - 1, 64) == MultiMask(ISA_EXT_MAX - 1, 32) == 0x40
    ensures MultiMask(SBI_EXT_MAX - 1, 64) == MultiMask(SBI_EXT_MAX - 1, 32) == 0x800
  {
    hide Shl, Pow2, Bit;
    ShlIsMul(1, 6);
    ShlIsMul(1, 11);
    Pow2Small();
    Pow2Add(3, 8);
  }

  lemma DivMonotone(a: nat, b: nat, p: nat)
    requires p > 0 && a <= b
    ensures a / p <= b / p
  {
    var q, r, q', r' := a / p, a % p, b / p, b % p;
    assert a == q * p + r && b == q' * p + r';
    if q' < q {
      MulGap(q', q, p);
    }
  }

  /** Register and mask together identify the extension. */
  lemma AddressInjective(id: nat, id': nat, bits: nat)
    requires bits > 0
    ensures MultiReg(id, bits) == MultiReg(id', bits) && MultiMask(id, bits) == MultiMask(id', bits) <==> id == id'
  {
    hide Shl, Bit;
    if MultiReg(id, bits) == MultiReg(id', bits) && MultiMask(id, bits) == MultiMask(id', bits) {
      BitOfShiftedOne(id % bits, id % bits);
      BitOfShiftedOne(id' % bits, id % bits);
      SameDivMod(id, id', bits);
    }
  }

  /** The extensions the words represent. */
  function Represented(words: seq<nat>, bits: nat, max: nat): set<nat>
    requires bits > 0 && max > 0 && |words| == MultiRegLast(max, bits) + 1
  {
    set id | 0 <= id < max && IsEnabled(words, bits, max, id)
  }

  predicate IsEnabled(words: seq<nat>, bits: nat, max: nat, id: nat)
    requires bits > 0 && id < max && |words| == MultiRegLast(max, bits) + 1
  {
    DivMonotone(id, max - 1, bits);
    And(words[MultiReg(id, bits)], MultiMask(id, bits)) != 0
  }

  function RunWords(words: seq<nat>, bits: nat, max: nat, ops: seq<Op>): (r: seq<nat>)
    requires bits > 0 && max > 0 && |words| == MultiRegLast(max, bits) + 1 && IdsBelow(ops, max)
    ensures |r| == |words|
    decreases |ops|
  {
    if ops == [] then words else
      DivMonotone(ops[0].id, max - 1, bits);
      RunWords(Apply(words, bits, ops[0]), bits, max, ops[1..])
  }

  /** The same operations as insertions and deletions on a set. */
  function RunSet(s: set<nat>, ops: seq<Op>): set<nat>
    decreases |ops|
  {
    if ops == [] then s
    else RunSet(if ops[0].enable then s + {ops[0].id} else s - {ops[0].id}, ops[1..])
  }

  lemma MaskTest(w: nat, k: nat)
    ensures And(w, Shl(1, k)) != 0 <==> Bit(w, k)
  {
    hide Bit, And, Shl;
    ZeroBits();
    BitOfShiftedOne(k, k);
    if !Bit(w, k) {
      forall i: nat
        ensures Bit(And(w, Shl(1, k)), i) == Bit(0, i)
      {
        BitOfShiftedOne(k, i);
      }
      SameBits(And(w, Shl(1, k)), 0);
    } else {
      assert Bit(And(w, Shl(1, k)), k);
    }
  }

  lemma ApplyTest(words: seq<nat>, bits: nat, max: nat, op: Op, id: nat)
    requires bits > 0 && id < max && op.id < max && |words| == MultiRegLast(max, bits) + 1
    requires MultiReg(op.id, bits) < |words|
    ensures IsEnabled(Apply(words, bits, op), bits, max, id)
            <==> if id == op.id then op.enable else IsEnabled(words, bits, max, id)
  {
    hide Bit, And, Or, Shl, Not;
    RegInBounds(id, max, bits);
    SameDivMod(id, op.id, bits);
    hide MultiReg;
    var reg, opReg, k, opK := MultiReg(id, bits), MultiReg(op.id, bits), id % bits, op.id % bits;
    assert reg == opReg && k == opK <==> id == op.id;
    MaskTest(words[reg], k);
    MaskTest(Apply(words, bits, op)[reg], k);
    BitOfShiftedOne(opK, k);
  }

  lemma SameDivMod(a: nat, b: nat, p: nat)
    requires p > 0
    ensures a / p == b / p && a % p == b % p <==> a == b
  {
    assert a == (a / p) * p + a % p;
    assert b == (b / p) * p + b % p;
  }

  /** Over any run of enables and disables, for any word width, the words represent exactly the
      set that the same insertions and deletions give. */
  lemma {:induction false} RunRefines(words: seq<nat>, bits: nat, max: nat, ops: seq<Op>)
    requires bits > 0 && max > 0 && |words| == MultiRegLast(max, bits) + 1 && IdsBelow(ops, max)
    ensures Represented(RunWords(words, bits, max, ops), bits, max) == RunSet(Represented(words, bits, max), ops)
    decreases |ops|
  {
    if ops != [] {
      var op := ops[0];
      DivMonotone(op.id, max - 1, bits);
      var words' := Apply(words, bits, op);
      ApplyRepresents(words, bits, max, op);
      hide Apply;
      RunRefines(words', bits, max, ops[1..]);
    }
  }

  lemma ApplyRepresents(words: seq<nat>, bits: nat, max: nat, op: Op)
    requires bits > 0 && op.id < max && |words| == MultiRegLast(max, bits) + 1
    requires MultiReg(op.id, bits) < |words|
    ensures Represented(Apply(words, bits, op), bits, max)
         == if op.enable then Represented(words, bits, max) + {op.id} else Represented(words, bits, max) - {op.id}
  {
    hide Apply, IsEnabled;
    forall id: nat | id < max
      ensures IsEnabled(Apply(words, bits, op), bits, max, id)
              <==> if id == op.id then op.enable else IsEnabled(words, bits, max, id)
    {
      ApplyTest(words, bits, max, op, id);
    }
  }

  // ---- one long bitmap

  /** The registers as one word, the first register lowest. */
  function Joined(words: seq<nat>, bits: nat): nat {
    if words == [] then 0 else Or(Shl(Joined(words[1..], bits), bits), Wrap(words[0], bits))
  }

  lemma {:induction false} JoinedBit(words: seq<nat>, bits: nat, id: nat)
    requires bits > 0
    ensures Bit(Joined(words, bits), id) <==> id / bits < |words| && Bit(words[id / bits], id % bits)
    decreases |words|
  {
    hide Bit, Or, Shl, Wrap;
    ZeroBits();
    if words != [] {
      if id < bits {
        DivUnique(id, bits, 0, id);
      } else {
        var q, r := (id - bits) / bits, (id - bits) % bits;
        assert id - bits == q * bits + r;
        Distribute(q, 1, bits);
        DivUnique(id, bits, q + 1, r);
        JoinedBit(words[1..], bits, id - bits);
      }
    }
  }

  function SetBits(w: nat, max: nat): set<nat> {
    set id: nat | id < max && Bit(w, id)
  }

  /** Seen as one long word, the registers have exactly the bits of the enabled ids set, over any
      run: bit id is extension id. */
  lemma BitmapExact(words: seq<nat>, bits: nat, max: nat, ops: seq<Op>)
    requires bits > 0 && max > 0 && |words| == (max - 1) / bits + 1 && IdsBelow(ops, max)
    ensures SetBits(Joined(RunWords(words, bits, max, ops), bits), max) == RunSet(SetBits(Joined(words, bits), max), ops)
  {
    hide RunWords, RunSet, IdsBelow, Joined;
    RunRefines(words, bits, max, ops);
    RepresentedBits(words, bits, max);
    RepresentedBits(RunWords(words, bits, max, ops), bits, max);
  }

  lemma RepresentedBits(words: seq<nat>, bits: nat, max: nat)
    requires bits > 0 && max > 0 && |words| == (max - 1) / bits + 1
    ensures Represented(words, bits, max) == SetBits(Joined(words, bits), max)
  {
    hide Bit, Joined, IsEnabled;
    forall id: nat | id < max
      ensures IsEnabled(words, bits, max, id) <==> Bit(Joined(words, bits), id)
    {
      EnabledBit(words, bits, max, id);
    }
  }

  lemma EnabledBit(words: seq<nat>, bits: nat, max: nat, id: nat)
    requires bits > 0 && id < max && |words| == (max - 1) / bits + 1
    ensures IsEnabled(words, bits, max, id) <==> Bit(Joined(words, bits), id)
  {
    hide Bit, Joined, And, Shl;
    DivMonotone(id, max - 1, bits);
    MaskTest(words[id / bits], id % bits);
    JoinedBit(words, bits, id);
  }
}
