/** The i915 PMU counter ids of i915_drm.h. */
module Pmu {
  import opened Bits

  const SAMPLE_BITS: nat := 4
  const INSTANCE_BITS: nat := 8
  const CLASS_SHIFT: nat := SAMPLE_BITS + INSTANCE_BITS
  const GT_SHIFT: nat := 60

  /** __I915_PMU_ENGINE(class, instance, sample) */
  function Engine(cls: nat, instance: nat, sample: nat): nat {
    Or(Or(Shl(cls, CLASS_SHIFT), Shl(instance, SAMPLE_BITS)), sample)
  }

  /** ___I915_PMU_OTHER(gt, x), in 64 bits */
  function Other(gt: nat, x: nat): nat {
    Or(Wrap(Engine(0xff, 0xff, 0xf) + 1 + x, 64), Wrap(Shl(gt, GT_SHIFT), 64))
  }

  predicate EngineArgs(cls: nat, instance: nat, sample: nat) {
    cls < 256 && instance < 256 && sample < 16
  }

  /** The GT id has four bits and the counter number stays below them. */
  predicate OtherArgs(gt: nat, x: nat) {
    gt < 16 && 0x10_0000 + x < Pow2(60)
  }

  lemma EngineIsSum(cls: nat, instance: nat, sample: nat)
    requires EngineArgs(cls, instance, sample)
    ensures Engine(cls, instance, sample) == 4096 * cls + 16 * instance + sample
  {
    hide Or, Shl, Pow2;
    Pow2Small();
    ShlIsMul(cls, 12);
    ShlIsMul(instance, 4);
    OrIsAdd(cls, 12, Shl(instance, 4));
    ShlAdd(cls, instance);
    OrIsAdd(256 * cls + instance, 4, sample);
  }

  lemma ShlAdd(cls: nat, instance: nat)
    ensures Shl(cls, 12) + Shl(instance, 4) == Shl(256 * cls + instance, 4)
  {
    hide Shl, Pow2;
    Pow2Small();
    ShlIsMul(cls, 12);
    ShlIsMul(instance, 4);
    ShlIsMul(256 * cls + instance, 4);
  }

  lemma OtherIsSum(gt: nat, x: nat)
    requires OtherArgs(gt, x)
    ensures Other(gt, x) == Pow2(60) * gt + (0x10_0000 + x)
  {
    hide Or, Shl, Pow2, Wrap, Engine;
    EngineIsSum(0xff, 0xff, 0xf);
    var y := 0x10_0000 + x;
    assert Pow2(64) == 16 * Pow2(60) by {
      Pow2Small();
      Pow2Add(4, 60);
    }
    WrapFits(y, 64);
    ShlIsMul(gt, 60);
    MulBelow(gt, 16, Pow2(60));
    WrapFits(Shl(gt, 60), 64);
    OrIsAdd(gt, 60, y);
    OrCommutes(Shl(gt, 60), y);
  }

  lemma MulBelow(a: nat, b: nat, p: nat)
    requires a < b && p > 0
    ensures a * p < b * p
  {
  }

  lemma OrCommutes(a: nat, b: nat)
    ensures Or(a, b) == Or(b, a)
  {
    hide Bit, Or;
    SameBits(Or(a, b), Or(b, a));
  }

  /** Engine ids are injective in class, instance and sample. */
  lemma EngineInjective(c: nat, i: nat, s: nat, c': nat, i': nat, s': nat)
    requires EngineArgs(c, i, s) && EngineArgs(c', i', s')
    ensures Engine(c, i, s) == Engine(c', i', s') <==> c == c' && i == i' && s == s'
  {
    hide Engine;
    EngineIsSum(c, i, s);
    EngineIsSum(c', i', s');
  }

  /** Non-engine ids are injective in GT and counter, below the GT field. */
  lemma OtherInjective(gt: nat, x: nat, gt': nat, x': nat)
    requires OtherArgs(gt, x) && OtherArgs(gt', x')
    ensures Other(gt, x) == Other(gt', x') <==> gt == gt' && x == x'
  {
    hide Other, Pow2;
    OtherIsSum(gt, x);
    OtherIsSum(gt', x');
    if Other(gt, x) == Other(gt', x') {
      EuclidUnique(Pow2(60), gt, 0x10_0000 + x, gt', 0x10_0000 + x');
    }
  }

  /** No engine id is a non-engine id. */
  lemma EngineOtherDisjoint(c: nat, i: nat, s: nat, gt: nat, x: nat)
    requires EngineArgs(c, i, s) && OtherArgs(gt, x)
    ensures Engine(c, i, s) != Other(gt, x)
  {
    hide Other, Engine, Pow2;
    EngineIsSum(c, i, s);
    OtherIsSum(gt, x);
    assert Pow2(60) * gt >= 0;
  }

  /** The bound on x is needed: a counter number that reaches the GT field is read as a
      counter of another GT. */
  lemma OtherOverflows(x: nat)
    requires OtherArgs(1, x)
    ensures Other(0, Pow2(60) + x) == Other(1, x)
  {
    hide Or, Shl, Pow2, Wrap, Engine;
    EngineIsSum(0xff, 0xff, 0xf);
    OtherIsSum(1, x);
    var y := Pow2(60) + 0x10_0000 + x;
    assert Pow2(64) == 16 * Pow2(60) by {
      Pow2Small();
      Pow2Add(4, 60);
    }
    WrapFits(y, 64);
    ShlIsMul(0, 60);
    WrapFits(0, 64);
    OrCommutes(y, 0);
    OrZero(y);
  }

  lemma OrZero(a: nat)
    ensures Or(0, a) == a
  {
  }
}
