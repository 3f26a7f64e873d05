/** Format modifier codes of drm_fourcc.h: the vendor byte, the NVIDIA block-linear code and
    its canonical form, and the Broadcom parameter macros. */
module Modifiers {
  import opened Bits

  const VENDOR_INTEL: nat := 0x01
  const VENDOR_NVIDIA: nat := 0x03
  const VENDOR_BROADCOM: nat := 0x07

  /** fourcc_mod_code(vendor, val) */
  function Code(vendor: nat, val: nat): nat {
    Or(Wrap(Shl(vendor, 56), 64), And(val, 0x00ff_ffff_ffff_ffff))
  }

  /** fourcc_mod_get_vendor(m) */
  function Vendor(m: nat): nat {
    And(Shr(m, 56), 0xff)
  }

  /** The hexadecimal literals of the macros as runs of ones. */
  lemma LiteralForms()
    ensures 0x10 == Shl(1, 4) && 0xfe == Shl(Ones(7), 1)
    ensures 1 == Ones(1) && 3 == Ones(2) && 7 == Ones(3) && 0xf == Ones(4) && 0xff == Ones(8)
  {
  }

  lemma Literal56()
    ensures 0x00ff_ffff_ffff_ffff == Ones(56)
  {
    hide Pow2, Ones;
    Pow2Large();
  }

  lemma LiteralBits(i: nat)
    ensures Bit(0x10, i) <==> i == 4
    ensures Bit(0x1, i) <==> i < 1
    ensures Bit(0x3, i) <==> i < 2
    ensures Bit(0x7, i) <==> i < 3
    ensures Bit(0xf, i) <==> i < 4
    ensures Bit(0xff, i) <==> i < 8
    ensures Bit(0xfe, i) <==> 1 <= i < 8
    ensures Bit(0x00ff_ffff_ffff_ffff, i) <==> i < 56
  {
    hide Bit, Shl, Ones, Pow2;
    LiteralForms();
    Literal56();
    if i >= 4 {
      BitOfOne(i - 4);
    }
  }

  lemma CodeBit(vendor: nat, val: nat, i: nat)
    ensures Bit(Code(vendor, val), i) <==> if i < 56 then Bit(val, i) else i < 64 && Bit(vendor, i - 56)
  {
    hide Bit, And, Or, Shl, Wrap;
    LiteralBits(i);
  }

  /** A code carries its vendor byte and the low 56 bits of its value, and nothing else. */
  lemma CodeSplits(vendor: nat, val: nat)
    requires vendor < 256
    ensures Vendor(Code(vendor, val)) == vendor
    ensures Wrap(Code(vendor, val), 56) == Wrap(val, 56)
  {
    hide Bit, And, Or, Shl, Shr, Wrap, Code;
    assert HighClear(vendor, 8) by {
      FitsBits(vendor, 8);
    }
    forall i: nat
      ensures Bit(Vendor(Code(vendor, val)), i) == Bit(vendor, i)
      ensures Bit(Wrap(Code(vendor, val), 56), i) == Bit(Wrap(val, 56), i)
    {
      LiteralBits(i);
      CodeBit(vendor, val, i + 56);
      CodeBit(vendor, val, i);
    }
    SameBits(Vendor(Code(vendor, val)), vendor);
    SameBits(Wrap(Code(vendor, val), 56), Wrap(val, 56));
  }

  // ---- NVIDIA

  /** DRM_FORMAT_MOD_NVIDIA_BLOCK_LINEAR_2D(c, s, g, k, h) */
  function BlockLinear2D(c: nat, s: nat, g: nat, k: nat, h: nat): nat {
    Code(VENDOR_NVIDIA,
         Or(Or(Or(Or(Or(0x10, And(h, 0xf)), Shl(And(k, 0xff), 12)), Shl(And(g, 0x3), 20)),
               Shl(And(s, 0x1), 22)), Shl(And(c, 0x7), 23)))
  }

  /** DRM_FORMAT_MOD_NVIDIA_16BX2_BLOCK(v) */
  function SixteenBx2(v: nat): nat {
    BlockLinear2D(0, 0, 0, 0, v)
  }

  /** drm_fourcc_canonicalize_nvidia_format_mod */
  function Canonicalize(m: nat): nat {
    if And(m, 0x10) == 0 || And(m, Shl(0xff, 12)) != 0 then m else Or(m, Shl(0xfe, 12))
  }

  const GENERIC_KIND: nat := 0xfe

  /** Bits 19:12, the page kind. */
  function Kind(m: nat): nat {
    And(Shr(m, 12), 0xff)
  }

  predicate BlockLinear(m: nat) {
    Bit(m, 4)
  }

  /** a and b agree on every bit outside the page kind. */
  ghost predicate SameButKind(a: nat, b: nat) {
    forall i: nat :: !(12 <= i < 20) ==> Bit(a, i) == Bit(b, i)
  }

  /** The two guards of the canonicalizer, read as field tests. */
  lemma GuardsMean(m: nat)
    ensures And(m, 0x10) == 0 <==> !BlockLinear(m)
    ensures And(m, Shl(0xff, 12)) == 0 <==> Kind(m) == 0
  {
    hide Bit, And, Shl, Shr, Pow2;
    var g, h, k := And(m, 0x10), And(m, Shl(0xff, 12)), Kind(m);
    ZeroIffClear(g);
    ZeroIffClear(h);
    ZeroIffClear(k);
    LiteralBits(4);
    assert Bit(g, 4) <==> Bit(m, 4);
    forall i: nat
      ensures Bit(g, i) ==> Bit(m, 4)
    {
      LiteralBits(i);
    }
    if HighClear(k, 0) {
      forall i: nat
        ensures !Bit(h, i)
      {
        if i >= 12 {
          assert Bit(k, i - 12) == Bit(h, i);
        }
      }
    }
    if HighClear(h, 0) {
      forall i: nat
        ensures !Bit(k, i)
      {
        assert Bit(k, i) == Bit(h, i + 12);
      }
    }
  }

  lemma ZeroIffClear(a: nat)
    ensures a == 0 <==> HighClear(a, 0)
  {
    FitsBits(a, 0);
  }

  /** The canonical form rewrites kind 0 of block-linear modifiers to 0xfe; everything else
      about the word, the vendor included, is kept and not looked at. */
  lemma CanonicalizeMeans(m: nat)
    ensures SameButKind(Canonicalize(m), m)
    ensures Kind(Canonicalize(m)) == if BlockLinear(m) && Kind(m) == 0 then GENERIC_KIND else Kind(m)
  {
    GuardsMean(m);
    hide Bit, And, Or, Shl, Shr;
    var m' := Canonicalize(m);
    forall i: nat
      ensures !(12 <= i < 20) ==> Bit(m', i) == Bit(m, i)
    {
      if i >= 12 {
        LiteralBits(i - 12);
      }
    }
    if BlockLinear(m) && Kind(m) == 0 {
      ZeroBits();
      forall i: nat
        ensures Bit(Kind(m'), i) == Bit(GENERIC_KIND, i)
      {
        LiteralBits(i);
        assert !Bit(Kind(m), i);
      }
      SameBits(Kind(m'), GENERIC_KIND);
    }
  }

  /** A modifier is its page kind and the rest. */
  lemma KindDetermines(a: nat, b: nat)
    requires SameButKind(a, b)
    ensures Kind(a) == Kind(b) <==> a == b
  {
    hide Bit, And, Shr;
    if Kind(a) == Kind(b) {
      forall i: nat
        ensures Bit(a, i) == Bit(b, i)
      {
        if 12 <= i < 20 {
          LiteralBits(i - 12);
          assert Bit(Kind(a), i - 12) == Bit(a, i);
          assert Bit(Kind(b), i - 12) == Bit(b, i);
        }
      }
      SameBits(a, b);
    }
  }

  lemma CanonicalizeIdempotent(m: nat)
    ensures Canonicalize(Canonicalize(m)) == Canonicalize(m)
  {
    hide Canonicalize, Kind, Bit;
    var m' := Canonicalize(m);
    CanonicalizeMeans(m);
    CanonicalizeMeans(m');
    KindDetermines(Canonicalize(m'), m');
  }

  /** The canonicalizer leaves a modifier alone exactly when it is not block-linear or its
      kind is already nonzero. */
  lemma CanonicalizeFixes(m: nat)
    ensures Canonicalize(m) == m <==> !(BlockLinear(m) && Kind(m) == 0)
  {
    hide Canonicalize, Kind, Bit;
    CanonicalizeMeans(m);
    KindDetermines(Canonicalize(m), m);
  }

  /** Two modifiers are identified exactly when they are equal or are block-linear and differ
      only by kind 0 versus kind 0xfe. */
  lemma CanonicalizeFibres(a: nat, b: nat)
    ensures Canonicalize(a) == Canonicalize(b) <==>
              || a == b
              || (&& BlockLinear(a) && BlockLinear(b) && SameButKind(a, b)
                  && ((Kind(a) == 0 && Kind(b) == GENERIC_KIND) || (Kind(a) == GENERIC_KIND && Kind(b) == 0)))
  {
    hide Canonicalize, Kind, Bit;
    var a', b' := Canonicalize(a), Canonicalize(b);
    CanonicalizeMeans(a);
    CanonicalizeMeans(b);
    if a' == b' {
      SameButKindVia(a, a', b);
      KindDetermines(a, b);
    } else if SameButKind(a, b) {
      SameButKindVia(a', a, b);
      SameButKindVia(a', b, b');
      KindDetermines(a', b');
    }
  }

  lemma SameButKindVia(a: nat, b: nat, c: nat)
    requires SameButKind(a, b) || SameButKind(b, a)
    requires SameButKind(b, c) || SameButKind(c, b)
    ensures SameButKind(a, c)
  {
    hide Bit;
    forall i: nat | !(12 <= i < 20)
      ensures Bit(a, i) == Bit(c, i)
    {
      assert Bit(b, i) == Bit(c, i);
    }
  }

  lemma BlockLinearBit(c: nat, s: nat, g: nat, k: nat, h: nat, i: nat)
    ensures Bit(BlockLinear2D(c, s, g, k, h), i) <==>
              if i < 4 then Bit(h, i)
              else if i == 4 then true
              else if i < 12 then false
              else if i < 20 then Bit(k, i - 12)
              else if i < 22 then Bit(g, i - 20)
              else if i < 23 then Bit(s, i - 22)
              else if i < 26 then Bit(c, i - 23)
              else if i < 56 then false
              else i < 64 && Bit(0x03, i - 56)
  {
    hide Bit, And, Or, Shl, Shr, Code;
    LiteralBits(i);
    if i >= 12 {
      LiteralBits(i - 12);
    }
    if i >= 20 {
      LiteralBits(i - 20);
    }
    if i >= 22 {
      LiteralBits(i - 22);
    }
    if i >= 23 {
      LiteralBits(i - 23);
    }
    CodeBit(VENDOR_NVIDIA,
            Or(Or(Or(Or(Or(0x10, And(h, 0xf)), Shl(And(k, 0xff), 12)), Shl(And(g, 0x3), 20)),
                  Shl(And(s, 0x1), 22)), Shl(And(c, 0x7), 23)), i);
  }

  /** Every legacy 16Bx2 code canonicalizes to the generic-kind block-linear code of the same
      height, for every v. */
  lemma SixteenBx2Canonical(v: nat)
    ensures Canonicalize(SixteenBx2(v)) == BlockLinear2D(0, 0, 0, GENERIC_KIND, v)
  {
    hide Bit, And, Or, Shl, Shr, Code, BlockLinear2D, Canonicalize;
    var legacy, generic := SixteenBx2(v), BlockLinear2D(0, 0, 0, GENERIC_KIND, v);
    ZeroBits();
    forall i: nat
      ensures !(12 <= i < 20) ==> Bit(legacy, i) == Bit(generic, i)
      ensures Bit(Kind(legacy), i) == Bit(0, i)
      ensures Bit(Kind(generic), i) == Bit(GENERIC_KIND, i)
    {
      BlockLinearBit(0, 0, 0, 0, v, i);
      BlockLinearBit(0, 0, 0, GENERIC_KIND, v, i);
      BlockLinearBit(0, 0, 0, 0, v, i + 12);
      BlockLinearBit(0, 0, 0, GENERIC_KIND, v, i + 12);
      LiteralBits(i);
    }
    SameBits(Kind(legacy), 0);
    SameBits(Kind(generic), GENERIC_KIND);
    BlockLinearBit(0, 0, 0, 0, v, 4);
    CanonicalizeMeans(legacy);
    SameButKindVia(Canonicalize(legacy), legacy, generic);
    KindDetermines(Canonicalize(legacy), generic);
  }

  /** The vendor is not checked: an Intel modifier with bit 4 set and bits 19:12 clear is
      rewritten too. */
  lemma CanonicalizeIgnoresVendor()
    ensures Vendor(Code(VENDOR_INTEL, 0x10)) == 0x01
    ensures Canonicalize(Code(VENDOR_INTEL, 0x10)) != Code(VENDOR_INTEL, 0x10)
  {
    var m := Code(VENDOR_INTEL, 0x10);
    CodeSplits(VENDOR_INTEL, 0x10);
    hide Bit, And, Or, Shl, Shr, Code, Canonicalize;
    ZeroBits();
    forall i: nat
      ensures Bit(Kind(m), i) == Bit(0, i)
    {
      CodeBit(VENDOR_INTEL, 0x10, i + 12);
      LiteralBits(i + 12);
      LiteralBits(i);
    }
    SameBits(Kind(m), 0);
    CodeBit(VENDOR_INTEL, 0x10, 4);
    LiteralBits(4);
    CanonicalizeFixes(m);
  }

  // ---- Broadcom

  const PARAM_SHIFT: nat := 8
  const PARAM_BITS: nat := 48

  /** fourcc_mod_broadcom_code(val, params) */
  function BroadcomCode(val: nat, params: nat): nat {
    Code(VENDOR_BROADCOM, Or(Wrap(Shl(params, PARAM_SHIFT), 64), val))
  }

  /** The conversion of an unsigned value to a 32-bit int. */
  function ToInt(x: nat): int {
    var r := x % 0x1_0000_0000;
    if r < 0x8000_0000 then r else r - 0x1_0000_0000
  }

  /** fourcc_mod_broadcom_param(m) */
  function BroadcomParam(m: nat): int {
    ToInt(And(Shr(m, PARAM_SHIFT), Ones(PARAM_BITS)))
  }

  /** fourcc_mod_broadcom_mod(m) */
  function BroadcomMod(m: nat): nat {
    And(m, Not(Shl(Ones(PARAM_BITS), PARAM_SHIFT), 64))
  }

  lemma BroadcomBit(val: nat, params: nat, i: nat)
    ensures Bit(BroadcomCode(val, params), i) <==>
              if i < 56 then Bit(val, i) || (i >= 8 && Bit(params, i - 8))
              else i < 64 && Bit(0x07, i - 56)
  {
    hide Bit, And, Or, Shl, Shr, Wrap, Code;
    CodeBit(VENDOR_BROADCOM, Or(Wrap(Shl(params, PARAM_SHIFT), 64), val), i);
  }

  /** val has no bit in the parameter field. */
  ghost predicate TypeOnly(val: nat) {
    forall i: nat :: 8 <= i < 56 ==> !Bit(val, i)
  }

  /** Dropping the parameter recovers the zero-parameter code, for every parameter, exactly
      when the type leaves the parameter field empty. */
  lemma BroadcomModExact(val: nat, params: nat)
    ensures BroadcomMod(BroadcomCode(val, params)) == BroadcomCode(val, 0) <==> TypeOnly(val)
  {
    hide Bit, And, Or, Shl, Shr, Wrap, Not, Ones, BroadcomCode;
    ZeroBits();
    var l, r := BroadcomMod(BroadcomCode(val, params)), BroadcomCode(val, 0);
    forall i: nat
      ensures Bit(l, i) <==> (if i < 56 then i < 8 && Bit(val, i) else i < 64 && Bit(VENDOR_BROADCOM, i - 56))
      ensures Bit(r, i) <==> (if i < 56 then Bit(val, i) else i < 64 && Bit(VENDOR_BROADCOM, i - 56))
    {
      BroadcomBit(val, params, i);
      BroadcomBit(val, 0, i);
      assert Bit(Shl(Ones(PARAM_BITS), PARAM_SHIFT), i) <==> 8 <= i < 56;
    }
    if TypeOnly(val) {
      SameBits(l, r);
    } else {
      var i: nat :| 8 <= i < 56 && Bit(val, i);
      assert Bit(l, i) != Bit(r, i);
    }
  }

  /** The 48-bit field holds the low 48 bits of the parameter, for types below 256. */
  lemma BroadcomField(val: nat, params: nat)
    requires val < 256
    ensures And(Shr(BroadcomCode(val, params), PARAM_SHIFT), Ones(PARAM_BITS)) == Wrap(params, 48)
  {
    hide Bit, And, Or, Shl, Shr, Wrap, Ones, BroadcomCode;
    assert HighClear(val, 8) by {
      FitsBits(val, 8);
    }
    var f := And(Shr(BroadcomCode(val, params), PARAM_SHIFT), Ones(PARAM_BITS));
    forall i: nat
      ensures Bit(f, i) == Bit(Wrap(params, 48), i)
    {
      BroadcomBit(val, params, i + 8);
    }
    SameBits(f, Wrap(params, 48));
  }

  /** Types below 256 read their parameter back exactly when it is a nonnegative int: the cast
      limits it to 31 bits although the field has 48. */
  lemma BroadcomParamExact(val: nat, params: nat)
    requires val < 256
    ensures BroadcomParam(BroadcomCode(val, params)) == params <==> params < 0x8000_0000
  {
    hide Wrap, BroadcomCode, Pow2, And, Shr, Ones;
    BroadcomField(val, params);
    WrapFits(params, 48);
    Pow2Large();
  }
}
