/** The field tables of the AMD format modifier and of the amdgpu tiling flags. */
module AmdModifiers {
  import opened Bits
  import opened PackedFields

  const VENDOR_AMD: nat := 0x02

  /** TILE_VERSION, TILE, DCC, DCC_RETILE, DCC_PIPE_ALIGN, DCC_INDEPENDENT_64B,
      DCC_INDEPENDENT_128B, DCC_MAX_COMPRESSED_BLOCK, DCC_CONSTANT_ENCODE, PIPE_XOR_BITS,
      BANK_XOR_BITS, PACKERS, RB, PIPE */
  function AmdTable(): seq<Field> {
    [Field(0, 0xFF), Field(8, 0x1F), Field(13, 0x1), Field(14, 0x1), Field(15, 0x1), Field(16, 0x1),
     Field(17, 0x1), Field(18, 0x3), Field(20, 0x1), Field(21, 0x7), Field(24, 0x7), Field(27, 0x7),
     Field(30, 0x7), Field(33, 0x7)]
  }

  /** SI, CI and VI: ARRAY_MODE, PIPE_CONFIG, TILE_SPLIT, MICRO_TILE_MODE, BANK_WIDTH,
      BANK_HEIGHT, MACRO_TILE_ASPECT, NUM_BANKS */
  function TilingSi(): seq<Field> {
    [Field(0, 0xf), Field(4, 0x1f), Field(9, 0x7), Field(12, 0x7), Field(15, 0x3), Field(17, 0x3),
     Field(19, 0x3), Field(21, 0x3)]
  }

  /** GFX9 to GFX11: SWIZZLE_MODE, DCC_OFFSET_256B, DCC_PITCH_MAX, DCC_INDEPENDENT_64B,
      DCC_INDEPENDENT_128B, SCANOUT */
  function TilingGfx9(): seq<Field> {
    [Field(0, 0x1f), Field(5, 0xFFFFFF), Field(29, 0x3FFF), Field(43, 0x1), Field(44, 0x1), Field(63, 0x1)]
  }

  /** GFX12: SWIZZLE_MODE, DCC_MAX_COMPRESSED_BLOCK, DCC_NUMBER_TYPE, DCC_DATA_FORMAT,
      DCC_WRITE_COMPRESS_DISABLE, SCANOUT */
  function TilingGfx12(): seq<Field> {
    [Field(0, 0x7), Field(3, 0x3), Field(5, 0x7), Field(8, 0x3f), Field(14, 0x1), Field(63, 0x1)]
  }

  lemma AmdTableWellFormed()
    ensures WellFormed(AmdTable(), 36) && WellFormed(AmdTable(), 64)
  {
    assert Ascending(AmdTable(), 36);
    AscendingWellFormed(AmdTable(), 36);
  }

  /** First bits of the fields in the comment above the macros, and of the reserved bits. */
  const FirstBits: seq<nat> := [0, 8, 13, 14, 15, 16, 17, 18, 20, 21, 24, 27, 30, 33, 36]

  lemma LiteralOnes()
    ensures Ones(1) == 1 && Ones(2) == 3 && Ones(3) == 7 && Ones(5) == 0x1F && Ones(8) == 0xFF
  {
    hide Ones, Pow2, Bit;
    Pow2Small();
  }

  lemma AmdMasks(k: nat)
    requires k < 14
    ensures FirstBits[k] < FirstBits[k + 1]
    ensures AmdTable()[k] == Field(FirstBits[k], Ones(FirstBits[k + 1] - FirstBits[k]))
  {
    LiteralOnes();
    hide Ones, Pow2, Bit;
  }

  /** The shifts and masks are what the comment says: field k is exactly the bits from its first
      one up to the next field's, the fields leave no gap below bit 36, and GET returns exactly
      those bits of the word. */
  lemma AmdFieldBits(k: nat, w: nat, i: nat)
    requires k < |AmdTable()|
    ensures Owns(AmdTable()[k], i) <==> FirstBits[k] <= i < FirstBits[k + 1]
    ensures Bit(Get(AmdTable()[k], w), i) <==> FirstBits[k] + i < FirstBits[k + 1] && Bit(w, FirstBits[k] + i)
  {
    hide Bit, And, Shr, Ones, AmdTable;
    assert |AmdTable()| == 14 by {
      TableSize();
    }
    AmdMasks(k);
  }

  lemma TableSize()
    ensures |AmdTable()| == 14
  {
  }

  lemma TilingTablesWellFormed()
    ensures WellFormed(TilingSi(), 64) && WellFormed(TilingGfx9(), 64) && WellFormed(TilingGfx12(), 64)
  {
    TilingSiAscends();
    TilingGfx9Ascends();
    TilingGfx12Ascends();
    AscendingWellFormed(TilingSi(), 23);
    AscendingWellFormed(TilingGfx9(), 64);
    AscendingWellFormed(TilingGfx12(), 64);
  }

  lemma TilingSiAscends()
    ensures Ascending(TilingSi(), 23)
  {
    assert Pow2(5) == 32;
  }

  lemma TilingGfx9Ascends()
    ensures Ascending(TilingGfx9(), 64)
  {
    hide Pow2;
    Pow2Small();
    Pow2Large();
    Pow2Monotone(1, 19);
  }

  lemma TilingGfx12Ascends()
    ensures Ascending(TilingGfx12(), 64)
  {
    hide Pow2;
    Pow2Small();
    Pow2Monotone(1, 49);
  }

  /** IS_AMD_FMT_MOD(w) */
  predicate IsAmd(w: nat) {
    Shr(w, 56) == VENDOR_AMD
  }

  /** Any run of clear-then-set updates with in-range values, from any modifier: GET returns
      the last value written to each field, and bits 36 to 63, the vendor byte among them,
      never change. */
  lemma AmdRun(w: nat, ops: seq<Write>, k: nat)
    requires w < Pow2(64) && InTable(AmdTable(), ops) && InRange(AmdTable(), ops)
    requires k < |AmdTable()|
    ensures Get(AmdTable()[k], RunWord(AmdTable(), w, ops))
         == LastWritten(k, Get(AmdTable()[k], w), ops)
    ensures Shr(RunWord(AmdTable(), w, ops), 36) == Shr(w, 36)
    ensures Shr(RunWord(AmdTable(), w, ops), 56) == Shr(w, 56)
    ensures IsAmd(RunWord(AmdTable(), w, ops)) <==> Shr(w, 56) == 0x02
  {
    var t := AmdTable();
    var w' := RunWord(t, w, ops);
    AmdTableWellFormed();
    FitsBits(w, 64);
    RunRefines(t, w, ops);
    RunViewIsLastWritten(View(t, w), ops, k);
    forall i: nat | i >= 36
      ensures Bit(w', i) == Bit(w, i)
    {
      assert Unowned(t, i);
    }
    SameBits(Shr(w', 36), Shr(w, 36));
    SameBits(Shr(w', 56), Shr(w, 56));
  }

  /** SET does not mask: on a zero word, writing 2 into the one-bit DCC field does not store 2
      and changes DCC_RETILE. */
  lemma AmdSetSpills()
    ensures Get(AmdTable()[2], Update(0, AmdTable()[2], 2)) != 2
    ensures Get(AmdTable()[3], Update(0, AmdTable()[2], 2)) != Get(AmdTable()[3], 0)
  {
    var dcc, retile := AmdTable()[2], AmdTable()[3];
    assert Bit(2, 1) && !Bit(1, 1);
    assert !Bit(Get(dcc, Update(0, dcc, 2)), 1);
    UpdateBit(0, dcc, 2, 14);
    assert Bit(Get(retile, Update(0, dcc, 2)), 0);
    ZeroBit(14);
    assert !Bit(Get(retile, 0), 0);
  }

  /** The masked tiling SET over each table: every field assembled from zero and set at most
      once decodes to its masked value, whatever the other fields hold. */
  lemma TilingDecodes(t: seq<Field>, ops: seq<Write>, k: nat, n: nat)
    requires t in [TilingSi(), TilingGfx9(), TilingGfx12()]
    requires InTable(t, ops) && k < |t|
    requires n <= |ops| && (n < |ops| ==> ops[n].index == k)
    requires forall m :: 0 <= m < |ops| && m != n ==> ops[m].index != k
    ensures Get(t[k], BuildWord(t, 0, ops)) == if n == |ops| then 0 else And(ops[n].value, t[k].mask)
  {
    TilingTablesWellFormed();
    BuildDecodes(t, ops, k, n);
  }
}
