/** The record sizes the wire formats use are the sizes the C layout gives the structs. */
module WireSizes {
  import opened Bits
  import opened Layout
  import AsahiCmdbuf
  import FormatWindows
  import Records

  const U16 := Scalar(1)
  const U32 := Scalar(2)
  const U64 := Scalar(3)

  /** struct drm_asahi_cmd_header, struct drm_asahi_attachment, struct drm_format_modifier, the
      fixed part of struct drm_format_modifier_blob, and struct drm_event or
      struct qaic_manage_trans_hdr. */
  lemma WireSizesAreSizeof()
    ensures Size(Struct([U16, U16, U16, U16])) == AsahiCmdbuf.HEADER
    ensures Size(Struct([U64, U64, U32, U32])) == AsahiCmdbuf.ATTACHMENT
    ensures Size(Struct([U64, U32, U32, U64])) == FormatWindows.ENTRY
    ensures Size(Struct([U32, U32, U32, U32, U32, U32])) == FormatWindows.HEADER
    ensures Size(Struct([U32, U32])) == Records.HEADER
  {
    HomogeneousSize([U16, U16, U16, U16], 1);
    AttachmentSize();
    EntrySize();
    HomogeneousSize([U32, U32, U32, U32, U32, U32], 2);
    HomogeneousSize([U32, U32], 2);
    Pow2Small();
    hide Size, Pow2;
  }

  lemma {:induction false} ScalarLeaves(fields: seq<CType>, n: nat)
    requires n <= |fields| && forall i :: 0 <= i < |fields| ==> fields[i].Scalar?
    ensures |FieldLeaves(fields, n)| == n
    decreases n
  {
    if n > 0 {
      ScalarLeaves(fields, n - 1);
    }
  }

  lemma HomogeneousSize(fields: seq<CType>, log: nat)
    requires |fields| > 0 && forall i :: 0 <= i < |fields| ==> fields[i] == Scalar(log)
    ensures Size(Struct(fields)) == |fields| * Pow2(log)
  {
    ScalarLeaves(fields, |fields|);
    HomogeneousDense(Struct(fields), log);
    hide Size, Pow2;
  }

  lemma ScalarSize(log: nat)
    ensures Size(Scalar(log)) == Pow2(log) && AlignLog(Scalar(log)) == log
  {
  }

  lemma AlignedAlready(x: nat, log: nat)
    requires log <= 3 && x % [1, 2, 4, 8][log] == 0
    ensures AlignUp(x, log) == x
  {
    assert Pow2(log) == [1, 2, 4, 8][log] by {
      Pow2Small();
    }
    AlignUpFixes(x, log);
  }

  lemma AttachmentSize()
    ensures Size(Struct([U64, U64, U32, U32])) == 24
  {
    hide Size, Offset, End, AlignUp, AlignLog, Pow2;
    var fs := [U64, U64, U32, U32];
    Pow2Small();
    ScalarSize(2);
    ScalarSize(3);
    StructSize(fs);
    MaxAlign4(fs[0], fs[1], fs[2], fs[3]);
    FirstStep(fs);
    Step(fs, 1);
    Step(fs, 2);
    Step(fs, 3);
    AlignedAlready(8, 3);
    AlignedAlready(16, 2);
    AlignedAlready(20, 2);
    AlignedAlready(24, 3);
  }

  lemma EntrySize()
    ensures Size(Struct([U64, U32, U32, U64])) == 24
  {
    hide Size, Offset, End, AlignUp, AlignLog, Pow2;
    var fs := [U64, U32, U32, U64];
    Pow2Small();
    ScalarSize(2);
    ScalarSize(3);
    StructSize(fs);
    MaxAlign4(fs[0], fs[1], fs[2], fs[3]);
    FirstStep(fs);
    Step(fs, 1);
    Step(fs, 2);
    Step(fs, 3);
    AlignedAlready(8, 2);
    AlignedAlready(12, 2);
    AlignedAlready(16, 3);
    AlignedAlready(24, 3);
  }
}
