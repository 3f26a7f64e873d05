/** The register files, signal frames and signal records of the RISC-V headers, under the
    32-bit (ILP32) and the 64-bit (LP64) data model. */
module RiscvAbi {
  import opened Bits
  import opened Layout

  datatype Model = ILP32 | LP64

  /** log2 of sizeof(unsigned long), sizeof(size_t) and sizeof(void *) */
  function LongLog(m: Model): nat {
    if m.ILP32? then 2 else 3
  }

  const U8 := Scalar(0)
  const U16 := Scalar(1)
  const U32 := Scalar(2)
  const U64 := Scalar(3)

  function Long(m: Model): CType {
    Scalar(LongLog(m))
  }

  function Longs(m: Model, n: nat): (r: seq<CType>)
    ensures |r| == n && forall i :: 0 <= i < n ==> r[i] == Long(m)
  {
    seq(n, _ => Long(m))
  }

  // ---- register files numbered by offsetof / sizeof

  function UserRegs(m: Model): CType {
    Struct(Longs(m, 32))
  }

  function Config(m: Model): CType {
    Struct(Longs(m, 7))
  }

  function Core(m: Model): CType {
    Struct([UserRegs(m), Long(m)])
  }

  function Csr(m: Model): CType {
    Struct(Longs(m, 11))
  }

  function AiaCsr(m: Model): CType {
    Struct(Longs(m, 7))
  }

  function SmstateenCsr(m: Model): CType {
    Struct(Longs(m, 1))
  }

  function SbiSta(m: Model): CType {
    Struct(Longs(m, 2))
  }

  /** struct __riscv_v_ext_state: five CSRs and the data pointer */
  function VectorState(m: Model): CType {
    Struct(Longs(m, 6))
  }

  const Timer := Struct([U64, U64, U64, U64])
  const FState := Struct([Array(U32, 32), U32])
  const DState := Struct([Array(U64, 32), U32])

  /** The KVM register files: struct, log2 of the index unit (sizeof(unsigned long), __u64 or
      __u32) and how many registers the file holds. */
  datatype RegisterFile = RegisterFile(struct: CType, unit: nat, count: nat)

  function RegisterFiles(m: Model): seq<RegisterFile> {
    [RegisterFile(Config(m), LongLog(m), 7), RegisterFile(Core(m), LongLog(m), 33),
     RegisterFile(Csr(m), LongLog(m), 11), RegisterFile(AiaCsr(m), LongLog(m), 7),
     RegisterFile(SmstateenCsr(m), LongLog(m), 1), RegisterFile(SbiSta(m), LongLog(m), 2),
     RegisterFile(VectorState(m), LongLog(m), 6), RegisterFile(Timer, 3, 4), RegisterFile(FState, 2, 33)]
  }

  /** Under both data models every register file holds exactly `count` registers, and the macro
      numbers them 0 to count - 1 in declaration order: CORE_REG(mode) is 32, FP_F_REG(fcsr) is
      32, TIMER_REG(state) is 3. */
  lemma RegisterNumbers(m: Model, n: nat)
    requires n < |RegisterFiles(m)|
    ensures var f := RegisterFiles(m)[n];
            && |Leaves(f.struct)| == f.count == Size(f.struct) / Pow2(f.unit)
            && forall k :: 0 <= k < f.count ==> RegIndex(f.struct, f.unit, k) == k
  {
    FilesHomogeneous(m);
    FileCounts(m);
    hide RegisterFiles, RegIndex, Homogeneous, Leaves, Size, Pow2;
    var f := RegisterFiles(m)[n];
    RegIndexDense(f.struct, f.unit, 0);
    forall k | 0 <= k < f.count
      ensures RegIndex(f.struct, f.unit, k) == k
    {
      RegIndexDense(f.struct, f.unit, k);
    }
  }

  /** The registers that come after an array or a nested struct, by their macros: CORE_REG(mode),
      FP_F_REG(fcsr) and FP_D_REG(fcsr) are 32; the last of the registers before them is 31. */
  lemma NamedRegisters(m: Model)
    ensures MemberAt(Core(m), [1], 32 * Pow2(LongLog(m)), Pow2(LongLog(m)))
    ensures MemberAt(Core(m), [0, 31], 31 * Pow2(LongLog(m)), Pow2(LongLog(m)))
    ensures MemberAt(FState, [1], 32 * 4, 4) && MemberAt(DState, [1], 32 * 8, 4)
  {
    hide MemberAt, Size, Offset, AlignLog, Pow2;
    FOffsets();
    DOffsets();
    Pow2Small();
    FieldOf(FFields, 1);
    FieldOf(DFields, 1);
    LongsShape(m, 32);
    LastLong(m);
    ModeOffset(m);
    var core := [UserRegs(m), Long(m)];
    FieldOf(core, 1);
    FieldAt(core, 0, [31], 31 * Pow2(LongLog(m)), Pow2(LongLog(m)));
    assert [0] + [31] == [0, 31];
  }

  lemma FieldOf(fields: seq<CType>, i: nat)
    requires i < |fields|
    ensures MemberAt(Struct(fields), [i], Offset(fields, i), Size(fields[i]))
  {
    hide MemberAt, Offset, Size;
    WholeAt(fields[i]);
    FieldAt(fields, i, [], 0, Size(fields[i]));
    assert [i] + [] == [i];
  }

  lemma {:induction false} LongOffsets(m: Model, n: nat, i: nat)
    requires i < n
    ensures Offset(Longs(m, n), i) == i * Pow2(LongLog(m)) && Size(Long(m)) == Pow2(LongLog(m))
    decreases i
  {
    var fs, p := Longs(m, n), Pow2(LongLog(m));
    assert Size(Long(m)) == p && AlignLog(Long(m)) == LongLog(m);
    hide Size, Offset, End, AlignLog, AlignUp, Pow2, Longs;
    if i == 0 {
      FirstStep(fs);
    } else {
      LongOffsets(m, n, i - 1);
      Step(fs, i - 1);
      Step(fs, i);
      assert (i - 1) * p + p == i * p;
      ModZero(i * p, p, i);
      AlignUpFixes(i * p, LongLog(m));
    }
  }

  lemma LastLong(m: Model)
    ensures MemberAt(UserRegs(m), [31], 31 * Pow2(LongLog(m)), Pow2(LongLog(m)))
  {
    hide MemberAt, Offset, Size, Pow2;
    LongOffsets(m, 32, 31);
    FieldOf(Longs(m, 32), 31);
  }

  lemma ModeOffset(m: Model)
    ensures var core := [UserRegs(m), Long(m)];
            && Offset(core, 0) == 0 && Offset(core, 1) == 32 * Pow2(LongLog(m))
            && Size(core[0]) == 32 * Pow2(LongLog(m)) && Size(core[1]) == Pow2(LongLog(m))
  {
    hide Offset, Size, End, AlignUp, AlignLog, Pow2;
    LongsShape(m, 32);
    LongOffsets(m, 1, 0);
    Scalars(m);
    FirstStep([UserRegs(m), Long(m)]);
    Step([UserRegs(m), Long(m)], 1);
    ModZero(32 * Pow2(LongLog(m)), Pow2(LongLog(m)), 32);
    AlignUpFixes(32 * Pow2(LongLog(m)), LongLog(m));
  }

  lemma FileCounts(m: Model)
    ensures forall n :: 0 <= n < |RegisterFiles(m)| ==>
              |Leaves(RegisterFiles(m)[n].struct)| == RegisterFiles(m)[n].count > 0
  {
    hide Leaves, Longs, FieldLeaves;
    LongsCount(m, 7);
    LongsCount(m, 11);
    LongsCount(m, 1);
    LongsCount(m, 2);
    LongsCount(m, 6);
    CoreCount(m);
    TimerCount();
    FCount();
  }

  lemma LongsCount(m: Model, n: nat)
    ensures |Leaves(Struct(Longs(m, n)))| == n
  {
    LongsLeaves(m, Longs(m, n), n);
  }

  lemma LongsHomogeneous(m: Model, n: nat)
    requires n > 0
    ensures Homogeneous(Struct(Longs(m, n)), LongLog(m))
  {
  }

  /** A struct of n longs. */
  lemma LongsShape(m: Model, n: nat)
    requires n > 0
    ensures Shape(Struct(Longs(m, n)), n * Pow2(LongLog(m)), LongLog(m))
  {
    hide Leaves, Size, AlignLog, Homogeneous, Longs, Pow2;
    LongsHomogeneous(m, n);
    HomogeneousDense(Struct(Longs(m, n)), LongLog(m));
    LongsCount(m, n);
  }

  lemma TwoFieldLeaves(a: CType, b: CType)
    ensures |Leaves(Struct([a, b]))| == |Leaves(a)| + |Leaves(b)|
  {
    hide Offset;
    var fs := [a, b];
    assert FieldLeaves(fs, 0) == [];
    assert FieldLeaves(fs, 1) == FieldLeaves(fs, 0) + Shift(Leaves(a), Offset(fs, 0));
    assert FieldLeaves(fs, 2) == FieldLeaves(fs, 1) + Shift(Leaves(b), Offset(fs, 1));
  }

  lemma CoreCount(m: Model)
    ensures |Leaves(Core(m))| == 33
  {
    LongsCount(m, 32);
    TwoFieldLeaves(UserRegs(m), Long(m));
    assert |Leaves(Long(m))| == 1;
    hide Leaves;
  }

  lemma FCount()
    ensures |Leaves(FState)| == 33
  {
    TwoFieldLeaves(Array(U32, 32), U32);
    RepeatLength(Leaves(U32), Size(U32), 32);
    assert |Leaves(U32)| == 1;
    hide Size;
  }

  lemma TimerCount()
    ensures |Leaves(Timer)| == 4
  {
    hide Offset;
    var fs := [U64, U64, U64, U64];
    assert FieldLeaves(fs, 0) == [];
    assert FieldLeaves(fs, 1) == FieldLeaves(fs, 0) + Shift(Leaves(U64), Offset(fs, 0));
    assert FieldLeaves(fs, 2) == FieldLeaves(fs, 1) + Shift(Leaves(U64), Offset(fs, 1));
    assert FieldLeaves(fs, 3) == FieldLeaves(fs, 2) + Shift(Leaves(U64), Offset(fs, 2));
    assert FieldLeaves(fs, 4) == FieldLeaves(fs, 3) + Shift(Leaves(U64), Offset(fs, 3));
  }

  lemma FilesHomogeneous(m: Model)
    ensures forall n :: 0 <= n < |RegisterFiles(m)| ==> Homogeneous(RegisterFiles(m)[n].struct, RegisterFiles(m)[n].unit)
  {
    assert Homogeneous(UserRegs(m), LongLog(m));
    assert Homogeneous(Core(m), LongLog(m));
  }

  lemma {:induction false} LongsLeaves(m: Model, fields: seq<CType>, n: nat)
    requires n <= |fields| && forall i :: 0 <= i < |fields| ==> fields[i] == Long(m)
    ensures |FieldLeaves(fields, n)| == n
    decreases n
  {
    if n > 0 {
      LongsLeaves(m, fields, n - 1);
    }
  }

  /** KVM_REG_RISCV_VECTOR_REG(n) */
  function VectorReg(m: Model, n: nat): nat {
    n + Quotient(Size(VectorState(m)), Pow2(LongLog(m)))
  }

  /** No vector register has the number of a vector CSR, for any n and either data model. */
  lemma VectorRegsApart(m: Model, n: nat, k: nat)
    requires k < |Leaves(VectorState(m))|
    ensures VectorReg(m, n) == 6 + n
    ensures VectorReg(m, n) != RegIndex(VectorState(m), LongLog(m), k)
  {
    assert |Leaves(VectorState(m))| == 6 by {
      LongsLeaves(m, Longs(m, 6), 6);
    }
    assert Homogeneous(VectorState(m), LongLog(m));
    hide Leaves, Size, Homogeneous, VectorState, RegIndex, Pow2;
    RegIndexDense(VectorState(m), LongLog(m), k);
  }

  /** The D file is not homogeneous, yet its numbering is dense too: f[0] to f[31] are 0 to 31
      and fcsr is 32. */
  lemma DStateNumbers(k: nat)
    requires k < 33
    ensures |Leaves(DState)| == 33 && RegIndex(DState, 3, k) == k
  {
    var fs := [Array(U64, 32), U32];
    var regs := Array(U64, 32);
    assert Homogeneous(regs, 3);
    HomogeneousDense(regs, 3);
    DLeaves();
    Pow2Small();
    hide Pow2, Leaves, Size;
    assert Leaves(DState)[k].offset == 8 * k;
    DivUnique(8 * k, 8, k, 0);
  }

  lemma DLeaves()
    ensures |Leaves(Array(U64, 32))| == 32
    ensures Leaves(DState) == Leaves(Array(U64, 32)) + [Leaf(256, 2)]
  {
    var fs := [Array(U64, 32), U32];
    RepeatLength(Leaves(U64), 8, 32);
    DOffsets();
    assert FieldLeaves(fs, 0) == [];
    assert FieldLeaves(fs, 1) == FieldLeaves(fs, 0) + Shift(Leaves(fs[0]), Offset(fs, 0));
    assert Shift(Leaves(fs[0]), 0) == Leaves(fs[0]);
    assert FieldLeaves(fs, 2) == FieldLeaves(fs, 1) + Shift(Leaves(fs[1]), Offset(fs, 1));
    assert Leaves(fs[1]) == [Leaf(0, 2)];
  }

  lemma {:induction false} RepeatLength(ls: seq<Leaf>, stride: nat, count: nat)
    ensures |Repeat(ls, stride, count)| == count * |ls|
    decreases count
  {
    if count > 0 {
      RepeatLength(ls, stride, count - 1);
      assert (count - 1) * |ls| + |ls| == count * |ls|;
    }
  }

  // ---- the overlaid floating-point and extension-header views of the signal context

  const FFields := [Array(U32, 32), U32]
  const DFields := [Array(U64, 32), U32]
  const QFields := [AlignedTo(Array(U64, 64), 4), U32, Array(U32, 3)]
  const CtxHdr := Struct([U32, U32])
  const ExtFields := [AlignedTo(Array(U32, 129), 4), U32, CtxHdr]

  const FpState := Union([Struct(FFields), Struct(DFields), Struct(QFields)])
  const FpOrExt := Union([FpState, Struct(ExtFields)])

  function SigContext(m: Model): CType {
    Struct([UserRegs(m), FpOrExt])
  }

  /** Byte b of the object belongs to field i. */
  predicate Covers(fields: seq<CType>, i: nat, b: nat)
    requires i < |fields|
  {
    Offset(fields, i) <= b < Offset(fields, i) + Size(fields[i])
  }

  /** AlignUp on the constants of these structs. */
  lemma AlignUpConst(x: nat, log: nat)
    requires log <= 4 && x % [1, 2, 4, 8, 16][log] == 0
    ensures AlignUp(x, log) == x
  {
    assert Pow2(log) == [1, 2, 4, 8, 16][log] by {
      Pow2Small();
    }
    AlignUpFixes(x, log);
  }

  /** AlignUp rounds x up to y when y is the next multiple. */
  lemma AlignUpPast(x: nat, log: nat, y: nat)
    requires log <= 5 && y % [1, 2, 4, 8, 16, 32][log] == 0 && x <= y < x + [1, 2, 4, 8, 16, 32][log]
    ensures AlignUp(x, log) == y
  {
    hide AlignUp;
    assert Pow2(log) == [1, 2, 4, 8, 16, 32][log] by {
      Pow2Small();
    }
    AlignUpMeans(x, log);
    AlignUpLeast(x, log, y);
  }

  lemma ArraySize(log: nat, n: nat)
    ensures Size(Array(Scalar(log), n)) == n * Pow2(log) && AlignLog(Array(Scalar(log), n)) == log
    ensures Size(Scalar(log)) == Pow2(log) && AlignLog(Scalar(log)) == log
  {
  }

  lemma AlignedSize(t: CType, a: nat)
    ensures Size(AlignedTo(t, a)) == Size(t) && AlignLog(AlignedTo(t, a)) == Max(AlignLog(t), a)
  {
  }

  lemma FOffsets()
    ensures Offset(FFields, 0) == 0 && Size(FFields[0]) == 128
    ensures Offset(FFields, 1) == 128 && Size(FFields[1]) == 4
  {
    hide Size, Offset, End, AlignUp, AlignLog, Pow2;
    Pow2Small();
    ArraySize(2, 32);
    FirstStep(FFields);
    Step(FFields, 1);
    AlignUpConst(128, 2);
  }

  lemma DOffsets()
    ensures Offset(DFields, 0) == 0 && Size(DFields[0]) == 256
    ensures Offset(DFields, 1) == 256 && Size(DFields[1]) == 4
  {
    hide Size, Offset, End, AlignUp, AlignLog, Pow2;
    Pow2Small();
    ArraySize(3, 32);
    ArraySize(2, 0);
    FirstStep(DFields);
    Step(DFields, 1);
    AlignUpConst(256, 2);
  }

  lemma QOffsets()
    ensures Offset(QFields, 0) == 0 && Size(QFields[0]) == 512
    ensures Offset(QFields, 1) == 512 && Size(QFields[1]) == 4
    ensures Offset(QFields, 2) == 516 && Size(QFields[2]) == 12
  {
    hide Size, Offset, End, AlignUp, AlignLog, Pow2;
    Pow2Small();
    ArraySize(3, 64);
    ArraySize(2, 3);
    AlignedSize(Array(U64, 64), 4);
    FirstStep(QFields);
    Step(QFields, 1);
    Step(QFields, 2);
    AlignUpConst(512, 2);
    AlignUpConst(516, 2);
  }

  lemma HdrSize()
    ensures Size(CtxHdr) == 8 && AlignLog(CtxHdr) == 2
  {
    hide Size, AlignLog, AlignUp, Pow2;
    Pow2Small();
    SmallAlignments();
    ArraySize(2, 0);
    Struct2(U32, U32);
  }

  lemma ExtOffsets()
    ensures Offset(ExtFields, 0) == 0 && Size(ExtFields[0]) == 516
    ensures Offset(ExtFields, 1) == 516 && Size(ExtFields[1]) == 4
    ensures Offset(ExtFields, 2) == 520 && Size(ExtFields[2]) == 8
  {
    hide Size, Offset, End, AlignUp, AlignLog, Pow2;
    Pow2Small();
    HdrSize();
    ArraySize(2, 129);
    AlignedSize(Array(U32, 129), 4);
    FirstStep(ExtFields);
    Step(ExtFields, 1);
    Step(ExtFields, 2);
    AlignUpConst(516, 2);
    AlignUpConst(520, 2);
  }

  /** `reserved` and `hdr` of the extension header occupy exactly the reserved words of the Q
      state, and no byte of an F, D or Q register or of an fcsr.  All views start at the same
      byte of the union, so the byte numbers are comparable. */
  lemma OverlayExact(b: nat)
    ensures Covers(ExtFields, 1, b) || Covers(ExtFields, 2, b) <==> Covers(QFields, 2, b)
    ensures Covers(ExtFields, 1, b) || Covers(ExtFields, 2, b) ==>
              && !Covers(QFields, 0, b) && !Covers(QFields, 1, b)
              && !Covers(DFields, 0, b) && !Covers(DFields, 1, b)
              && !Covers(FFields, 0, b) && !Covers(FFields, 1, b)
  {
    FOffsets();
    DOffsets();
    QOffsets();
    ExtOffsets();
    hide Offset, Size;
  }

  // ---- the same views inside the signal context

  /** Where the union of floating-point state and extension header starts: after sc_regs. */
  function ContextRegs(m: Model): nat {
    if m.ILP32? then 128 else 256
  }

  lemma UserRegsShape(m: Model)
    ensures Shape(UserRegs(m), ContextRegs(m), LongLog(m))
  {
    hide Leaves, Size, AlignLog;
    LongsShape(m, 32);
    Pow2Small();
  }

  lemma FDShapes()
    ensures Shape(Struct(FFields), 132, 2) && Shape(Struct(DFields), 264, 3)
  {
    hide Size, AlignLog, AlignUp, Pow2;
    Pow2Small();
    SmallAlignments();
    ArraySize(2, 32);
    ArraySize(3, 32);
    Struct2(Array(U32, 32), U32);
    Struct2(Array(U64, 32), U32);
  }

  lemma QExtShapes()
    ensures Shape(Struct(QFields), 528, 4) && Shape(Struct(ExtFields), 528, 4)
  {
    hide Size, AlignLog, AlignUp, Pow2;
    Pow2Small();
    SmallAlignments();
    ArraySize(2, 3);
    ArraySize(2, 129);
    ArraySize(3, 64);
    AlignedSize(Array(U64, 64), 4);
    AlignedSize(Array(U32, 129), 4);
    HdrSize();
    AlignUpConst(528, 4);
    Struct3(AlignedTo(Array(U64, 64), 4), U32, Array(U32, 3));
    Struct3(AlignedTo(Array(U32, 129), 4), U32, CtxHdr);
  }

  lemma FpShapes()
    ensures Shape(FpState, 528, 4) && Shape(FpOrExt, 528, 4)
  {
    hide Size, AlignLog, AlignUp, Pow2;
    FDShapes();
    QExtShapes();
    AlignUpConst(528, 4);
    UnionShape([Struct(FFields), Struct(DFields), Struct(QFields)], 528, 4, 2, 2);
    UnionShape([FpState, Struct(ExtFields)], 528, 4, 0, 0);
  }

  lemma ContextOffsets(m: Model)
    ensures var fs := [UserRegs(m), FpOrExt];
            && Offset(fs, 0) == 0 && Offset(fs, 1) == ContextRegs(m)
            && Shape(SigContext(m), ContextRegs(m) + 528, 4)
  {
    hide Size, AlignLog, AlignUp, Offset, End, Pow2;
    UserRegsShape(m);
    FpShapes();
    FirstStep([UserRegs(m), FpOrExt]);
    Step([UserRegs(m), FpOrExt], 1);
    Struct2(UserRegs(m), FpOrExt);
    AlignUpConst(128, 4);
    AlignUpConst(256, 4);
    AlignUpConst(656, 4);
    AlignUpConst(784, 4);
  }

  /** A member of the union, seen from the signal context. */
  lemma InContext(m: Model, path: seq<nat>, offset: nat, size: nat)
    requires MemberAt(FpOrExt, path, offset, size)
    ensures MemberAt(SigContext(m), [1] + path, ContextRegs(m) + offset, size)
  {
    hide MemberAt, Offset, Size;
    ContextOffsets(m);
    FieldAt([UserRegs(m), FpOrExt], 1, path, offset, size);
  }

  /** Field i of view v of the floating-point state. */
  lemma FpField(m: Model, v: nat, i: nat)
    requires v < 3 && i < |[FFields, DFields, QFields][v]|
    ensures var fs := [FFields, DFields, QFields][v];
            MemberAt(SigContext(m), [1, 0, v, i], ContextRegs(m) + Offset(fs, i), Size(fs[i]))
  {
    hide MemberAt, Offset, Size;
    var fs := [FFields, DFields, QFields][v];
    var members := [Struct(FFields), Struct(DFields), Struct(QFields)];
    WholeAt(fs[i]);
    FieldAt(fs, i, [], 0, Size(fs[i]));
    UnionMemberAt(members, v, [i] + [], Offset(fs, i), Size(fs[i]));
    UnionMemberAt([FpState, Struct(ExtFields)], 0, [v] + ([i] + []), Offset(fs, i), Size(fs[i]));
    InContext(m, [0] + ([v] + ([i] + [])), Offset(fs, i), Size(fs[i]));
    assert [1] + ([0] + ([v] + ([i] + []))) == [1, 0, v, i];
  }

  lemma ExtField(m: Model, i: nat)
    requires i < 3
    ensures MemberAt(SigContext(m), [1, 1, i], ContextRegs(m) + Offset(ExtFields, i), Size(ExtFields[i]))
  {
    hide MemberAt, Offset, Size;
    WholeAt(ExtFields[i]);
    FieldAt(ExtFields, i, [], 0, Size(ExtFields[i]));
    UnionMemberAt([FpState, Struct(ExtFields)], 1, [i] + [], Offset(ExtFields, i), Size(ExtFields[i]));
    InContext(m, [1] + ([i] + []), Offset(ExtFields, i), Size(ExtFields[i]));
    assert [1] + ([1] + ([i] + [])) == [1, 1, i];
  }

  /** Byte b of the signal context belongs to the member. */
  predicate ByteOf(m: Model, path: seq<nat>, b: nat) {
    && Designates(SigContext(m), path)
    && OffsetAt(SigContext(m), path) <= b < OffsetAt(SigContext(m), path) + Size(TypeAt(SigContext(m), path))
  }

  lemma ByteOfMember(m: Model, path: seq<nat>, offset: nat, size: nat, b: nat)
    requires MemberAt(SigContext(m), path, offset, size)
    ensures ByteOf(m, path, b) <==> offset <= b < offset + size
  {
    hide SigContext, Size, OffsetAt, TypeAt;
  }

  /** Where the members of struct sigcontext are: sc_regs, then at one and the same byte the
      floating-point state, its F, D and Q views, and the extension header. */
  lemma SigContextLayout(m: Model)
    ensures Size(SigContext(m)) == if m.ILP32? then 656 else 784
    ensures MemberAt(SigContext(m), [0], 0, ContextRegs(m))
    ensures MemberAt(SigContext(m), [1, 0], ContextRegs(m), 528) && MemberAt(SigContext(m), [1, 1], ContextRegs(m), 528)
    ensures MemberAt(SigContext(m), [1, 0, 0], ContextRegs(m), 132)
    ensures MemberAt(SigContext(m), [1, 0, 1], ContextRegs(m), 264)
    ensures MemberAt(SigContext(m), [1, 0, 2], ContextRegs(m), 528)
  {
    hide MemberAt, Offset, Size, AlignLog;
    ContextOffsets(m);
    UserRegsShape(m);
    FpShapes();
    FDShapes();
    QExtShapes();
    WholeAt(UserRegs(m));
    FieldAt([UserRegs(m), FpOrExt], 0, [], 0, ContextRegs(m));
    assert [0] + [] == [0];
    UnionMembers(m, 0, FpState);
    UnionMembers(m, 1, Struct(ExtFields));
    FpViews(m, 0);
    FpViews(m, 1);
    FpViews(m, 2);
  }

  lemma UnionMembers(m: Model, v: nat, t: CType)
    requires v < 2 && t == [FpState, Struct(ExtFields)][v]
    ensures MemberAt(SigContext(m), [1, v], ContextRegs(m), Size(t))
  {
    hide MemberAt, Offset, Size;
    WholeAt(t);
    UnionMemberAt([FpState, Struct(ExtFields)], v, [], 0, Size(t));
    InContext(m, [v] + [], 0, Size(t));
    assert [1] + ([v] + []) == [1, v];
  }

  lemma FpViews(m: Model, v: nat)
    requires v < 3
    ensures MemberAt(SigContext(m), [1, 0, v], ContextRegs(m), Size([Struct(FFields), Struct(DFields), Struct(QFields)][v]))
  {
    hide MemberAt, Offset, Size;
    var members := [Struct(FFields), Struct(DFields), Struct(QFields)];
    WholeAt(members[v]);
    UnionMemberAt(members, v, [], 0, Size(members[v]));
    UnionMemberAt([FpState, Struct(ExtFields)], 0, [v] + [], 0, Size(members[v]));
    InContext(m, [0] + ([v] + []), 0, Size(members[v]));
    assert [1] + ([0] + ([v] + [])) == [1, 0, v];
  }

  /** Inside struct sigcontext, byte by byte: reserved and hdr of sc_extdesc are exactly the
      reserved words of sc_fpregs.q, and no byte of an F, D or Q register, of an fcsr or of
      sc_regs. */
  lemma SigContextOverlay(m: Model, b: nat)
    ensures ByteOf(m, [1, 1, 1], b) || ByteOf(m, [1, 1, 2], b) <==> ByteOf(m, [1, 0, 2, 2], b)
    ensures ByteOf(m, [1, 1, 1], b) || ByteOf(m, [1, 1, 2], b) ==>
              && !ByteOf(m, [0], b)
              && forall v, i :: 0 <= v < 3 && 0 <= i < 2 ==> !ByteOf(m, [1, 0, v, i], b)
  {
    hide ByteOf, MemberAt, Offset, Size, SigContext;
    SigContextLayout(m);
    ByteOfMember(m, [0], 0, ContextRegs(m), b);
    ExtField(m, 1);
    ExtField(m, 2);
    ByteOfMember(m, [1, 1, 1], ContextRegs(m) + Offset(ExtFields, 1), Size(ExtFields[1]), b);
    ByteOfMember(m, [1, 1, 2], ContextRegs(m) + Offset(ExtFields, 2), Size(ExtFields[2]), b);
    FpField(m, 2, 2);
    ByteOfMember(m, [1, 0, 2, 2], ContextRegs(m) + Offset(QFields, 2), Size(QFields[2]), b);
    FOffsets();
    DOffsets();
    QOffsets();
    ExtOffsets();
    forall v, i | 0 <= v < 3 && 0 <= i < 2
      ensures ByteOf(m, [1, 0, v, i], b) ==>
                b < ContextRegs(m) + Offset([FFields, DFields, QFields][v], i) + Size([FFields, DFields, QFields][v][i])
    {
      var fs := [FFields, DFields, QFields][v];
      FpField(m, v, i);
      ByteOfMember(m, [1, 0, v, i], ContextRegs(m) + Offset(fs, i), Size(fs[i]), b);
    }
  }

  /** The layout theorem applies to the signal context and to the register files: every scalar is
      aligned and inside, and those without a union have disjoint scalars in declaration order. */
  lemma HeaderTypesSound(m: Model)
    ensures Placed(Leaves(SigContext(m)), 4, 0, if m.ILP32? then 656 else 784)
    ensures Ordered(Leaves(Core(m))) && Ordered(Leaves(DState)) && Ordered(Leaves(Struct(QFields)))
    ensures Ordered(Leaves(Struct(ExtFields)))
  {
    PlainTypes(m);
    hide Leaves, Size, AlignLog, PlainArrays, UnionFree, WellFormed, Placed, Ordered, SigContext;
    ContextOffsets(m);
    PlainSound(SigContext(m));
    PlainSound(Core(m));
    PlainSound(DState);
    PlainSound(Struct(QFields));
    PlainSound(Struct(ExtFields));
  }

  lemma PlainSound(t: CType)
    requires PlainArrays(t)
    ensures Placed(Leaves(t), AlignLog(t), 0, Size(t)) && (UnionFree(t) ==> Ordered(Leaves(t)))
  {
    hide *;
    PlainWellFormed(t);
    LayoutSound(t);
  }

  lemma PlainTypes(m: Model)
    ensures PlainArrays(SigContext(m))
    ensures PlainArrays(Core(m)) && UnionFree(Core(m)) && PlainArrays(DState) && UnionFree(DState)
    ensures PlainArrays(Struct(QFields)) && UnionFree(Struct(QFields))
    ensures PlainArrays(Struct(ExtFields)) && UnionFree(Struct(ExtFields))
  {
    hide Longs;
    assert PlainArrays(UserRegs(m)) && UnionFree(UserRegs(m));
    assert PlainArrays(CtxHdr) && UnionFree(CtxHdr);
    assert PlainArrays(Struct(QFields)) && PlainArrays(Struct(ExtFields));
    assert PlainArrays(Struct(FFields)) && PlainArrays(Struct(DFields));
    assert PlainArrays(FpState) && PlainArrays(FpOrExt);
  }

  // ---- ucontext

  function StackT(m: Model): CType {
    Struct([Long(m), U32, Long(m)])
  }

  /** struct ucontext for a given sigset_t */
  function UContext(m: Model, sigset: CType): seq<CType>
    requires Size(sigset) <= 128
  {
    [Long(m), Long(m), StackT(m), sigset, Array(U8, 128 - Size(sigset)), SigContext(m)]
  }

  /** Where uc_sigmask may start: after uc_flags, uc_link and uc_stack. */
  function Preamble(m: Model): nat {
    if m.ILP32? then 20 else 40
  }

  lemma StackSize(m: Model)
    ensures Size(StackT(m)) == (if m.ILP32? then 12 else 24) && AlignLog(StackT(m)) == LongLog(m)
  {
    hide Size, AlignLog, AlignUp, Pow2;
    Pow2Small();
    SmallAlignments();
    ArraySize(2, 0);
    ArraySize(3, 0);
    Struct3(Long(m), U32, Long(m));
  }

  lemma PreambleEnd(m: Model, sigset: CType)
    requires Size(sigset) <= 128
    ensures End(UContext(m, sigset), 3) == Preamble(m)
  {
    hide Size, Offset, End, AlignUp, AlignLog, Pow2, SigContext, StackT;
    var fs := UContext(m, sigset);
    Pow2Small();
    ArraySize(2, 0);
    ArraySize(3, 0);
    StackSize(m);
    FirstStep(fs);
    Step(fs, 1);
    Step(fs, 2);
    AlignUpConst(4, 2);
    AlignUpConst(8, 2);
    AlignUpConst(8, 3);
    AlignUpConst(16, 3);
  }

  lemma SigContextAlign(m: Model)
    ensures AlignLog(SigContext(m)) == 4
  {
    hide Size, Offset, End, AlignUp, MaxAlignLog, Leaves, Pow2;
    HdrSize();
    MaxAlign3(Struct(FFields), Struct(DFields), Struct(QFields));
    MaxAlign2(FFields[0], FFields[1]);
    MaxAlign2(DFields[0], DFields[1]);
    MaxAlign3(QFields[0], QFields[1], QFields[2]);
    MaxAlign3(ExtFields[0], ExtFields[1], ExtFields[2]);
    MaxAlign2(FpState, Struct(ExtFields));
    MaxAlign2(UserRegs(m), FpOrExt);
    assert Homogeneous(UserRegs(m), LongLog(m));
    HomogeneousDense(UserRegs(m), LongLog(m));
  }

  /** The offset of uc_mcontext depends on the alignment of sigset_t and not on its size. */
  lemma McontextOffset(m: Model, sigset: CType)
    requires Size(sigset) <= 128
    ensures Offset(UContext(m, sigset), 5) == AlignUp(AlignUp(Preamble(m), AlignLog(sigset)) + 128, 4)
  {
    hide Size, Offset, End, AlignUp, AlignLog, Pow2, SigContext, StackT;
    var fs := UContext(m, sigset);
    PreambleEnd(m, sigset);
    SigContextAlign(m);
    Pow2Small();
    ArraySize(0, 128 - Size(sigset));
    Step(fs, 3);
    Step(fs, 4);
    Step(fs, 5);
    OneByteAlign(End(fs, 4));
  }

  lemma OneByteAlign(x: nat)
    ensures AlignUp(x, 0) == x
  {
    assert Pow2(0) == 1;
  }

  /** Growing sigset_t up to 1024 bits never moves uc_mcontext. */
  lemma SigsetMayGrow(m: Model, sigset: CType, grown: CType)
    requires Size(sigset) <= 128 && Size(grown) <= 128 && AlignLog(sigset) == AlignLog(grown)
    ensures Offset(UContext(m, sigset), 5) == Offset(UContext(m, grown), 5)
  {
    hide Size, Offset, AlignUp, AlignLog, UContext;
    McontextOffset(m, sigset);
    McontextOffset(m, grown);
  }

  /** The same alignment is needed: a sigset_t of more alignment does move it. */
  lemma SigsetAlignmentMatters()
    ensures Size(Long(LP64)) <= 128 && Offset(UContext(LP64, Long(LP64)), 5) == 176
    ensures Size(AlignedTo(Long(LP64), 5)) <= 128 && Offset(UContext(LP64, AlignedTo(Long(LP64), 5)), 5) == 192
    ensures Size(Array(Long(ILP32), 2)) <= 128 && Offset(UContext(ILP32, Array(Long(ILP32), 2)), 5) == 160
  {
    hide Offset, AlignUp, UContext, Pow2, Size, AlignLog;
    Pow2Small();
    ArraySize(2, 2);
    ArraySize(3, 0);
    AlignedSize(Long(LP64), 5);
    McontextOffset(LP64, Long(LP64));
    McontextOffset(LP64, AlignedTo(Long(LP64), 5));
    McontextOffset(ILP32, Array(Long(ILP32), 2));
    AlignUpConst(40, 3);
    AlignUpPast(168, 4, 176);
    AlignUpPast(40, 5, 64);
    AlignUpConst(192, 4);
    AlignUpConst(20, 2);
    AlignUpPast(148, 4, 160);
  }

  // ---- siginfo_t and sigevent_t

  /** typedef struct siginfo: a record and int _si_pad[SI_MAX_SIZE / sizeof(int)] in a union */
  function SigInfo(record: CType): CType {
    Union([record, Array(U32, 32)])
  }

  /** The padding pins siginfo_t at 128 bytes exactly as long as the record fits in 128, for any
      record of at most 128-byte alignment. */
  lemma SigInfoPinned(record: CType)
    requires AlignLog(record) <= 7
    ensures Size(SigInfo(record)) == 128 <==> Size(record) <= 128
  {
    var ms := [record, Array(U32, 32)];
    var a := MaxAlignLog(ms);
    Pow2Small();
    ArraySize(2, 32);
    MaxAlign2(record, Array(U32, 32));
    MaxSize2(record, Array(U32, 32));
    AlignUpMeans(MaxSize(ms), a);
    assert 128 % Pow2(7) == 0;
    ModWeaken(128, a, 7);
    AlignUpFixes(128, a);
    hide AlignUp, Pow2, MaxSize, MaxAlignLog;
  }

  /** sizeof(sigval_t): a union of an int and a pointer */
  function SigVal(m: Model): CType {
    Union([U32, Long(m)])
  }

  lemma SigValSize(m: Model)
    ensures Size(SigVal(m)) == Pow2(LongLog(m)) && AlignLog(SigVal(m)) == LongLog(m)
    ensures Size(SigVal(m)) == if m.ILP32? then 4 else 8
  {
    Pow2Small();
    MaxAlign2(U32, Long(m));
    MaxSize2(U32, Long(m));
    AlignUpConst(4, 2);
    AlignUpConst(8, 3);
    hide AlignUp, MaxSize, MaxAlignLog, Pow2;
  }

  /** union __sifields, with the default clock and band types (long) */
  const Kill := Struct([U32, U32])

  function PosixTimer(m: Model): CType {
    Struct([U32, U32, SigVal(m), U32])
  }

  function Rt(m: Model): CType {
    Struct([U32, U32, SigVal(m)])
  }

  function SigChld(m: Model): CType {
    Struct([U32, U32, U32, Long(m), Long(m)])
  }

  /** The dummies before the bounds and the key have the alignment of a pointer as their length. */
  function AddrPad(m: Model): CType {
    Array(U8, Pow2(LongLog(m)))
  }

  function AddrBnd(m: Model): CType {
    Struct([AddrPad(m), Long(m), Long(m)])
  }

  function AddrPkey(m: Model): CType {
    Struct([AddrPad(m), U32])
  }

  function Perf(m: Model): CType {
    Struct([Long(m), U32, U32])
  }

  function FaultInfo(m: Model): CType {
    Union([U32, U16, AddrBnd(m), AddrPkey(m), Perf(m)])
  }

  function SigFault(m: Model): CType {
    Struct([Long(m), FaultInfo(m)])
  }

  function SigPoll(m: Model): CType {
    Struct([Long(m), U32])
  }

  function SigSys(m: Model): CType {
    Struct([Long(m), U32, U32])
  }

  function SiFields(m: Model): CType {
    Union([Kill, PosixTimer(m), Rt(m), SigChld(m), SigFault(m), SigPoll(m), SigSys(m)])
  }

  /** __SIGINFO, in either order of si_errno and si_code */
  function SigRecord(m: Model): CType {
    Struct([U32, U32, U32, SiFields(m)])
  }

  lemma Scalars(m: Model)
    ensures Shape(U8, 1, 0) && Shape(U16, 2, 1) && Shape(U32, 4, 2)
    ensures if m.ILP32? then Shape(Long(m), 4, 2) && Shape(AddrPad(m), 4, 0)
            else Shape(Long(m), 8, 3) && Shape(AddrPad(m), 8, 0)
  {
    Pow2Small();
  }

  lemma PosixShapes(m: Model)
    ensures Shape(Kill, 8, 2)
    ensures if m.ILP32? then Shape(PosixTimer(m), 16, 2) && Shape(Rt(m), 12, 2)
            else Shape(PosixTimer(m), 24, 3) && Shape(Rt(m), 16, 3)
  {
    hide Size, AlignLog, AlignUp, SigVal, Long, AddrPad, Pow2;
    Scalars(m);
    SigValSize(m);
    SmallAlignments();
    Struct2(U32, U32);
    Struct4(U32, U32, SigVal(m), U32);
    Struct3(U32, U32, SigVal(m));
  }

  lemma SmallShapes(m: Model)
    ensures if m.ILP32? then Shape(SigPoll(m), 8, 2) && Shape(SigSys(m), 12, 2) && Shape(SigChld(m), 20, 2)
            else Shape(SigPoll(m), 16, 3) && Shape(SigSys(m), 16, 3) && Shape(SigChld(m), 32, 3)
  {
    hide Size, AlignLog, AlignUp, Long, AddrPad, Pow2;
    Scalars(m);
    SmallAlignments();
    Struct2(Long(m), U32);
    Struct3(Long(m), U32, U32);
    Struct5(U32, U32, U32, Long(m), Long(m));
  }

  lemma FaultParts(m: Model)
    ensures if m.ILP32? then Shape(AddrBnd(m), 12, 2) && Shape(AddrPkey(m), 8, 2) && Shape(Perf(m), 12, 2)
            else Shape(AddrBnd(m), 24, 3) && Shape(AddrPkey(m), 12, 2) && Shape(Perf(m), 16, 3)
  {
    hide Size, AlignLog, AlignUp, Long, AddrPad;
    Scalars(m);
    SmallAlignments();
    Struct3(AddrPad(m), Long(m), Long(m));
    Struct2(AddrPad(m), U32);
    Struct3(Long(m), U32, U32);
  }

  lemma SigFaultShape(m: Model)
    ensures if m.ILP32? then Shape(SigFault(m), 16, 2) else Shape(SigFault(m), 32, 3)
  {
    hide Size, AlignLog, AlignUp, Long, AddrBnd, AddrPkey, Perf;
    Scalars(m);
    FaultParts(m);
    SmallAlignments();
    UnionShape([U32, U16, AddrBnd(m), AddrPkey(m), Perf(m)], if m.ILP32? then 12 else 24, LongLog(m), 2, 2);
    Struct2(Long(m), FaultInfo(m));
  }

  lemma SigRecordShape(m: Model)
    ensures if m.ILP32? then Shape(SigRecord(m), 32, 2) else Shape(SigRecord(m), 48, 3)
  {
    hide Size, AlignLog, AlignUp, PosixTimer, Rt, SigChld, SigFault, SigPoll, SigSys;
    Scalars(m);
    PosixShapes(m);
    SmallShapes(m);
    SigFaultShape(m);
    SmallAlignments();
    UnionShape([Kill, PosixTimer(m), Rt(m), SigChld(m), SigFault(m), SigPoll(m), SigSys(m)],
               if m.ILP32? then 20 else 32, LongLog(m), 3, 3);
    Struct4(U32, U32, U32, SiFields(m));
  }

  /** siginfo_t is 128 bytes under both data models, and on 32 bits it is 32-bit aligned. */
  lemma SigInfoSize(m: Model)
    ensures Size(SigInfo(SigRecord(m))) == 128
    ensures AlignLog(SigInfo(SigRecord(m))) == LongLog(m)
  {
    hide Size, SigRecord;
    SigRecordShape(m);
    SigInfoPinned(SigRecord(m));
    MaxAlign2(SigRecord(m), Array(U32, 32));
    ArraySize(2, 32);
  }

  /** SIGEV_PAD_SIZE = (SIGEV_MAX_SIZE - (sizeof(int) * 2 + sizeof(sigval_t))) / sizeof(int) */
  function SigevPad(m: Model): nat {
    SigValSize(m);
    (64 - (4 * 2 + Size(SigVal(m)))) / 4
  }

  /** typedef struct sigevent, its union holding the padding, a thread id and two pointers */
  function SigEvent(m: Model): seq<CType> {
    [SigVal(m), U32, U32, Union([Array(U32, SigevPad(m)), U32, Struct(Longs(m, 2))])]
  }

  /** SIGEV_PAD_SIZE makes sigevent_t 64 bytes under both data models. */
  lemma SigEventSize(m: Model)
    ensures Size(Struct(SigEvent(m))) == 64
  {
    hide Size, Offset, End, AlignUp, AlignLog, Pow2;
    var fs := SigEvent(m);
    SigValSize(m);
    Pow2Small();
    ArraySize(2, 0);
    SigEventUnion(m, SigevPad(m));
    StructSize(fs);
    MaxAlign4(fs[0], fs[1], fs[2], fs[3]);
    FirstStep(fs);
    Step(fs, 1);
    Step(fs, 2);
    Step(fs, 3);
    AlignUpConst(4, 2);
    AlignUpConst(8, 2);
    AlignUpConst(12, 2);
    AlignUpConst(16, 3);
    AlignUpConst(64, 2);
    AlignUpConst(64, 3);
  }

  lemma TwoLongs(m: Model)
    ensures Shape(Struct(Longs(m, 2)), if m.ILP32? then 8 else 16, LongLog(m))
  {
    hide Leaves, Size, AlignLog;
    LongsShape(m, 2);
    Pow2Small();
  }

  lemma SigEventUnion(m: Model, pad: nat)
    requires pad == if m.ILP32? then 13 else 12
    ensures Size(Union([Array(U32, pad), U32, Struct(Longs(m, 2))])) == 4 * pad
    ensures AlignLog(Union([Array(U32, pad), U32, Struct(Longs(m, 2))])) == LongLog(m)
  {
    hide Size, AlignLog, AlignUp, Longs, Pow2;
    TwoLongs(m);
    Pow2Small();
    ArraySize(2, pad);
    SmallAlignments();
    UnionShape([Array(U32, pad), U32, Struct(Longs(m, 2))], 4 * pad, LongLog(m), 0, 2);
  }
}
