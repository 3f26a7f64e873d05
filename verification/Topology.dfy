/** The availability masks of drm_i915_query_topology_info: three regions of one byte blob,
    read by the three formulas of the header. */
module Topology {
  import opened Bits
  import opened BitStore

  datatype Info = Info(maxSlices: nat, maxSubslices: nat, maxEus: nat,
                       subsliceOffset: nat, subsliceStride: nat, euOffset: nat, euStride: nat)

  datatype Unit = Slice(x: nat) | Subslice(x: nat, y: nat) | Eu(x: nat, y: nat, z: nat)

  predicate Exists(t: Info, u: Unit) {
    u.x < t.maxSlices && (!u.Slice? ==> u.y < t.maxSubslices) && (u.Eu? ==> u.z < t.maxEus)
  }

  /** Byte and bit of a mask entry: row `row` of a region, bit y of the row. */
  function RowCell(offset: nat, stride: nat, row: nat, y: nat): Cell {
    Cell(offset + row * stride + y / 8, y % 8)
  }

  /** The byte index and shift of the three formulas. */
  function CellOf(t: Info, u: Unit): Cell {
    match u
    case Slice(x) => Cell(x / 8, x % 8)
    case Subslice(x, y) => RowCell(t.subsliceOffset, t.subsliceStride, x, y)
    case Eu(x, y, z) => RowCell(t.euOffset, t.euStride, x * t.maxSubslices + y, z)
  }

  datatype Span = Span(lo: nat, hi: nat)

  predicate Apart(a: Span, b: Span) {
    a.hi <= b.lo || b.hi <= a.lo
  }

  function SliceSpan(t: Info): Span {
    Span(0, (t.maxSlices + 7) / 8)
  }

  function SubsliceSpan(t: Info): Span {
    Span(t.subsliceOffset, t.subsliceOffset + t.maxSlices * t.subsliceStride)
  }

  function EuSpan(t: Info): Span {
    Span(t.euOffset, t.euOffset + (t.maxSlices * t.maxSubslices) * t.euStride)
  }

  /** The strides hold their masks, the regions do not meet and the blob holds them, in
      whatever order they come. */
  predicate Fits(t: Info, len: nat) {
    && t.maxSubslices <= 8 * t.subsliceStride && t.maxEus <= 8 * t.euStride
    && Apart(SliceSpan(t), SubsliceSpan(t)) && Apart(SliceSpan(t), EuSpan(t)) && Apart(SubsliceSpan(t), EuSpan(t))
    && SliceSpan(t).hi <= len && SubsliceSpan(t).hi <= len && EuSpan(t).hi <= len
  }

  /** The regions one right after the other, with the least strides. */
  function Tight(maxSlices: nat, maxSubslices: nat, maxEus: nat): Info {
    var slices, sub, eu := (maxSlices + 7) / 8, (maxSubslices + 7) / 8, (maxEus + 7) / 8;
    Info(maxSlices, maxSubslices, maxEus, slices, sub, slices + maxSlices * sub, eu)
  }

  /** Nothing is lost between the regions: the tightest blob for any numbers of slices, subslices
      and EUs fits, and no shorter one does. */
  lemma TightFits(maxSlices: nat, maxSubslices: nat, maxEus: nat, len: nat)
    ensures Fits(Tight(maxSlices, maxSubslices, maxEus), len) <==>
              len >= (maxSlices + 7) / 8 + maxSlices * ((maxSubslices + 7) / 8) + maxSlices * maxSubslices * ((maxEus + 7) / 8)
  {
    assert maxSlices * ((maxSubslices + 7) / 8) >= 0;
    assert (maxSlices * maxSubslices) * ((maxEus + 7) / 8) >= 0;
  }

  lemma RowInSpan(offset: nat, stride: nat, rows: nat, row: nat, y: nat)
    requires row < rows && y < 8 * stride
    ensures offset <= RowCell(offset, stride, row, y).word < offset + rows * stride
  {
    MulGap(row, rows, stride);
    assert row * stride >= 0;
  }

  lemma FlatRow(x: nat, n: nat, y: nat, m: nat)
    requires x < n && y < m
    ensures x * m + y < n * m
  {
    MulGap(x, n, m);
  }

  function SpanOf(t: Info, u: Unit): Span {
    match u
    case Slice(_) => SliceSpan(t)
    case Subslice(_, _) => SubsliceSpan(t)
    case Eu(_, _, _) => EuSpan(t)
  }

  lemma CellInSpan(t: Info, len: nat, u: Unit)
    requires Fits(t, len) && Exists(t, u)
    ensures SpanOf(t, u).lo <= CellOf(t, u).word < SpanOf(t, u).hi <= len
  {
    match u
    case Slice(x) =>
    case Subslice(x, y) => RowInSpan(t.subsliceOffset, t.subsliceStride, t.maxSlices, x, y);
    case Eu(x, y, z) =>
      FlatRow(x, t.maxSlices, y, t.maxSubslices);
      RowInSpan(t.euOffset, t.euStride, t.maxSlices * t.maxSubslices, x * t.maxSubslices + y, z);
  }

  /** `(data[...] >> (... % 8)) & 1` */
  function Available(t: Info, data: seq<nat>, u: Unit): nat
    requires Fits(t, |data|) && Exists(t, u)
  {
    CellInSpan(t, |data|, u);
    Read(data, CellOf(t, u))
  }

  lemma RowCellInjective(offset: nat, stride: nat, row: nat, y: nat, row': nat, y': nat)
    requires y < 8 * stride && y' < 8 * stride
    requires RowCell(offset, stride, row, y) == RowCell(offset, stride, row', y')
    ensures row == row' && y == y'
  {
    EuclidUnique(stride, row, y / 8, row', y' / 8);
  }

  lemma EuCellInjective(t: Info, u: Unit, v: Unit)
    requires t.maxEus <= 8 * t.euStride && u.Eu? && v.Eu? && Exists(t, u) && Exists(t, v)
    requires CellOf(t, u) == CellOf(t, v)
    ensures u == v
  {
    var m := t.maxSubslices;
    RowCellInjective(t.euOffset, t.euStride, u.x * m + u.y, u.z, v.x * m + v.y, v.z);
    EuclidUnique(m, u.x, u.y, v.x, v.y);
  }

  /** The byte and the bit of the blob that decide each unit. */
  lemma AvailableIsBit(t: Info, data: seq<nat>, u: Unit)
    requires Fits(t, |data|) && Exists(t, u)
    ensures var at: int := match u
              case Slice(x) => x / 8
              case Subslice(x, y) => t.subsliceOffset + x * t.subsliceStride + y / 8
              case Eu(x, y, z) => t.euOffset + (x * t.maxSubslices + y) * t.euStride + z / 8;
            var bit: nat := match u case Slice(x) => x % 8 case Subslice(_, y) => y % 8 case Eu(_, _, z) => z % 8;
            0 <= at < |data| && Available(t, data, u) == if Bit(data[at], bit) then 1 else 0
  {
    hide Bit;
    CellInSpan(t, |data|, u);
    ReadIsBit(data, CellOf(t, u));
  }

  /** No two units share a bit of the blob. */
  lemma NoAliasing(t: Info, len: nat, u: Unit, v: Unit)
    requires Fits(t, len) && Exists(t, u) && Exists(t, v)
    ensures CellOf(t, u) == CellOf(t, v) <==> u == v
  {
    if CellOf(t, u) == CellOf(t, v) {
      SameRegion(t, len, u, v);
      match u
      case Slice(x) =>
      case Subslice(x, y) => RowCellInjective(t.subsliceOffset, t.subsliceStride, x, y, v.x, v.y);
      case Eu(x, y, z) => EuCellInjective(t, u, v);
    }
  }

  /** Units that share a byte are of the same kind. */
  lemma SameRegion(t: Info, len: nat, u: Unit, v: Unit)
    requires Fits(t, len) && Exists(t, u) && Exists(t, v)
    requires CellOf(t, u).word == CellOf(t, v).word
    ensures u.Slice? == v.Slice? && u.Subslice? == v.Subslice?
  {
    CellInSpan(t, len, u);
    CellInSpan(t, len, v);
    hide CellOf, SliceSpan, SubsliceSpan, EuSpan;
  }

  /** No two entries of a region with `rows` rows of `bits` bits share a bit. */
  ghost predicate RowsDistinct(offset: nat, stride: nat, rows: nat, bits: nat) {
    forall row: nat, y: nat, row': nat, y': nat {:trigger RowCell(offset, stride, row, y), RowCell(offset, stride, row', y')} ::
      row < rows && y < bits && row' < rows && y' < bits && RowCell(offset, stride, row, y) == RowCell(offset, stride, row', y')
      ==> row == row' && y == y'
  }

  /** The stride condition is exact: a region of two or more nonempty rows is free of aliasing
      exactly when a row's bits fit its stride. */
  lemma StrideExact(offset: nat, stride: nat, rows: nat, bits: nat)
    requires rows >= 2 && bits > 0
    ensures RowsDistinct(offset, stride, rows, bits) <==> bits <= 8 * stride
  {
    if bits <= 8 * stride {
      forall row: nat, y: nat, row': nat, y': nat
        | row < rows && y < bits && row' < rows && y' < bits && RowCell(offset, stride, row, y) == RowCell(offset, stride, row', y')
        ensures row == row' && y == y'
      {
        RowCellInjective(offset, stride, row, y, row', y');
      }
    } else {
      assert RowCell(offset, stride, 0, 8 * stride) == RowCell(offset, stride, 1, 0);
    }
  }

  // ---- any run of stores

  datatype Store = Store(unit: Unit, on: bool)

  predicate AllExist(t: Info, ops: seq<Store>) {
    forall n :: 0 <= n < |ops| ==> Exists(t, ops[n].unit)
  }

  function RunStores(t: Info, data: seq<nat>, ops: seq<Store>): (r: seq<nat>)
    requires Fits(t, |data|) && AllExist(t, ops)
    ensures |r| == |data|
    decreases |ops|
  {
    if ops == [] then data else
      CellInSpan(t, |data|, ops[0].unit);
      RunStores(t, Put(data, 8, CellOf(t, ops[0].unit), ops[0].on), ops[1..])
  }

  /** What the last store to u left, or what the blob said before. */
  function LastStore(u: Unit, before: nat, ops: seq<Store>): nat
    decreases |ops|
  {
    if ops == [] then before
    else LastStore(u, if ops[0].unit == u then (if ops[0].on then 1 else 0) else before, ops[1..])
  }

  /** For all sizes, offsets and strides that fit: after any run of stores, each of the three
      formulas reads, for every unit, what was last stored for that unit. */
  lemma {:induction false} StoresReadBack(t: Info, data: seq<nat>, ops: seq<Store>, u: Unit)
    requires Fits(t, |data|) && AllExist(t, ops) && Exists(t, u)
    ensures Available(t, RunStores(t, data, ops), u) == LastStore(u, Available(t, data, u), ops)
    decreases |ops|
  {
    if ops != [] {
      var v := ops[0].unit;
      CellInSpan(t, |data|, v);
      CellInSpan(t, |data|, u);
      var data' := Put(data, 8, CellOf(t, v), ops[0].on);
      assert Available(t, data', u) == if u == v then (if ops[0].on then 1 else 0) else Available(t, data, u) by {
        NoAliasing(t, |data|, u, v);
        PutRead(data, 8, CellOf(t, v), ops[0].on, CellOf(t, u));
      }
      hide CellOf, Available, Put;
      StoresReadBack(t, data', ops[1..], u);
    }
  }

  function AsStores(units: seq<Unit>): (r: seq<Store>)
    ensures |r| == |units| && forall n :: 0 <= n < |units| ==> r[n] == Store(units[n], true)
  {
    seq(|units|, n requires 0 <= n < |units| => Store(units[n], true))
  }

  /** Any availability relation is stored and read back exactly: from a zero blob, the formula
      for u gives 1 if u was stored and 0 otherwise. */
  lemma RelationReadsBack(t: Info, len: nat, units: seq<Unit>, u: Unit)
    requires Fits(t, len) && Exists(t, u)
    requires forall n :: 0 <= n < |units| ==> Exists(t, units[n])
    ensures Available(t, RunStores(t, seq(len, _ => 0), AsStores(units)), u) == if u in units then 1 else 0
  {
    var zero := seq(len, _ => 0);
    StoresReadBack(t, zero, AsStores(units), u);
    LastOfStores(units, u, 0);
    assert Available(t, zero, u) == 0 by {
      CellInSpan(t, len, u);
      ReadIsBit(zero, CellOf(t, u));
      ZeroBit(CellOf(t, u).bit);
    }
  }

  lemma {:induction false} LastOfStores(units: seq<Unit>, u: Unit, before: nat)
    ensures LastStore(u, before, AsStores(units)) == if u in units then 1 else before
    decreases |units|
  {
    if units != [] {
      assert AsStores(units)[1..] == AsStores(units[1..]);
      LastOfStores(units[1..], u, if units[0] == u then 1 else before);
    }
  }
}
