/** Words that pack fields by shift and mask, as the AMD modifier macros and the amdgpu
    tiling macros do.  The word is shown to refine a plain sequence of field values over
    any run of updates. */
module PackedFields {
  import opened Bits

  /** A row of a field table: FIELD_SHIFT and FIELD_MASK (the mask is not shifted). */
  datatype Field = Field(shift: nat, mask: nat)

  datatype Write = Write(index: nat, value: nat)

  /** AMD_FMT_MOD_GET(field, w) and AMDGPU_TILING_GET(w, field) */
  function Get(f: Field, w: nat): nat {
    And(Shr(w, f.shift), f.mask)
  }

  /** AMD_FMT_MOD_SET(field, v): the value is not masked. */
  function Set(f: Field, v: nat): nat {
    Wrap(Shl(v, f.shift), 64)
  }

  /** AMD_FMT_MOD_CLEAR(field) */
  function Clear(f: Field): nat {
    Not(Wrap(Shl(f.mask, f.shift), 64), 64)
  }

  /** AMDGPU_TILING_SET(field, v): the value is masked first. */
  function MaskedSet(f: Field, v: nat): nat {
    Wrap(Shl(And(v, f.mask), f.shift), 64)
  }

  /** The clear-then-set update of one field. */
  function Update(w: nat, f: Field, v: nat): nat {
    Or(And(w, Clear(f)), Set(f, v))
  }

  /** Bit i of the word belongs to field f. */
  predicate Owns(f: Field, i: nat) {
    i >= f.shift && Bit(f.mask, i - f.shift)
  }

  /** v is a value the field can hold. */
  predicate Fits(f: Field, v: nat) {
    And(v, f.mask) == v
  }

  /** No two fields share a bit and every field lies below bit `limit`. */
  ghost predicate WellFormed(t: seq<Field>, limit: nat) {
    && (forall a, b, i: nat {:trigger Owns(t[a], i), Owns(t[b], i)} ::
          0 <= a < b < |t| ==> !(Owns(t[a], i) && Owns(t[b], i)))
    && (forall a, i: nat {:trigger Owns(t[a], i)} :: 0 <= a < |t| && Owns(t[a], i) ==> i < limit)
  }

  function Next(t: seq<Field>, a: nat, limit: nat): nat
    requires a < |t|
  {
    if a + 1 < |t| then t[a + 1].shift else limit
  }

  /** A table whose rows ascend and whose masks stop before the next row. */
  predicate Ascending(t: seq<Field>, limit: nat) {
    forall a {:trigger t[a]} :: 0 <= a < |t| ==>
      t[a].shift <= Next(t, a, limit) && t[a].mask < Pow2(Next(t, a, limit) - t[a].shift)
  }

  lemma {:induction false} ShiftsAscend(t: seq<Field>, limit: nat, a: nat, b: nat)
    requires Ascending(t, limit) && a < b < |t|
    ensures Next(t, a, limit) <= t[b].shift <= limit
    decreases |t| - a
  {
    assert t[a + 1].shift <= Next(t, a + 1, limit);
    if a + 1 < b {
      ShiftsAscend(t, limit, a + 1, b);
    } else if b + 1 < |t| {
      ShiftsAscend(t, limit, b, b + 1);
    }
  }

  lemma OwnedBelowNext(t: seq<Field>, limit: nat, a: nat, i: nat)
    requires Ascending(t, limit) && a < |t| && Owns(t[a], i)
    ensures t[a].shift <= i < Next(t, a, limit) <= limit
  {
    FitsBits(t[a].mask, Next(t, a, limit) - t[a].shift);
    if a + 1 < |t| {
      ShiftsAscend(t, limit, a, a + 1);
    }
  }

  lemma AscendingWellFormed(t: seq<Field>, limit: nat)
    requires Ascending(t, limit)
    ensures WellFormed(t, limit)
  {
    forall a, i: nat | 0 <= a < |t| && Owns(t[a], i)
      ensures i < limit
    {
      OwnedBelowNext(t, limit, a, i);
    }
    forall a, b, i: nat | 0 <= a < b < |t| && Owns(t[a], i) && Owns(t[b], i)
      ensures false
    {
      OwnedBelowNext(t, limit, a, i);
      OwnedBelowNext(t, limit, b, i);
      ShiftsAscend(t, limit, a, b);
    }
  }

  /** The value of every field of the table: the word seen as a record. */
  function View(t: seq<Field>, w: nat): (r: seq<nat>)
    ensures |r| == |t|
    ensures forall k :: 0 <= k < |t| ==> r[k] == Get(t[k], w)
  {
    seq(|t|, k requires 0 <= k < |t| => Get(t[k], w))
  }

  predicate InTable(t: seq<Field>, ops: seq<Write>) {
    forall n :: 0 <= n < |ops| ==> ops[n].index < |t|
  }

  predicate InRange(t: seq<Field>, ops: seq<Write>)
    requires InTable(t, ops)
  {
    forall n :: 0 <= n < |ops| ==> Fits(t[ops[n].index], ops[n].value)
  }

  /** The packed word after a run of clear-then-set updates. */
  function RunWord(t: seq<Field>, w: nat, ops: seq<Write>): nat
    requires InTable(t, ops)
    decreases |ops|
  {
    if ops == [] then w else RunWord(t, Update(w, t[ops[0].index], ops[0].value), ops[1..])
  }

  /** The same run on the plain record. */
  function RunView(view: seq<nat>, ops: seq<Write>): seq<nat>
    requires forall n :: 0 <= n < |ops| ==> ops[n].index < |view|
    decreases |ops|
  {
    if ops == [] then view else RunView(view[ops[0].index := ops[0].value], ops[1..])
  }

  lemma FitsBit(f: Field, v: nat, i: nat)
    requires Fits(f, v) && Bit(v, i)
    ensures Bit(f.mask, i)
  {
    hide Bit, And, Or, Shl, Shr, Wrap, Not;
    assert Bit(And(v, f.mask), i);
  }

  /** What an update does to one bit of the word, whatever the value. */
  lemma UpdateBit(w: nat, f: Field, v: nat, i: nat)
    ensures Bit(Update(w, f, v), i) <==>
              i < 64 && ((Bit(w, i) && !Owns(f, i)) || (i >= f.shift && Bit(v, i - f.shift)))
  {
    hide Bit, And, Or, Shl, Shr, Wrap, Not;
  }

  /** A field reads back the value just written exactly when the value fits its mask. */
  lemma UpdateReadsBack(w: nat, f: Field, v: nat)
    requires forall i: nat :: Owns(f, i) ==> i < 64
    ensures Get(f, Update(w, f, v)) == v <==> Fits(f, v)
  {
    hide Bit, And, Or, Shl, Shr, Wrap, Not;
    var r := Get(f, Update(w, f, v));
    if r == v {
      forall i: nat
        ensures Bit(And(v, f.mask), i) == Bit(v, i)
      {
        assert Bit(v, i) ==> Bit(r, i);
      }
      SameBits(And(v, f.mask), v);
    }
    if Fits(f, v) {
      forall i: nat
        ensures Bit(r, i) == Bit(v, i)
      {
        if Bit(v, i) {
          FitsBit(f, v, i);
        }
        if Bit(f.mask, i) {
          assert Owns(f, i + f.shift);
        }
        UpdateBit(w, f, v, i + f.shift);
      }
      SameBits(r, v);
    }
  }

  /** No bit of v that stays inside the word falls outside field f. */
  ghost predicate NoSpill(f: Field, v: nat) {
    forall i: nat {:trigger Bit(v, i)} :: Bit(v, i) && i + f.shift < 64 ==> Bit(f.mask, i)
  }

  /** Updating f with v leaves every other bit of every 64-bit word alone. */
  ghost predicate KeepsRest(f: Field, v: nat) {
    forall w: nat, i: nat {:trigger Bit(Update(w, f, v), i)} ::
      HighClear(w, 64) && !Owns(f, i) ==> Bit(Update(w, f, v), i) == Bit(w, i)
  }

  /** The unmasked SET is harmless to the rest of the word exactly when no bit spills. */
  lemma UpdateKeepsRest(f: Field, v: nat)
    ensures KeepsRest(f, v) <==> NoSpill(f, v)
  {
    hide Bit, And, Or, Shl, Shr, Wrap, Not;
    if NoSpill(f, v) {
      forall w: nat, i: nat | HighClear(w, 64) && !Owns(f, i)
        ensures Bit(Update(w, f, v), i) == Bit(w, i)
      {
        UpdateBit(w, f, v, i);
      }
    } else {
      var i: nat :| Bit(v, i) && i + f.shift < 64 && !Bit(f.mask, i);
      ZeroBits();
      UpdateBit(0, f, v, i + f.shift);
      assert !Owns(f, i + f.shift);
      assert Bit(Update(0, f, v), i + f.shift) != Bit(0, i + f.shift);
    }
  }

  /** Bits owned by no field are left alone by an in-range update. */
  lemma UpdateOutside(w: nat, f: Field, v: nat, i: nat)
    requires Fits(f, v) && HighClear(w, 64) && !Owns(f, i)
    ensures Bit(Update(w, f, v), i) == Bit(w, i)
  {
    hide Bit, And, Or, Shl, Shr, Wrap, Not;
    UpdateBit(w, f, v, i);
    assert i >= f.shift && Bit(v, i - f.shift) ==> Bit(And(v, f.mask), i - f.shift);
  }

  lemma UpdateInWord(w: nat, f: Field, v: nat)
    ensures HighClear(Update(w, f, v), 64)
  {
    hide Bit, And, Or, Shl, Shr, Wrap, Not;
  }

  /** A field that shares no bit with f is not touched by an in-range update of f. */
  lemma UpdateOther(w: nat, f: Field, v: nat, g: Field)
    requires HighClear(w, 64) && Fits(f, v)
    requires forall i: nat :: Owns(g, i) ==> !Owns(f, i)
    ensures Get(g, Update(w, f, v)) == Get(g, w)
  {
    hide Bit, And, Or, Shl, Shr, Wrap, Not;
    var w' := Update(w, f, v);
    forall i: nat
      ensures Bit(Get(g, w'), i) == Bit(Get(g, w), i)
    {
      if Bit(g.mask, i) {
        assert Owns(g, i + g.shift);
        UpdateOutside(w, f, v, i + g.shift);
      }
    }
    SameBits(Get(g, w'), Get(g, w));
  }

  /** One in-range update changes one entry of the record. */
  lemma UpdateRefines(t: seq<Field>, w: nat, k: nat, v: nat)
    requires WellFormed(t, 64) && HighClear(w, 64) && k < |t| && Fits(t[k], v)
    ensures View(t, Update(w, t[k], v)) == View(t, w)[k := v]
  {
    UpdateReadsBack(w, t[k], v);
    forall j | 0 <= j < |t| && j != k
      ensures Get(t[j], Update(w, t[k], v)) == Get(t[j], w)
    {
      UpdateOther(w, t[k], v, t[j]);
    }
  }

  /** No field of the table owns bit i. */
  ghost predicate Unowned(t: seq<Field>, i: nat) {
    forall k :: 0 <= k < |t| ==> !Owns(t[k], i)
  }

  ghost predicate SameOutside(t: seq<Field>, w: nat, w': nat) {
    forall i: nat :: Unowned(t, i) ==> Bit(w, i) == Bit(w', i)
  }

  lemma UpdateSameOutside(t: seq<Field>, w: nat, k: nat, v: nat)
    requires HighClear(w, 64) && k < |t| && Fits(t[k], v)
    ensures SameOutside(t, Update(w, t[k], v), w)
  {
    hide Bit, And, Or, Shl, Shr, Wrap, Not;
    forall i: nat | Unowned(t, i)
      ensures Bit(Update(w, t[k], v), i) == Bit(w, i)
    {
      UpdateOutside(w, t[k], v, i);
    }
  }

  lemma SameOutsideTrans(t: seq<Field>, a: nat, b: nat, c: nat)
    requires SameOutside(t, a, b) && SameOutside(t, b, c)
    ensures SameOutside(t, a, c)
  {
    forall i: nat | Unowned(t, i)
      ensures Bit(a, i) == Bit(c, i)
    {
      assert Bit(b, i) == Bit(c, i);
    }
  }

  lemma {:induction false} RunSameOutside(t: seq<Field>, w: nat, ops: seq<Write>)
    requires HighClear(w, 64) && InTable(t, ops) && InRange(t, ops)
    ensures SameOutside(t, RunWord(t, w, ops), w)
    decreases |ops|
  {
    hide Update;
    if ops != [] {
      var k, v := ops[0].index, ops[0].value;
      UpdateInWord(w, t[k], v);
      UpdateSameOutside(t, w, k, v);
      RunSameOutside(t, Update(w, t[k], v), ops[1..]);
      SameOutsideTrans(t, RunWord(t, w, ops), Update(w, t[k], v), w);
    }
  }

  lemma {:induction false} RunShowsView(t: seq<Field>, w: nat, ops: seq<Write>)
    requires WellFormed(t, 64) && HighClear(w, 64) && InTable(t, ops) && InRange(t, ops)
    ensures View(t, RunWord(t, w, ops)) == RunView(View(t, w), ops)
    decreases |ops|
  {
    hide Update;
    hide Get;
    if ops != [] {
      var k, v := ops[0].index, ops[0].value;
      UpdateRefines(t, w, k, v);
      UpdateInWord(w, t[k], v);
      RunShowsView(t, Update(w, t[k], v), ops[1..]);
    }
  }

  /** Over any run of in-range updates the packed word shows the same record as a plain
      sequence of fields, and every bit no field owns keeps its value. */
  lemma RunRefines(t: seq<Field>, w: nat, ops: seq<Write>)
    requires WellFormed(t, 64) && HighClear(w, 64) && InTable(t, ops) && InRange(t, ops)
    ensures View(t, RunWord(t, w, ops)) == RunView(View(t, w), ops)
    ensures SameOutside(t, RunWord(t, w, ops), w)
  {
    RunShowsView(t, w, ops);
    RunSameOutside(t, w, ops);
  }

  lemma OwnedBitShows(f: Field, w: nat, i: nat)
    requires Owns(f, i)
    ensures Bit(Get(f, w), i - f.shift) == Bit(w, i)
  {
    hide Bit, And, Or, Shl, Shr, Wrap, Not;
  }

  lemma BitDetermined(t: seq<Field>, w: nat, w': nat, i: nat)
    requires View(t, w) == View(t, w') && SameOutside(t, w, w')
    ensures Bit(w, i) == Bit(w', i)
  {
    hide Get;
    hide Bit;
    if !Unowned(t, i) {
      var k :| 0 <= k < |t| && Owns(t[k], i);
      assert View(t, w)[k] == View(t, w')[k];
      OwnedBitShows(t[k], w, i);
      OwnedBitShows(t[k], w', i);
    }
  }

  /** The record and the bits outside it determine the word. */
  lemma ViewDetermines(t: seq<Field>, w: nat, w': nat)
    requires View(t, w) == View(t, w') && SameOutside(t, w, w')
    ensures w == w'
  {
    forall i: nat
      ensures Bit(w, i) == Bit(w', i)
    {
      BitDetermined(t, w, w', i);
    }
    SameBits(w, w');
  }

  /** Updates of different fields commute as operations on the whole word. */
  lemma UpdatesCommute(t: seq<Field>, w: nat, a: Write, b: Write)
    requires WellFormed(t, 64) && HighClear(w, 64)
    requires a.index < |t| && b.index < |t| && a.index != b.index
    requires Fits(t[a.index], a.value) && Fits(t[b.index], b.value)
    ensures RunWord(t, w, [a, b]) == RunWord(t, w, [b, a])
  {
    RunRefines(t, w, [a, b]);
    RunRefines(t, w, [b, a]);
    assert [a, b][1..] == [b] && [b, a][1..] == [a] && [a][1..] == [] && [b][1..] == [];
    var view := View(t, w);
    assert RunView(view, [a, b]) == RunView(view, [b, a]) by {
      var viewA, viewB := view[a.index := a.value], view[b.index := b.value];
      assert viewA[b.index := b.value] == viewB[a.index := a.value];
      assert RunView(view, [a, b]) == RunView(viewA, [b]);
      assert RunView(view, [b, a]) == RunView(viewB, [a]);
    }
    ViewDetermines(t, RunWord(t, w, [a, b]), RunWord(t, w, [b, a]));
  }

  /** The last value written to field k, or what the field held before the run. */
  function LastWritten(k: nat, before: nat, ops: seq<Write>): nat
    decreases |ops|
  {
    if ops == [] then before
    else LastWritten(k, if ops[0].index == k then ops[0].value else before, ops[1..])
  }

  /** GET returns the last value written to each field. */
  lemma {:induction false} RunViewIsLastWritten(view: seq<nat>, ops: seq<Write>, k: nat)
    requires k < |view| && forall n :: 0 <= n < |ops| ==> ops[n].index < |view|
    ensures |RunView(view, ops)| == |view| && RunView(view, ops)[k] == LastWritten(k, view[k], ops)
    decreases |ops|
  {
    if ops != [] {
      RunViewIsLastWritten(view[ops[0].index := ops[0].value], ops[1..], k);
    }
  }

  // ---- words assembled with OR, as the tiling flags are (they have no CLEAR macro)

  function BuildWord(t: seq<Field>, w: nat, ops: seq<Write>): nat
    requires InTable(t, ops)
    decreases |ops|
  {
    if ops == [] then w
    else BuildWord(t, Or(w, MaskedSet(t[ops[0].index], ops[0].value)), ops[1..])
  }

  /** The OR of all masked values written to one field. */
  function Accumulated(t: seq<Field>, k: nat, before: nat, ops: seq<Write>): nat
    requires InTable(t, ops) && k < |t|
    decreases |ops|
  {
    if ops == [] then before
    else Accumulated(t, k, if ops[0].index == k then Or(before, And(ops[0].value, t[k].mask)) else before, ops[1..])
  }

  lemma MaskedSetGets(t: seq<Field>, w: nat, j: nat, k: nat, v: nat)
    requires WellFormed(t, 64) && j < |t| && k < |t|
    ensures Get(t[j], Or(w, MaskedSet(t[k], v)))
         == if j == k then Or(Get(t[j], w), And(v, t[k].mask)) else Get(t[j], w)
  {
    hide Bit, And, Or, Shl, Shr, Wrap, Not;
    var l := Get(t[j], Or(w, MaskedSet(t[k], v)));
    var r := if j == k then Or(Get(t[j], w), And(v, t[k].mask)) else Get(t[j], w);
    forall i: nat
      ensures Bit(l, i) == Bit(r, i)
    {
      var p := i + t[j].shift;
      if Bit(t[j].mask, i) {
        assert Owns(t[j], p);
        if j != k {
          assert !Owns(t[k], p);
        }
      }
      assert Bit(l, i) <==> Bit(t[j].mask, i) && (Bit(w, p) || Bit(MaskedSet(t[k], v), p));
    }
    SameBits(l, r);
  }

  /** For any run of masked SETs, no value at all is excluded: each field holds the OR of the
      masked values written to it, and nothing leaks into another field. */
  lemma {:induction false} BuildAccumulates(t: seq<Field>, w: nat, ops: seq<Write>, k: nat)
    requires WellFormed(t, 64) && InTable(t, ops) && k < |t|
    ensures Get(t[k], BuildWord(t, w, ops)) == Accumulated(t, k, Get(t[k], w), ops)
    decreases |ops|
  {
    if ops != [] {
      MaskedSetGets(t, w, k, ops[0].index, ops[0].value);
      BuildAccumulates(t, Or(w, MaskedSet(t[ops[0].index], ops[0].value)), ops[1..], k);
    }
  }

  lemma {:induction false} AccumulatedOnce(t: seq<Field>, k: nat, before: nat, ops: seq<Write>, n: nat)
    requires InTable(t, ops) && k < |t|
    requires n <= |ops| && (n < |ops| ==> ops[n].index == k)
    requires forall m :: 0 <= m < |ops| && m != n ==> ops[m].index != k
    ensures Accumulated(t, k, before, ops)
         == if n == |ops| then before else Or(before, And(ops[n].value, t[k].mask))
    decreases |ops|
  {
    if ops != [] {
      var before' := if ops[0].index == k then Or(before, And(ops[0].value, t[k].mask)) else before;
      if n == 0 {
        AccumulatedOnce(t, k, before', ops[1..], |ops[1..]|);
      } else {
        AccumulatedOnce(t, k, before', ops[1..], n - 1);
      }
    }
  }

  /** Flags assembled from zero with each field set at most once decode to the masked values. */
  lemma BuildDecodes(t: seq<Field>, ops: seq<Write>, k: nat, n: nat)
    requires WellFormed(t, 64) && InTable(t, ops) && k < |t|
    requires n <= |ops| && (n < |ops| ==> ops[n].index == k)
    requires forall m :: 0 <= m < |ops| && m != n ==> ops[m].index != k
    ensures Get(t[k], BuildWord(t, 0, ops)) == if n == |ops| then 0 else And(ops[n].value, t[k].mask)
  {
    BuildAccumulates(t, 0, ops, k);
    AccumulatedOnce(t, k, Get(t[k], 0), ops, n);
    ZeroBits();
    SameBits(Get(t[k], 0), 0);
    assert forall x: nat :: Or(0, x) == x;
  }
}
