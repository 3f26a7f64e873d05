/** How a C compiler lays out structs, unions and arrays: each field goes to the next offset
    its alignment allows, and the size is rounded up to the alignment.  Sizes and alignments
    of scalars are powers of two and are given by their logarithm. */
module Layout {
  import opened Bits

  datatype CType =
    | Scalar(log: nat)                     // 2^log bytes, naturally aligned
    | Array(elem: CType, count: nat)
    | Struct(fields: seq<CType>)
    | Union(members: seq<CType>)
    | AlignedTo(ty: CType, alignLog: nat)  // a member with __attribute__((aligned(2^alignLog)))

  function Max(a: nat, b: nat): nat {
    if a < b then b else a
  }

  /** The least multiple of 2^log that is not below x. */
  function AlignUp(x: nat, log: nat): nat {
    (x + Pow2(log) - 1) / Pow2(log) * Pow2(log)
  }

  function AlignLog(t: CType): nat {
    match t
    case Scalar(log) => log
    case Array(elem, _) => AlignLog(elem)
    case Struct(fields) => MaxAlignLog(fields)
    case Union(members) => MaxAlignLog(members)
    case AlignedTo(ty, a) => Max(AlignLog(ty), a)
  }

  function MaxAlignLog(ts: seq<CType>): (r: nat)
    ensures forall i :: 0 <= i < |ts| ==> AlignLog(ts[i]) <= r
  {
    if ts == [] then 0 else Max(AlignLog(ts[0]), MaxAlignLog(ts[1..]))
  }

  function Times(count: nat, size: nat): nat {
    count * size
  }

  /** sizeof */
  function Size(t: CType): nat {
    match t
    case Scalar(log) => Pow2(log)
    case Array(elem, count) => Times(count, Size(elem))
    case Struct(fields) => AlignUp(End(fields, |fields|), MaxAlignLog(fields))
    case Union(members) => AlignUp(MaxSize(members), MaxAlignLog(members))
    case AlignedTo(ty, _) => Size(ty)
  }

  function MaxSize(ts: seq<CType>): (r: nat)
    ensures forall i :: 0 <= i < |ts| ==> Size(ts[i]) <= r
  {
    if ts == [] then 0 else Max(Size(ts[0]), MaxSize(ts[1..]))
  }

  /** offsetof field i */
  function Offset(fields: seq<CType>, i: nat): nat
    requires i < |fields|
    decreases fields, i, 1
  {
    AlignUp(End(fields, i), AlignLog(fields[i]))
  }

  /** Where field i - 1 ends: the first byte free for field i. */
  function End(fields: seq<CType>, i: nat): nat
    requires i <= |fields|
    decreases fields, i, 0
  {
    if i == 0 then 0 else Offset(fields, i - 1) + Size(fields[i - 1])
  }

  /** C's rule for arrays: the element size is a multiple of its alignment. */
  predicate WellFormed(t: CType) {
    match t
    case Scalar(_) => true
    case Array(elem, _) => WellFormed(elem) && Size(elem) % Pow2(AlignLog(elem)) == 0
    case Struct(fields) => forall i :: 0 <= i < |fields| ==> WellFormed(fields[i])
    case Union(members) => forall i :: 0 <= i < |members| ==> WellFormed(members[i])
    case AlignedTo(ty, _) => WellFormed(ty)
  }

  predicate UnionFree(t: CType) {
    match t
    case Scalar(_) => true
    case Array(elem, _) => UnionFree(elem)
    case Struct(fields) => forall i :: 0 <= i < |fields| ==> UnionFree(fields[i])
    case Union(_) => false
    case AlignedTo(ty, _) => UnionFree(ty)
  }

  // ---- arithmetic of alignment

  lemma ModZero(x: nat, p: nat, q: nat)
    requires p > 0 && x == q * p
    ensures x % p == 0
  {
    DivUnique(x, p, q, 0);
  }

  lemma ModAdd(x: nat, y: nat, p: nat)
    requires p > 0 && x % p == 0 && y % p == 0
    ensures (x + y) % p == 0
  {
    assert x == (x / p) * p && y == (y / p) * p;
    assert x + y == (x / p + y / p) * p;
    ModZero(x + y, p, x / p + y / p);
  }

  lemma ModMul(k: nat, x: nat, p: nat)
    requires p > 0 && x % p == 0
    ensures (k * x) % p == 0
  {
    var q := x / p;
    assert x == q * p;
    assert k * x == (k * q) * p;
    ModZero(k * x, p, k * q);
  }

  /** A multiple of a larger power of two is a multiple of a smaller one. */
  lemma ModWeaken(x: nat, i: nat, j: nat)
    requires i <= j && x % Pow2(j) == 0
    ensures x % Pow2(i) == 0
  {
    Pow2Add(j - i, i);
    hide Pow2;
    ModZero(Pow2(j), Pow2(i), Pow2(j - i));
    ModMul(x / Pow2(j), Pow2(j), Pow2(i));
    assert x == (x / Pow2(j)) * Pow2(j);
  }

  lemma AlignUpMeans(x: nat, log: nat)
    ensures x <= AlignUp(x, log) < x + Pow2(log)
    ensures AlignUp(x, log) % Pow2(log) == 0
  {
    hide Pow2;
    var p := Pow2(log);
    var q, r := (x + p - 1) / p, (x + p - 1) % p;
    assert x + p - 1 == q * p + r;
    ModZero(q * p, p, q);
  }

  lemma AlignUpFixes(x: nat, log: nat)
    requires x % Pow2(log) == 0
    ensures AlignUp(x, log) == x
  {
    hide Pow2;
    var p := Pow2(log);
    assert x == (x / p) * p;
    DivUnique(x + p - 1, p, x / p, p - 1);
  }

  /** AlignUp is the least multiple not below x. */
  lemma AlignUpLeast(x: nat, log: nat, y: nat)
    requires x <= y && y % Pow2(log) == 0
    ensures AlignUp(x, log) <= y
  {
    AlignUpMeans(x, log);
    hide Pow2, AlignUp;
    var p, a := Pow2(log), AlignUp(x, log);
    assert y == (y / p) * p && a == (a / p) * p;
    if y / p < a / p {
      MulGap(y / p, a / p, p);
    } else if a / p < y / p {
      MulGap(a / p, y / p, p);
    }
  }

  // ---- the layout theorem

  /** A scalar inside a type: where it starts and its size. */
  datatype Leaf = Leaf(offset: nat, log: nat)

  function Shift(ls: seq<Leaf>, delta: nat): (r: seq<Leaf>)
    ensures |r| == |ls|
    ensures forall k :: 0 <= k < |ls| ==> r[k] == Leaf(ls[k].offset + delta, ls[k].log)
  {
    seq(|ls|, k requires 0 <= k < |ls| => Leaf(ls[k].offset + delta, ls[k].log))
  }

  /** Every scalar of the type, in declaration order. */
  function Leaves(t: CType): seq<Leaf>
    decreases t, 1
  {
    match t
    case Scalar(log) => [Leaf(0, log)]
    case Array(elem, count) => Repeat(Leaves(elem), Size(elem), count)
    case Struct(fields) => FieldLeaves(fields, |fields|)
    case Union(members) => MemberLeaves(members)
    case AlignedTo(ty, _) => Leaves(ty)
  }

  function Repeat(ls: seq<Leaf>, stride: nat, count: nat): seq<Leaf> {
    if count == 0 then [] else Repeat(ls, stride, count - 1) + Shift(ls, (count - 1) * stride)
  }

  function FieldLeaves(fields: seq<CType>, n: nat): seq<Leaf>
    requires n <= |fields|
    decreases fields, n
  {
    if n == 0 then [] else FieldLeaves(fields, n - 1) + Shift(Leaves(fields[n - 1]), Offset(fields, n - 1))
  }

  function MemberLeaves(members: seq<CType>): seq<Leaf> {
    if members == [] then [] else Leaves(members[0]) + MemberLeaves(members[1..])
  }

  /** Every leaf is aligned to its own size, no more strictly than `alignLog`, inside lo..hi. */
  predicate Placed(ls: seq<Leaf>, alignLog: nat, lo: nat, hi: nat) {
    forall k :: 0 <= k < |ls| ==>
      && ls[k].log <= alignLog && ls[k].offset % Pow2(ls[k].log) == 0
      && lo <= ls[k].offset && ls[k].offset + Pow2(ls[k].log) <= hi
  }

  /** Leaves come in increasing order and no two overlap. */
  predicate Ordered(ls: seq<Leaf>) {
    forall j, k :: 0 <= j < k < |ls| ==> ls[j].offset + Pow2(ls[j].log) <= ls[k].offset
  }

  lemma ShiftPlaced(ls: seq<Leaf>, a: nat, lo: nat, hi: nat, delta: nat)
    requires Placed(ls, a, lo, hi) && delta % Pow2(a) == 0
    ensures Placed(Shift(ls, delta), a, lo + delta, hi + delta)
  {
    hide Pow2;
    forall k | 0 <= k < |ls|
      ensures Shift(ls, delta)[k].offset % Pow2(ls[k].log) == 0
    {
      ModWeaken(delta, ls[k].log, a);
      ModAdd(ls[k].offset, delta, Pow2(ls[k].log));
    }
  }

  lemma PlacedWiden(ls: seq<Leaf>, a: nat, lo: nat, hi: nat, a': nat, lo': nat, hi': nat)
    requires Placed(ls, a, lo, hi) && a <= a' && lo' <= lo && hi <= hi'
    ensures Placed(ls, a', lo', hi')
  {
    hide Pow2;
  }

  lemma PlacedJoin(ls: seq<Leaf>, ms: seq<Leaf>, a: nat, lo: nat, hi: nat)
    requires Placed(ls, a, lo, hi) && Placed(ms, a, lo, hi)
    ensures Placed(ls + ms, a, lo, hi)
  {
    hide Pow2;
  }

  lemma OrderedJoin(ls: seq<Leaf>, ms: seq<Leaf>, a: nat, lo: nat, mid: nat, hi: nat)
    requires Ordered(ls) && Ordered(ms) && Placed(ls, a, lo, mid) && Placed(ms, a, mid, hi)
    ensures Ordered(ls + ms)
  {
    hide Pow2;
  }

  lemma {:induction false} RepeatPlaced(ls: seq<Leaf>, a: nat, stride: nat, count: nat)
    requires Placed(ls, a, 0, stride) && stride % Pow2(a) == 0
    ensures Placed(Repeat(ls, stride, count), a, 0, count * stride)
    decreases count
  {
    hide Placed, Pow2;
    if count == 0 {
      NonePlaced(a, stride);
    } else {
      var lo, hi := (count - 1) * stride, count * stride;
      assert hi == lo + stride;
      RepeatPlaced(ls, a, stride, count - 1);
      ModMul(count - 1, stride, Pow2(a));
      ShiftPlaced(ls, a, 0, stride, lo);
      var front, back := Repeat(ls, stride, count - 1), Shift(ls, lo);
      PlacedWiden(front, a, 0, lo, a, 0, hi);
      PlacedWiden(back, a, lo, hi, a, 0, hi);
      PlacedJoin(front, back, a, 0, hi);
    }
  }

  lemma NonePlaced(a: nat, hi: nat)
    ensures Placed([], a, 0, 0 * hi) && Ordered([])
  {
  }

  lemma {:induction false} RepeatOrdered(ls: seq<Leaf>, a: nat, stride: nat, count: nat)
    requires Placed(ls, a, 0, stride) && stride % Pow2(a) == 0 && Ordered(ls)
    ensures Ordered(Repeat(ls, stride, count))
    decreases count
  {
    hide Placed, Ordered, Pow2;
    if count == 0 {
      NonePlaced(a, stride);
    } else {
      var lo, hi := (count - 1) * stride, count * stride;
      assert hi == lo + stride;
      RepeatOrdered(ls, a, stride, count - 1);
      RepeatPlaced(ls, a, stride, count - 1);
      ModMul(count - 1, stride, Pow2(a));
      ShiftPlaced(ls, a, 0, stride, lo);
      ShiftOrdered(ls, lo);
      OrderedJoin(Repeat(ls, stride, count - 1), Shift(ls, lo), a, 0, lo, hi);
    }
  }

  lemma ShiftOrdered(ls: seq<Leaf>, delta: nat)
    requires Ordered(ls)
    ensures Ordered(Shift(ls, delta))
  {
    hide Pow2;
  }

  /** Each field starts at or after the end of the field before it. */
  lemma OffsetBounds(fields: seq<CType>, i: nat)
    requires i < |fields|
    ensures End(fields, i) <= Offset(fields, i) <= End(fields, i + 1) == Offset(fields, i) + Size(fields[i])
    ensures Offset(fields, i) % Pow2(AlignLog(fields[i])) == 0
  {
    AlignUpMeans(End(fields, i), AlignLog(fields[i]));
  }

  /** One step of the layout. */
  lemma Step(fields: seq<CType>, i: nat)
    requires i < |fields|
    ensures Offset(fields, i) == AlignUp(End(fields, i), AlignLog(fields[i]))
    ensures End(fields, i + 1) == Offset(fields, i) + Size(fields[i])
  {
  }

  lemma FirstStep(fields: seq<CType>)
    requires |fields| > 0
    ensures Offset(fields, 0) == 0 && End(fields, 1) == Size(fields[0])
  {
    assert End(fields, 0) == 0;
    hide Pow2, AlignUp, Size, AlignLog, Offset, End;
    Step(fields, 0);
    ModZero(0, Pow2(AlignLog(fields[0])), 0);
    AlignUpFixes(0, AlignLog(fields[0]));
  }

  lemma StructSize(fields: seq<CType>)
    ensures Size(Struct(fields)) == AlignUp(End(fields, |fields|), MaxAlignLog(fields))
    ensures AlignLog(Struct(fields)) == MaxAlignLog(fields)
  {
  }

  lemma MaxAlign1(a: CType)
    ensures MaxAlignLog([a]) == AlignLog(a)
  {
    assert [a][1..] == [];
    assert MaxAlignLog([a][1..]) == 0;
  }

  lemma MaxAlign2(a: CType, b: CType)
    ensures MaxAlignLog([a, b]) == Max(AlignLog(a), AlignLog(b))
  {
    MaxAlign1(b);
    assert [a, b][1..] == [b];
  }

  lemma MaxAlign3(a: CType, b: CType, c: CType)
    ensures MaxAlignLog([a, b, c]) == Max(AlignLog(a), Max(AlignLog(b), AlignLog(c)))
  {
    MaxAlign2(b, c);
    assert [a, b, c][1..] == [b, c];
  }

  lemma MaxAlign4(a: CType, b: CType, c: CType, d: CType)
    ensures MaxAlignLog([a, b, c, d]) == Max(AlignLog(a), Max(AlignLog(b), Max(AlignLog(c), AlignLog(d))))
  {
    MaxAlign3(b, c, d);
    assert [a, b, c, d][1..] == [b, c, d];
  }

  lemma MaxAlign5(a: CType, b: CType, c: CType, d: CType, e: CType)
    ensures MaxAlignLog([a, b, c, d, e])
         == Max(AlignLog(a), Max(AlignLog(b), Max(AlignLog(c), Max(AlignLog(d), AlignLog(e)))))
  {
    hide AlignLog;
    MaxAlign4(b, c, d, e);
    assert [a, b, c, d, e][1..] == [b, c, d, e];
  }

  lemma MaxSize2(a: CType, b: CType)
    ensures MaxSize([a, b]) == Max(Size(a), Size(b))
  {
    hide Size;
    assert [a, b][1..] == [b] && [b][1..] == [];
    assert MaxSize([]) == 0;
    assert MaxSize([b]) == Max(Size(b), MaxSize([b][1..]));
  }

  // ---- structs and unions of a few fields

  predicate Shape(t: CType, size: nat, log: nat) {
    Size(t) == size && AlignLog(t) == log
  }

  /** Rounding up to 1, 2, 4 and 8 bytes. */
  lemma SmallAlignments()
    ensures forall x: nat :: AlignUp(x, 0) == x
    ensures forall x: nat :: AlignUp(x, 1) == (x + 1) / 2 * 2
    ensures forall x: nat :: AlignUp(x, 2) == (x + 3) / 4 * 4
    ensures forall x: nat :: AlignUp(x, 3) == (x + 7) / 8 * 8
  {
    Pow2Small();
  }

  /** Where the first two and the first three fields end. */
  lemma FirstEnds(fields: seq<CType>)
    requires |fields| >= 2
    ensures End(fields, 2) == AlignUp(Size(fields[0]), AlignLog(fields[1])) + Size(fields[1])
    ensures |fields| >= 3 ==> End(fields, 3) == AlignUp(End(fields, 2), AlignLog(fields[2])) + Size(fields[2])
  {
    hide Size, Offset, End, AlignUp, AlignLog;
    FirstStep(fields);
    Step(fields, 1);
    if |fields| >= 3 {
      Step(fields, 2);
    }
  }

  lemma Struct2(a: CType, b: CType)
    ensures AlignLog(Struct([a, b])) == Max(AlignLog(a), AlignLog(b))
    ensures Size(Struct([a, b])) == AlignUp(AlignUp(Size(a), AlignLog(b)) + Size(b), AlignLog(Struct([a, b])))
  {
    hide *;
    var fs := [a, b];
    StructSize(fs);
    MaxAlign2(a, b);
    FirstEnds(fs);
  }

  lemma Struct3(a: CType, b: CType, c: CType)
    ensures AlignLog(Struct([a, b, c])) == Max(AlignLog(a), Max(AlignLog(b), AlignLog(c)))
    ensures Size(Struct([a, b, c]))
         == AlignUp(AlignUp(AlignUp(Size(a), AlignLog(b)) + Size(b), AlignLog(c)) + Size(c), AlignLog(Struct([a, b, c])))
  {
    hide *;
    var fs := [a, b, c];
    StructSize(fs);
    MaxAlign3(a, b, c);
    FirstEnds(fs);
  }

  lemma Struct4(a: CType, b: CType, c: CType, d: CType)
    ensures AlignLog(Struct([a, b, c, d])) == Max(AlignLog(a), Max(AlignLog(b), Max(AlignLog(c), AlignLog(d))))
    ensures var end3 := AlignUp(AlignUp(Size(a), AlignLog(b)) + Size(b), AlignLog(c)) + Size(c);
            Size(Struct([a, b, c, d])) == AlignUp(AlignUp(end3, AlignLog(d)) + Size(d), AlignLog(Struct([a, b, c, d])))
  {
    hide *;
    var fs := [a, b, c, d];
    StructSize(fs);
    MaxAlign4(a, b, c, d);
    FirstEnds(fs);
    Step(fs, 3);
  }

  lemma Struct5(a: CType, b: CType, c: CType, d: CType, e: CType)
    ensures AlignLog(Struct([a, b, c, d, e]))
         == Max(AlignLog(a), Max(AlignLog(b), Max(AlignLog(c), Max(AlignLog(d), AlignLog(e)))))
    ensures var end3 := AlignUp(AlignUp(Size(a), AlignLog(b)) + Size(b), AlignLog(c)) + Size(c);
            var end4 := AlignUp(end3, AlignLog(d)) + Size(d);
            Size(Struct([a, b, c, d, e])) == AlignUp(AlignUp(end4, AlignLog(e)) + Size(e), AlignLog(Struct([a, b, c, d, e])))
  {
    hide *;
    var fs := [a, b, c, d, e];
    StructSize(fs);
    MaxAlign5(a, b, c, d, e);
    FirstEnds(fs);
    Step(fs, 3);
    Step(fs, 4);
  }

  /** A union as large and as aligned as its largest and most aligned members. */
  lemma UnionShape(ms: seq<CType>, size: nat, log: nat, i: nat, j: nat)
    requires i < |ms| && Size(ms[i]) == size && j < |ms| && AlignLog(ms[j]) == log
    requires forall k :: 0 <= k < |ms| ==> Size(ms[k]) <= size && AlignLog(ms[k]) <= log
    requires AlignUp(size, log) == size
    ensures Shape(Union(ms), size, log)
  {
    MaxBounds(ms, size, log);
    hide AlignUp;
  }

  lemma {:induction false} MaxBounds(ts: seq<CType>, size: nat, log: nat)
    requires forall k :: 0 <= k < |ts| ==> Size(ts[k]) <= size && AlignLog(ts[k]) <= log
    ensures MaxSize(ts) <= size && MaxAlignLog(ts) <= log
    decreases |ts|
  {
    hide Size, AlignLog;
    if ts != [] {
      MaxBounds(ts[1..], size, log);
    }
  }

  // ---- soundness of the layout

  /** For every well-formed type: every scalar of it is aligned to its own size and lies inside
      the type, and without unions the scalars are in increasing order and none overlap. */
  lemma {:induction false} LayoutSound(t: CType)
    requires WellFormed(t)
    ensures Placed(Leaves(t), AlignLog(t), 0, Size(t))
    ensures UnionFree(t) ==> Ordered(Leaves(t))
    decreases t, 1
  {
    match t
    case Scalar(log) =>
      ModZero(0, Pow2(log), 0);
    case Array(elem, count) =>
      LayoutSound(elem);
      RepeatPlaced(Leaves(elem), AlignLog(elem), Size(elem), count);
      if UnionFree(elem) {
        RepeatOrdered(Leaves(elem), AlignLog(elem), Size(elem), count);
      }
    case Struct(fields) =>
      FieldsSound(fields, |fields|);
      AlignUpMeans(End(fields, |fields|), MaxAlignLog(fields));
      PlacedWiden(Leaves(t), AlignLog(t), 0, End(fields, |fields|), AlignLog(t), 0, Size(t));
    case Union(members) =>
      MembersSound(members, MaxAlignLog(members), MaxSize(members));
      AlignUpMeans(MaxSize(members), MaxAlignLog(members));
      PlacedWiden(Leaves(t), AlignLog(t), 0, MaxSize(members), AlignLog(t), 0, Size(t));
    case AlignedTo(ty, a) =>
      LayoutSound(ty);
      PlacedWiden(Leaves(ty), AlignLog(ty), 0, Size(ty), AlignLog(t), 0, Size(t));
  }

  lemma {:induction false} FieldsSound(fields: seq<CType>, n: nat)
    requires n <= |fields| && forall i :: 0 <= i < |fields| ==> WellFormed(fields[i])
    ensures Placed(FieldLeaves(fields, n), MaxAlignLog(fields), 0, End(fields, n))
    ensures (forall i :: 0 <= i < |fields| ==> UnionFree(fields[i])) ==> Ordered(FieldLeaves(fields, n))
    decreases fields, n
  {
    if n > 0 {
      var f, at := fields[n - 1], Offset(fields, n - 1);
      FieldsSound(fields, n - 1);
      LayoutSound(f);
      OffsetBounds(fields, n - 1);
      JoinField(FieldLeaves(fields, n - 1), Leaves(f), MaxAlignLog(fields), End(fields, n - 1), AlignLog(f), at, Size(f));
    }
  }

  /** Appending the leaves of a field placed at an aligned offset past the others. */
  lemma JoinField(front: seq<Leaf>, ls: seq<Leaf>, a: nat, end: nat, b: nat, at: nat, size: nat)
    requires Placed(front, a, 0, end) && Placed(ls, b, 0, size)
    requires b <= a && end <= at && at % Pow2(b) == 0
    ensures Placed(front + Shift(ls, at), a, 0, at + size)
    ensures Ordered(front) && Ordered(ls) ==> Ordered(front + Shift(ls, at))
  {
    hide Pow2;
    var back := Shift(ls, at);
    ShiftPlaced(ls, b, 0, size, at);
    PlacedWiden(back, b, at, at + size, a, 0, at + size);
    PlacedWiden(front, a, 0, end, a, 0, at + size);
    PlacedJoin(front, back, a, 0, at + size);
    if Ordered(front) && Ordered(ls) {
      PlacedWiden(back, b, at, at + size, a, at, at + size);
      PlacedWiden(front, a, 0, end, a, 0, at);
      OrderedJoin(front, back, a, 0, at, at + size);
    }
  }

  lemma {:induction false} MembersSound(members: seq<CType>, a: nat, size: nat)
    requires forall i :: 0 <= i < |members| ==>
               WellFormed(members[i]) && AlignLog(members[i]) <= a && Size(members[i]) <= size
    ensures Placed(MemberLeaves(members), a, 0, size)
    decreases members
  {
    if members != [] {
      LayoutSound(members[0]);
      PlacedWiden(Leaves(members[0]), AlignLog(members[0]), 0, Size(members[0]), a, 0, size);
      MembersSound(members[1..], a, size);
      PlacedJoin(Leaves(members[0]), MemberLeaves(members[1..]), a, 0, size);
    }
  }

  /** The size of a struct, union, array or scalar is a multiple of its alignment, so arrays of
      it keep every element aligned. */
  lemma SizeAligned(t: CType)
    requires WellFormed(t) && !t.AlignedTo?
    ensures Size(t) % Pow2(AlignLog(t)) == 0
  {
    match t
    case Scalar(log) => ModZero(Pow2(log), Pow2(log), 1);
    case Array(elem, count) => ModMul(count, Size(elem), Pow2(AlignLog(elem)));
    case Struct(fields) => AlignUpMeans(End(fields, |fields|), MaxAlignLog(fields));
    case Union(members) => AlignUpMeans(MaxSize(members), MaxAlignLog(members));
  }

  // ---- nested members

  /** The path of member, element and union member numbers names something inside the type. */
  predicate Designates(t: CType, path: seq<nat>)
    decreases t
  {
    match t
    case AlignedTo(ty, _) => Designates(ty, path)
    case Scalar(_) => path == []
    case Array(elem, count) => path == [] || (path[0] < count && Designates(elem, path[1..]))
    case Struct(fields) => path == [] || (path[0] < |fields| && Designates(fields[path[0]], path[1..]))
    case Union(members) => path == [] || (path[0] < |members| && Designates(members[path[0]], path[1..]))
  }

  /** What the path names. */
  function TypeAt(t: CType, path: seq<nat>): CType
    requires Designates(t, path)
    decreases t
  {
    if path == [] then t else
      match t
      case AlignedTo(ty, _) => TypeAt(ty, path)
      case Array(elem, _) => TypeAt(elem, path[1..])
      case Struct(fields) => TypeAt(fields[path[0]], path[1..])
      case Union(members) => TypeAt(members[path[0]], path[1..])
  }

  /** offsetof with a nested member designator */
  function OffsetAt(t: CType, path: seq<nat>): nat
    requires Designates(t, path)
    decreases t
  {
    if path == [] then 0 else
      match t
      case AlignedTo(ty, _) => OffsetAt(ty, path)
      case Array(elem, _) => Times(path[0], Size(elem)) + OffsetAt(elem, path[1..])
      case Struct(fields) => Offset(fields, path[0]) + OffsetAt(fields[path[0]], path[1..])
      case Union(members) => OffsetAt(members[path[0]], path[1..])
  }

  /** offsetof and sizeof of a nested member. */
  predicate MemberAt(t: CType, path: seq<nat>, offset: nat, size: nat) {
    Designates(t, path) && OffsetAt(t, path) == offset && Size(TypeAt(t, path)) == size
  }

  lemma WholeAt(t: CType)
    ensures MemberAt(t, [], 0, Size(t))
  {
    hide Size;
    if t.AlignedTo? {
      WholeAt(t.ty);
    }
  }

  lemma FieldAt(fields: seq<CType>, i: nat, path: seq<nat>, offset: nat, size: nat)
    requires i < |fields| && MemberAt(fields[i], path, offset, size)
    ensures MemberAt(Struct(fields), [i] + path, Offset(fields, i) + offset, size)
  {
    hide Offset, Size;
    assert ([i] + path)[1..] == path;
  }

  lemma UnionMemberAt(members: seq<CType>, i: nat, path: seq<nat>, offset: nat, size: nat)
    requires i < |members| && MemberAt(members[i], path, offset, size)
    ensures MemberAt(Union(members), [i] + path, offset, size)
  {
    hide Size;
    assert ([i] + path)[1..] == path;
  }

  /** ms, moved by delta, is the part of ls that starts at k. */
  predicate PartAt(ls: seq<Leaf>, k: nat, ms: seq<Leaf>, delta: nat) {
    k + |ms| <= |ls| && ls[k..k + |ms|] == Shift(ms, delta)
  }

  lemma PartOfPart(ls: seq<Leaf>, k: nat, ms: seq<Leaf>, delta: nat, j: nat, ns: seq<Leaf>, eps: nat)
    requires PartAt(ls, k, ms, delta) && PartAt(ms, j, ns, eps)
    ensures PartAt(ls, k + j, ns, delta + eps)
  {
    var whole, part := ls[k..k + |ms|], ls[k + j..k + j + |ns|];
    forall i | 0 <= i < |ns|
      ensures part[i] == Leaf(ns[i].offset + (delta + eps), ns[i].log)
    {
      assert part[i] == whole[j + i] && ms[j..j + |ns|][i] == ms[j + i];
    }
  }

  lemma PartGrows(ls: seq<Leaf>, more: seq<Leaf>, k: nat, ms: seq<Leaf>, delta: nat)
    requires PartAt(ls, k, ms, delta)
    ensures PartAt(ls + more, k, ms, delta) && PartAt(more + ls, |more| + k, ms, delta)
  {
    assert (ls + more)[k..k + |ms|] == ls[k..k + |ms|];
    assert (more + ls)[|more| + k..|more| + k + |ms|] == ls[k..k + |ms|];
  }

  lemma PartLast(ls: seq<Leaf>, ms: seq<Leaf>, delta: nat)
    ensures PartAt(ls + Shift(ms, delta), |ls|, ms, delta)
  {
  }

  lemma PartWhole(ls: seq<Leaf>)
    ensures PartAt(ls, 0, ls, 0)
  {
    assert ls[0..|ls|] == ls;
  }

  lemma {:induction false} FieldPart(fields: seq<CType>, n: nat, i: nat) returns (k: nat)
    requires i < n <= |fields|
    ensures PartAt(FieldLeaves(fields, n), k, Leaves(fields[i]), Offset(fields, i))
    decreases n
  {
    var front := FieldLeaves(fields, n - 1);
    hide Leaves, Offset, PartAt;
    if i == n - 1 {
      k := |front|;
      PartLast(front, Leaves(fields[i]), Offset(fields, i));
    } else {
      k := FieldPart(fields, n - 1, i);
      PartGrows(front, Shift(Leaves(fields[n - 1]), Offset(fields, n - 1)), k, Leaves(fields[i]), Offset(fields, i));
    }
  }

  lemma {:induction false} RepeatPart(ls: seq<Leaf>, stride: nat, count: nat, i: nat) returns (k: nat)
    requires i < count
    ensures PartAt(Repeat(ls, stride, count), k, ls, Times(i, stride))
    decreases count
  {
    var front := Repeat(ls, stride, count - 1);
    hide PartAt;
    if i == count - 1 {
      k := |front|;
      PartLast(front, ls, i * stride);
    } else {
      k := RepeatPart(ls, stride, count - 1, i);
      PartGrows(front, Shift(ls, (count - 1) * stride), k, ls, Times(i, stride));
    }
  }

  lemma {:induction false} MemberPart(members: seq<CType>, i: nat) returns (k: nat)
    requires i < |members|
    ensures PartAt(MemberLeaves(members), k, Leaves(members[i]), 0)
    decreases |members|
  {
    var first, rest := Leaves(members[0]), MemberLeaves(members[1..]);
    hide Leaves, PartAt;
    if i == 0 {
      k := 0;
      PartWhole(first);
      PartGrows(first, rest, 0, first, 0);
    } else {
      var j := MemberPart(members[1..], i - 1);
      k := |first| + j;
      PartGrows(rest, first, j, Leaves(members[i]), 0);
    }
  }

  /** offsetof is where the layout puts the member: its scalars are consecutive scalars of the
      whole object, each at its own offset plus the member's. */
  lemma {:induction false} OffsetAtMeans(t: CType, path: seq<nat>) returns (k: nat)
    requires Designates(t, path)
    ensures PartAt(Leaves(t), k, Leaves(TypeAt(t, path)), OffsetAt(t, path))
    decreases t
  {
    hide PartAt;
    if path == [] {
      k := 0;
      PartWhole(Leaves(t));
    } else {
      match t
      case AlignedTo(ty, _) => k := OffsetAtMeans(ty, path);
      case Array(elem, count) =>
        var j := RepeatPart(Leaves(elem), Size(elem), count, path[0]);
        var l := OffsetAtMeans(elem, path[1..]);
        PartOfPart(Leaves(t), j, Leaves(elem), Times(path[0], Size(elem)), l, Leaves(TypeAt(t, path)), OffsetAt(elem, path[1..]));
        k := j + l;
      case Struct(fields) =>
        var f := fields[path[0]];
        var j := FieldPart(fields, |fields|, path[0]);
        var l := OffsetAtMeans(f, path[1..]);
        PartOfPart(Leaves(t), j, Leaves(f), Offset(fields, path[0]), l, Leaves(TypeAt(t, path)), OffsetAt(f, path[1..]));
        k := j + l;
      case Union(members) =>
        var f := members[path[0]];
        var j := MemberPart(members, path[0]);
        var l := OffsetAtMeans(f, path[1..]);
        PartOfPart(Leaves(t), j, Leaves(f), 0, l, Leaves(TypeAt(t, path)), OffsetAt(f, path[1..]));
        k := j + l;
    }
  }

  // ---- C types are well formed

  /** No array element is given more alignment than its type has. */
  predicate PlainArrays(t: CType) {
    match t
    case Scalar(_) => true
    case Array(elem, _) => !elem.AlignedTo? && PlainArrays(elem)
    case Struct(fields) => forall i :: 0 <= i < |fields| ==> PlainArrays(fields[i])
    case Union(members) => forall i :: 0 <= i < |members| ==> PlainArrays(members[i])
    case AlignedTo(ty, _) => PlainArrays(ty)
  }

  lemma {:induction false} PlainWellFormed(t: CType)
    requires PlainArrays(t)
    ensures WellFormed(t)
    decreases t
  {
    hide Size, Pow2, AlignLog;
    match t
    case Scalar(_) =>
    case Array(elem, _) =>
      PlainWellFormed(elem);
      SizeAligned(elem);
    case Struct(fields) =>
      forall i | 0 <= i < |fields|
        ensures WellFormed(fields[i])
      {
        PlainWellFormed(fields[i]);
      }
    case Union(members) =>
      forall i | 0 <= i < |members|
        ensures WellFormed(members[i])
      {
        PlainWellFormed(members[i]);
      }
    case AlignedTo(ty, _) => PlainWellFormed(ty);
  }

  // ---- homogeneous types: register files

  /** Every scalar has 2^log bytes and nothing raises an alignment. */
  predicate Homogeneous(t: CType, log: nat) {
    match t
    case Scalar(l) => l == log
    case Array(elem, _) => Homogeneous(elem, log)
    case Struct(fields) => |fields| > 0 && forall i :: 0 <= i < |fields| ==> Homogeneous(fields[i], log)
    case Union(_) => false
    case AlignedTo(_, _) => false
  }

  /** Leaf k of a run of equal scalars is at k times their size. */
  predicate Dense(ls: seq<Leaf>, log: nat) {
    forall k :: 0 <= k < |ls| ==> ls[k] == Leaf(k * Pow2(log), log)
  }

  lemma DenseJoin(ls: seq<Leaf>, ms: seq<Leaf>, log: nat)
    requires Dense(ls, log) && Dense(ms, log)
    ensures Dense(ls + Shift(ms, |ls| * Pow2(log)), log)
  {
    hide Pow2;
    var p, all := Pow2(log), ls + Shift(ms, |ls| * Pow2(log));
    forall k | 0 <= k < |all|
      ensures all[k] == Leaf(k * p, log)
    {
      if k >= |ls| {
        assert (k - |ls|) * p + |ls| * p == k * p;
      }
    }
  }

  /** A homogeneous type is a packed array of its scalars, however deeply it is nested. */
  lemma {:induction false} HomogeneousDense(t: CType, log: nat)
    requires Homogeneous(t, log)
    ensures Dense(Leaves(t), log) && Size(t) == |Leaves(t)| * Pow2(log) && AlignLog(t) == log
    decreases t, 1
  {
    match t
    case Scalar(_) =>
    case Array(elem, count) =>
      HomogeneousDense(elem, log);
      RepeatDense(Leaves(elem), log, count);
    case Struct(fields) =>
      HomogeneousFields(fields, |fields|, log);
      MaxOfEqual(fields, log);
      ModZero(End(fields, |fields|), Pow2(log), |FieldLeaves(fields, |fields|)|);
      AlignUpFixes(End(fields, |fields|), log);
  }

  lemma {:induction false} RepeatDense(ls: seq<Leaf>, log: nat, count: nat)
    requires Dense(ls, log)
    ensures Dense(Repeat(ls, |ls| * Pow2(log), count), log)
    ensures |Repeat(ls, |ls| * Pow2(log), count)| == count * |ls|
    ensures count * (|ls| * Pow2(log)) == (count * |ls|) * Pow2(log)
    decreases count
  {
    hide Pow2;
    var p, stride := Pow2(log), |ls| * Pow2(log);
    assert count * (|ls| * p) == (count * |ls|) * p;
    if count > 0 {
      RepeatDense(ls, log, count - 1);
      DenseJoin(Repeat(ls, stride, count - 1), ls, log);
      assert (count - 1) * stride == ((count - 1) * |ls|) * p;
      assert (count - 1) * |ls| + |ls| == count * |ls|;
    }
  }

  lemma {:induction false} HomogeneousFields(fields: seq<CType>, n: nat, log: nat)
    requires n <= |fields| && forall i :: 0 <= i < |fields| ==> Homogeneous(fields[i], log)
    ensures Dense(FieldLeaves(fields, n), log) && End(fields, n) == |FieldLeaves(fields, n)| * Pow2(log)
    decreases fields, n
  {
    hide Pow2, Homogeneous, AlignUp, Dense;
    if n == 0 {
      NoneDense(log);
    } else {
      var front, ls := FieldLeaves(fields, n - 1), Leaves(fields[n - 1]);
      HomogeneousFields(fields, n - 1, log);
      HomogeneousDense(fields[n - 1], log);
      ModZero(End(fields, n - 1), Pow2(log), |front|);
      AlignUpFixes(End(fields, n - 1), log);
      DenseJoin(front, ls, log);
      Distribute(|front|, |ls|, Pow2(log));
    }
  }

  lemma NoneDense(log: nat)
    ensures Dense([], log)
  {
  }

  lemma {:induction false} MaxOfEqual(ts: seq<CType>, log: nat)
    requires |ts| > 0 && forall i :: 0 <= i < |ts| ==> Homogeneous(ts[i], log)
    ensures MaxAlignLog(ts) == log
    decreases ts, 0
  {
    HomogeneousDense(ts[0], log);
    if |ts| > 1 {
      MaxOfEqual(ts[1..], log);
    }
  }

  function Quotient(x: nat, p: nat): nat
    requires p > 0
  {
    x / p
  }

  /** `offsetof(struct, name) / sizeof(unit)` for the scalar number k */
  function RegIndex(t: CType, log: nat, k: nat): nat
    requires k < |Leaves(t)|
  {
    Quotient(Leaves(t)[k].offset, Pow2(log))
  }

  /** The index macros number the registers of a homogeneous struct 0, 1, 2, ... */
  lemma RegIndexDense(t: CType, log: nat, k: nat)
    requires Homogeneous(t, log) && k < |Leaves(t)|
    ensures RegIndex(t, log, k) == k
    ensures k < Size(t) / Pow2(log) == |Leaves(t)|
  {
    HomogeneousDense(t, log);
    hide Pow2, Size, Leaves;
    DivUnique(Leaves(t)[k].offset, Pow2(log), k, 0);
    DivUnique(Size(t), Pow2(log), |Leaves(t)|, 0);
  }
}
