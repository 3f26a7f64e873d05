/** The engine grid of i915_context_engines_parallel_submit. */
module ParallelSubmit {
  import opened Bits

  /** An engine of the grid: its class and its logical instance within the class. */
  datatype Engine = Engine(cls: nat, logical: nat)

  /** index = j + i * num_siblings, for context i (below width) and sibling j */
  function Index(siblings: nat, i: nat, j: nat): nat {
    j + i * siblings
  }

  /** The index covers the array: each slot is one grid position and each position one slot. */
  lemma IndexBijective(width: nat, siblings: nat, k: nat)
    requires k < width * siblings
    ensures siblings > 0 && k / siblings < width && k % siblings < siblings
    ensures Index(siblings, k / siblings, k % siblings) == k
    ensures forall i: nat, j: nat :: i < width && j < siblings && Index(siblings, i, j) == k
                                     ==> i == k / siblings && j == k % siblings
  {
    assert siblings > 0 by {
      if siblings == 0 {
        assert false;
      }
    }
    var q := k / siblings;
    assert k == q * siblings + k % siblings;
    if q >= width {
      MulMonotone(width, q, siblings);
    }
    forall i: nat, j: nat | i < width && j < siblings && Index(siblings, i, j) == k
      ensures i == q && j == k % siblings
    {
      EuclidUnique(siblings, i, j, q, k % siblings);
    }
  }

  lemma MulMonotone(x: nat, y: nat, p: nat)
    requires x <= y
    ensures x * p <= y * p
  {
    if x < y {
      MulGap(x, y, p);
    }
  }

  lemma IndexInBounds(width: nat, siblings: nat, i: nat, j: nat)
    requires i < width && j < siblings
    ensures Index(siblings, i, j) < width * siblings
  {
    MulGap(i, width, siblings);
  }

  // ---- what the header demands

  /** All contexts are of the same engine class. */
  ghost predicate SameClass(engines: seq<Engine>) {
    forall k, l :: 0 <= k < |engines| && 0 <= l < |engines| ==> engines[k].cls == engines[l].cls
  }

  /** Placement j, a vertical column of the grid, is in logically contiguous order. */
  ghost predicate ColumnContiguous(engines: seq<Engine>, width: nat, siblings: nat, j: nat)
    requires |engines| == width * siblings && j < siblings
  {
    forall i: nat {:trigger Index(siblings, i, j)} :: i < width ==>
      && Index(siblings, i, j) < |engines| && Index(siblings, 0, j) < |engines|
      && engines[Index(siblings, i, j)].logical == engines[Index(siblings, 0, j)].logical + i
  }

  ghost predicate Placeable(engines: seq<Engine>, width: nat, siblings: nat)
    requires |engines| == width * siblings
  {
    SameClass(engines) && forall j: nat :: j < siblings ==> ColumnContiguous(engines, width, siblings, j)
  }

  // ---- one pass over the flat array

  /** Engine k has the class of the first one and, past the first row, comes logically right
      after the engine a whole row before it. */
  predicate EngineOk(engines: seq<Engine>, siblings: nat, k: nat)
    requires k < |engines|
  {
    && engines[k].cls == engines[0].cls
    && (k < siblings || engines[k].logical == engines[k - siblings].logical + 1)
  }

  predicate ScanAccepts(engines: seq<Engine>, siblings: nat) {
    forall k {:trigger EngineOk(engines, siblings, k)} :: 0 <= k < |engines| ==> EngineOk(engines, siblings, k)
  }

  lemma {:induction false} ScanDown(engines: seq<Engine>, width: nat, siblings: nat, i: nat, j: nat)
    requires |engines| == width * siblings && i < width && j < siblings
    requires ScanAccepts(engines, siblings)
    ensures Index(siblings, i, j) < |engines| && Index(siblings, 0, j) < |engines|
    ensures engines[Index(siblings, i, j)].logical == engines[Index(siblings, 0, j)].logical + i
  {
    IndexInBounds(width, siblings, i, j);
    IndexInBounds(width, siblings, 0, j);
    if i > 0 {
      ScanDown(engines, width, siblings, i - 1, j);
      RowAbove(siblings, i, j);
      assert EngineOk(engines, siblings, Index(siblings, i, j));
    }
  }

  lemma RowAbove(siblings: nat, i: nat, j: nat)
    requires i > 0
    ensures Index(siblings, i - 1, j) == Index(siblings, i, j) - siblings >= 0
  {
    assert i * siblings == (i - 1) * siblings + siblings;
  }

  lemma ColumnStep(engines: seq<Engine>, width: nat, siblings: nat, k: nat)
    requires |engines| == width * siblings && siblings <= k < |engines|
    requires siblings > 0 && ColumnContiguous(engines, width, siblings, k % siblings)
    ensures engines[k].logical == engines[k - siblings].logical + 1
  {
    IndexBijective(width, siblings, k);
    var i, j := k / siblings, k % siblings;
    assert k == i * siblings + j;
    assert i > 0;
    RowAbove(siblings, i, j);
    assert Index(siblings, i - 1, j) < |engines|;
  }

  /** The flat conditions hold exactly when all engines are of one class and every placement is
      logically contiguous, for all widths and sibling counts. */
  lemma ScanExact(engines: seq<Engine>, width: nat, siblings: nat)
    requires |engines| == width * siblings
    ensures ScanAccepts(engines, siblings) <==> Placeable(engines, width, siblings)
  {
    if ScanAccepts(engines, siblings) {
      forall k, l | 0 <= k < |engines| && 0 <= l < |engines|
        ensures engines[k].cls == engines[l].cls
      {
        assert EngineOk(engines, siblings, k) && EngineOk(engines, siblings, l);
      }
      forall j: nat | j < siblings
        ensures ColumnContiguous(engines, width, siblings, j)
      {
        forall i: nat | i < width
          ensures Index(siblings, i, j) < |engines| && Index(siblings, 0, j) < |engines|
          ensures engines[Index(siblings, i, j)].logical == engines[Index(siblings, 0, j)].logical + i
        {
          ScanDown(engines, width, siblings, i, j);
        }
      }
    }
    if Placeable(engines, width, siblings) {
      forall k | 0 <= k < |engines|
        ensures EngineOk(engines, siblings, k)
      {
        if k >= siblings {
          IndexBijective(width, siblings, k);
          ColumnStep(engines, width, siblings, k);
        }
      }
    }
  }

  /** One pass over the flat array, with early exit, decides whether a configuration may be
      placed. */
  method Accept(engines: seq<Engine>, width: nat, siblings: nat) returns (ok: bool)
    requires |engines| == width * siblings
    ensures ok <==> Placeable(engines, width, siblings)
  {
    ok := true;
    var k := 0;
    while k < |engines| && ok
      invariant k <= |engines|
      invariant ok <==> forall i {:trigger EngineOk(engines, siblings, i)} :: 0 <= i < k ==> EngineOk(engines, siblings, i)
    {
      ok := engines[k].cls == engines[0].cls && (k < siblings || engines[k].logical == engines[k - siblings].logical + 1);
      assert ok == EngineOk(engines, siblings, k);
      k := k + 1;
    }
    ScanExact(engines, width, siblings);
  }

  /** The three examples of the header: the first two are accepted and the third is not.  Columns
      of different classes are not accepted together. */
  lemma HeaderExamples(c: nat, d: nat)
    ensures Placeable([Engine(c, 0), Engine(c, 1)], 2, 1)
    ensures Placeable([Engine(c, 0), Engine(c, 2), Engine(c, 1), Engine(c, 3)], 2, 2)
    ensures !Placeable([Engine(c, 0), Engine(c, 1), Engine(c, 1), Engine(c, 3)], 2, 2)
    ensures Placeable([Engine(c, 0), Engine(d, 5), Engine(c, 1), Engine(d, 6)], 2, 2) <==> c == d
  {
    var third := [Engine(c, 0), Engine(c, 1), Engine(c, 1), Engine(c, 3)];
    var mixed := [Engine(c, 0), Engine(d, 5), Engine(c, 1), Engine(d, 6)];
    ScanExact([Engine(c, 0), Engine(c, 1)], 2, 1);
    ScanExact([Engine(c, 0), Engine(c, 2), Engine(c, 1), Engine(c, 3)], 2, 2);
    ScanExact(third, 2, 2);
    ScanExact(mixed, 2, 2);
    assert !EngineOk(third, 2, 3);
    assert EngineOk(mixed, 2, 1) <==> c == d;
  }
}
