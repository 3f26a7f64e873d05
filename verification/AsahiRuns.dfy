/** The runs of AsahiQueue in terms of what user space submitted: which queue entry a submitted
    command becomes, and when it may start and finish given only the steps taken so far. */
module AsahiRuns {
  import opened AsahiCmdbuf
  import opened AsahiQueue

  /** A hardware command: its position in the commands of a Submit step. */
  datatype Place = Place(step: nat, pos: nat)

  predicate IsPlace(steps: seq<Step>, p: Place) {
    && p.step < |steps| && steps[p.step].Submit?
    && p.pos < |steps[p.step].cmds| && steps[p.step].cmds[p.pos].Hardware?
  }

  function CommandAt(steps: seq<Step>, p: Place): (c: Command)
    requires IsPlace(steps, p)
    ensures c.Hardware?
  {
    steps[p.step].cmds[p.pos]
  }

  /** How many hardware commands of a submit come before position i. */
  function Slot(cmds: seq<Command>, i: nat): nat
    requires i <= |cmds|
  {
    |Earlier(cmds, i, false)| + |Earlier(cmds, i, true)|
  }

  /** How many hardware commands the steps submitted. */
  function Queued(steps: seq<Step>): nat {
    if steps == [] then 0 else
      var last := steps[|steps| - 1];
      Queued(steps[..|steps| - 1]) + (if last.Submit? then Slot(last.cmds, |last.cmds|) else 0)
  }

  /** The queue entry of a command: those of earlier submits come first, then those before it in
      its own submit. */
  function Index(steps: seq<Step>, p: Place): nat
    requires IsPlace(steps, p)
  {
    Queued(steps[..p.step]) + Slot(steps[p.step].cmds, p.pos)
  }

  /** What the header's barriers make command p wait for: with a barrier of N on q's subqueue, the
      first N commands of that subqueue in p's own submit; with a barrier of 0, or of any N under
      the cumulative reading, every command of that subqueue in earlier submits. */
  predicate WaitsFor(r: Reading, steps: seq<Step>, p: Place, q: Place)
    requires IsPlace(steps, p) && IsPlace(steps, q)
  {
    var c, onto := CommandAt(steps, p), CommandAt(steps, q).compute;
    var n := if onto then c.cdm else c.vdm;
    && n != 0xFFFF
    && (if q.step == p.step then |Earlier(steps[p.step].cmds, q.pos, onto)| < n
        else q.step < p.step && (n == 0 || r.Cumulative?))
  }

  // ---- a submit appends its commands as they are

  lemma SlotStep(cmds: seq<Command>, i: nat)
    requires i < |cmds|
    ensures Slot(cmds, i + 1) == Slot(cmds, i) + (if cmds[i].Hardware? then 1 else 0)
  {
    hide Earlier;
    EarlierStep(cmds, i, false);
    EarlierStep(cmds, i, true);
  }

  lemma {:induction false} SlotMonotone(cmds: seq<Command>, i: nat, j: nat)
    requires i <= j <= |cmds|
    ensures Slot(cmds, i) <= Slot(cmds, j)
    ensures i < j && cmds[i].Hardware? ==> Slot(cmds, i) < Slot(cmds, j)
    decreases j - i
  {
    hide Slot;
    if i < j {
      SlotStep(cmds, i);
      SlotMonotone(cmds, i + 1, j);
    }
  }

  lemma {:induction false} JobsSlots(cmds: seq<Command>, base: nat, end: nat, n: nat, i: nat)
    requires i <= n <= |cmds|
    ensures |Jobs(cmds[..n], base, end)| == Slot(cmds, n)
    ensures i < n && cmds[i].Hardware? ==>
              && Slot(cmds, i) < Slot(cmds, n)
              && Jobs(cmds[..n], base, end)[Slot(cmds, i)] == Job(cmds[i].compute, cmds[i].vdm, cmds[i].cdm, base, end)
    decreases n
  {
    CountIsSize(cmds, n, false);
    CountIsSize(cmds, n, true);
    hide Count, Earlier;
    if n > 0 {
      assert cmds[..n][..n - 1] == cmds[..n - 1];
      SlotStep(cmds, n - 1);
      JobsSlots(cmds, base, end, n - 1, if i < n then i else n - 1);
    }
  }

  /** Every hardware command of a submit becomes the queue entry at its place, waiting, with its
      own subqueue and its own two barriers; nothing else is added and older entries stay. */
  lemma QueuedAs(s: State, cmds: seq<Command>, i: nat)
    requires |s.phase| == |s.jobs| && i < |cmds| && cmds[i].Hardware?
    ensures var s', x := Apply(s, Submit(cmds)), |s.jobs| + Slot(cmds, i);
            && x < |s'.jobs| == |s.jobs| + Slot(cmds, |cmds|)
            && s'.jobs[x] == Job(cmds[i].compute, cmds[i].vdm, cmds[i].cdm, |s.jobs|, |s'.jobs|)
            && s'.phase[x] == Waiting
            && s'.jobs[..|s.jobs|] == s.jobs && s'.phase[..|s.jobs|] == s.phase
  {
    AddedSize(s, cmds);
    assert cmds[..|cmds|] == cmds;
    JobsSlots(cmds, |s.jobs|, |Apply(s, Submit(cmds)).jobs|, |cmds|, i);
    hide Jobs, Count, Slot;
  }

  lemma AddedSize(s: State, cmds: seq<Command>)
    requires |s.phase| == |s.jobs|
    ensures |Apply(s, Submit(cmds)).jobs| == |s.jobs| + Slot(cmds, |cmds|)
    ensures Enqueued(s, cmds) == Jobs(cmds, |s.jobs|, |Apply(s, Submit(cmds)).jobs|)
  {
    assert cmds[..|cmds|] == cmds;
    CountIsSize(cmds, |cmds|, false);
    CountIsSize(cmds, |cmds|, true);
    hide Jobs, Count, Earlier;
  }

  // ---- the queue after a run

  lemma {:induction false} AfterSnoc(s: State, steps: seq<Step>)
    requires |s.phase| == |s.jobs| && steps != []
    ensures After(s, steps) == Apply(After(s, steps[..|steps| - 1]), steps[|steps| - 1])
    decreases |steps|
  {
    hide Apply;
    if |steps| > 1 {
      AfterSnoc(Apply(s, steps[0]), steps[1..]);
      assert steps[1..][..|steps| - 2] == steps[..|steps| - 1][1..];
    }
  }

  lemma {:induction false} QueuedMonotone(steps: seq<Step>, m: nat, n: nat)
    requires m <= n <= |steps|
    ensures Queued(steps[..m]) <= Queued(steps[..n])
    ensures m < n && steps[m].Submit? ==>
              Queued(steps[..m]) + Slot(steps[m].cmds, |steps[m].cmds|) <= Queued(steps[..n])
    decreases n
  {
    hide Slot;
    if m < n {
      assert steps[..n][..n - 1] == steps[..n - 1];
      QueuedMonotone(steps, m, n - 1);
    }
  }

  lemma IndexBounds(steps: seq<Step>, p: Place, n: nat)
    requires IsPlace(steps, p) && n <= |steps|
    ensures p.step < n ==> Index(steps, p) < Queued(steps[..p.step + 1]) <= Queued(steps[..n])
    ensures n <= p.step ==> Queued(steps[..n]) <= Index(steps, p)
  {
    var cmds := steps[p.step].cmds;
    SlotMonotone(cmds, p.pos, |cmds|);
    QueuedMonotone(steps, p.step, p.step + 1);
    if p.step < n {
      QueuedMonotone(steps, p.step + 1, n);
    } else {
      QueuedMonotone(steps, n, p.step);
    }
    hide Queued, Slot;
  }

  ghost predicate EntryIs(jobs: seq<Job>, steps: seq<Step>, p: Place)
    requires IsPlace(steps, p)
  {
    var c, x := CommandAt(steps, p), Index(steps, p);
    x < |jobs|
    && jobs[x] == Job(c.compute, c.vdm, c.cdm, Queued(steps[..p.step]), Queued(steps[..p.step + 1]))
  }

  lemma {:induction false} QueueSize(r: Reading, steps: seq<Step>)
    ensures |After(Init(r), steps).jobs| == Queued(steps)
    decreases |steps|
  {
    hide After, Slot, Jobs;
    if steps == [] {
      Nothing(r);
    } else {
      var n := |steps| - 1;
      var s, last := After(Init(r), steps[..n]), steps[n];
      QueueSize(r, steps[..n]);
      AfterSnoc(Init(r), steps);
      if last.Submit? {
        AddedSize(s, last.cmds);
      }
    }
  }

  lemma Nothing(r: Reading)
    ensures After(Init(r), []) == Init(r)
  {
  }

  /** After any steps, the queue holds the command of every submitted place at its index. */
  lemma {:induction false} Entries(r: Reading, steps: seq<Step>, p: Place)
    requires IsPlace(steps, p)
    ensures EntryIs(After(Init(r), steps).jobs, steps, p)
    decreases |steps|
  {
    hide After, Slot, Jobs, Queued;
    var n := |steps| - 1;
    var front, last := steps[..n], steps[n];
    var s := After(Init(r), front);
    AfterSnoc(Init(r), steps);
    QueueSize(r, front);
    QueueSize(r, steps);
    assert steps[..n + 1] == steps;
    if p.step < n {
      Entries(r, front, p);
      assert front[..p.step] == steps[..p.step] && front[..p.step + 1] == steps[..p.step + 1];
      KeepsEntries(s, last, Index(front, p));
    } else {
      QueuedAs(s, last.cmds, p.pos);
    }
  }

  lemma KeepsEntries(s: State, step: Step, x: nat)
    requires |s.phase| == |s.jobs| && x < |s.jobs|
    ensures x < |Apply(s, step).jobs| && Apply(s, step).jobs[x] == s.jobs[x]
  {
    hide Jobs;
  }

  /** Every queue entry is the command of some place. */
  lemma {:induction false} PlaceOf(steps: seq<Step>, x: nat) returns (p: Place)
    requires x < Queued(steps)
    ensures IsPlace(steps, p) && Index(steps, p) == x
    decreases |steps|
  {
    hide Slot;
    var n := |steps| - 1;
    if x < Queued(steps[..n]) {
      p := PlaceOf(steps[..n], x);
      assert steps[..n][..p.step] == steps[..p.step];
    } else {
      var pos := CommandOf(steps[n].cmds, |steps[n].cmds|, x - Queued(steps[..n]));
      p := Place(n, pos);
    }
  }

  lemma {:induction false} CommandOf(cmds: seq<Command>, n: nat, k: nat) returns (i: nat)
    requires n <= |cmds| && k < Slot(cmds, n)
    ensures i < n && cmds[i].Hardware? && Slot(cmds, i) == k
    decreases n
  {
    hide Slot;
    NoneEarlier(cmds);
    SlotStep(cmds, n - 1);
    if k < Slot(cmds, n - 1) {
      i := CommandOf(cmds, n - 1, k);
    } else {
      i := n - 1;
    }
  }

  // ---- what an entry waits for

  /** Among the entries of one submit, the rank on a subqueue is the number of earlier commands
      of that subqueue. */
  lemma {:induction false} RankIsEarlier(r: Reading, steps: seq<Step>, n: nat, i: nat, compute: bool)
    requires n < |steps| && steps[n].Submit? && i <= |steps[n].cmds|
    ensures var jobs, base := After(Init(r), steps).jobs, Queued(steps[..n]);
            && base + Slot(steps[n].cmds, i) <= |jobs|
            && Rank(jobs, compute, base, base + Slot(steps[n].cmds, i)) == |Earlier(steps[n].cmds, i, compute)|
    decreases i
  {
    hide After, Slot, Earlier, Queued;
    var cmds := steps[n].cmds;
    QueueSize(r, steps);
    QueuedMonotone(steps, n, |steps|);
    SlotMonotone(cmds, i, |cmds|);
    assert steps[..|steps|] == steps;
    if i == 0 {
      NoneEarlier(cmds);
    } else {
      RankIsEarlier(r, steps, n, i - 1, compute);
      SlotStep(cmds, i - 1);
      EarlierStep(cmds, i - 1, compute);
      if cmds[i - 1].Hardware? {
        Entries(r, steps, Place(n, i - 1));
      }
    }
  }

  lemma NoneEarlier(cmds: seq<Command>)
    ensures Slot(cmds, 0) == 0 && Earlier(cmds, 0, false) == {} == Earlier(cmds, 0, true)
  {
  }

  /** The queue's waiting rule is the header's rule on the submitted commands. */
  lemma CoversMeans(r: Reading, steps: seq<Step>, p: Place, q: Place)
    requires IsPlace(steps, p) && IsPlace(steps, q)
    ensures var jobs := After(Init(r), steps).jobs;
            && Index(steps, p) < |jobs| && Index(steps, q) < |jobs|
            && (Covers(r, jobs, Index(steps, p), Index(steps, q)) <==> WaitsFor(r, steps, p, q))
  {
    hide After, Slot, Earlier, Queued, Rank;
    Entries(r, steps, p);
    Entries(r, steps, q);
    if q.step == p.step {
      RankIsEarlier(r, steps, p.step, q.pos, CommandAt(steps, q).compute);
      IndexBounds(steps, q, q.step + 1);
    } else if q.step < p.step {
      IndexBounds(steps, q, p.step);
    } else {
      IndexBounds(steps, q, p.step + 1);
      IndexBounds(steps, p, p.step + 1);
    }
  }

  // ---- which steps a run may take next

  lemma {:induction false} PhaseMeans(r: Reading, steps: seq<Step>, x: nat)
    requires IsRun(Init(r), steps) && x < Queued(steps)
    ensures var s := After(Init(r), steps);
            && x < |s.phase| && (s.phase[x] == Waiting <==> Start(x) !in steps)
            && (s.phase[x] == Done <==> Finish(x) in steps)
    decreases |steps|
  {
    hide After, Slot, Jobs, IsRun, Ready, BarriersOk;
    var n := |steps| - 1;
    var front, last := steps[..n], steps[n];
    AfterSnoc(Init(r), steps);
    RunSplits(Init(r), steps, n);
    QueueSize(r, front);
    QueueSize(r, steps);
    assert steps == front + [last];
    if x < Queued(front) {
      PhaseMeans(r, front, x);
    } else {
      NotYetQueued(r, front, x);
    }
  }

  lemma NotYetQueued(r: Reading, steps: seq<Step>, x: nat)
    requires IsRun(Init(r), steps) && Queued(steps) <= x
    ensures Start(x) !in steps && Finish(x) !in steps
  {
    hide After, IsRun, Ready, BarriersOk, Queued;
    forall m | 0 <= m < |steps|
      ensures steps[m] != Start(x) && steps[m] != Finish(x)
    {
      RunSplits(Init(r), steps, m);
      QueueSize(r, steps[..m]);
      QueuedMonotone(steps, m, |steps|);
      assert steps[..|steps|] == steps;
    }
  }

  ghost predicate AllFinished(r: Reading, steps: seq<Step>, p: Place)
    requires IsPlace(steps, p)
  {
    forall q {:trigger IsPlace(steps, q)} :: IsPlace(steps, q) && WaitsFor(r, steps, p, q) ==> Finish(Index(steps, q)) in steps
  }

  lemma ReadyMeans(r: Reading, steps: seq<Step>, p: Place)
    requires IsRun(Init(r), steps) && IsPlace(steps, p)
    ensures Index(steps, p) < |After(Init(r), steps).jobs|
    ensures Ready(After(Init(r), steps), Index(steps, p)) <==> AllFinished(r, steps, p)
  {
    hide After, Index, IsRun, Covers, WaitsFor, IsPlace, Queued;
    var s, x := After(Init(r), steps), Index(steps, p);
    QueueSize(r, steps);
    KeepsReading(Init(r), steps);
    CoversMeans(r, steps, p, p);
    if Ready(s, x) {
      forall q | IsPlace(steps, q) && WaitsFor(r, steps, p, q)
        ensures Finish(Index(steps, q)) in steps
      {
        CoversMeans(r, steps, p, q);
        assert s.phase[Index(steps, q)] == Done;
        PhaseMeans(r, steps, Index(steps, q));
      }
    }
    if AllFinished(r, steps, p) {
      forall k | 0 <= k < |s.jobs| && Covers(s.reading, s.jobs, x, k)
        ensures s.phase[k] == Done
      {
        var q := PlaceOf(steps, k);
        CoversMeans(r, steps, p, q);
        PhaseMeans(r, steps, k);
      }
    }
  }

  /** After every run, in terms of the submitted commands alone: command p may start exactly when
      it has not started and every command its barriers name has finished, and may finish exactly
      when it has started and not finished. */
  lemma NextSteps(r: Reading, steps: seq<Step>, p: Place)
    requires IsRun(Init(r), steps) && IsPlace(steps, p)
    ensures Enabled(After(Init(r), steps), Start(Index(steps, p)))
            <==> Start(Index(steps, p)) !in steps && AllFinished(r, steps, p)
    ensures Enabled(After(Init(r), steps), Finish(Index(steps, p)))
            <==> Start(Index(steps, p)) in steps && Finish(Index(steps, p)) !in steps
  {
    hide After, Index, IsRun, Ready, AllFinished, Queued, IsPlace;
    QueueSize(r, steps);
    ReadyMeans(r, steps, p);
    PhaseMeans(r, steps, Index(steps, p));
  }

  /** What a step may be after the steps taken so far, without any queue. */
  ghost predicate MayFollow(r: Reading, front: seq<Step>, step: Step) {
    match step
    case Submit(cmds) => forall i :: 0 <= i < |cmds| && cmds[i].Hardware? ==> BarriersAllowed(cmds, i)
    case Start(x) =>
      && x < Queued(front) && Start(x) !in front
      && forall p {:trigger IsPlace(front, p)} :: IsPlace(front, p) && Index(front, p) == x ==> AllFinished(r, front, p)
    case Finish(x) => x < Queued(front) && Start(x) in front && Finish(x) !in front
  }

  lemma MayFollowMeans(r: Reading, front: seq<Step>, step: Step)
    requires IsRun(Init(r), front)
    ensures Enabled(After(Init(r), front), step) <==> MayFollow(r, front, step)
  {
    hide After, Index, IsRun, Ready, AllFinished, Queued, IsPlace, BarriersOk, BarriersAllowed;
    QueueSize(r, front);
    match step
    case Submit(cmds) => BarriersMean(cmds);
    case Start(x) =>
      if x < Queued(front) {
        PhaseMeans(r, front, x);
        var p := PlaceOf(front, x);
        forall q | IsPlace(front, q) && Index(front, q) == x
          ensures Ready(After(Init(r), front), x) <==> AllFinished(r, front, q)
        {
          ReadyMeans(r, front, q);
        }
      }
    case Finish(x) =>
      if x < Queued(front) {
        PhaseMeans(r, front, x);
      }
  }

  lemma {:induction false} RunSnoc(s: State, steps: seq<Step>, step: Step)
    requires |s.phase| == |s.jobs|
    ensures IsRun(s, steps + [step]) <==> IsRun(s, steps) && Enabled(After(s, steps), step)
    decreases |steps|
  {
    hide Enabled, Apply;
    if steps == [] {
      assert steps + [step] == [step] && [step][1..] == [];
    } else {
      RunSnoc(Apply(s, steps[0]), steps[1..], step);
      assert (steps + [step])[1..] == steps[1..] + [step];
    }
  }

  /** The runs of the device are exactly the sequences of submits, starts and finishes that the
      header's rules on the submitted commands allow. */
  lemma {:induction false} RunsExact(r: Reading, steps: seq<Step>)
    ensures IsRun(Init(r), steps) <==> forall n {:trigger steps[n]} :: 0 <= n < |steps| ==> MayFollow(r, steps[..n], steps[n])
    decreases |steps|
  {
    hide After, MayFollow, Enabled;
    if steps != [] {
      var last := |steps| - 1;
      var front := steps[..last];
      assert steps == front + [steps[last]];
      RunsExact(r, front);
      hide IsRun;
      RunSnoc(Init(r), front, steps[last]);
      if IsRun(Init(r), front) {
        MayFollowMeans(r, front, steps[last]);
      }
      FrontMayFollow(r, steps);
    }
  }

  lemma FrontMayFollow(r: Reading, steps: seq<Step>)
    requires steps != []
    ensures var front := steps[..|steps| - 1];
            (forall n {:trigger steps[n]} :: 0 <= n < |steps| ==> MayFollow(r, steps[..n], steps[n]))
            <==> (forall n {:trigger front[n]} :: 0 <= n < |front| ==> MayFollow(r, front[..n], front[n]))
                 && MayFollow(r, front, steps[|steps| - 1])
  {
    hide MayFollow;
    var last := |steps| - 1;
    var front := steps[..last];
    forall n | 0 <= n < last
      ensures front[..n] == steps[..n] && front[n] == steps[n]
    {
    }
    if forall n :: 0 <= n < |steps| ==> MayFollow(r, steps[..n], steps[n]) {
      assert MayFollow(r, steps[..last], steps[last]);
      forall n | 0 <= n < |front|
        ensures MayFollow(r, front[..n], front[n])
      {
        assert MayFollow(r, steps[..n], steps[n]);
      }
    }
    if (forall n :: 0 <= n < |front| ==> MayFollow(r, front[..n], front[n])) && MayFollow(r, front, steps[last]) {
      forall n | 0 <= n < |steps|
        ensures MayFollow(r, steps[..n], steps[n])
      {
        if n < last {
          assert MayFollow(r, front[..n], front[n]);
        }
      }
    }
  }

  /** A command is not started or finished before it is submitted. */
  lemma StepNeedsSubmit(r: Reading, steps: seq<Step>, n: nat, p: Place)
    requires IsRun(Init(r), steps) && IsPlace(steps, p) && n < |steps|
    requires steps[n] == Start(Index(steps, p)) || steps[n] == Finish(Index(steps, p))
    ensures p.step < n
  {
    hide After, IsRun, Index, Queued, Ready;
    RunSplits(Init(r), steps, n);
    QueueSize(r, steps[..n]);
    IndexBounds(steps, p, n);
  }

  lemma FinishedIn(r: Reading, steps: seq<Step>, p: Place, q: Place)
    requires IsPlace(steps, p) && IsPlace(steps, q) && AllFinished(r, steps, p) && WaitsFor(r, steps, p, q)
    ensures Finish(Index(steps, q)) in steps
  {
    hide WaitsFor, Index;
  }

  /** In every run, whenever command p starts, every command its barriers name was submitted
      before and has finished since. */
  lemma StartsAfterNamed(r: Reading, steps: seq<Step>, n: nat, p: Place, q: Place)
    requires IsRun(Init(r), steps) && IsPlace(steps, p) && IsPlace(steps, q) && WaitsFor(r, steps, p, q)
    requires n < |steps| && steps[n] == Start(Index(steps, p))
    ensures q.step <= p.step < n
    ensures exists m :: q.step < m < n && steps[m] == Finish(Index(steps, q))
  {
    hide After, IsRun, Enabled, Queued, Slot, Earlier;
    var front := steps[..n];
    RunSplits(Init(r), steps, n);
    StepNeedsSubmit(r, steps, n, p);
    assert front[..p.step] == steps[..p.step] && front[..q.step] == steps[..q.step];
    assert front[p.step] == steps[p.step] && front[q.step] == steps[q.step];
    assert Index(front, p) == Index(steps, p) && Index(front, q) == Index(steps, q);
    assert IsPlace(front, q) && WaitsFor(r, front, p, q);
    NextSteps(r, front, p);
    FinishedIn(r, front, p, q);
    var m :| 0 <= m < |front| && front[m] == Finish(Index(steps, q));
    StepNeedsSubmit(r, steps, m, q);
    assert steps[m] == Finish(Index(steps, q));
  }
}
